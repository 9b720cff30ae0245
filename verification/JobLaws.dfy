/** When a guardrail job gets its turn: what enqueuing leaves in the queue, which jobs a claim
    hands out, and how a failed job comes back. */
module JobLaws {
  import opened Common
  import opened Jobs
  import P = JobProtocol

  // ---- Enqueuing -----------------------------------------------------------

  /** A pending or running job of that experiment, minute and reason is stored under `id`. */
  predicate Covers(q: Queue, id: string, experimentID: string, bucket: int, reason: string) {
    && id in q && q[id].status in {Waiting, Running}
    && q[id].experimentID == experimentID && q[id].windowBucket == bucket && q[id].reason == reason
  }

  /** Enqueuing a pending job under a new id never fails to cover its identity, never loses or
      changes a stored job, and adds only the job, when none covered it before. */
  lemma EnqueueCovers(q: Queue, job: Job)
    requires job.status == Waiting && job.id !in q
    ensures var after := Enqueued(q, job);
      && (exists id :: Covers(after, id, job.experimentID, job.windowBucket, job.reason))
      && (forall id :: id in q ==> id in after && after[id] == q[id])
      && (forall id :: id in after && id !in q ==> id == job.id && after[id] == job)
      && (job.id in after <==> forall id :: !Covers(q, id, job.experimentID, job.windowBucket, job.reason))
  {
    var after := Enqueued(q, job);
    forall id ensures Covers(q, id, job.experimentID, job.windowBucket, job.reason)
      <==> id in q && Live(q[id]) && Twins(q[id], job) {
    }
    if HasLiveTwin(q, job) {
      var id :| id in q && Live(q[id]) && Twins(q[id], job);
      assert Covers(after, id, job.experimentID, job.windowBucket, job.reason);
    } else {
      assert Covers(after, job.id, job.experimentID, job.windowBucket, job.reason);
    }
  }

  /** A new job is pending, may be claimed at once, and is about the minute of its event. */
  lemma NewJobDue(id: string, experimentID: string, occurredAt: Time, reason: string, now: Time)
    ensures var job := NewJob(id, experimentID, occurredAt, reason, now);
      && job.id == id && job.experimentID == experimentID && job.reason == reason
      && job.attempts == 0 && Due(job, now)
      && job.windowFrom <= occurredAt < job.windowTo == job.windowFrom + 60_000_000_000
      && job.windowFrom % 60_000_000_000 == 0
      && job.windowFrom == (62_135_596_800 + 60 * job.windowBucket) * 1_000_000_000
  {
    BucketExact(id, experimentID, occurredAt, reason, now);
    BucketOf(occurredAt);
    assert MINUTE * (occurredAt / MINUTE) % MINUTE == 0 by {
      WholeMinutes(occurredAt / MINUTE);
    }
    assert Truncate(occurredAt, MINUTE) == SECOND * (60 * (occurredAt / MINUTE));
  }

  lemma WholeMinutes(n: int)
    ensures MINUTE * n % MINUTE == 0
  {
    var m := MINUTE * n;
    assert m == MINUTE * (m / MINUTE) + m % MINUTE;
    assert MINUTE * (n - m / MINUTE) == m % MINUTE;
  }

  // ---- Claiming ------------------------------------------------------------

  /** The job waits and its instant has come. */
  predicate Due(j: Job, now: Time) {
    j.status == Waiting && j.availableAt <= now
  }

  ghost function DueIDs(q: Queue, now: Time): set<string> {
    set id | id in q && Due(q[id], now)
  }

  /** Locked by the worker, once more attempted, otherwise as before. */
  predicate Grabbed(before: Job, after: Job, workerID: string, now: Time) {
    && after.status == Running && after.lockedBy == workerID && after.lockedAt == Some(now)
    && after.attempts == before.attempts + 1
    && after == before.(status := Running, lockedBy := workerID, lockedAt := Some(now),
                        attempts := before.attempts + 1, updatedAt := now)
  }

  lemma {:induction false} TakenExactly(q: Queue, ids: seq<string>, workerID: string, now: Time)
    requires NoDuplicates(ids) && forall id :: id in ids ==> id in q
    ensures var after := TakeAll(q, ids, workerID, now);
      && after.Keys == q.Keys
      && forall id :: id in q ==>
        if id in ids then Grabbed(q[id], after[id], workerID, now) else after[id] == q[id]
  {
    if ids != [] {
      var n := |ids| - 1;
      assert ids == ids[..n] + [ids[n]];
      assert forall i :: 0 <= i < n ==> ids[..n][i] == ids[i];
      TakenExactly(q, ids[..n], workerID, now);
      assert ids[n] !in ids[..n];
    }
  }

  /** A claim locks due jobs only, and leaves no due job behind unless it reached its limit, which
      is ten when none is given; nothing else changes. */
  lemma ClaimExactly(q: Queue, ids: seq<string>, workerID: string, limit: int, now: Time)
    requires Pickable(q, ids, limit, now)
    ensures var after, bound := TakeAll(q, ids, workerID, now), if limit >= 1 then limit else 10;
      && after.Keys == q.Keys
      && (forall id :: id in q ==>
            after[id] == q[id] || (Due(q[id], now) && Grabbed(q[id], after[id], workerID, now)))
      && ((forall id :: id in q ==> !Due(after[id], now)) || |ids| == bound)
      && |ids| <= bound && |DueIDs(after, now)| == |DueIDs(q, now)| - |ids|
  {
    var after := TakeAll(q, ids, workerID, now);
    TakenExactly(q, ids, workerID, now);
    var members := set id | id in ids;
    ListsIsMultiset(ids, members);
    assert DueIDs(q, now) == EligibleIDs(q, now);
    DueAfter(q, ids, after, workerID, now, members);
    if |ids| == |DueIDs(q, now)| {
      NoneDue(after, now);
    }
  }

  lemma NoneDue(q: Queue, now: Time)
    requires |DueIDs(q, now)| == 0
    ensures forall id :: id in q ==> !Due(q[id], now)
  {
    assert DueIDs(q, now) == {};
    forall id | id in q ensures !Due(q[id], now) {
      assert id !in DueIDs(q, now);
    }
  }

  lemma DueAfter(q: Queue, ids: seq<string>, after: Queue, workerID: string, now: Time, members: set<string>)
    requires members == (set id | id in ids) && forall id :: id in ids ==> id in q && Due(q[id], now)
    requires after.Keys == q.Keys
    requires forall id :: id in q ==>
      if id in ids then Grabbed(q[id], after[id], workerID, now) else after[id] == q[id]
    ensures |DueIDs(after, now)| == |DueIDs(q, now)| - |members|
  {
    var due, left := DueIDs(q, now), DueIDs(after, now);
    assert due == left + members;
    assert left !! members;
    assert |left + members| == |left| + |members|;
  }

  /** When no more jobs are due than the limit allows, a claim hands out every one of them. */
  lemma DueIsClaimed(q: Queue, ids: seq<string>, workerID: string, limit: int, now: Time, id: string)
    requires Pickable(q, ids, limit, now) && id in q && Due(q[id], now)
    requires |DueIDs(q, now)| <= if limit >= 1 then limit else 10
    ensures var after := TakeAll(q, ids, workerID, now);
      id in ids && id in after && Grabbed(q[id], after[id], workerID, now)
  {
    assert DueIDs(q, now) == EligibleIDs(q, now);
    ClaimExactly(q, ids, workerID, limit, now);
    NoneDue(TakeAll(q, ids, workerID, now), now);
    TakenExactly(q, ids, workerID, now);
  }

  // ---- Finishing -----------------------------------------------------------

  /** A job handed back after fewer than five attempts is due again from its retry instant on, and
      not before; after the fifth it has failed for good; a completed one is never due. */
  lemma HandedBack(j: Job, retryAt: Time, lastError: string, at: Time, now: Time)
    ensures var r := Retried(j, retryAt, lastError, at);
      && r == j.(status := r.status, availableAt := r.availableAt, lastError := lastError, updatedAt := at)
      && (j.attempts < 5 ==> (Due(r, now) <==> retryAt <= now))
      && (j.attempts >= 5 ==> r.status == Failed && !Due(r, now))
    ensures Finished(j, at).status == Completed && !Due(Finished(j, at), now)
    ensures Finished(j, at) == j.(status := Completed, updatedAt := at)
  {
  }

  /** The wait before the retry: a second per attempt, at least one and at most five. */
  lemma WaitExactly(attempts: int)
    ensures Delay(attempts) == 1_000_000_000 * (if attempts < 1 then 1 else if attempts > 5 then 5 else attempts)
  {
  }

  // ---- The protocol --------------------------------------------------------

  /** In every reachable system a job of a live identity is never forgotten: enqueuing it leaves a
      pending or running one, and when that is due, any worker may claim it next. */
  lemma EnqueuedIsClaimable(ops: seq<P.Op>, s: P.System, job: Job, workerID: string, now: Time)
    returns (id: string, ids: seq<string>)
    requires P.Run(ops, s) && P.Enabled(s, P.Enqueue(job))
    ensures var after := P.Apply(s, P.Enqueue(job));
      && Covers(after.jobs, id, job.experimentID, job.windowBucket, job.reason)
      && (Due(after.jobs[id], now) ==>
            var claim := P.Claim(workerID, |ids|, now, ids);
            && P.Enabled(after, claim) && id in P.Apply(after, claim).jobs
            && Grabbed(after.jobs[id], P.Apply(after, claim).jobs[id], workerID, now))
  {
    var after := P.Apply(s, P.Enqueue(job));
    EnqueueCovers(s.jobs, job);
    id :| Covers(after.jobs, id, job.experimentID, job.windowBucket, job.reason);
    ids := ListingExists(DueIDs(after.jobs, now));
    hide P.Run, P.Safe, Enqueued;
    if Due(after.jobs[id], now) {
      ClaimAll(after, ids, workerID, now, id);
    }
  }

  lemma ClaimAll(s: P.System, ids: seq<string>, workerID: string, now: Time, id: string)
    requires Lists(ids, DueIDs(s.jobs, now)) && id in s.jobs && Due(s.jobs[id], now)
    ensures var claim := P.Claim(workerID, |ids|, now, ids);
      && P.Enabled(s, claim) && id in P.Apply(s, claim).jobs
      && Grabbed(s.jobs[id], P.Apply(s, claim).jobs[id], workerID, now)
  {
    assert DueIDs(s.jobs, now) == EligibleIDs(s.jobs, now);
    ListsIsMultiset(ids, DueIDs(s.jobs, now));
    assert id in ids;
    assert |ids| > 0;
    P.TakeEachIsTakeAll(s, workerID, ids, now);
    TakenExactly(s.jobs, ids, workerID, now);
  }
}
