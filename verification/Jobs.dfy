/** The guardrail job queue: what enqueue, claim, complete and fail do to the stored jobs. */
module Jobs {
  import opened Common
  import Events

  datatype JobStatus = Waiting | Running | Completed | Failed

  datatype Job = Job(
    id: string, experimentID: string, windowFrom: Time, windowTo: Time, windowBucket: int, reason: string,
    status: JobStatus, attempts: nat, availableAt: Time, lockedAt: Option<Time>, lockedBy: string,
    lastError: string, createdAt: Time, updatedAt: Time)

  type Queue = map<string, Job>

  const MAX_ATTEMPTS := 5
  const DEFAULT_LIMIT := 10

  predicate Live(j: Job) {
    j.status == Waiting || j.status == Running
  }

  /** The same experiment, window and reason. */
  predicate Twins(a: Job, b: Job) {
    a.experimentID == b.experimentID && a.windowBucket == b.windowBucket && a.reason == b.reason
  }

  ghost predicate HasLiveTwin(q: Queue, job: Job) {
    exists id :: id in q && Live(q[id]) && Twins(q[id], job)
  }

  ghost function Enqueued(q: Queue, job: Job): Queue {
    if HasLiveTwin(q, job) then q else q[job.id := job]
  }

  predicate Eligible(j: Job, now: Time) {
    j.status == Waiting && j.availableAt <= now
  }

  ghost function EligibleIDs(q: Queue, now: Time): set<string> {
    set id | id in q && Eligible(q[id], now)
  }

  function Taken(j: Job, workerID: string, now: Time): Job {
    j.(status := Running, attempts := j.attempts + 1, lockedBy := workerID, lockedAt := Some(now), updatedAt := now)
  }

  /** The queue after the listed jobs have been taken, one by one. */
  function TakeAll(q: Queue, ids: seq<string>, workerID: string, now: Time): Queue {
    if ids == [] then q
    else
      var before := TakeAll(q, ids[..|ids| - 1], workerID, now);
      var id := ids[|ids| - 1];
      if id in before then before[id := Taken(before[id], workerID, now)] else before
  }

  function Copies(q: Queue, ids: seq<string>, workerID: string, now: Time): seq<Job>
    requires forall id :: id in ids ==> id in q
  {
    seq(|ids|, i requires 0 <= i < |ids| => Taken(q[ids[i]], workerID, now))
  }

  /** What one claim may pick: distinct eligible jobs, as many as there are up to the limit. */
  ghost predicate Pickable(q: Queue, ids: seq<string>, limit: int, now: Time) {
    && NoDuplicates(ids)
    && (forall id :: id in ids ==> id in q && Eligible(q[id], now))
    && |ids| == Min(if limit <= 0 then DEFAULT_LIMIT else limit, |EligibleIDs(q, now)|)
  }

  function Finished(j: Job, at: Time): Job {
    j.(status := Completed, updatedAt := at)
  }

  function Retried(j: Job, retryAt: Time, lastError: string, at: Time): Job {
    (if j.attempts >= MAX_ATTEMPTS then j.(status := Failed) else j.(status := Waiting, availableAt := retryAt))
      .(lastError := lastError, updatedAt := at)
  }

  /** The wait before a failed job may be claimed again. */
  function Delay(attempts: int): int {
    Max(Min(attempts, 5) * SECOND, SECOND)
  }

  /** The job an attributed event asks for. */
  function NewJob(id: string, experimentID: string, occurredAt: Time, reason: string, now: Time): Job {
    var bucketTime := Truncate(occurredAt, MINUTE);
    Job(id, experimentID, bucketTime, bucketTime + MINUTE, Events.WindowBucket(occurredAt), reason,
        Waiting, 0, now, None, "", "", now, now)
  }

  /** The bucket division is exact, and the window contains the event. */
  lemma BucketExact(id: string, experimentID: string, t: Time, reason: string, now: Time)
    ensures var job := NewJob(id, experimentID, t, reason, now);
      && job.windowFrom <= t < job.windowTo
      && Unix(job.windowFrom) == 60 * job.windowBucket
      && (forall u: Time :: Events.WindowBucket(u) == job.windowBucket <==> job.windowFrom <= u < job.windowTo)
  {
    BucketOf(t);
    forall u: Time ensures Events.WindowBucket(u) == Events.WindowBucket(t)
      <==> Truncate(t, MINUTE) <= u < Truncate(t, MINUTE) + MINUTE {
      BucketOf(u);
    }
  }

  const EPOCH_MINUTES: int := UNIX_EPOCH_SECONDS / 60

  lemma BucketOf(t: Time)
    ensures Truncate(t, MINUTE) == MINUTE * (t / MINUTE)
    ensures Events.WindowBucket(t) == t / MINUTE - EPOCH_MINUTES
    ensures Unix(Truncate(t, MINUTE)) == 60 * Events.WindowBucket(t)
    ensures MINUTE * (t / MINUTE) <= t < MINUTE * (t / MINUTE) + MINUTE
  {
    assert t == MINUTE * (t / MINUTE) + t % MINUTE;
    assert Truncate(t, MINUTE) == SECOND * (60 * (t / MINUTE));
    assert Truncate(t, MINUTE) / SECOND == 60 * (t / MINUTE);
    assert UNIX_EPOCH_SECONDS == 60 * EPOCH_MINUTES;
  }

  class JobQueue {
    var jobs: Queue

    constructor ()
      ensures jobs == map[]
    {
      jobs := map[];
    }

    method EnqueueGuardrailJob(job: Job)
      modifies this
      ensures jobs == Enqueued(old(jobs), job)
    {
      var rest := jobs.Keys;
      while rest != {}
        invariant rest <= jobs.Keys && jobs == old(jobs)
        invariant forall id :: id in jobs && id !in rest ==> !(Live(jobs[id]) && Twins(jobs[id], job))
        decreases |rest|
      {
        var id :| id in rest;
        var existing := jobs[id];
        if existing.experimentID == job.experimentID && existing.windowBucket == job.windowBucket
          && existing.reason == job.reason && (existing.status == Waiting || existing.status == Running) {
          assert Live(jobs[id]) && Twins(jobs[id], job);
          return;
        }
        rest := rest - {id};
      }
      jobs := jobs[job.id := job];
    }

    /** Walks the jobs in any order and takes eligible ones until the limit. */
    method ClaimGuardrailJobs(workerID: string, limit: int, now: Time)
      returns (out: seq<Job>, ghost ids: seq<string>)
      modifies this
      ensures Pickable(old(jobs), ids, limit, now)
      ensures out == Copies(old(jobs), ids, workerID, now)
      ensures jobs == TakeAll(old(jobs), ids, workerID, now)
    {
      var bound := if limit <= 0 then DEFAULT_LIMIT else limit;
      ghost var q := jobs;
      out, ids := [], [];
      var rest := jobs.Keys;
      while rest != {} && |out| < bound
        invariant ClaimProgress(q, ids, rest, now) && |ids| <= bound
        invariant out == Copies(q, ids, workerID, now)
        invariant jobs == TakeAll(q, ids, workerID, now)
        invariant forall id :: id in rest ==> id in jobs && jobs[id] == q[id]
        decreases |rest|
      {
        var id :| id in rest;
        var job := jobs[id];
        if job.status != Waiting || job.availableAt > now {
          ProgressSkips(q, ids, rest, now, id);
          rest := rest - {id};
          continue;
        }
        var taken := job.(status := Running, attempts := job.attempts + 1, lockedBy := workerID,
                          lockedAt := Some(now), updatedAt := now);
        ProgressTakes(q, ids, rest, now, id);
        assert (ids + [id])[..|ids|] == ids;
        jobs := jobs[id := taken];
        out := out + [taken];
        ids := ids + [id];
        rest := rest - {id};
      }
      ProgressEnds(q, ids, rest, limit, now);
    }

    method CompleteGuardrailJob(id: string, finishedAt: Time) returns (found: bool)
      modifies this
      ensures found <==> id in old(jobs)
      ensures jobs == if found then old(jobs)[id := Finished(old(jobs)[id], finishedAt)] else old(jobs)
    {
      if id !in jobs { return false; }
      var job := jobs[id];
      job := job.(status := Completed, updatedAt := finishedAt);
      jobs := jobs[id := job];
      return true;
    }

    method FailGuardrailJob(id: string, retryAt: Time, lastError: string, clock: Time) returns (found: bool)
      modifies this
      ensures found <==> id in old(jobs)
      ensures jobs == if found then old(jobs)[id := Retried(old(jobs)[id], retryAt, lastError, clock)] else old(jobs)
    {
      if id !in jobs { return false; }
      var job := jobs[id];
      if job.attempts >= 5 {
        job := job.(status := Failed);
      } else {
        job := job.(status := Waiting, availableAt := retryAt);
      }
      job := job.(lastError := lastError, updatedAt := clock);
      jobs := jobs[id := job];
      return true;
    }
  }

  /** The ids outside `rest` that are eligible have all been picked, once each. */
  ghost predicate ClaimProgress(q: Queue, ids: seq<string>, rest: set<string>, now: Time) {
    && rest <= q.Keys
    && Lists(ids, EligibleIDs(q, now) - rest)
  }

  lemma ProgressSkips(q: Queue, ids: seq<string>, rest: set<string>, now: Time, id: string)
    requires ClaimProgress(q, ids, rest, now) && id in rest && !Eligible(q[id], now)
    ensures ClaimProgress(q, ids, rest - {id}, now)
  {
    assert EligibleIDs(q, now) - (rest - {id}) == EligibleIDs(q, now) - rest;
  }

  lemma ProgressTakes(q: Queue, ids: seq<string>, rest: set<string>, now: Time, id: string)
    requires ClaimProgress(q, ids, rest, now) && id in rest && Eligible(q[id], now)
    ensures ClaimProgress(q, ids + [id], rest - {id}, now)
  {
    NoDuplicatesConcat(ids, [id]);
  }

  lemma ProgressEnds(q: Queue, ids: seq<string>, rest: set<string>, limit: int, now: Time)
    requires ClaimProgress(q, ids, rest, now)
    requires var bound := if limit <= 0 then DEFAULT_LIMIT else limit;
      |ids| <= bound && (rest == {} || |ids| == bound)
    ensures Pickable(q, ids, limit, now)
  {
    var all := EligibleIDs(q, now);
    ListsIsMultiset(ids, all - rest);
    if rest == {} {
      assert all - rest == all;
    } else {
      SubsetSize(all - rest, all);
    }
  }
}
