/** Any number of workers and enqueuers over one job queue. The steps are the queue's atomic
    operations; a worker finishes only jobs that it claimed and has not yet finished. */
module JobProtocol {
  import opened Common
  import opened Jobs

  datatype ClaimRecord = ClaimRecord(jobID: string, workerID: string, at: Time)

  /** The stored jobs, each worker's list of claimed jobs in hand, and two observations of the
      run: every claim so far, and how many jobs were handed back. */
  datatype System = System(
    jobs: Queue, inHand: map<string, seq<Job>>, claims: seq<ClaimRecord>, finishes: nat)

  const IDLE: System := System(map[], map[], [], 0)

  datatype Op =
    | Enqueue(job: Job)
    | Claim(workerID: string, limit: int, now: Time, ids: seq<string>)
    | Complete(finisher: string, slot: nat, at: Time)
    | Fail(failer: string, failed: nat, retryAt: Time, lastError: string, clock: Time)

  function Hand(s: System, workerID: string): seq<Job> {
    if workerID in s.inHand then s.inHand[workerID] else []
  }

  ghost predicate Enabled(s: System, op: Op) {
    match op
    case Enqueue(job) => job.id !in s.jobs && job.status == Waiting && job.attempts == 0
    case Claim(_, limit, now, ids) => Pickable(s.jobs, ids, limit, now)
    case Complete(w, i, _) => i < |Hand(s, w)|
    case Fail(w, i, _, _, _) => i < |Hand(s, w)|
  }

  function Take(s: System, workerID: string, id: string, now: Time): System
    requires id in s.jobs
  {
    var copy := Taken(s.jobs[id], workerID, now);
    s.(jobs := s.jobs[id := copy],
       inHand := s.inHand[workerID := Hand(s, workerID) + [copy]],
       claims := s.claims + [ClaimRecord(id, workerID, now)])
  }

  function TakeEach(s: System, workerID: string, ids: seq<string>, now: Time): (r: System)
    requires forall id :: id in ids ==> id in s.jobs
    ensures r.jobs.Keys == s.jobs.Keys
  {
    if ids == [] then s
    else Take(TakeEach(s, workerID, ids[..|ids| - 1], now), workerID, ids[|ids| - 1], now)
  }

  /** The worker lets go of the copy in slot i, and the queue becomes `jobs`. */
  function Release(s: System, workerID: string, i: nat, jobs: Queue): System
    requires i < |Hand(s, workerID)|
  {
    var hand := Hand(s, workerID);
    s.(jobs := jobs,
       inHand := s.inHand[workerID := hand[..i] + hand[i + 1..]],
       finishes := s.finishes + 1)
  }

  /** Complete and fail look the job up by its id; an unknown id is an error that stores nothing. */
  ghost function Apply(s: System, op: Op): System
    requires Enabled(s, op)
  {
    match op
    case Enqueue(job) => s.(jobs := Enqueued(s.jobs, job))
    case Claim(w, _, now, ids) => TakeEach(s, w, ids, now)
    case Complete(w, i, at) =>
      var id := Hand(s, w)[i].id;
      Release(s, w, i, if id in s.jobs then s.jobs[id := Finished(s.jobs[id], at)] else s.jobs)
    case Fail(w, i, retryAt, lastError, clock) =>
      var id := Hand(s, w)[i].id;
      Release(s, w, i, if id in s.jobs then s.jobs[id := Retried(s.jobs[id], retryAt, lastError, clock)] else s.jobs)
  }

  // ---- Safety --------------------------------------------------------------

  ghost predicate NoLiveTwins(q: Queue) {
    forall a, b :: a in q && b in q && a != b && Live(q[a]) && Live(q[b]) ==> !Twins(q[a], q[b])
  }

  /** A job in hand is running, and its copy is the stored job. */
  ghost predicate HandsTrue(s: System) {
    forall w, i :: 0 <= i < |Hand(s, w)| ==>
      var f := Hand(s, w)[i];
      f.id in s.jobs && s.jobs[f.id] == f && f.status == Running && f.lockedBy == w
  }

  ghost predicate HandsDistinct(s: System) {
    forall w, i, j :: 0 <= i < j < |Hand(s, w)| ==> Hand(s, w)[i].id != Hand(s, w)[j].id
  }

  ghost predicate InHand(s: System, workerID: string, id: string) {
    exists i :: 0 <= i < |Hand(s, workerID)| && Hand(s, workerID)[i].id == id
  }

  ghost predicate RunningHeld(s: System) {
    forall id :: id in s.jobs && s.jobs[id].status == Running ==> InHand(s, s.jobs[id].lockedBy, id)
  }

  predicate AttemptsBounded(j: Job) {
    match j.status
    case Waiting => j.attempts <= 4
    case Running => 1 <= j.attempts <= 5
    case Completed => 1 <= j.attempts <= 5
    case Failed => j.attempts == 5
  }

  ghost predicate Keyed(q: Queue) {
    forall id :: id in q ==> q[id].id == id
  }

  ghost predicate AllBounded(q: Queue) {
    forall id :: id in q ==> AttemptsBounded(q[id])
  }

  ghost predicate Safe(s: System) {
    && Keyed(s.jobs) && NoLiveTwins(s.jobs) && AllBounded(s.jobs)
    && HandsTrue(s) && HandsDistinct(s) && RunningHeld(s)
  }

  lemma EnqueueSafe(s: System, job: Job)
    requires Safe(s) && Enabled(s, Enqueue(job))
    ensures Safe(s.(jobs := Enqueued(s.jobs, job)))
  {
    if !HasLiveTwin(s.jobs, job) {
      var after := s.(jobs := s.jobs[job.id := job]);
      NewLive(s.jobs, job);
      hide NoLiveTwins;
      assert forall w :: Hand(after, w) == Hand(s, w);
      forall id | id in after.jobs && after.jobs[id].status == Running
        ensures InHand(after, after.jobs[id].lockedBy, id) {
        assert InHand(s, s.jobs[id].lockedBy, id);
      }
    }
  }

  lemma NewLive(q: Queue, job: Job)
    requires NoLiveTwins(q) && job.id !in q && !HasLiveTwin(q, job)
    ensures NoLiveTwins(q[job.id := job])
  {
  }

  lemma TakeSafe(s: System, workerID: string, id: string, now: Time)
    requires Safe(s) && id in s.jobs && s.jobs[id].status == Waiting
    ensures Safe(Take(s, workerID, id, now))
  {
    var copy := Taken(s.jobs[id], workerID, now);
    assert Keyed(s.jobs[id := copy]) && AllBounded(s.jobs[id := copy]);
    ReplaceLive(s.jobs, id, copy);
    TakeHands(s, workerID, id, now);
    TakeHolds(s, workerID, id, now);
  }

  /** A live job stays without a live twin when its record changes but what it is about does not. */
  lemma ReplaceLive(q: Queue, id: string, job: Job)
    requires NoLiveTwins(q) && id in q && Live(q[id]) && Twins(q[id], job)
    ensures NoLiveTwins(q[id := job])
  {
    var after := q[id := job];
    forall a, b | a in after && b in after && a != b && Live(after[a]) && Live(after[b])
      ensures !Twins(after[a], after[b]) {
      assert !Twins(q[a], q[b]);
    }
  }

  lemma TakeHands(s: System, workerID: string, id: string, now: Time)
    requires HandsTrue(s) && HandsDistinct(s) && Keyed(s.jobs) && id in s.jobs && s.jobs[id].status == Waiting
    ensures HandsTrue(Take(s, workerID, id, now)) && HandsDistinct(Take(s, workerID, id, now))
  {
    var after := Take(s, workerID, id, now);
    var copy := after.jobs[id];
    forall w, i | 0 <= i < |Hand(after, w)|
      ensures i < |Hand(s, w)| ==> Hand(after, w)[i] == Hand(s, w)[i] && Hand(s, w)[i].id != id
      ensures i >= |Hand(s, w)| ==> w == workerID && i == |Hand(s, w)| && Hand(after, w)[i] == copy {
    }
  }

  lemma TakeHolds(s: System, workerID: string, id: string, now: Time)
    requires Safe(s) && id in s.jobs && s.jobs[id].status == Waiting
    ensures RunningHeld(Take(s, workerID, id, now))
  {
    var after := Take(s, workerID, id, now);
    var copy := after.jobs[id];
    assert Hand(after, workerID)[|Hand(s, workerID)|] == copy;
    forall k | k in after.jobs && after.jobs[k].status == Running ensures InHand(after, after.jobs[k].lockedBy, k) {
      if k != id {
        var w := s.jobs[k].lockedBy;
        assert InHand(s, w, k);
        var i :| 0 <= i < |Hand(s, w)| && Hand(s, w)[i].id == k;
        assert Hand(after, w)[i].id == k;
      }
    }
  }

  /** Taking distinct waiting jobs one after the other. */
  lemma {:induction false} TakeEachSafe(s: System, workerID: string, ids: seq<string>, now: Time)
    requires Safe(s) && NoDuplicates(ids)
    requires forall id :: id in ids ==> id in s.jobs && s.jobs[id].status == Waiting
    ensures Safe(TakeEach(s, workerID, ids, now))
    ensures forall id :: id in s.jobs && id !in ids ==> TakeEach(s, workerID, ids, now).jobs[id] == s.jobs[id]
  {
    if ids != [] {
      var n := |ids| - 1;
      assert ids == ids[..n] + [ids[n]];
      TakeEachSafe(s, workerID, ids[..n], now);
      TakeSafe(TakeEach(s, workerID, ids[..n], now), workerID, ids[n], now);
    }
  }

  lemma ReleaseSafe(s: System, workerID: string, i: nat, job: Job)
    requires Safe(s) && i < |Hand(s, workerID)|
    requires job.id == Hand(s, workerID)[i].id && job.status != Running && AttemptsBounded(job)
    requires Twins(job, Hand(s, workerID)[i])
    ensures Safe(Release(s, workerID, i, s.jobs[job.id := job]))
  {
    var after := Release(s, workerID, i, s.jobs[job.id := job]);
    var hand := Hand(s, workerID);
    forall w ensures Hand(after, w) == if w == workerID then hand[..i] + hand[i + 1..] else Hand(s, w) {
    }
    ReleaseHands(s, workerID, i, job);
    ReleaseHolds(s, workerID, i, job);
    assert NoLiveTwins(after.jobs);
  }

  lemma ReleaseHands(s: System, workerID: string, i: nat, job: Job)
    requires Safe(s) && i < |Hand(s, workerID)| && job.id == Hand(s, workerID)[i].id
    ensures HandsTrue(Release(s, workerID, i, s.jobs[job.id := job]))
    ensures HandsDistinct(Release(s, workerID, i, s.jobs[job.id := job]))
  {
    var after := Release(s, workerID, i, s.jobs[job.id := job]);
    var hand := Hand(s, workerID);
    var left := hand[..i] + hand[i + 1..];
    assert forall k :: 0 <= k < |left| ==> left[k] == hand[if k < i then k else k + 1];
    forall w, k | 0 <= k < |Hand(after, w)|
      ensures Hand(after, w)[k].id != job.id
      ensures exists m :: 0 <= m < |Hand(s, w)| && Hand(s, w)[m] == Hand(after, w)[k] {
      if w == workerID {
        assert Hand(after, w)[k] == hand[if k < i then k else k + 1];
      } else {
        assert Hand(after, w)[k] == Hand(s, w)[k];
      }
    }
    forall w, a, b | 0 <= a < b < |Hand(after, w)| ensures Hand(after, w)[a].id != Hand(after, w)[b].id {
      if w == workerID {
        var x, y := if a < i then a else a + 1, if b < i then b else b + 1;
        assert hand[x].id != hand[y].id;
      }
    }
  }

  lemma ReleaseHolds(s: System, workerID: string, i: nat, job: Job)
    requires Safe(s) && i < |Hand(s, workerID)|
    requires job.id == Hand(s, workerID)[i].id && job.status != Running
    ensures RunningHeld(Release(s, workerID, i, s.jobs[job.id := job]))
  {
    var after := Release(s, workerID, i, s.jobs[job.id := job]);
    var hand := Hand(s, workerID);
    forall k | k in after.jobs && after.jobs[k].status == Running ensures InHand(after, after.jobs[k].lockedBy, k) {
      var w := s.jobs[k].lockedBy;
      assert InHand(s, w, k);
      var m :| 0 <= m < |Hand(s, w)| && Hand(s, w)[m].id == k;
      if w == workerID {
        var left := hand[..i] + hand[i + 1..];
        assert m != i;
        assert left[if m < i then m else m - 1] == hand[m];
        assert Hand(after, w)[if m < i then m else m - 1].id == k;
      } else {
        assert Hand(after, w)[m].id == k;
      }
    }
  }

  lemma ApplySafe(s: System, op: Op)
    requires Safe(s) && Enabled(s, op)
    ensures Safe(Apply(s, op))
  {
    match op
    case Enqueue(job) => EnqueueSafe(s, job);
    case Claim(w, _, now, ids) => TakeEachSafe(s, w, ids, now);
    case Complete(w, i, at) =>
      var f := Hand(s, w)[i];
      assert f.id in s.jobs && s.jobs[f.id] == f;
      ReleaseSafe(s, w, i, Finished(f, at));
    case Fail(w, i, retryAt, lastError, clock) =>
      var f := Hand(s, w)[i];
      assert f.id in s.jobs && s.jobs[f.id] == f;
      assert AttemptsBounded(f);
      ReleaseSafe(s, w, i, Retried(f, retryAt, lastError, clock));
  }

  // ---- Runs ----------------------------------------------------------------

  ghost predicate Run(ops: seq<Op>, s: System) {
    if ops == [] then s == IDLE
    else
      var n := |ops| - 1;
      exists before :: Run(ops[..n], before) && Step(before, ops[n], s)
  }

  ghost predicate Step(before: System, op: Op, after: System) {
    Enabled(before, op) && after == Apply(before, op)
  }

  /** Every reachable system is safe. */
  lemma {:induction false} RunSafe(ops: seq<Op>, s: System)
    requires Run(ops, s)
    ensures Safe(s)
  {
    if ops != [] {
      var n := |ops| - 1;
      var before :| Run(ops[..n], before) && Step(before, ops[n], s);
      RunSafe(ops[..n], before);
      ApplySafe(before, ops[n]);
    }
  }

  /** No two pending or running jobs share experiment, bucket and reason. */
  lemma NoTwoLiveJobsAlike(ops: seq<Op>, s: System, a: string, b: string)
    requires Run(ops, s) && a in s.jobs && b in s.jobs && a != b && Live(s.jobs[a]) && Live(s.jobs[b])
    ensures !Twins(s.jobs[a], s.jobs[b])
  {
    RunSafe(ops, s);
  }

  /** A running job is in exactly one worker's hand, exactly once; a job that is not running is
      in nobody's. */
  lemma ExactlyOneHolder(ops: seq<Op>, s: System, id: string)
    requires Run(ops, s) && id in s.jobs
    ensures s.jobs[id].status == Running <==> (exists w :: InHand(s, w, id))
    ensures forall v, w :: InHand(s, v, id) && InHand(s, w, id) ==> v == w
    ensures forall w, i, j :: 0 <= i < j < |Hand(s, w)| ==> !(Hand(s, w)[i].id == id && Hand(s, w)[j].id == id)
  {
    RunSafe(ops, s);
  }

  // ---- Termination ---------------------------------------------------------

  /** Claim and finish steps a job can still take part in. */
  function Left(j: Job): nat
    requires AttemptsBounded(j)
  {
    match j.status
    case Waiting => 2 * (5 - j.attempts)
    case Running => 2 * (5 - j.attempts) + 1
    case _ => 0
  }

  ghost function Energy(q: Queue): nat
    requires AllBounded(q)
    decreases |q|
  {
    if q == map[] then 0
    else
      var id :| id in q;
      Left(q[id]) + Energy(q - {id})
  }

  lemma {:induction false} EnergySplit(q: Queue, id: string)
    requires AllBounded(q) && id in q
    ensures AllBounded(q - {id}) && Energy(q) == Left(q[id]) + Energy(q - {id})
    decreases |q|
  {
    var k :| k in q && Energy(q) == Left(q[k]) + Energy(q - {k});
    if k != id {
      EnergySplit(q - {k}, id);
      EnergySplit(q - {id}, k);
      assert q - {k} - {id} == q - {id} - {k};
    }
  }

  lemma EnergyUpdate(q: Queue, id: string, job: Job)
    requires AllBounded(q) && AttemptsBounded(job)
    ensures AllBounded(q[id := job])
    ensures Energy(q[id := job]) + (if id in q then Left(q[id]) else 0) == Energy(q) + Left(job)
  {
    var after := q[id := job];
    EnergySplit(after, id);
    if id in q {
      EnergySplit(q, id);
      assert after - {id} == q - {id};
    } else {
      assert after - {id} == q;
    }
  }

  lemma TakeEnergy(s: System, workerID: string, id: string, now: Time)
    requires AllBounded(s.jobs) && id in s.jobs && s.jobs[id].status == Waiting
    ensures var after := Take(s, workerID, id, now);
      && after.finishes == s.finishes && AllBounded(after.jobs)
      && |after.claims| + Energy(after.jobs) == |s.claims| + Energy(s.jobs)
  {
    EnergyUpdate(s.jobs, id, Taken(s.jobs[id], workerID, now));
  }

  lemma {:induction false} TakeEachEnergy(s: System, workerID: string, ids: seq<string>, now: Time)
    requires AllBounded(s.jobs) && NoDuplicates(ids)
    requires forall id :: id in ids ==> id in s.jobs && s.jobs[id].status == Waiting
    ensures var after := TakeEach(s, workerID, ids, now);
      && after.finishes == s.finishes && AllBounded(after.jobs)
      && |after.claims| + Energy(after.jobs) == |s.claims| + Energy(s.jobs)
  {
    if ids != [] {
      var n := |ids| - 1;
      var init := ids[..n];
      TakeEachEnergy(s, workerID, init, now);
      assert ids[n] !in init;
      TakeEachLeaves(s, workerID, init, now, ids[n]);
      TakeEnergy(TakeEach(s, workerID, init, now), workerID, ids[n], now);
    }
  }

  ghost function Work(s: System): nat
    requires AllBounded(s.jobs)
  {
    |s.claims| + s.finishes + Energy(s.jobs)
  }

  lemma StepWork(s: System, op: Op)
    requires Safe(s) && Enabled(s, op)
    ensures Safe(Apply(s, op))
    ensures Work(Apply(s, op)) <= Work(s) + 10 * (|Apply(s, op).jobs| - |s.jobs|)
  {
    ApplySafe(s, op);
    match op
    case Enqueue(job) =>
      if !HasLiveTwin(s.jobs, job) {
        EnergyUpdate(s.jobs, job.id, job);
      }
    case Claim(w, _, now, ids) =>
      TakeEachEnergy(s, w, ids, now);
      assert |TakeEach(s, w, ids, now).jobs.Keys| == |s.jobs.Keys|;
    case Complete(w, i, at) =>
      var f := Hand(s, w)[i];
      assert f.id in s.jobs && s.jobs[f.id] == f && AttemptsBounded(f);
      EnergyUpdate(s.jobs, f.id, Finished(f, at));
      assert s.jobs[f.id := Finished(f, at)].Keys == s.jobs.Keys;
    case Fail(w, i, retryAt, lastError, clock) =>
      var f := Hand(s, w)[i];
      assert f.id in s.jobs && s.jobs[f.id] == f && AttemptsBounded(f);
      EnergyUpdate(s.jobs, f.id, Retried(f, retryAt, lastError, clock));
      assert s.jobs[f.id := Retried(f, retryAt, lastError, clock)].Keys == s.jobs.Keys;
  }

  /** Jobs terminate: however claims, completions and failures interleave, a run performs at
      most ten claim or finish steps per stored job, and attempts stay within bounds. */
  lemma {:induction false} JobsTerminate(ops: seq<Op>, s: System)
    requires Run(ops, s)
    ensures Safe(s) && Work(s) <= 10 * |s.jobs|
    ensures |s.claims| + s.finishes <= 10 * |s.jobs|
    ensures forall id :: id in s.jobs ==> AttemptsBounded(s.jobs[id])
  {
    RunSafe(ops, s);
    if ops != [] {
      var n := |ops| - 1;
      var before :| Run(ops[..n], before) && Step(before, ops[n], s);
      JobsTerminate(ops[..n], before);
      StepWork(before, ops[n]);
    }
  }

  // ---- Spacing of retries --------------------------------------------------

  function ClaimTimes(claims: seq<ClaimRecord>, id: string): seq<Time> {
    if claims == [] then []
    else
      var c := claims[|claims| - 1];
      ClaimTimes(claims[..|claims| - 1], id) + (if c.jobID == id then [c.at] else [])
  }

  /** The k-th and (k+1)-th of the instants are at least k seconds apart. */
  ghost predicate BackedOff(ts: seq<Time>) {
    forall k :: 0 < k < |ts| ==> ts[k] >= ts[k - 1] + k * SECOND
  }

  ghost predicate JobSpaced(j: Job, ts: seq<Time>) {
    && |ts| == j.attempts && BackedOff(ts)
    && (j.status == Running ==> ts != [] && j.lockedAt == Some(ts[|ts| - 1]))
    && (j.status == Waiting && ts != [] ==> j.availableAt >= ts[|ts| - 1] + j.attempts * SECOND)
  }

  ghost predicate Spaced(s: System) {
    && (forall id :: id in s.jobs ==> JobSpaced(s.jobs[id], ClaimTimes(s.claims, id)))
    && (forall id :: id !in s.jobs ==> ClaimTimes(s.claims, id) == [])
  }

  /** Failures are reported the way `ProcessGuardrailJobs` does: retry after the claim's own
      instant plus the delay for the attempts made. */
  ghost predicate Disciplined(s: System, op: Op)
    requires Enabled(s, op)
  {
    op.Fail? ==>
      var f := Hand(s, op.failer)[op.failed];
      f.lockedAt.Some? && op.retryAt == f.lockedAt.value + Delay(f.attempts)
  }

  lemma ClaimTimesExtend(claims: seq<ClaimRecord>, c: ClaimRecord, id: string)
    ensures ClaimTimes(claims + [c], id) == ClaimTimes(claims, id) + (if c.jobID == id then [c.at] else [])
  {
    assert (claims + [c])[..|claims|] == claims;
  }

  lemma TakenSpaced(job: Job, ts: seq<Time>, workerID: string, now: Time)
    requires JobSpaced(job, ts) && job.status == Waiting && job.availableAt <= now
    ensures JobSpaced(Taken(job, workerID, now), ts + [now])
  {
    var longer := ts + [now];
    forall k | 0 < k < |longer| ensures longer[k] >= longer[k - 1] + k * SECOND {
      if k < |ts| {
        assert ts[k] >= ts[k - 1] + k * SECOND;
      }
    }
  }

  lemma TakeSpaced(s: System, workerID: string, id: string, now: Time)
    requires Spaced(s) && id in s.jobs && s.jobs[id].status == Waiting && s.jobs[id].availableAt <= now
    ensures Spaced(Take(s, workerID, id, now))
  {
    var after := Take(s, workerID, id, now);
    TakenSpaced(s.jobs[id], ClaimTimes(s.claims, id), workerID, now);
    forall k ensures ClaimTimes(after.claims, k)
      == if k == id then ClaimTimes(s.claims, id) + [now] else ClaimTimes(s.claims, k) {
      ClaimTimesExtend(s.claims, ClaimRecord(id, workerID, now), k);
      assert ClaimTimes(s.claims, k) + [] == ClaimTimes(s.claims, k);
    }
  }

  lemma {:induction false} TakeEachSpaced(s: System, workerID: string, ids: seq<string>, now: Time)
    requires Spaced(s) && NoDuplicates(ids)
    requires forall id :: id in ids ==> id in s.jobs && Eligible(s.jobs[id], now)
    ensures Spaced(TakeEach(s, workerID, ids, now))
  {
    hide Spaced;
    if ids != [] {
      var n := |ids| - 1;
      var init := ids[..n];
      TakeEachSpaced(s, workerID, init, now);
      assert ids[n] !in init;
      TakeEachLeaves(s, workerID, init, now, ids[n]);
      TakeSpaced(TakeEach(s, workerID, init, now), workerID, ids[n], now);
    }
  }

  lemma ReleaseSpaced(s: System, workerID: string, i: nat, job: Job)
    requires Safe(s) && Spaced(s) && i < |Hand(s, workerID)|
    requires job.id == Hand(s, workerID)[i].id && job.attempts == Hand(s, workerID)[i].attempts
    requires job.status != Running
    requires job.status == Waiting ==>
      var f := Hand(s, workerID)[i];
      f.lockedAt.Some? && job.availableAt >= f.lockedAt.value + f.attempts * SECOND
    ensures Spaced(Release(s, workerID, i, s.jobs[job.id := job]))
  {
    var f := Hand(s, workerID)[i];
    assert f.id in s.jobs && s.jobs[f.id] == f && f.status == Running;
    ReplaceSpaced(s, Release(s, workerID, i, s.jobs[job.id := job]), f, job);
  }

  lemma ReplaceSpaced(s: System, after: System, f: Job, job: Job)
    requires Spaced(s) && f.id in s.jobs && s.jobs[f.id] == f && f.status == Running
    requires after.jobs == s.jobs[f.id := job] && after.claims == s.claims
    requires job.attempts == f.attempts && job.status != Running
    requires job.status == Waiting ==>
      f.lockedAt.Some? && job.availableAt >= f.lockedAt.value + f.attempts * SECOND
    ensures Spaced(after)
  {
    hide ClaimTimes, BackedOff;
    assert JobSpaced(f, ClaimTimes(s.claims, f.id));
    assert JobSpaced(job, ClaimTimes(s.claims, f.id));
  }

  lemma StepSpaced(s: System, op: Op)
    requires Safe(s) && Spaced(s) && Enabled(s, op) && Disciplined(s, op)
    ensures Spaced(Apply(s, op))
  {
    match op
    case Enqueue(job) =>
    case Claim(w, _, now, ids) => TakeEachSpaced(s, w, ids, now);
    case Complete(w, i, at) =>
      var f := Hand(s, w)[i];
      assert f.id in s.jobs && s.jobs[f.id] == f;
      ReleaseSpaced(s, w, i, Finished(f, at));
    case Fail(w, i, retryAt, lastError, clock) =>
      var f := Hand(s, w)[i];
      assert f.id in s.jobs && s.jobs[f.id] == f && AttemptsBounded(f);
      ReleaseSpaced(s, w, i, Retried(f, retryAt, lastError, clock));
  }

  /** A run in which every failure is disciplined. */
  ghost predicate DisciplinedRun(ops: seq<Op>, s: System) {
    if ops == [] then s == IDLE
    else
      var n := |ops| - 1;
      exists before :: DisciplinedRun(ops[..n], before) && Step(before, ops[n], s) && Disciplined(before, ops[n])
  }

  lemma {:induction false} DisciplinedRunSpaced(ops: seq<Op>, s: System)
    requires DisciplinedRun(ops, s)
    ensures Safe(s) && Spaced(s) && Run(ops, s)
  {
    if ops != [] {
      var n := |ops| - 1;
      var before :| DisciplinedRun(ops[..n], before) && Step(before, ops[n], s) && Disciplined(before, ops[n]);
      DisciplinedRunSpaced(ops[..n], before);
      ApplySafe(before, ops[n]);
      StepSpaced(before, ops[n]);
    }
  }

  /** Retries back off: the k-th and (k+1)-th claims of a job are k seconds apart or more, so a
      fifth claim comes ten seconds after the first at the earliest, and there is no sixth. */
  lemma RetriesBackOff(ops: seq<Op>, s: System, id: string)
    requires DisciplinedRun(ops, s) && id in s.jobs
    ensures var ts := ClaimTimes(s.claims, id);
      && BackedOff(ts) && |ts| == s.jobs[id].attempts <= 5
      && (|ts| == 5 ==> ts[4] >= ts[0] + 10 * SECOND)
  {
    DisciplinedRunSpaced(ops, s);
    assert AttemptsBounded(s.jobs[id]);
    var ts := ClaimTimes(s.claims, id);
    assert JobSpaced(s.jobs[id], ts);
    if |ts| == 5 {
      assert ts[1] >= ts[0] + 1 * SECOND;
      assert ts[2] >= ts[1] + 2 * SECOND;
      assert ts[3] >= ts[2] + 3 * SECOND;
      assert ts[4] >= ts[3] + 4 * SECOND;
    }
  }

  /** The protocol's claim is the queue's claim: the stored jobs agree ... */
  lemma {:induction false} TakeEachIsTakeAll(s: System, workerID: string, ids: seq<string>, now: Time)
    requires forall id :: id in ids ==> id in s.jobs
    ensures TakeEach(s, workerID, ids, now).jobs == TakeAll(s.jobs, ids, workerID, now)
  {
    if ids != [] {
      TakeEachIsTakeAll(s, workerID, ids[..|ids| - 1], now);
    }
  }

  lemma {:induction false} TakeEachLeaves(s: System, workerID: string, ids: seq<string>, now: Time, id: string)
    requires (forall k :: k in ids ==> k in s.jobs) && id in s.jobs && id !in ids
    ensures TakeEach(s, workerID, ids, now).jobs[id] == s.jobs[id]
  {
    if ids != [] {
      TakeEachLeaves(s, workerID, ids[..|ids| - 1], now, id);
    }
  }

  lemma CopiesSplit(q: Queue, ids: seq<string>, workerID: string, now: Time)
    requires ids != [] && forall id :: id in ids ==> id in q
    ensures var n := |ids| - 1;
      Copies(q, ids, workerID, now) == Copies(q, ids[..n], workerID, now) + [Taken(q[ids[n]], workerID, now)]
  {
  }

  lemma TakeHand(s: System, workerID: string, id: string, now: Time)
    requires id in s.jobs
    ensures Hand(Take(s, workerID, id, now), workerID) == Hand(s, workerID) + [Taken(s.jobs[id], workerID, now)]
  {
  }

  /** ... and the worker gets the claimed copies. */
  lemma {:induction false} TakeEachHands(s: System, workerID: string, ids: seq<string>, now: Time)
    requires NoDuplicates(ids) && forall id :: id in ids ==> id in s.jobs
    ensures Hand(TakeEach(s, workerID, ids, now), workerID)
      == Hand(s, workerID) + Copies(s.jobs, ids, workerID, now)
  {
    if ids == [] {
      assert Copies(s.jobs, ids, workerID, now) == [];
    } else {
      var n := |ids| - 1;
      var init := ids[..n];
      TakeEachHands(s, workerID, init, now);
      assert ids[n] !in init;
      TakeEachLeaves(s, workerID, init, now, ids[n]);
      CopiesSplit(s.jobs, ids, workerID, now);
      TakeHand(TakeEach(s, workerID, init, now), workerID, ids[n], now);
    }
  }
}
