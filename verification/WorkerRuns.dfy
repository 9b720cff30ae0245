/** A worker's batch, seen as steps of the queue protocol: `ProcessGuardrailJobs` keeps every
    assumption that the protocol's safety and spacing rest on. */
module WorkerRuns {
  import opened Common
  import opened Jobs
  import opened JobProtocol
  import opened GuardrailWorker

  /** The step that settles the copy in slot 0 of the worker's hand. */
  function SettlingOp(workerID: string, job: Job, known: set<string>, now: Time, reading: Time): Op {
    if job.experimentID in known then Complete(workerID, 0, now)
    else Fail(workerID, 0, now + Delay(job.attempts), NOT_FOUND, reading)
  }

  lemma SettlingStep(s: System, workerID: string, known: set<string>, now: Time, reading: Time)
    requires Safe(s) && Hand(s, workerID) != [] && Hand(s, workerID)[0].lockedAt == Some(now)
    ensures var job := Hand(s, workerID)[0]; var op := SettlingOp(workerID, job, known, now, reading);
      && Enabled(s, op) && Disciplined(s, op)
      && Apply(s, op).jobs == SettleOne(s.jobs, job, job.experimentID in known, now, reading)
      && Hand(Apply(s, op), workerID) == Hand(s, workerID)[1..]
      && forall v :: v != workerID ==> Hand(Apply(s, op), v) == Hand(s, v)
  {
    var job := Hand(s, workerID)[0];
    assert job.id in s.jobs && s.jobs[job.id] == job;
  }

  lemma DisciplinedExtends(ops: seq<Op>, s: System, op: Op)
    requires DisciplinedRun(ops, s) && Enabled(s, op) && Disciplined(s, op)
    ensures Safe(s) && DisciplinedRun(ops + [op], Apply(s, op))
  {
    DisciplinedRunSpaced(ops, s);
    var longer := ops + [op];
    assert longer[..|longer| - 1] == ops && longer[|longer| - 1] == op;
    assert DisciplinedRun(longer[..|longer| - 1], s) && Step(s, longer[|longer| - 1], Apply(s, op))
      && Disciplined(s, longer[|longer| - 1]);
  }

  lemma SettledNext(taken: Queue, claimed: seq<Job>, k: nat, known: set<string>, now: Time, clock: nat -> Time)
    requires k < |claimed|
    ensures Settled(taken, claimed[..k + 1], known, now, clock)
      == SettleOne(Settled(taken, claimed[..k], known, now, clock), claimed[k],
                   claimed[k].experimentID in known, now, clock(k))
  {
    assert claimed[..k + 1][..k] == claimed[..k];
  }

  /** The worker still holds its claimed copies from the k-th on, and has settled the others. */
  ghost predicate SettlingAt(ops: seq<Op>, s: System, workerID: string, taken: Queue, claimed: seq<Job>, k: nat,
                             known: set<string>, now: Time, clock: nat -> Time)
  {
    && k <= |claimed| && (forall i :: 0 <= i < |claimed| ==> claimed[i].lockedAt == Some(now))
    && DisciplinedRun(ops, s) && Hand(s, workerID) == claimed[k..]
    && s.jobs == Settled(taken, claimed[..k], known, now, clock)
  }

  lemma SettlingNext(ops: seq<Op>, s: System, workerID: string, taken: Queue, claimed: seq<Job>, k: nat,
                     known: set<string>, now: Time, clock: nat -> Time)
    returns (op: Op, next: System)
    requires k < |claimed| && SettlingAt(ops, s, workerID, taken, claimed, k, known, now, clock)
    ensures SettlingAt(ops + [op], next, workerID, taken, claimed, k + 1, known, now, clock)
    ensures forall v :: v != workerID ==> Hand(next, v) == Hand(s, v)
  {
    hide Spaced, Settled, SettleOne;
    var job := claimed[k];
    assert Hand(s, workerID)[0] == job;
    op := SettlingOp(workerID, job, known, now, clock(k));
    DisciplinedRunSpaced(ops, s);
    SettlingStep(s, workerID, known, now, clock(k));
    DisciplinedExtends(ops, s, op);
    SettledNext(taken, claimed, k, known, now, clock);
    next := Apply(s, op);
  }

  /** From the k-th copy on, the worker settles one after the other. */
  lemma {:induction false} SettlingRun(ops: seq<Op>, s: System, workerID: string, taken: Queue,
                                       claimed: seq<Job>, k: nat, known: set<string>, now: Time, clock: nat -> Time)
    returns (longer: seq<Op>, after: System)
    requires SettlingAt(ops, s, workerID, taken, claimed, k, known, now, clock)
    ensures ops <= longer && SettlingAt(longer, after, workerID, taken, claimed, |claimed|, known, now, clock)
    ensures forall v :: v != workerID ==> Hand(after, v) == Hand(s, v)
    decreases |claimed| - k
  {
    hide SettlingAt;
    if k == |claimed| {
      longer, after := ops, s;
    } else {
      assert k < |claimed| by { SettlingWithin(ops, s, workerID, taken, claimed, k, known, now, clock); }
      var op, next := SettlingNext(ops, s, workerID, taken, claimed, k, known, now, clock);
      longer, after := SettlingRun(ops + [op], next, workerID, taken, claimed, k + 1, known, now, clock);
    }
  }

  lemma SettlingWithin(ops: seq<Op>, s: System, workerID: string, taken: Queue, claimed: seq<Job>, k: nat,
                       known: set<string>, now: Time, clock: nat -> Time)
    requires SettlingAt(ops, s, workerID, taken, claimed, k, known, now, clock)
    ensures k <= |claimed|
  {
  }

  /** A worker with nothing in hand that claims and settles a batch takes disciplined protocol
      steps only, ends with nothing in hand, and leaves what other workers hold alone. */
  lemma BatchIsRun(ops: seq<Op>, s: System, workerID: string, ids: seq<string>, limit: int,
                   known: set<string>, now: Time, clock: nat -> Time)
    returns (longer: seq<Op>, after: System)
    requires DisciplinedRun(ops, s) && Hand(s, workerID) == [] && Pickable(s.jobs, ids, limit, now)
    ensures ops <= longer && DisciplinedRun(longer, after)
    ensures after.jobs
      == Settled(TakeAll(s.jobs, ids, workerID, now), Copies(s.jobs, ids, workerID, now), known, now, clock)
    ensures Hand(after, workerID) == [] && forall v :: v != workerID ==> Hand(after, v) == Hand(s, v)
  {
    var op, mid := ClaimingRun(ops, s, workerID, ids, limit, known, now, clock);
    var claimed := Copies(s.jobs, ids, workerID, now);
    longer, after := SettlingRun(ops + [op], mid, workerID, TakeAll(s.jobs, ids, workerID, now), claimed, 0,
                                 known, now, clock);
    assert ops <= ops + [op];
    assert claimed[..|claimed|] == claimed;
  }

  lemma ClaimingRun(ops: seq<Op>, s: System, workerID: string, ids: seq<string>, limit: int,
                    known: set<string>, now: Time, clock: nat -> Time)
    returns (op: Op, mid: System)
    requires DisciplinedRun(ops, s) && Hand(s, workerID) == [] && Pickable(s.jobs, ids, limit, now)
    ensures SettlingAt(ops + [op], mid, workerID, TakeAll(s.jobs, ids, workerID, now),
      Copies(s.jobs, ids, workerID, now), 0, known, now, clock)
    ensures forall v :: v != workerID ==> Hand(mid, v) == Hand(s, v)
  {
    hide DisciplinedRun, Spaced, TakeAll, Settled, Disciplined;
    op := Claim(workerID, limit, now, ids);
    DisciplinedRunSpaced(ops, s);
    ClaimStep(s, workerID, ids, limit, now);
    DisciplinedExtends(ops, s, op);
    mid := Apply(s, op);
    var claimed := Copies(s.jobs, ids, workerID, now);
    assert claimed[..0] == [] && claimed[0..] == claimed;
    SettledNone(TakeAll(s.jobs, ids, workerID, now), known, now, clock);
  }

  lemma SettledNone(q: Queue, known: set<string>, now: Time, clock: nat -> Time)
    ensures Settled(q, [], known, now, clock) == q
  {
  }

  lemma ClaimStep(s: System, workerID: string, ids: seq<string>, limit: int, now: Time)
    requires Safe(s) && Hand(s, workerID) == [] && Pickable(s.jobs, ids, limit, now)
    ensures var op := Claim(workerID, limit, now, ids);
      && Enabled(s, op) && Disciplined(s, op)
      && Apply(s, op).jobs == TakeAll(s.jobs, ids, workerID, now)
      && Hand(Apply(s, op), workerID) == Copies(s.jobs, ids, workerID, now)
      && forall v :: v != workerID ==> Hand(Apply(s, op), v) == Hand(s, v)
  {
    TakeEachIsTakeAll(s, workerID, ids, now);
    TakeEachHands(s, workerID, ids, now);
    TakeEachOthers(s, workerID, ids, now);
  }

  lemma {:induction false} TakeEachOthers(s: System, workerID: string, ids: seq<string>, now: Time)
    requires forall id :: id in ids ==> id in s.jobs
    ensures forall v :: v != workerID ==> Hand(TakeEach(s, workerID, ids, now), v) == Hand(s, v)
  {
    if ids != [] {
      TakeEachOthers(s, workerID, ids[..|ids| - 1], now);
    }
  }

  /** After its batch no job is left running under the worker's name. */
  lemma NothingLeftRunning(ops: seq<Op>, s: System, workerID: string, ids: seq<string>, limit: int,
                           known: set<string>, now: Time, clock: nat -> Time, id: string)
    requires DisciplinedRun(ops, s) && Hand(s, workerID) == [] && Pickable(s.jobs, ids, limit, now)
    ensures var claimed := Copies(s.jobs, ids, workerID, now);
      var q := Settled(TakeAll(s.jobs, ids, workerID, now), claimed, known, now, clock);
      id in q && q[id].status == Running ==> q[id].lockedBy != workerID
  {
    var longer, after := BatchIsRun(ops, s, workerID, ids, limit, known, now, clock);
    DisciplinedRunSpaced(longer, after);
    if id in after.jobs && after.jobs[id].status == Running {
      assert InHand(after, after.jobs[id].lockedBy, id);
    }
  }
}
