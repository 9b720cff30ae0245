/** Any number of workers, each in the middle of its own batch, over one queue. What a worker
    remembers between its steps is what `ProcessGuardrailJobs` keeps in local variables: the
    instant of its claim, the copies it claimed and how far it has come. It settles them by id,
    whatever the others have done to the queue meanwhile. */
module WorkerFleet {
  import opened Common
  import opened Jobs
  import P = JobProtocol
  import opened GuardrailWorker
  import opened WorkerRuns

  datatype Local = Local(now: Time, claimed: seq<Job>, next: nat)

  datatype Fleet = Fleet(jobs: Queue, locals: map<string, Local>)

  const PARKED: Fleet := Fleet(map[], map[])

  datatype Turn =
    | Arrive(job: Job)
    | Begin(workerID: string, limit: int, now: Time, ids: seq<string>)
    | Settle(settler: string, done: bool, reading: Time)

  /** The copies the worker has still to settle. */
  function Left(f: Fleet, workerID: string): seq<Job> {
    if workerID in f.locals && f.locals[workerID].next <= |f.locals[workerID].claimed| then
      f.locals[workerID].claimed[f.locals[workerID].next..]
    else []
  }

  /** New jobs are new; a worker claims once its batch is settled, and settles while it is not. */
  ghost predicate Possible(f: Fleet, t: Turn) {
    match t
    case Arrive(job) => job.id !in f.jobs && job.status == Waiting && job.attempts == 0
    case Begin(w, limit, now, ids) => Left(f, w) == [] && Pickable(f.jobs, ids, limit, now)
    case Settle(w, _, _) => Left(f, w) != []
  }

  ghost function After(f: Fleet, t: Turn): Fleet
    requires Possible(f, t)
  {
    match t
    case Arrive(job) => f.(jobs := Enqueued(f.jobs, job))
    case Begin(w, _, now, ids) =>
      Fleet(TakeAll(f.jobs, ids, w, now), f.locals[w := Local(now, Copies(f.jobs, ids, w, now), 0)])
    case Settle(w, done, reading) =>
      var l := f.locals[w];
      Fleet(SettleOne(f.jobs, l.claimed[l.next], done, l.now, reading), f.locals[w := l.(next := l.next + 1)])
  }

  ghost predicate Run(turns: seq<Turn>, f: Fleet) {
    if turns == [] then f == PARKED
    else
      var n := |turns| - 1;
      exists before :: Run(turns[..n], before) && Possible(before, turns[n]) && f == After(before, turns[n])
  }

  /** The protocol's system with the same queue, in which each worker holds what it has left. */
  ghost predicate Mirrors(f: Fleet, s: P.System) {
    && s.jobs == f.jobs
    && (forall w :: P.Hand(s, w) == Left(f, w))
    && (forall w, i :: 0 <= i < |Left(f, w)| ==> Left(f, w)[i].lockedAt == Some(f.locals[w].now))
  }

  lemma ArriveMirrors(f: Fleet, job: Job, s: P.System)
    requires Possible(f, Arrive(job)) && Mirrors(f, s)
    ensures P.Enabled(s, P.Enqueue(job)) && P.Disciplined(s, P.Enqueue(job))
    ensures Mirrors(After(f, Arrive(job)), P.Apply(s, P.Enqueue(job)))
  {
    assert forall w :: P.Hand(P.Apply(s, P.Enqueue(job)), w) == P.Hand(s, w);
    assert forall w :: Left(After(f, Arrive(job)), w) == Left(f, w);
  }

  lemma BeginMirrors(f: Fleet, t: Turn, s: P.System) returns (op: P.Op)
    requires t.Begin? && Possible(f, t) && Mirrors(f, s) && P.Safe(s)
    ensures P.Enabled(s, op) && P.Disciplined(s, op) && Mirrors(After(f, t), P.Apply(s, op))
  {
    op := P.Claim(t.workerID, t.limit, t.now, t.ids);
    ClaimStep(s, t.workerID, t.ids, t.limit, t.now);
    BeginLeft(f, t);
    BeginJobs(f, t);
    var claimed := Copies(f.jobs, t.ids, t.workerID, t.now);
    hide P.Safe, P.Apply, P.Enabled, P.Disciplined, TakeAll, Copies, Left, After, Possible;
    MirrorsMove(f, s, After(f, t), P.Apply(s, op), t.workerID, claimed, t.now);
  }

  lemma BeginJobs(f: Fleet, t: Turn)
    requires t.Begin? && Possible(f, t)
    ensures After(f, t).jobs == TakeAll(f.jobs, t.ids, t.workerID, t.now)
  {
  }

  lemma BeginLeft(f: Fleet, t: Turn)
    requires t.Begin? && Possible(f, t)
    ensures var after, claimed := After(f, t), Copies(f.jobs, t.ids, t.workerID, t.now);
      && (forall w :: Left(after, w) == if w == t.workerID then claimed else Left(f, w))
      && (forall w :: w != t.workerID && w in f.locals ==> w in after.locals && after.locals[w] == f.locals[w])
      && t.workerID in after.locals && after.locals[t.workerID].now == t.now
      && forall i :: 0 <= i < |claimed| ==> claimed[i].lockedAt == Some(t.now)
  {
    var claimed := Copies(f.jobs, t.ids, t.workerID, t.now);
    assert claimed[0..] == claimed;
  }

  lemma SettleMirrors(f: Fleet, t: Turn, s: P.System) returns (op: P.Op)
    requires t.Settle? && Possible(f, t) && Mirrors(f, s) && P.Safe(s)
    ensures P.Enabled(s, op) && P.Disciplined(s, op) && Mirrors(After(f, t), P.Apply(s, op))
  {
    var now, job := f.locals[t.settler].now, Left(f, t.settler)[0];
    assert job == P.Hand(s, t.settler)[0] && job.lockedAt == Some(now);
    var known := if t.done then {job.experimentID} else {};
    op := SettlingOp(t.settler, job, known, now, t.reading);
    SettlingStep(s, t.settler, known, now, t.reading);
    SettleLeft(f, t);
    SettleJobs(f, t);
    hide P.Safe, P.Apply, P.Enabled, P.Disciplined, SettleOne, SettlingOp, Left, After, Possible;
    MirrorsMove(f, s, After(f, t), P.Apply(s, op), t.settler, Left(f, t.settler)[1..], now);
  }

  lemma MirrorsMove(f: Fleet, s: P.System, after: Fleet, next: P.System, workerID: string, left: seq<Job>, now: Time)
    requires Mirrors(f, s) && next.jobs == after.jobs
    requires forall w :: P.Hand(next, w) == if w == workerID then left else P.Hand(s, w)
    requires forall w :: Left(after, w) == if w == workerID then left else Left(f, w)
    requires forall w :: w != workerID && w in f.locals ==> w in after.locals && after.locals[w].now == f.locals[w].now
    requires workerID in after.locals && after.locals[workerID].now == now
    requires forall i :: 0 <= i < |left| ==> left[i].lockedAt == Some(now)
    ensures Mirrors(after, next)
  {
    hide P.Hand;
    forall w, i | 0 <= i < |Left(after, w)| ensures Left(after, w)[i].lockedAt == Some(after.locals[w].now) {
      if w != workerID {
        assert Left(f, w)[i].lockedAt == Some(f.locals[w].now);
      }
    }
  }

  lemma SettleJobs(f: Fleet, t: Turn)
    requires t.Settle? && Possible(f, t)
    ensures t.settler in f.locals
    ensures After(f, t).jobs == SettleOne(f.jobs, Left(f, t.settler)[0], t.done, f.locals[t.settler].now, t.reading)
  {
  }

  lemma SettleLeft(f: Fleet, t: Turn)
    requires t.Settle? && Possible(f, t)
    ensures var after := After(f, t);
      && (forall w :: Left(after, w) == if w == t.settler then Left(f, w)[1..] else Left(f, w))
      && (forall w :: w in f.locals ==> w in after.locals && after.locals[w].now == f.locals[w].now)
  {
  }

  /** However the steps of any number of workers and enqueuers interleave, they are a run of the
      queue protocol in which every worker finishes only jobs it claimed, once per claim. */
  lemma {:induction false} FleetIsRun(turns: seq<Turn>, f: Fleet) returns (ops: seq<P.Op>, s: P.System)
    requires Run(turns, f)
    ensures P.DisciplinedRun(ops, s) && Mirrors(f, s) && |ops| == |turns|
  {
    if turns == [] {
      ops, s := [], P.IDLE;
    } else {
      var n := |turns| - 1;
      var before :| Run(turns[..n], before) && Possible(before, turns[n]) && f == After(before, turns[n]);
      var mid;
      ops, mid := FleetIsRun(turns[..n], before);
      var op;
      op, s := TurnMirrors(before, turns[n], ops, mid);
      ops := ops + [op];
    }
  }

  lemma TurnMirrors(f: Fleet, t: Turn, ops: seq<P.Op>, s: P.System) returns (op: P.Op, next: P.System)
    requires Possible(f, t) && Mirrors(f, s) && P.DisciplinedRun(ops, s)
    ensures P.DisciplinedRun(ops + [op], next) && Mirrors(After(f, t), next)
  {
    P.DisciplinedRunSpaced(ops, s);
    hide P.DisciplinedRun, P.Safe, P.Apply, P.Enabled, P.Disciplined, Possible, Mirrors, After;
    match t {
      case Arrive(job) =>
        op := P.Enqueue(job);
        ArriveMirrors(f, job, s);
      case Begin(_, _, _, _) => op := BeginMirrors(f, t, s);
      case Settle(_, _, _) => op := SettleMirrors(f, t, s);
    }
    DisciplinedExtends(ops, s, op);
    next := P.Apply(s, op);
  }

  /** What a worker has still to settle is stored unchanged, running and locked by it, and is in
      no other place of any worker's batch. */
  lemma LeftIsOwn(turns: seq<Turn>, f: Fleet, w: string, i: nat, v: string, j: nat)
    requires Run(turns, f) && i < |Left(f, w)| && j < |Left(f, v)|
    ensures var job := Left(f, w)[i];
      job.id in f.jobs && f.jobs[job.id] == job && job.status == Running && job.lockedBy == w
    ensures Left(f, w)[i].id == Left(f, v)[j].id ==> v == w && i == j
  {
    var ops, s := FleetIsRun(turns, f);
    P.DisciplinedRunSpaced(ops, s);
    assert P.Hand(s, w)[i] == Left(f, w)[i] && P.Hand(s, v)[j] == Left(f, v)[j];
    assert P.HandsTrue(s) && P.HandsDistinct(s);
  }

  /** No two live jobs are alike, attempts stay in bounds, and every running job is in the batch
      of the worker that locked it. */
  lemma FleetSafe(turns: seq<Turn>, f: Fleet, id: string)
    requires Run(turns, f) && id in f.jobs
    ensures P.AttemptsBounded(f.jobs[id])
    ensures forall k :: k in f.jobs && k != id && Live(f.jobs[id]) && Live(f.jobs[k]) ==>
      !Twins(f.jobs[id], f.jobs[k])
    ensures f.jobs[id].status == Running ==>
      exists i :: 0 <= i < |Left(f, f.jobs[id].lockedBy)| && Left(f, f.jobs[id].lockedBy)[i].id == id
  {
    var ops, s := FleetIsRun(turns, f);
    P.DisciplinedRunSpaced(ops, s);
    if f.jobs[id].status == Running {
      var w := f.jobs[id].lockedBy;
      assert P.InHand(s, w, id);
      var i :| 0 <= i < |P.Hand(s, w)| && P.Hand(s, w)[i].id == id;
      assert Left(f, w)[i].id == id;
    }
  }
}
