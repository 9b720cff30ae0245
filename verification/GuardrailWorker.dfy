/** The background worker: what one tick does with the lease, the job queue and the experiments. */
module GuardrailWorker {
  import opened Common
  import opened Events
  import opened Experiments
  import opened ExperimentRuns
  import opened ExperimentService
  import opened Jobs
  import Leases

  const NOT_FOUND := "experiment not found"

  /** How one claimed job is settled: an evaluated job is completed, another is failed. */
  function SettleOne(q: Queue, job: Job, done: bool, now: Time, reading: Time): Queue {
    if job.id !in q then q
    else q[job.id := if done then Finished(q[job.id], now)
                     else Retried(q[job.id], now + Delay(job.attempts), NOT_FOUND, reading)]
  }

  /** The queue after the claimed copies have been settled, in order; `clock` holds the store's
      clock reading at each. */
  function Settled(q: Queue, claimed: seq<Job>, known: set<string>, now: Time, clock: nat -> Time): Queue {
    if claimed == [] then q
    else
      var job := claimed[|claimed| - 1];
      SettleOne(Settled(q, claimed[..|claimed| - 1], known, now, clock), job, job.experimentID in known, now,
                clock(|claimed| - 1))
  }

  /** The jobs that get an evaluation. */
  function Evaluated(claimed: seq<Job>, known: set<string>): seq<Job> {
    if claimed == [] then []
    else
      var job := claimed[|claimed| - 1];
      Evaluated(claimed[..|claimed| - 1], known) + (if job.experimentID in known then [job] else [])
  }

  /** One evaluation per job, of its experiment, at the end of its window. */
  ghost predicate PassesFor(passes: seq<Pass>, jobs: seq<Job>) {
    |passes| == |jobs| &&
    forall i :: 0 <= i < |jobs| ==> passes[i].id == jobs[i].experimentID && passes[i].at == jobs[i].windowTo
  }

  class Worker {
    const service: Service
    const queue: JobQueue
    const leases: Leases.LeaseStore
    const workerID: string
    const lockKey: string
    const ttl: int
    const batch: int
    var leader: bool

    constructor (service: Service, queue: JobQueue, leases: Leases.LeaseStore,
                 workerID: string, lockKey: string, ttl: int, batch: int)
      ensures this.service == service && this.queue == queue && this.leases == leases
      ensures this.workerID == workerID && this.lockKey == lockKey && this.ttl == ttl && this.batch == batch
      ensures !leader
    {
      this.service, this.queue, this.leases := service, queue, leases;
      this.workerID, this.lockKey, this.ttl, this.batch := workerID, lockKey, ttl, batch;
      leader := false;
    }

    /** One claimed job: evaluated and completed, or failed for a later retry. */
    method ProcessJob(job: Job, now: Time, reading: Time, rows: seq<AttributedEvent>)
      returns (done: bool, ghost pass: Pass)
      requires Keyed(service.store.View())
      modifies queue, service.store`experiments, service.store`incidents, service.store`audit
      ensures queue.jobs == SettleOne(old(queue.jobs), job, done, now, reading)
      ensures done <==> job.experimentID in old(service.store.experiments)
      ensures done ==> pass.id == job.experimentID && pass.at == job.windowTo
      ensures done ==> EvaluatedTo(old(service.store.View()), pass, rows, service.store.View())
      ensures !done ==> service.store.View() == old(service.store.View())
    {
      hide PassAllowed, GuardrailPass;
      var err;
      ghost var actuals;
      err, actuals := service.EvaluateGuardrailForExperimentWindow(job.experimentID, job.windowTo, rows);
      pass := Pass(job.experimentID, job.windowTo, actuals);
      if err.Some? {
        var delay := Min(job.attempts, 5) * SECOND;
        if delay < SECOND {
          delay := SECOND;
        }
        var _ := queue.FailGuardrailJob(job.id, now + delay, NOT_FOUND, reading);
        return false, pass;
      }
      var _ := queue.CompleteGuardrailJob(job.id, now);
      return true, pass;
    }

    method ProcessGuardrailJobs(now: Time, clock: nat -> Time, rows: seq<AttributedEvent>)
      returns (processed: nat, ghost ids: seq<string>, ghost passes: seq<Pass>)
      requires Keyed(service.store.View())
      modifies queue, service.store`experiments, service.store`incidents, service.store`audit
      ensures Pickable(old(queue.jobs), ids, batch, now)
      ensures var claimed := Copies(old(queue.jobs), ids, workerID, now);
        var known := old(service.store.experiments).Keys;
        && queue.jobs == Settled(TakeAll(old(queue.jobs), ids, workerID, now), claimed, known, now, clock)
        && PassesFor(passes, Evaluated(claimed, known)) && processed == |passes|
      ensures Passes(old(service.store.View()), Experiments.Worker, rows, passes, service.store.View())
    {
      hide Processing, Passes, EvaluatedTo, PassesFor, Settled, SettleOne, Evaluated, TakeAll, Keyed;
      hide Pickable, Copies, PassAllowed, GuardrailPass;
      ghost var w := service.store.View();
      var jobs;
      jobs, ids := queue.ClaimGuardrailJobs(workerID, batch, now);
      ghost var taken := queue.jobs;
      processed, passes := 0, [];
      ProcessingStarts(w, taken, now, clock, rows);
      for i := 0 to |jobs|
        invariant Processing(w, taken, jobs[..i], now, clock, rows, passes, service.store.View(), queue.jobs)
        invariant processed == |passes| && Keyed(service.store.View())
      {
        ghost var before, q := service.store.View(), queue.jobs;
        var done;
        ghost var pass;
        done, pass := ProcessJob(jobs[i], now, clock(i), rows);
        assert jobs[..i + 1] == jobs[..i] + [jobs[i]];
        ProcessingNext(w, taken, jobs[..i], now, clock, rows, passes, before, q, jobs[i], done, pass,
          service.store.View(), queue.jobs);
        if done {
          processed := processed + 1;
          passes := passes + [pass];
        }
      }
      assert jobs[..|jobs|] == jobs;
      ProcessingEnds(w, taken, jobs, now, clock, rows, passes, service.store.View(), queue.jobs);
    }

    /** A poll tick. Jobs are processed on a tick that was granted the lease, and on no other. */
    method OnPoll(now: Time, clock: nat -> Time, rows: seq<AttributedEvent>)
      returns (ghost ids: seq<string>, ghost passes: seq<Pass>)
      requires Keyed(service.store.View())
      modifies this`leader, leases, queue
      modifies service.store`experiments, service.store`incidents, service.store`audit
      ensures leader == Leases.Grants(old(leases.owners), lockKey, workerID, now)
      ensures leases.owners == Leases.Acquired(old(leases.owners), lockKey, workerID, ttl, now)
      ensures !leader ==> queue.jobs == old(queue.jobs) && service.store.View() == old(service.store.View())
      ensures leader ==> Pickable(old(queue.jobs), ids, batch, now)
      ensures leader ==>
        var claimed := Copies(old(queue.jobs), ids, workerID, now);
        var known := old(service.store.experiments).Keys;
        && queue.jobs == Settled(TakeAll(old(queue.jobs), ids, workerID, now), claimed, known, now, clock)
        && PassesFor(passes, Evaluated(claimed, known))
        && Passes(old(service.store.View()), Experiments.Worker, rows, passes, service.store.View())
    {
      hide Passes, PassesFor, Settled, Evaluated, TakeAll;
      ids, passes := [], [];
      var acquired := leases.TryAcquireLeader(lockKey, workerID, ttl, now);
      if !acquired {
        leader := false;
        return;
      }
      leader := true;
      var processed;
      processed, ids, passes := ProcessGuardrailJobs(now, clock, rows);
    }

    /** A fallback tick scans only when the last poll found this worker leading, which may no
        longer be so. */
    method OnFallback(now: Time, rows: seq<AttributedEvent>)
      returns (crashed: bool, ghost passes: seq<Pass>, ghost last: Option<Pass>)
      requires Keyed(service.store.View())
      modifies service.store`experiments, service.store`incidents, service.store`audit
      ensures !leader ==> !crashed && service.store.View() == old(service.store.View())
      ensures leader ==> Passes(old(service.store.View()), Scan, rows, passes, service.store.View())
      ensures leader ==> forall i :: 0 <= i < |passes| ==> passes[i].at == now
      ensures leader && !crashed ==> Lists(PassIDs(passes), RunningIDs(old(service.store.View())))
      ensures crashed ==> last.Some? && CrashedOn(service.store.View(), Scan, last.value, rows)
    {
      hide Passes, Lists, RunningIDs, CrashedOn;
      crashed, passes, last := false, [], None;
      if leader {
        crashed, passes, last := service.EvaluateGuardrails(now, rows);
      }
    }

    /** On shutdown the worker gives the lease back, if it is still its own. */
    method Stop()
      modifies leases
      ensures leases.owners == Leases.Released(old(leases.owners), lockKey, workerID)
    {
      leases.ReleaseLeader(lockKey, workerID);
    }
  }

  /** The evaluated pass is one the experiment allows, and leads to `after`. */
  ghost predicate EvaluatedTo(w: World, p: Pass, rows: seq<AttributedEvent>, after: World) {
    PassAllowed(w, Experiments.Worker, p, rows)
    && after == GuardrailPass(w, Experiments.Worker, p.id, p.at, p.actuals)
  }

  /** The listed jobs have been settled and evaluated, in order. */
  ghost predicate Processing(w: World, taken: Queue, settled: seq<Job>, now: Time, clock: nat -> Time,
                             rows: seq<AttributedEvent>, passes: seq<Pass>, after: World, q: Queue)
  {
    && after.experiments.Keys == w.experiments.Keys && Keyed(after)
    && q == Settled(taken, settled, w.experiments.Keys, now, clock)
    && PassesFor(passes, Evaluated(settled, w.experiments.Keys))
    && Passes(w, Experiments.Worker, rows, passes, after)
  }

  lemma ProcessingStarts(w: World, taken: Queue, now: Time, clock: nat -> Time, rows: seq<AttributedEvent>)
    requires Keyed(w)
    ensures Processing(w, taken, [], now, clock, rows, [], w, taken)
  {
  }

  lemma ProcessingEnds(w: World, taken: Queue, settled: seq<Job>, now: Time, clock: nat -> Time,
                       rows: seq<AttributedEvent>,
                       passes: seq<Pass>, after: World, q: Queue)
    requires Processing(w, taken, settled, now, clock, rows, passes, after, q)
    ensures q == Settled(taken, settled, w.experiments.Keys, now, clock)
    ensures PassesFor(passes, Evaluated(settled, w.experiments.Keys))
    ensures Passes(w, Experiments.Worker, rows, passes, after)
  {
  }

  lemma ProcessingNext(w: World, taken: Queue, settled: seq<Job>, now: Time, clock: nat -> Time,
                       rows: seq<AttributedEvent>,
                       passes: seq<Pass>, before: World, q: Queue, job: Job, done: bool, p: Pass,
                       after: World, q2: Queue)
    requires Processing(w, taken, settled, now, clock, rows, passes, before, q)
    requires done <==> job.experimentID in before.experiments
    requires q2 == SettleOne(q, job, done, now, clock(|settled|))
    requires done ==> p.id == job.experimentID && p.at == job.windowTo && EvaluatedTo(before, p, rows, after)
    requires !done ==> after == before
    ensures Keyed(after)
    ensures Processing(w, taken, settled + [job], now, clock, rows, if done then passes + [p] else passes, after, q2)
  {
    hide Passes, PassMeasured, PassCrashes, GuardrailPass;
    SettledOneMore(taken, settled, w.experiments.Keys, now, clock, job);
    hide Settled, Evaluated, SettleOne;
    if done {
      PassesNext(w, Experiments.Worker, rows, passes, before, p, after);
      PassKeeps(before, Experiments.Worker, p.id, p.at, p.actuals);
    }
  }

  lemma SettledOneMore(taken: Queue, settled: seq<Job>, known: set<string>, now: Time, clock: nat -> Time, job: Job)
    ensures Settled(taken, settled + [job], known, now, clock)
      == SettleOne(Settled(taken, settled, known, now, clock), job, job.experimentID in known, now, clock(|settled|))
    ensures Evaluated(settled + [job], known)
      == if job.experimentID in known then Evaluated(settled, known) + [job] else Evaluated(settled, known)
  {
    var longer := settled + [job];
    assert longer[..|longer| - 1] == settled && longer[|longer| - 1] == job;
  }

  // ---- What settling means -------------------------------------------------

  ghost predicate DistinctIDs(claimed: seq<Job>) {
    forall i, j :: 0 <= i < j < |claimed| ==> claimed[i].id != claimed[j].id
  }

  /** Settling leaves the jobs it did not claim alone. */
  lemma {:induction false} SettledSpares(q: Queue, claimed: seq<Job>, known: set<string>, now: Time, clock: nat -> Time,
                                         id: string)
    requires forall i :: 0 <= i < |claimed| ==> claimed[i].id != id
    ensures id in Settled(q, claimed, known, now, clock) <==> id in q
    ensures id in q ==> Settled(q, claimed, known, now, clock)[id] == q[id]
  {
    if claimed != [] {
      SettledSpares(q, claimed[..|claimed| - 1], known, now, clock, id);
    }
  }

  /** A claimed job of a known experiment ends completed; any other goes back to wait at least a
      second and at most five, until its fifth attempt has failed. */
  lemma {:induction false} SettledMeans(q: Queue, claimed: seq<Job>, known: set<string>, now: Time,
                                       clock: nat -> Time, i: nat)
    requires DistinctIDs(claimed) && i < |claimed| && claimed[i].id in q && q[claimed[i].id] == claimed[i]
    ensures claimed[i].id in Settled(q, claimed, known, now, clock)
    ensures var job, after := claimed[i], Settled(q, claimed, known, now, clock)[claimed[i].id];
      && after.attempts == job.attempts && Twins(after, job)
      && (after.status == JobStatus.Completed <==> job.experimentID in known)
      && (after.status == Failed <==> job.experimentID !in known && job.attempts >= 5)
      && (after.status == Waiting ==> now + SECOND <= after.availableAt <= now + 5 * SECOND)
      && (after.status == Waiting && job.attempts >= 1 ==> after.availableAt == now + job.attempts * SECOND)
      && after.status != JobStatus.Running
  {
    var n := |claimed| - 1;
    if i < n {
      SettledMeans(q, claimed[..n], known, now, clock, i);
    } else {
      SettledSpares(q, claimed[..n], known, now, clock, claimed[i].id);
    }
  }
}
