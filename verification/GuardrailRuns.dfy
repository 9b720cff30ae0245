/** A batch of jobs or a scan stops every running experiment in which it finds an alarm, whatever
    other experiments it passes over before and after. */
module GuardrailRuns {
  import opened Common
  import opened Events
  import opened Experiments
  import opened ExperimentRuns
  import opened ExperimentService
  import opened IncidentLaws
  import Jobs
  import GuardrailWorker

  /** The experiment has been paused, or nothing that concerns it has changed. */
  ghost predicate Untouched(w: World, after: World, id: string)
    requires id in w.experiments
  {
    && Keyed(after) && id in after.experiments
    && (after.experiments[id].status == Paused
        || (after.experiments[id] == w.experiments[id] && SameIncidents(w, after, id)))
  }

  /** All the passed-over experiments have plain ids. */
  predicate AllPlain(passes: seq<Pass>) {
    forall i :: 0 <= i < |passes| ==> Plain(passes[i].id)
  }

  lemma PassUntouched(w: World, path: Path, p: Pass, id: string)
    requires Keyed(w) && p.id in w.experiments && |w.experiments[p.id].guardrails| == |p.actuals|
    requires id in w.experiments && w.experiments[id].status in {Running, Paused} && Plain(id) && Plain(p.id)
    ensures Untouched(w, GuardrailPass(w, path, p.id, p.at, p.actuals), id)
  {
    PassKeeps(w, path, p.id, p.at, p.actuals);
    if p.id != id {
      PassTouches(w, path, p.id, p.at, p.actuals, id);
    } else if w.experiments[id].status == Running {
      PassExactly(w, path, id, p.at, p.actuals);
      hide GuardrailPass, WouldPause, LogsAlarms, Divisible, IncidentKey, IncidentBucket, Decimal;
    }
  }

  lemma UntouchedJoin(w: World, mid: World, after: World, id: string)
    requires id in w.experiments && Untouched(w, mid, id) && Untouched(mid, after, id)
    ensures Untouched(w, after, id)
  {
    hide IncidentKey;
  }

  lemma UntouchedNext(w: World, mid: World, path: Path, p: Pass, rows: seq<AttributedEvent>, id: string)
    requires id in w.experiments && w.experiments[id].status in {Running, Paused} && Untouched(w, mid, id)
    requires PassAllowed(mid, path, p, rows) && Plain(id) && Plain(p.id)
    ensures Untouched(w, GuardrailPass(mid, path, p.id, p.at, p.actuals), id)
  {
    hide PassMeasured, PassCrashes, GuardrailPass, SameIncidents, Plain;
    PassUntouched(mid, path, p, id);
    UntouchedJoin(w, mid, GuardrailPass(mid, path, p.id, p.at, p.actuals), id);
  }

  lemma {:induction false} PassesUntouched(w: World, path: Path, rows: seq<AttributedEvent>, passes: seq<Pass>,
                                           after: World, id: string)
    requires Keyed(w) && Passes(w, path, rows, passes, after) && AllPlain(passes)
    requires id in w.experiments && w.experiments[id].status in {Running, Paused} && Plain(id)
    ensures Untouched(w, after, id)
  {
    if passes != [] {
      var n := |passes| - 1;
      var mid :| Passes(w, path, rows, passes[..n], mid) && PassAllowed(mid, path, passes[n], rows)
        && after == GuardrailPass(mid, path, passes[n].id, passes[n].at, passes[n].actuals);
      hide Passes, PassAllowed, GuardrailPass, Untouched, Plain, Keyed;
      PassesUntouched(w, path, rows, passes[..n], mid, id);
      UntouchedNext(w, mid, path, passes[n], rows, id);
    }
  }

  lemma WouldPauseStill(w: World, mid: World, path: Path, e: Experiment, j: nat, at: Time, actuals: seq<real>)
    requires j < |e.guardrails| == |actuals| && WouldPause(w, path, e, j, at, actuals)
    requires SameIncidents(w, mid, e.id)
    ensures WouldPause(mid, path, e, j, at, actuals)
  {
    PauseKey(path, e.id, e.guardrails[j], at);
    hide IncidentKey, IncidentBucket, Decimal;
  }

  lemma AlarmPauses(w: World, mid: World, path: Path, p: Pass, j: nat)
    requires Keyed(w) && p.id in w.experiments && j < |w.experiments[p.id].guardrails| == |p.actuals|
    requires WouldPause(w, path, w.experiments[p.id], j, p.at, p.actuals)
    requires w.experiments[p.id].status == Running && Untouched(w, mid, p.id)
    requires |mid.experiments[p.id].guardrails| == |p.actuals|
    ensures var after := GuardrailPass(mid, path, p.id, p.at, p.actuals);
      p.id in after.experiments && after.experiments[p.id].status == Paused
  {
    var e := w.experiments[p.id];
    if mid.experiments[p.id].status != Paused {
      WouldPauseStill(w, mid, path, e, j, p.at, p.actuals);
      PassExactly(mid, path, p.id, p.at, p.actuals);
      hide GuardrailPass, WouldPause, LogsAlarms, SameIncidents, IncidentBucket, Decimal;
    }
  }

  /** If one of the passes finds an alarm whose incident was unused, the running experiment is
      paused in the end, by that pass or by another. */
  lemma {:induction false} AlarmStops(w: World, path: Path, rows: seq<AttributedEvent>, passes: seq<Pass>,
                                      after: World, i: nat, j: nat)
    requires Keyed(w) && Passes(w, path, rows, passes, after) && AllPlain(passes) && i < |passes|
    requires passes[i].id in w.experiments && w.experiments[passes[i].id].status == Running
    requires j < |w.experiments[passes[i].id].guardrails| == |passes[i].actuals|
    requires WouldPause(w, path, w.experiments[passes[i].id], j, passes[i].at, passes[i].actuals)
    ensures passes[i].id in after.experiments && after.experiments[passes[i].id].status == Paused
  {
    var n := |passes| - 1;
    var id := passes[i].id;
    var mid :| Passes(w, path, rows, passes[..n], mid) && PassAllowed(mid, path, passes[n], rows)
      && after == GuardrailPass(mid, path, passes[n].id, passes[n].at, passes[n].actuals);
    hide Passes, PassAllowed, GuardrailPass, SameIncidents, WouldPause, PassMeasured, PassCrashes, Untouched;
    hide Keyed;
    PassesUntouched(w, path, rows, passes[..n], mid, id);
    if i < n {
      assert passes[..n][i] == passes[i];
      AlarmStops(w, path, rows, passes[..n], mid, i, j);
    }
    LastPass(w, mid, path, rows, passes[n], i == n, id, j);
  }

  /** The last of the passes pauses the experiment, or leaves it paused. */
  lemma LastPass(w: World, mid: World, path: Path, rows: seq<AttributedEvent>, p: Pass, alarmed: bool, id: string,
                 j: nat)
    requires Keyed(w) && id in w.experiments && w.experiments[id].status == Running && Untouched(w, mid, id)
    requires PassAllowed(mid, path, p, rows) && Plain(p.id) && Plain(id)
    requires !alarmed ==> mid.experiments[id].status == Paused
    requires alarmed ==> id == p.id && j < |w.experiments[id].guardrails| == |p.actuals|
    requires alarmed ==> WouldPause(w, path, w.experiments[id], j, p.at, p.actuals)
    ensures var after := GuardrailPass(mid, path, p.id, p.at, p.actuals);
      id in after.experiments && after.experiments[id].status == Paused
  {
    hide GuardrailPass, SameIncidents, WouldPause, PassMeasured, PassCrashes;
    if alarmed {
      AlarmPauses(w, mid, path, p, j);
    } else {
      PassUntouched(mid, path, p, id);
    }
  }

  /** In every reachable state: a batch or scan that finds an alarm in a running experiment not yet
      stopped by a guardrail leaves it paused, if no alarming rule divides by zero. */
  lemma FirstAlarmStops(cfg: Settings, ops: seq<Op>, w: World, path: Path, rows: seq<AttributedEvent>,
                        passes: seq<Pass>, after: World, i: nat, j: nat)
    requires Run(cfg, ops, w) && PlainIDs(ops) && Passes(w, path, rows, passes, after) && i < |passes|
    requires passes[i].id in w.experiments && w.experiments[passes[i].id].status == Running
    requires GuardrailTriggered !in Trail(w.audit, passes[i].id)
    requires j < |w.experiments[passes[i].id].guardrails| == |passes[i].actuals|
    requires Alarms(w.experiments[passes[i].id], j, passes[i].actuals)
    requires forall l :: 0 <= l <= j && Alarms(w.experiments[passes[i].id], l, passes[i].actuals) ==>
      !ZeroDivides(path, w.experiments[passes[i].id].guardrails[l])
    ensures passes[i].id in after.experiments && after.experiments[passes[i].id].status == Paused
  {
    RunSound(cfg, ops, w);
    RunReports(cfg, ops, w);
    AllPassesPlain(w, path, rows, passes, after);
    FirstAlarmIsNew(w, path, passes[i].id, passes[i].at, passes[i].actuals, j);
    hide Run, Passes, Sound, WouldPause, Trail;
    AlarmStops(w, path, rows, passes, after, i, j);
  }

  /** Passes neither add nor rename experiments. */
  lemma {:induction false} PassesKeep(w: World, path: Path, rows: seq<AttributedEvent>, passes: seq<Pass>, after: World)
    requires Keyed(w) && Passes(w, path, rows, passes, after)
    ensures after.experiments.Keys == w.experiments.Keys && Keyed(after)
  {
    if passes != [] {
      var n := |passes| - 1;
      var mid :| Passes(w, path, rows, passes[..n], mid) && PassAllowed(mid, path, passes[n], rows)
        && after == GuardrailPass(mid, path, passes[n].id, passes[n].at, passes[n].actuals);
      hide Passes, PassMeasured, PassCrashes, GuardrailPass, Keyed;
      PassesKeep(w, path, rows, passes[..n], mid);
      PassKeeps(mid, path, passes[n].id, passes[n].at, passes[n].actuals);
    }
  }

  lemma PassPlain(w: World, mid: World, path: Path, p: Pass, rows: seq<AttributedEvent>)
    requires PassAllowed(mid, path, p, rows) && mid.experiments.Keys == w.experiments.Keys
    requires forall id :: id in w.experiments ==> Plain(id)
    ensures Plain(p.id)
  {
    hide PassMeasured, PassCrashes;
  }

  lemma OneMorePlain(passes: seq<Pass>, n: nat)
    requires n + 1 == |passes| && AllPlain(passes[..n]) && Plain(passes[n].id)
    ensures AllPlain(passes)
  {
    hide Plain;
    assert forall i :: 0 <= i < n ==> passes[..n][i] == passes[i];
  }

  lemma {:induction false} AllPassesPlain(w: World, path: Path, rows: seq<AttributedEvent>, passes: seq<Pass>,
                                          after: World)
    requires Keyed(w) && Passes(w, path, rows, passes, after) && forall id :: id in w.experiments ==> Plain(id)
    ensures AllPlain(passes)
  {
    if passes != [] {
      var n := |passes| - 1;
      var mid :| Passes(w, path, rows, passes[..n], mid) && PassAllowed(mid, path, passes[n], rows)
        && after == GuardrailPass(mid, path, passes[n].id, passes[n].at, passes[n].actuals);
      hide Passes, PassAllowed, PassMeasured, PassCrashes, GuardrailPass, Plain, Keyed, AllPlain;
      PassesKeep(w, path, rows, passes[..n], mid);
      PassPlain(w, mid, path, passes[n], rows);
      AllPassesPlain(w, path, rows, passes[..n], mid);
      OneMorePlain(passes, n);
    }
  }

  // ---- A worker's batch ----------------------------------------------------

  /** The pass evaluates the job's experiment at the end of the job's minute. */
  predicate Evaluates(p: Pass, job: Jobs.Job) {
    p.id == job.experimentID && p.at == job.windowTo
  }

  lemma {:induction false} EvaluatedJobs(claimed: seq<Jobs.Job>, known: set<string>)
    ensures var jobs := GuardrailWorker.Evaluated(claimed, known);
      && |jobs| == Tally(claimed, (job: Jobs.Job) => job.experimentID in known)
      && forall job :: job in jobs <==> job in claimed && job.experimentID in known
  {
    if claimed != [] {
      var n := |claimed| - 1;
      assert claimed == claimed[..n] + [claimed[n]];
      EvaluatedJobs(claimed[..n], known);
    }
  }

  /** Every claimed job of a known experiment gets one evaluation, of that experiment at the end of
      the job's minute; there are no others. */
  lemma EvaluatedExactly(claimed: seq<Jobs.Job>, known: set<string>, passes: seq<Pass>)
    requires GuardrailWorker.PassesFor(passes, GuardrailWorker.Evaluated(claimed, known))
    ensures |passes| == Tally(claimed, (job: Jobs.Job) => job.experimentID in known)
    ensures forall job :: job in claimed && job.experimentID in known ==> exists p :: p in passes && Evaluates(p, job)
    ensures forall p :: p in passes ==> exists job :: job in claimed && job.experimentID in known && Evaluates(p, job)
  {
    var jobs := GuardrailWorker.Evaluated(claimed, known);
    EvaluatedJobs(claimed, known);
    hide GuardrailWorker.Evaluated, Tally;
    forall job | job in jobs ensures exists p :: p in passes && Evaluates(p, job) {
      var i :| 0 <= i < |jobs| && jobs[i] == job;
      assert passes[i] in passes && Evaluates(passes[i], job);
    }
    forall p | p in passes ensures exists job :: job in jobs && Evaluates(p, job) {
      var i :| 0 <= i < |passes| && passes[i] == p;
      assert jobs[i] in jobs && Evaluates(p, jobs[i]);
    }
  }
}
