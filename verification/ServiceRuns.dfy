/** The service's larger calls as steps of the two state machines, which share the decisions:
    guardrail passes and exposures on the experiment side, issued decisions on the event side. */
module ServiceRuns {
  import opened Common
  import opened Events
  import opened Experiments
  import opened ExperimentService
  import opened Selection
  import R = ExperimentRuns
  import S = EventSteps
  import E = EventRuns
  import O = EventOrder
  import Targeting

  // ---- Guardrail passes ----------------------------------------------------

  function GuardOps(path: Path, passes: seq<Pass>): seq<R.Op> {
    seq(|passes|, i requires 0 <= i < |passes| => R.Guard(path, passes[i].id, passes[i].at, passes[i].actuals))
  }

  lemma RunNext(cfg: Settings, ops: seq<R.Op>, w: World, op: R.Op)
    requires R.Run(cfg, ops, w) && R.Enabled(cfg, w, op)
    ensures R.Run(cfg, ops + [op], R.Apply(cfg, w, op))
  {
    var longer := ops + [op];
    assert longer[..|longer| - 1] == ops && longer[|longer| - 1] == op;
    assert R.Run(cfg, longer[..|longer| - 1], w) && R.Enabled(cfg, w, longer[|longer| - 1]);
  }

  lemma GuardNext(cfg: Settings, ops: seq<R.Op>, w: World, path: Path, p: Pass, rows: seq<AttributedEvent>)
    requires R.Run(cfg, ops, w) && PassAllowed(w, path, p, rows)
    ensures R.Run(cfg, ops + [R.Guard(path, p.id, p.at, p.actuals)], GuardrailPass(w, path, p.id, p.at, p.actuals))
  {
    hide R.Run, PassMeasured, PassCrashes, GuardrailPass;
    RunNext(cfg, ops, w, R.Guard(path, p.id, p.at, p.actuals));
  }

  /** The passes of a scan or of a worker's batch are guardrail steps of a run. */
  lemma {:induction false} PassesAreRun(cfg: Settings, ops: seq<R.Op>, w: World, path: Path,
                                        rows: seq<AttributedEvent>, passes: seq<Pass>, after: World)
    requires R.Run(cfg, ops, w) && Passes(w, path, rows, passes, after)
    ensures R.Run(cfg, ops + GuardOps(path, passes), after)
  {
    hide R.Run, PassMeasured, PassCrashes, GuardrailPass;
    if passes == [] {
      assert ops + GuardOps(path, passes) == ops;
    } else {
      var n := |passes| - 1;
      var mid :| Passes(w, path, rows, passes[..n], mid) && PassAllowed(mid, path, passes[n], rows)
        && after == GuardrailPass(mid, path, passes[n].id, passes[n].at, passes[n].actuals);
      PassesAreRun(cfg, ops, w, path, rows, passes[..n], mid);
      GuardNext(cfg, ops + GuardOps(path, passes[..n]), mid, path, passes[n], rows);
      assert ops + GuardOps(path, passes) == ops + GuardOps(path, passes[..n])
        + [R.Guard(path, passes[n].id, passes[n].at, passes[n].actuals)];
    }
  }

  /** They keep every invariant of the experiment service. */
  lemma {:induction false} PassesSound(cfg: Settings, w: World, path: Path, rows: seq<AttributedEvent>,
                                       passes: seq<Pass>, after: World)
    requires R.Sound(cfg, w) && Passes(w, path, rows, passes, after)
    ensures R.Sound(cfg, after)
  {
    if passes != [] {
      var n := |passes| - 1;
      var mid :| Passes(w, path, rows, passes[..n], mid) && PassAllowed(mid, path, passes[n], rows)
        && after == GuardrailPass(mid, path, passes[n].id, passes[n].at, passes[n].actuals);
      PassesSound(cfg, w, path, rows, passes[..n], mid);
      R.GuardSound(cfg, mid, path, passes[n].id, passes[n].at, passes[n].actuals);
    }
  }

  // ---- Decisions issued ----------------------------------------------------

  function Issues(ds: seq<Decision>): seq<S.Op> {
    seq(|ds|, i requires 0 <= i < |ds| => S.Issue(ds[i]))
  }

  lemma DecisionNew(cfg: Settings, w: World, subjectID: string, key: string, top: set<string>, id: string, now: Time)
    requires key in w.flags
    ensures var d := DecisionFor(cfg, w, subjectID, key, top, id, now);
      d.id == id && !d.exposed
  {
  }

  /** What `Decide` records is unexposed and takes its ids from the supply in turn. */
  lemma {:induction false} DecisionsNew(cfg: Settings, w: World, subjectID: string, keys: seq<string>, top: set<string>,
                                        ids: seq<string>, now: Time)
    requires |keys| <= |ids|
    ensures var ds := Decisions(cfg, w, subjectID, keys, top, ids, now);
      forall i :: 0 <= i < |ds| ==> ds[i].id == ids[i] && !ds[i].exposed
  {
    var ds := Decisions(cfg, w, subjectID, keys, top, ids, now);
    if keys != [] {
      var n := |keys| - 1;
      var before := Decisions(cfg, w, subjectID, keys[..n], top, ids, now);
      DecisionsNew(cfg, w, subjectID, keys[..n], top, ids, now);
      if keys[n] in w.flags {
        var d := DecisionFor(cfg, w, subjectID, keys[n], top, ids[|before|], now);
        DecisionNew(cfg, w, subjectID, keys[n], top, ids[|before|], now);
        hide DecisionFor;
        assert ds == before + [d];
      } else {
        assert ds == before;
      }
    }
  }

  lemma {:induction false} RunAppends(naming: S.Naming, st: State, ops: seq<S.Op>, mid: State, op: S.Op)
    requires S.Run(naming, st, ops, mid) && S.Enabled(naming, mid, op)
    ensures S.Run(naming, st, ops + [op], S.Apply(mid, op))
    decreases |ops|
  {
    var longer := ops + [op];
    if ops == [] {
      assert longer[1..] == [] && S.Run(naming, S.Apply(mid, op), [], S.Apply(mid, op));
    } else {
      assert longer[1..] == ops[1..] + [op] && longer[0] == ops[0];
      RunAppends(naming, S.Apply(st, ops[0]), ops[1..], mid, op);
    }
  }

  /** Distinct new decisions, each allowed by the naming. */
  ghost predicate Issuable(naming: S.Naming, st: State, ds: seq<Decision>) {
    && (forall i, j :: 0 <= i < j < |ds| ==> ds[i].id != ds[j].id)
    && (forall i :: 0 <= i < |ds| ==> S.Allowed(naming, st, ds[i]))
  }

  lemma {:induction false} IssuingRun(naming: S.Naming, st: State, ds: seq<Decision>)
    requires Issuable(naming, st, ds)
    ensures S.Run(naming, st, Issues(ds), st.(decisions := PutDecisions(st.decisions, ds)))
  {
    if ds != [] {
      var n := |ds| - 1;
      var mid := st.(decisions := PutDecisions(st.decisions, ds[..n]));
      IssuingRun(naming, st, ds[..n]);
      R.PutDecisionsKeeps(st.decisions, ds[..n], ds[n].id);
      assert S.Allowed(naming, st, ds[n]);
      assert S.Allowed(naming, mid, ds[n]);
      RunAppends(naming, st, Issues(ds[..n]), mid, S.Issue(ds[n]));
      assert Issues(ds) == Issues(ds[..n]) + [S.Issue(ds[n])];
    }
  }

  /** On the event side `Decide` is a run that issues its decisions, if no stored event names
      the ids that the naming asks to be unnamed. */
  lemma DecideIsIssuing(naming: S.Naming, cfg: Settings, w: World, st: State, subjectID: string, keys: seq<string>,
                        top: set<string>, ids: seq<string>, now: Time)
    requires st.decisions == w.decisions && FreshIDs(w, ids) && |keys| <= |ids|
    requires var ds := Decisions(cfg, w, subjectID, keys, top, ids, now);
      forall i :: 0 <= i < |ds| ==>
        S.Unnamed(st, ids[i]) || (naming == S.InsideExperiments && ds[i].experimentID == "")
    ensures var ds := Decisions(cfg, w, subjectID, keys, top, ids, now);
      S.Run(naming, st, Issues(ds), st.(decisions := PutDecisions(w.decisions, ds)))
  {
    var ds := Decisions(cfg, w, subjectID, keys, top, ids, now);
    DecisionsNew(cfg, w, subjectID, keys, top, ids, now);
    hide Decisions;
    forall i, j | 0 <= i < j < |ds| ensures ds[i].id != ds[j].id {
      assert ids[i] != ids[j];
    }
    forall i | 0 <= i < |ds| ensures S.Allowed(naming, st, ds[i]) {
      assert ids[i] in ids;
    }
    IssuingRun(naming, st, ds);
  }

  // ---- Exposures -----------------------------------------------------------

  lemma IngestOneMarks(st: State, raw: Event, now: Time)
    ensures var after := IngestOne(st, raw, now).0;
      after.decisions == st.decisions || after.decisions == MarkExposed(st.decisions, raw.decisionID)
  {
    var e := Stamp(raw, now);
    E.IngestOneIs(st, raw, now);
    if Refusal(st.types, raw, now).None? && e.id !in st.events && st.types[e.typ].key == EXPOSURE {
      O.ExposeEffect(st.(events := st.events[e.id := e]), e);
    }
  }

  /** On the experiment side ingestion is a run of exposures. */
  lemma {:induction false} IngestIsExposing(cfg: Settings, ops: seq<R.Op>, w: World, st: State,
                                            batch: seq<Event>, now: Time)
    returns (longer: seq<R.Op>)
    requires R.Run(cfg, ops, w) && w.decisions == st.decisions
    ensures ops <= longer
    ensures R.Run(cfg, longer, w.(decisions := IngestBatch(st, batch, now).0.decisions))
  {
    if batch == [] {
      longer := ops;
    } else {
      var n := |batch| - 1;
      var before := IngestBatch(st, batch[..n], now).0;
      longer := IngestIsExposing(cfg, ops, w, st, batch[..n], now);
      var mid := w.(decisions := before.decisions);
      IngestOneMarks(before, batch[n], now);
      if IngestOne(before, batch[n], now).0.decisions != before.decisions {
        RunNext(cfg, longer, mid, R.Expose(batch[n].decisionID));
        longer := longer + [R.Expose(batch[n].decisionID)];
      }
    }
  }
}
