/** When the scan's division by a rule's window fails. A window of zero is stored and measured
    like any other; only a breach reaches the division. */
module GuardrailLaws {
  import opened Common
  import opened Events
  import opened Experiments
  import opened ExperimentService
  import Reports

  /** A window without length has no rows. */
  lemma NoRowsInEmptyWindow(report: seq<Reports.VariantReport>, rows: seq<AttributedEvent>, experimentID: string,
                            from: Time, to: Time, key: string)
    requires to <= from && Reports.Measured(report, rows, experimentID, from, to)
    ensures forall i :: 0 <= i < |report| ==> Reports.Value(report[i], key) == 0.0
  {
    forall i | 0 <= i < |report| ensures Reports.Value(report[i], key) == 0.0 {
      Reports.NoRows(rows, experimentID, report[i].variantName, from, to);
      assert report[i].metrics == Reports.MetricsOf([]);
    }
  }

  lemma {:induction false} ZeroControl(report: seq<Reports.VariantReport>, key: string)
    requires forall i :: 0 <= i < |report| ==> Reports.Value(report[i], key) == 0.0
    ensures Reports.FirstControl(report, key) == 0.0
  {
    if report != [] {
      ZeroControl(report[1..], key);
    }
  }

  /** A rule whose window is not positive measures zero. */
  lemma EmptyWindowMeasuresZero(e: Experiment, rule: GuardrailRule, at: Time, rows: seq<AttributedEvent>, actual: real)
    requires rule.windowSeconds <= 0 && Measured(e, rule, at, rows, actual)
    ensures actual == 0.0
  {
    hide Reports.IsMaxDelta, Reports.MetricsOf, Reports.RowsFor, Reports.ControlName;
    var report :| Yields(report, e, rule, at, rows, actual);
    NoRowsInEmptyWindow(report, rows, e.id, at - rule.windowSeconds * SECOND, at, rule.metricKey);
    ZeroDelta(report, rule.metricKey, actual);
  }

  lemma ZeroDelta(report: seq<Reports.VariantReport>, key: string, r: real)
    requires forall i :: 0 <= i < |report| ==> Reports.Value(report[i], key) == 0.0
    requires Reports.IsMaxDelta(report, key, Reports.ControlValue(report, key), r)
    ensures r == 0.0
  {
    hide Reports.ControlName;
    ZeroControl(report, key);
    assert Reports.ControlValue(report, key) == 0.0;
  }

  /** A pause rule that divides by zero when it is reached. */
  predicate Fatal(rule: GuardrailRule) {
    rule.action == PAUSE && rule.windowSeconds == 0 && rule.threshold < 0.0
  }

  /** A fatal rule that no firing rule comes before. */
  predicate FatalReached(w: World, e: Experiment, i: nat, at: Time, actuals: seq<real>)
    requires i < |e.guardrails| == |actuals|
  {
    Fatal(e.guardrails[i]) && forall j :: 0 <= j < i ==> !Fires(w, Scan, e, j, at, actuals)
  }

  /** A scan of a running experiment divides by zero if and only if a pause rule with window
      zero and a negative threshold is reached before any rule fires. */
  lemma ScanCrashesExactly(w: World, p: Pass, rows: seq<AttributedEvent>)
    requires p.id in w.experiments && |w.experiments[p.id].guardrails| == |p.actuals|
    requires PassMeasured(w, Scan, p, rows)
    ensures var e := w.experiments[p.id];
      PassCrashes(w, Scan, e, p.at, p.actuals) <==>
        exists i :: 0 <= i < |p.actuals| && FatalReached(w, e, i, p.at, p.actuals)
  {
    hide Measured;
    var e := w.experiments[p.id];
    var first := FirstEnding(w, Scan, e, 0, p.at, p.actuals);
    if PassCrashes(w, Scan, e, p.at, p.actuals) {
      var i := first.value;
      EmptyWindowMeasuresZero(e, e.guardrails[i], p.at, rows, p.actuals[i]);
      BeforeEnding(w, Scan, e, i, p.at, p.actuals);
      assert FatalReached(w, e, i, p.at, p.actuals);
    }
    forall i | 0 <= i < |p.actuals| && FatalReached(w, e, i, p.at, p.actuals)
      ensures PassCrashes(w, Scan, e, p.at, p.actuals) {
      if first.None? || first.value >= i {
        EmptyWindowMeasuresZero(e, e.guardrails[i], p.at, rows, p.actuals[i]);
        assert Ends(w, Scan, e, i, p.at, p.actuals);
      }
    }
  }

  /** Without a fatal rule no scan crashes, whatever windows and thresholds the rules have. */
  lemma NoFatalRuleNoCrash(w: World, p: Pass, rows: seq<AttributedEvent>)
    requires p.id in w.experiments && |w.experiments[p.id].guardrails| == |p.actuals|
    requires forall rule :: rule in w.experiments[p.id].guardrails ==> !Fatal(rule)
    ensures !CrashedOn(w, Scan, p, rows)
  {
    hide Measured;
    if CrashedOn(w, Scan, p, rows) {
      ScanCrashesExactly(w, p, rows);
    }
  }

  /** An experiment whose only rule is fatal crashes every scan of it while it runs. */
  lemma FatalRuleCrashes(w: World, p: Pass, rows: seq<AttributedEvent>, metricKey: string)
    requires p.id in w.experiments && |w.experiments[p.id].guardrails| == |p.actuals|
    requires w.experiments[p.id].guardrails == [GuardrailRule(metricKey, -1.0, 0, PAUSE)]
    requires PassMeasured(w, Scan, p, rows)
    ensures PassCrashes(w, Scan, w.experiments[p.id], p.at, p.actuals)
  {
    assert FatalReached(w, w.experiments[p.id], 0, p.at, p.actuals);
    ScanCrashesExactly(w, p, rows);
  }
}
