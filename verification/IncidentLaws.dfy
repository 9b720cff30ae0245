/** Guardrail incidents: which breaches share one, what a pass says when it pauses, and that
    passes over different experiments do not disturb each other. */
module IncidentLaws {
  import opened Common
  import opened Experiments
  import opened ExperimentRuns
  import opened ExperimentLaws
  import Assignment

  // ---- Keys ----------------------------------------------------------------

  /** Without the character that separates the parts of an incident key. */
  predicate Plain(s: string) {
    '|' !in s
  }

  /** Before the first separator the shorter part ends in one, where the longer goes on. */
  lemma ShorterHead(a: string, b: string, x: string, y: string)
    requires Plain(b) && |a| < |b|
    ensures a + "|" + x != b + "|" + y
  {
    assert (a + "|" + x)[|a|] == '|';
    assert (b + "|" + y)[|a|] == b[|a|];
  }

  lemma ShorterTail(a: string, b: string, x: string, y: string)
    requires Plain(x) && |a| < |b|
    ensures a + "|" + x != b + "|" + y
  {
    var s, t := a + "|" + x, b + "|" + y;
    if |s| == |t| {
      assert t[|b|] == '|';
      assert s[|b|] == x[|b| - |a| - 1];
    }
  }

  lemma SplitAt(a: string, b: string, x: string, y: string)
    requires |a| == |b| && a + "|" + x == b + "|" + y
    ensures a == b && x == y
  {
    var s, t := a + "|" + x, b + "|" + y;
    assert a == s[..|a|] && b == t[..|b|];
    assert x == s[|a| + 1..] && y == t[|b| + 1..];
  }

  lemma FirstBar(a: string, b: string, x: string, y: string)
    requires Plain(a) && Plain(b) && a + "|" + x == b + "|" + y
    ensures a == b && x == y
  {
    if |a| < |b| {
      ShorterHead(a, b, x, y);
    } else if |b| < |a| {
      ShorterHead(b, a, y, x);
    } else {
      SplitAt(a, b, x, y);
    }
  }

  lemma LastBar(a: string, b: string, x: string, y: string)
    requires Plain(x) && Plain(y) && a + "|" + x == b + "|" + y
    ensures a == b && x == y
  {
    if |a| < |b| {
      ShorterTail(a, b, x, y);
    } else if |b| < |a| {
      ShorterTail(b, a, y, x);
    } else {
      SplitAt(a, b, x, y);
    }
  }

  lemma {:induction false} DecimalPlain(n: int)
    ensures Plain(Decimal(n))
    decreases if n < 0 then 1 - n else n
  {
    if n < 0 {
      DecimalPlain(-n);
    } else if n >= 10 {
      DecimalPlain(n / 10);
    }
  }

  /** Experiments never share an incident, on any path, for any rules and instants. */
  lemma IncidentsApart(p: Path, q: Path, a: string, b: string, r: GuardrailRule, s: GuardrailRule,
                       at: Time, other: Time)
    requires a != b && Plain(a) && Plain(b) && Divisible(p, r) && Divisible(q, s)
    ensures IncidentKey(p, a, r, at) != IncidentKey(q, b, s, other)
  {
    var x := r.metricKey + "|" + r.action + "|" + Decimal(IncidentBucket(p, r, at));
    var y := s.metricKey + "|" + s.action + "|" + Decimal(IncidentBucket(q, s, other));
    assert IncidentKey(p, a, r, at) == a + "|" + x;
    assert IncidentKey(q, b, s, other) == b + "|" + y;
    if a + "|" + x == b + "|" + y {
      FirstBar(a, b, x, y);
    }
  }

  lemma PauseKey(path: Path, id: string, rule: GuardrailRule, at: Time)
    requires rule.action == "pause" && Divisible(path, rule)
    ensures IncidentKey(path, id, rule, at)
      == id + "|" + rule.metricKey + "|pause|" + Decimal(IncidentBucket(path, rule, at))
  {
    var bucket := Decimal(IncidentBucket(path, rule, at));
    assert IncidentKey(path, id, rule, at) == id + "|" + rule.metricKey + "|" + "pause" + "|" + bucket;
  }

  /** Two pause rules of one experiment share an incident if and only if they watch one metric
      and their instants fall in buckets of one number. */
  lemma SharedExactly(p: Path, q: Path, id: string, r: GuardrailRule, s: GuardrailRule, at: Time, other: Time)
    requires r.action == s.action == "pause" && Divisible(p, r) && Divisible(q, s)
    ensures IncidentKey(p, id, r, at) == IncidentKey(q, id, s, other)
      <==> r.metricKey == s.metricKey && IncidentBucket(p, r, at) == IncidentBucket(q, s, other)
  {
    PauseKey(p, id, r, at);
    PauseKey(q, id, s, other);
    var m, n := IncidentBucket(p, r, at), IncidentBucket(q, s, other);
    var a, b := id + "|" + r.metricKey + "|pause", id + "|" + s.metricKey + "|pause";
    assert IncidentKey(p, id, r, at) == a + "|" + Decimal(m);
    assert IncidentKey(q, id, s, other) == b + "|" + Decimal(n);
    if a + "|" + Decimal(m) == b + "|" + Decimal(n) {
      DecimalPlain(m);
      DecimalPlain(n);
      LastBar(a, b, Decimal(m), Decimal(n));
      DecimalInjective(m, n);
      var tail := |id| + 1;
      assert r.metricKey == a[tail..|a| - 6] && s.metricKey == b[tail..|b| - 6];
    }
  }

  /** The instant `n` units of seconds after the Unix epoch. */
  function SlotStart(n: int, unit: int): Time {
    (62_135_596_800 + n * unit) * 1_000_000_000
  }

  /** From the epoch on, bucket n holds the instants of the n-th unit after it; the unit is the
      rule's window, and for a worker at least one second. */
  lemma BucketExactly(path: Path, rule: GuardrailRule, at: Time, n: int, unit: int)
    requires Divisible(path, rule) && at >= SlotStart(0, 1)
    requires unit == (if path == Worker && rule.windowSeconds < 1 then 1 else rule.windowSeconds) && unit > 0
    ensures IncidentBucket(path, rule, at) == n <==> SlotStart(n, unit) <= at < SlotStart(n + 1, unit)
  {
    var u := Unix(at);
    assert IncidentBucket(path, rule, at) == u / unit;
    assert u == unit * (u / unit) + u % unit;
    Quotient(u, unit, n);
    assert (n + 1) * unit == n * unit + unit;
    assert n * unit <= u <==> SlotStart(n, unit) <= at;
    assert u < n * unit + unit <==> at < SlotStart(n + 1, unit);
  }

  lemma Quotient(u: int, unit: int, n: int)
    requires unit > 0
    ensures u / unit == n <==> n * unit <= u < n * unit + unit
  {
    var m := u / unit;
    assert u == unit * m + u % unit;
    if m < n {
      Assignment.Multiply(m + 1, n, unit);
      assert (m + 1) * unit == unit * m + unit;
    } else if m > n {
      Assignment.Multiply(n + 1, m, unit);
      assert (n + 1) * unit == n * unit + unit;
    }
  }

  // ---- One pass ------------------------------------------------------------

  /** Rule i asks for a pause: the metric is above its threshold. */
  predicate Alarms(e: Experiment, i: nat, actuals: seq<real>)
    requires i < |e.guardrails| == |actuals|
  {
    e.guardrails[i].action == "pause" && actuals[i] > e.guardrails[i].threshold
  }

  /** The scan would divide by the rule's window of zero. */
  predicate ZeroDivides(path: Path, rule: GuardrailRule) {
    path == Scan && rule.windowSeconds == 0
  }

  /** Rule i alarms with an unused incident, and neither it nor an alarming rule before it divides
      by zero. */
  predicate WouldPause(w: World, path: Path, e: Experiment, i: nat, at: Time, actuals: seq<real>)
    requires i < |e.guardrails| == |actuals|
  {
    && Alarms(e, i, actuals)
    && (forall j :: 0 <= j <= i && Alarms(e, j, actuals) ==> !ZeroDivides(path, e.guardrails[j]))
    && e.id + "|" + e.guardrails[i].metricKey + "|pause|" + Decimal(IncidentBucket(path, e.guardrails[i], at))
       !in w.incidents
  }

  lemma WouldPauseExactly(w: World, path: Path, e: Experiment, i: nat, at: Time, actuals: seq<real>)
    requires i < |e.guardrails| == |actuals|
    ensures WouldPause(w, path, e, i, at, actuals) <==>
      Fires(w, path, e, i, at, actuals) && NoCrashBefore(path, e, i, actuals)
  {
    if Alarms(e, i, actuals) && Divisible(path, e.guardrails[i]) {
      PauseKey(path, e.id, e.guardrails[i], at);
    }
    forall j | 0 <= j <= i
      ensures Crashes(path, e, j, actuals) <==> Alarms(e, j, actuals) && ZeroDivides(path, e.guardrails[j]) {
    }
    hide IncidentKey, IncidentBucket, Decimal;
  }

  /** The guardrail log gets the alarming rules up to rule i, with their values and the instant. */
  predicate LogsAlarms(e: Experiment, i: nat, at: Time, actuals: seq<real>, added: seq<GuardrailTrigger>)
    requires i <= |e.guardrails| == |actuals|
  {
    && (forall j :: 0 <= j < i && Alarms(e, j, actuals) ==>
          GuardrailTrigger(e.guardrails[j], actuals[j], at) in added)
    && forall t :: t in added ==>
         exists j :: 0 <= j < i && Alarms(e, j, actuals) && t == GuardrailTrigger(e.guardrails[j], actuals[j], at)
  }

  lemma {:induction false} TriggersLog(e: Experiment, i: nat, at: Time, actuals: seq<real>)
    requires i <= |e.guardrails| == |actuals|
    ensures LogsAlarms(e, i, at, actuals, Triggers(e.guardrails, actuals, i, at))
  {
    if i > 0 {
      TriggersLog(e, i - 1, at, actuals);
    }
  }

  /** Of the first rule that pauses: the experiment is paused at the instant with its alarms
      logged, otherwise unchanged; the incident is used and reported once, by the system. */
  ghost predicate PausedByRule(w: World, path: Path, e: Experiment, i: nat, at: Time, actuals: seq<real>, after: World)
    requires i < |e.guardrails| == |actuals|
  {
    && WouldPause(w, path, e, i, at, actuals)
    && (forall j :: 0 <= j < i ==> !WouldPause(w, path, e, j, at, actuals))
    && var key := e.id + "|" + e.guardrails[i].metricKey + "|pause|"
         + Decimal(IncidentBucket(path, e.guardrails[i], at));
    && after.incidents == w.incidents + {key}
    && after.audit == w.audit + [Audit(e.id, GuardrailTriggered, "system", Some(key))]
    && exists added ::
         && LogsAlarms(e, i + 1, at, actuals, added)
         && after.experiments == w.experiments[e.id :=
              e.(status := Paused, updatedAt := at, guardrailLog := e.guardrailLog + added)]
  }

  /** A pass over a running experiment stores something if and only if some rule pauses, and then
      exactly what the first such rule asks for. */
  lemma PassExactly(w: World, path: Path, id: string, at: Time, actuals: seq<real>)
    requires Keyed(w) && id in w.experiments && w.experiments[id].status == Running
    requires |w.experiments[id].guardrails| == |actuals|
    ensures var e, after := w.experiments[id], GuardrailPass(w, path, id, at, actuals);
      if exists i :: 0 <= i < |actuals| && WouldPause(w, path, e, i, at, actuals)
      then exists i :: 0 <= i < |actuals| && PausedByRule(w, path, e, i, at, actuals, after)
      else after == w
  {
    var e, after := w.experiments[id], GuardrailPass(w, path, id, at, actuals);
    forall i | 0 <= i < |actuals|
      ensures WouldPause(w, path, e, i, at, actuals) <==>
        Fires(w, path, e, i, at, actuals) && NoCrashBefore(path, e, i, actuals) {
      WouldPauseExactly(w, path, e, i, at, actuals);
    }
    FiringExactly(w, path, e, at, actuals);
    var first := FirstFiring(w, path, e, at, actuals);
    hide WouldPause, Fires, NoCrashBefore;
    if first.Some? {
      FirstPauses(w, path, e, at, actuals, after);
    }
  }

  lemma FirstPauses(w: World, path: Path, e: Experiment, at: Time, actuals: seq<real>, after: World)
    requires |e.guardrails| == |actuals| && FirstFiring(w, path, e, at, actuals).Some?
    requires after == Fired(w, path, e, FirstFiring(w, path, e, at, actuals).value, at, actuals)
    ensures PausedByRule(w, path, e, FirstFiring(w, path, e, at, actuals).value, at, actuals, after)
  {
    var i := FirstFiring(w, path, e, at, actuals).value;
    var added := Triggers(e.guardrails, actuals, i + 1, at);
    BeforeEnding(w, path, e, i, at, actuals);
    forall j | 0 <= j <= i ensures WouldPause(w, path, e, j, at, actuals) <==> Fires(w, path, e, j, at, actuals) {
      WouldPauseExactly(w, path, e, j, at, actuals);
    }
    TriggersLog(e, i + 1, at, actuals);
    PauseKey(path, e.id, e.guardrails[i], at);
    hide WouldPause, Fires, FirstFiring, FirstEnding, IncidentKey, IncidentBucket, Decimal, LogsAlarms, Triggers;
  }

  // ---- Two experiments -----------------------------------------------------

  /** The pass finds the experiment as it would in `v`. */
  ghost predicate SamePass(w: World, v: World, path: Path, id: string, at: Time, actuals: seq<real>)
    requires id in w.experiments && id in v.experiments
    requires |w.experiments[id].guardrails| == |v.experiments[id].guardrails| == |actuals|
  {
    var after, other := GuardrailPass(w, path, id, at, actuals), GuardrailPass(v, path, id, at, actuals);
    && w.experiments[id] == v.experiments[id]
    && after.experiments[id] == other.experiments[id]
    && after.incidents - w.incidents == other.incidents - v.incidents
    && FirstFiring(w, path, w.experiments[id], at, actuals) == FirstFiring(v, path, v.experiments[id], at, actuals)
    && (PassCrashes(w, path, w.experiments[id], at, actuals) <==> PassCrashes(v, path, v.experiments[id], at, actuals))
  }

  /** The incidents of an experiment that are used are the same. */
  ghost predicate SameIncidents(w: World, v: World, id: string) {
    forall path: Path, rule: GuardrailRule, at: Time :: Divisible(path, rule) ==>
      (IncidentKey(path, id, rule, at) in w.incidents <==> IncidentKey(path, id, rule, at) in v.incidents)
  }

  lemma {:induction false} SameEnding(w: World, v: World, path: Path, e: Experiment, from: nat, at: Time,
                                      actuals: seq<real>)
    requires from <= |e.guardrails| == |actuals| && SameIncidents(w, v, e.id)
    ensures FirstEnding(w, path, e, from, at, actuals) == FirstEnding(v, path, e, from, at, actuals)
    decreases |actuals| - from
  {
    if from < |actuals| {
      assert Fires(w, path, e, from, at, actuals) <==> Fires(v, path, e, from, at, actuals);
      SameEnding(w, v, path, e, from + 1, at, actuals);
    }
  }

  lemma PassTouches(w: World, path: Path, id: string, at: Time, actuals: seq<real>, other: string)
    requires Keyed(w) && id in w.experiments && |w.experiments[id].guardrails| == |actuals|
    requires Plain(id) && Plain(other) && other != id
    ensures SameIncidents(w, GuardrailPass(w, path, id, at, actuals), other)
    ensures other in w.experiments ==>
      other in GuardrailPass(w, path, id, at, actuals).experiments
      && GuardrailPass(w, path, id, at, actuals).experiments[other] == w.experiments[other]
  {
    var e, after := w.experiments[id], GuardrailPass(w, path, id, at, actuals);
    var first := FirstFiring(w, path, e, at, actuals);
    forall q: Path, rule: GuardrailRule, later: Time | Divisible(q, rule)
      ensures IncidentKey(q, other, rule, later) in w.incidents
        <==> IncidentKey(q, other, rule, later) in after.incidents {
      if first.Some? {
        IncidentsApart(path, q, id, other, e.guardrails[first.value], rule, at, later);
      }
    }
  }

  /** A pass over one experiment leaves it entirely to the other's own state whether, and with what
      effect, a pass over the other pauses it. */
  lemma PassesIndependent(w: World, p: Path, a: string, at: Time, xs: seq<real>,
                          q: Path, b: string, other: Time, ys: seq<real>)
    requires Keyed(w) && a in w.experiments && b in w.experiments && a != b && Plain(a) && Plain(b)
    requires |w.experiments[a].guardrails| == |xs| && |w.experiments[b].guardrails| == |ys|
    ensures var mid := GuardrailPass(w, p, a, at, xs);
      b in mid.experiments && mid.experiments[b] == w.experiments[b] && SamePass(mid, w, q, b, other, ys)
  {
    var mid := GuardrailPass(w, p, a, at, xs);
    PassTouches(w, p, a, at, xs, b);
    SameEnding(w, mid, q, w.experiments[b], 0, other, ys);
    SameEffect(w, mid, q, b, other, ys);
  }

  lemma SameEffect(w: World, v: World, path: Path, id: string, at: Time, actuals: seq<real>)
    requires Keyed(w) && id in w.experiments && id in v.experiments && w.experiments[id] == v.experiments[id]
    requires |w.experiments[id].guardrails| == |actuals| && SameIncidents(w, v, id)
    requires FirstEnding(w, path, w.experiments[id], 0, at, actuals)
      == FirstEnding(v, path, w.experiments[id], 0, at, actuals)
    ensures SamePass(v, w, path, id, at, actuals)
  {
    hide FirstEnding, IncidentKey;
  }

  lemma PassAdds(w: World, path: Path, id: string, at: Time, actuals: seq<real>)
    requires Keyed(w) && id in w.experiments && |w.experiments[id].guardrails| == |actuals|
    ensures var after := GuardrailPass(w, path, id, at, actuals);
      && id in after.experiments && after.experiments == w.experiments[id := after.experiments[id]]
      && after.experiments[id].guardrails == w.experiments[id].guardrails
      && w.incidents <= after.incidents && Keyed(after)
  {
    hide FirstFiring, IncidentKey, Triggers, Divisible;
  }

  /** The order of two passes over different experiments matters only for the order of their
      audit entries. */
  lemma PassesCommute(w: World, p: Path, a: string, at: Time, xs: seq<real>,
                      q: Path, b: string, other: Time, ys: seq<real>)
    requires Keyed(w) && a in w.experiments && b in w.experiments && a != b && Plain(a) && Plain(b)
    requires |w.experiments[a].guardrails| == |xs| && |w.experiments[b].guardrails| == |ys|
    ensures var ab := GuardrailPass(GuardrailPass(w, p, a, at, xs), q, b, other, ys);
      var ba := GuardrailPass(GuardrailPass(w, q, b, other, ys), p, a, at, xs);
      ab.experiments == ba.experiments && ab.incidents == ba.incidents
  {
    hide GuardrailPass, FirstFiring, PassCrashes, Keyed, Plain;
    var wa, wb := GuardrailPass(w, p, a, at, xs), GuardrailPass(w, q, b, other, ys);
    PassAdds(w, p, a, at, xs);
    PassAdds(w, q, b, other, ys);
    PassAdds(wa, q, b, other, ys);
    PassAdds(wb, p, a, at, xs);
    PassesIndependent(w, p, a, at, xs, q, b, other, ys);
    PassesIndependent(w, q, b, other, ys, p, a, at, xs);
    var ab, ba := GuardrailPass(wa, q, b, other, ys), GuardrailPass(wb, p, a, at, xs);
    assert ab.experiments == w.experiments[a := wa.experiments[a]][b := wb.experiments[b]];
    assert ba.experiments == w.experiments[b := wb.experiments[b]][a := wa.experiments[a]];
    assert ab.incidents == wa.incidents + (wb.incidents - w.incidents);
    assert ba.incidents == wb.incidents + (wa.incidents - w.incidents);
  }

  // ---- Runs ----------------------------------------------------------------

  /** Every used incident was reported for the experiment it is named after. */
  ghost predicate Reported(w: World, key: string, id: string, suffix: string) {
    && key == id + "|" + suffix && Plain(id)
    && GuardrailTriggered in Trail(w.audit, id)
  }

  ghost predicate IncidentsReported(w: World) {
    && (forall id :: id in w.experiments ==> Plain(id))
    && forall key :: key in w.incidents ==> exists id, suffix :: Reported(w, key, id, suffix)
  }

  /** New experiments get plain ids, as the service's own are. */
  predicate PlainIDs(ops: seq<Op>) {
    forall i :: 0 <= i < |ops| && ops[i].Create? ==> Plain(ops[i].newID)
  }

  lemma TrailGrows(w: World, after: World, entry: Audit, id: string)
    requires after.audit == w.audit || after.audit == w.audit + [entry]
    ensures GuardrailTriggered in Trail(w.audit, id) ==> GuardrailTriggered in Trail(after.audit, id)
    ensures after.audit != w.audit && entry.entityID == id && entry.action == GuardrailTriggered ==>
      GuardrailTriggered in Trail(after.audit, id)
  {
    TrailNext(w.audit, entry, id);
  }

  lemma ReportsKept(w: World, after: World, entry: Audit)
    requires IncidentsReported(w) && after.incidents == w.incidents
    requires after.audit == w.audit || after.audit == w.audit + [entry]
    requires forall id :: id in after.experiments ==> Plain(id)
    ensures IncidentsReported(after)
  {
    forall key | key in after.incidents ensures exists id, suffix :: Reported(after, key, id, suffix) {
      var id, suffix :| Reported(w, key, id, suffix);
      TrailGrows(w, after, entry, id);
      assert Reported(after, key, id, suffix);
    }
  }

  lemma GuardReports(w: World, path: Path, id: string, at: Time, actuals: seq<real>)
    requires Keyed(w) && IncidentsReported(w)
    requires id in w.experiments ==> |w.experiments[id].guardrails| == |actuals|
    ensures IncidentsReported(GuardrailPass(w, path, id, at, actuals))
  {
    var after := GuardrailPass(w, path, id, at, actuals);
    if after != w {
      var e := w.experiments[id];
      var rule := e.guardrails[FirstFiring(w, path, e, at, actuals).value];
      var key := IncidentKey(path, id, rule, at);
      var suffix := rule.metricKey + "|" + rule.action + "|" + Decimal(IncidentBucket(path, rule, at));
      var entry := Audit(id, GuardrailTriggered, "system", Some(key));
      assert key == id + "|" + suffix;
      assert after.audit == w.audit + [entry] && after.incidents == w.incidents + {key};
      assert after.experiments.Keys == w.experiments.Keys;
      TrailGrows(w, after, entry, id);
      assert Reported(after, key, id, suffix);
      hide GuardrailPass, FirstFiring, IncidentKey, Trail;
      ReportsKept(w, after.(incidents := w.incidents), entry);
      forall k | k in after.incidents ensures exists x, y :: Reported(after, k, x, y) {
        if k != key {
          var x, y :| Reported(after.(incidents := w.incidents), k, x, y);
          assert Reported(after, k, x, y);
        }
      }
    }
  }

  lemma OtherReports(cfg: Settings, w: World, op: Op)
    requires Sound(cfg, w) && IncidentsReported(w) && Enabled(cfg, w, op) && !op.Guard?
    requires op.Create? ==> Plain(op.newID)
    ensures IncidentsReported(Apply(cfg, w, op))
  {
    var after := Apply(cfg, w, op);
    match op
    case Create(actor, input, newID, now) =>
      ReportsKept(w, after, Audit(newID, ExperimentCreated, actor.id, None));
    case Perform(actor, id, command, now) =>
      var plan := Plan(w, actor, id, command, now);
      if plan.Ok? {
        PlanSafe(w, actor, id, command, now);
        hide Plan, SafeChange;
        ReportsKept(w, after, Audit(id, plan.value.action, actor.id, None));
      }
    case Replayed(id) => ReportsKept(w, after, Audit(id, AttributionReplayed, "system", None));
    case PutFlag(_) => ReportsKept(w, after, Audit("", ExperimentCreated, "", None));
    case PutUser(_) => ReportsKept(w, after, Audit("", ExperimentCreated, "", None));
    case PutPolicy(_) => ReportsKept(w, after, Audit("", ExperimentCreated, "", None));
    case Decide(_, _, _, _, _, _) => ReportsKept(w, after, Audit("", ExperimentCreated, "", None));
    case Expose(_) => ReportsKept(w, after, Audit("", ExperimentCreated, "", None));
  }

  lemma {:induction false} RunReports(cfg: Settings, ops: seq<Op>, w: World)
    requires Run(cfg, ops, w) && PlainIDs(ops)
    ensures IncidentsReported(w)
  {
    if ops != [] {
      var n := |ops| - 1;
      var before :| Run(cfg, ops[..n], before) && Enabled(cfg, before, ops[n]) && w == Apply(cfg, before, ops[n]);
      RunSound(cfg, ops[..n], before);
      RunReports(cfg, ops[..n], before);
      if ops[n].Guard? {
        GuardReports(before, ops[n].path, ops[n].guarded, ops[n].when, ops[n].actuals);
      } else {
        OtherReports(cfg, before, ops[n]);
      }
    }
  }

  /** An alarm of an experiment that no guardrail has paused yet has an unused incident. */
  lemma FirstAlarmIsNew(w: World, path: Path, id: string, at: Time, actuals: seq<real>, i: nat)
    requires Keyed(w) && IncidentsReported(w) && id in w.experiments
    requires GuardrailTriggered !in Trail(w.audit, id)
    requires i < |w.experiments[id].guardrails| == |actuals| && Alarms(w.experiments[id], i, actuals)
    requires forall j :: 0 <= j <= i && Alarms(w.experiments[id], j, actuals) ==>
      !ZeroDivides(path, w.experiments[id].guardrails[j])
    ensures WouldPause(w, path, w.experiments[id], i, at, actuals)
  {
    var e := w.experiments[id];
    var suffix := e.guardrails[i].metricKey + "|pause|" + Decimal(IncidentBucket(path, e.guardrails[i], at));
    var key := id + "|" + e.guardrails[i].metricKey + "|pause|" + Decimal(IncidentBucket(path, e.guardrails[i], at));
    assert key == id + "|" + suffix;
    if key in w.incidents {
      var x, y :| Reported(w, key, x, y);
      FirstBar(id, x, suffix, y);
    }
  }

  /** In every reachable state a running experiment that no guardrail has paused yet is paused by
      the first pass that finds an alarm, whatever happened to other experiments, if no alarming
      rule divides by zero. */
  lemma FirstAlarmPauses(cfg: Settings, ops: seq<Op>, w: World, path: Path, id: string, at: Time,
                         actuals: seq<real>, i: nat)
    requires Run(cfg, ops, w) && PlainIDs(ops) && id in w.experiments && w.experiments[id].status == Running
    requires GuardrailTriggered !in Trail(w.audit, id)
    requires i < |w.experiments[id].guardrails| == |actuals| && Alarms(w.experiments[id], i, actuals)
    requires forall j :: 0 <= j <= i && Alarms(w.experiments[id], j, actuals) ==>
      !ZeroDivides(path, w.experiments[id].guardrails[j])
    ensures GuardrailPass(w, path, id, at, actuals).experiments[id].status == Paused
  {
    RunSound(cfg, ops, w);
    RunReports(cfg, ops, w);
    FirstAlarmIsNew(w, path, id, at, actuals, i);
    PassExactly(w, path, id, at, actuals);
    hide GuardrailPass, Trail, Run, Sound, WouldPause;
  }
}
