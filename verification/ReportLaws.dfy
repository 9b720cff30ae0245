/** What the numbers of a report mean, said of the rows they are taken from, and what a guardrail
    compares. */
module ReportLaws {
  import opened Common
  import opened Events
  import opened Reports
  import X = Experiments
  import ES = ExperimentService

  // ---- Counting ------------------------------------------------------------

  /** The row is of the experiment's variant, in the window. */
  predicate OfVariant(r: AttributedEvent, experimentID: string, variant: string, from: Time, to: Time) {
    r.experimentID == experimentID && r.variantName == variant && from <= r.occurredAt < to
  }

  /** How many rows of one type the variant has in the window. */
  function Count(rows: seq<AttributedEvent>, experimentID: string, variant: string, from: Time, to: Time, typ: string)
    : nat
  {
    Tally(rows, (r: AttributedEvent) => OfVariant(r, experimentID, variant, from, to) && r.typ == typ)
  }

  /** The row carries a latency sample. */
  predicate Timed(r: AttributedEvent) {
    r.typ == "latency" && r.properties.Some? && "ms" in r.properties.value && r.properties.value["ms"].Number?
  }

  function Milliseconds(r: AttributedEvent): real
    requires Timed(r)
  {
    r.properties.value["ms"].n
  }

  /** How many latency samples the variant has in the window. */
  function Samples(rows: seq<AttributedEvent>, experimentID: string, variant: string, from: Time, to: Time): nat {
    Tally(rows, (r: AttributedEvent) => OfVariant(r, experimentID, variant, from, to) && Timed(r))
  }

  /** How many of them are at most `x`. */
  function SamplesUpTo(rows: seq<AttributedEvent>, experimentID: string, variant: string, from: Time, to: Time,
                       x: real): nat
  {
    Tally(rows, (r: AttributedEvent) =>
      OfVariant(r, experimentID, variant, from, to) && Timed(r) && Milliseconds(r) <= x)
  }

  /** Their sum. */
  function SampleSum(rows: seq<AttributedEvent>, experimentID: string, variant: string, from: Time, to: Time): real {
    if rows == [] then 0.0
    else
      var r := rows[|rows| - 1];
      SampleSum(rows[..|rows| - 1], experimentID, variant, from, to)
      + if OfVariant(r, experimentID, variant, from, to) && Timed(r) then Milliseconds(r) else 0.0
  }

  lemma CountNext(rows: seq<AttributedEvent>, r: AttributedEvent, experimentID: string, variant: string,
                  from: Time, to: Time, typ: string)
    ensures Count(rows + [r], experimentID, variant, from, to, typ) == Count(rows, experimentID, variant, from, to, typ)
      + if OfVariant(r, experimentID, variant, from, to) && r.typ == typ then 1 else 0
  {
    assert (rows + [r])[..|rows|] == rows;
  }

  lemma SamplesNext(rows: seq<AttributedEvent>, r: AttributedEvent, experimentID: string, variant: string,
                    from: Time, to: Time, x: real)
    ensures var more := OfVariant(r, experimentID, variant, from, to) && Timed(r);
      && Samples(rows + [r], experimentID, variant, from, to)
         == Samples(rows, experimentID, variant, from, to) + (if more then 1 else 0)
      && SampleSum(rows + [r], experimentID, variant, from, to)
         == SampleSum(rows, experimentID, variant, from, to) + (if more then Milliseconds(r) else 0.0)
      && SamplesUpTo(rows + [r], experimentID, variant, from, to, x)
         == SamplesUpTo(rows, experimentID, variant, from, to, x) + (if more && Milliseconds(r) <= x then 1 else 0)
  {
    assert (rows + [r])[..|rows|] == rows;
    hide OfVariant, Timed;
  }

  lemma {:induction false} CountIs(rows: seq<AttributedEvent>, experimentID: string, variant: string,
                                   from: Time, to: Time, typ: string)
    ensures CountType(RowsFor(rows, experimentID, variant, from, to), typ)
      == Count(rows, experimentID, variant, from, to, typ)
  {
    if rows != [] {
      var n := |rows| - 1;
      assert rows == rows[..n] + [rows[n]];
      CountIs(rows[..n], experimentID, variant, from, to, typ);
      RowsForStep(rows[..n], rows[n], experimentID, variant, from, to);
      CountStep(RowsFor(rows[..n], experimentID, variant, from, to), rows[n], typ);
      CountNext(rows[..n], rows[n], experimentID, variant, from, to, typ);
      hide CountType, RowsFor, Count;
    }
  }

  lemma LatencyStep(rows: seq<AttributedEvent>, r: AttributedEvent, x: real)
    ensures var before, after := Latencies(rows), Latencies(rows + [r]);
      if Timed(r) then
        |after| == |before| + 1 && Sum(after) == Sum(before) + Milliseconds(r)
        && AtMost(after, x) == AtMost(before, x) + if Milliseconds(r) <= x then 1 else 0
      else after == before
  {
    assert (rows + [r])[..|rows|] == rows;
    if Timed(r) {
      var before, v := Latencies(rows), Milliseconds(r);
      assert (before + [v])[..|before|] == before;
      AtMostConcat(before, [v], x);
    }
  }

  lemma {:induction false} SamplesAre(rows: seq<AttributedEvent>, experimentID: string, variant: string,
                                      from: Time, to: Time, x: real)
    ensures var values := Latencies(RowsFor(rows, experimentID, variant, from, to));
      && |values| == Samples(rows, experimentID, variant, from, to)
      && Sum(values) == SampleSum(rows, experimentID, variant, from, to)
      && AtMost(values, x) == SamplesUpTo(rows, experimentID, variant, from, to, x)
  {
    if rows != [] {
      var n := |rows| - 1;
      assert rows == rows[..n] + [rows[n]];
      SamplesAre(rows[..n], experimentID, variant, from, to, x);
      RowsForStep(rows[..n], rows[n], experimentID, variant, from, to);
      LatencyStep(RowsFor(rows[..n], experimentID, variant, from, to), rows[n], x);
      SamplesNext(rows[..n], rows[n], experimentID, variant, from, to, x);
      hide Latencies, RowsFor, Samples, SampleSum, SamplesUpTo, Sum, AtMost, Timed;
    }
  }

  // ---- One variant's line --------------------------------------------------

  /** Over nothing the rate is zero; otherwise rate times base is the part. */
  predicate IsRate(rate: real, part: real, base: real) {
    if base == 0.0 then rate == 0.0 else rate * base == part
  }

  ghost predicate CountsRight(m: Metrics, rows: seq<AttributedEvent>, experimentID: string, variant: string,
                              from: Time, to: Time)
  {
    && m.Keys == {"impressions", "conversions", "conversion_rate", "errors", "error_rate", "avg_latency", "p95_latency"}
    && m["impressions"] == Count(rows, experimentID, variant, from, to, "exposure") as real
    && m["conversions"] == Count(rows, experimentID, variant, from, to, "conversion") as real
    && m["errors"] == Count(rows, experimentID, variant, from, to, "error") as real
    && IsRate(m["conversion_rate"], m["conversions"], m["impressions"])
    && IsRate(m["error_rate"], m["errors"], m["impressions"])
  }

  /** The average times the number of samples is their sum; the percentile is the least number that
      enough samples are at most: one more than 95 percent of the others, rounded down. */
  ghost predicate LatenciesRight(m: Metrics, rows: seq<AttributedEvent>, experimentID: string, variant: string,
                                 from: Time, to: Time)
  {
    var n := Samples(rows, experimentID, variant, from, to);
    && "avg_latency" in m && "p95_latency" in m
    && IsRate(m["avg_latency"], SampleSum(rows, experimentID, variant, from, to), n as real)
    && if n == 0 then m["p95_latency"] == 0.0
       else forall x :: x >= m["p95_latency"] <==>
              SamplesUpTo(rows, experimentID, variant, from, to, x) > (n - 1) * 95 / 100
  }

  lemma CountsAreRight(rows: seq<AttributedEvent>, experimentID: string, variant: string, from: Time, to: Time)
    ensures CountsRight(MetricsOf(RowsFor(rows, experimentID, variant, from, to)), rows, experimentID, variant,
                        from, to)
  {
    CountIs(rows, experimentID, variant, from, to, "exposure");
    CountIs(rows, experimentID, variant, from, to, "conversion");
    CountIs(rows, experimentID, variant, from, to, "error");
    hide CountType, RowsFor, Count, Latencies, Average, Percentile95;
  }

  lemma PercentileExactly(rows: seq<AttributedEvent>, experimentID: string, variant: string, from: Time, to: Time,
                          x: real)
    requires Samples(rows, experimentID, variant, from, to) > 0
    ensures var values := Latencies(RowsFor(rows, experimentID, variant, from, to));
      x >= Percentile95(values) <==>
        SamplesUpTo(rows, experimentID, variant, from, to, x)
          > (Samples(rows, experimentID, variant, from, to) - 1) * 95 / 100
  {
    var values := Latencies(RowsFor(rows, experimentID, variant, from, to));
    SamplesAre(rows, experimentID, variant, from, to, x);
    PercentileRank(values);
    if x >= Percentile95(values) {
      MoreAtMost(values, Percentile95(values), x);
    }
    hide Latencies, RowsFor, Samples, SamplesUpTo, Percentile95, AtMost;
  }

  lemma LatenciesAreRight(rows: seq<AttributedEvent>, experimentID: string, variant: string, from: Time, to: Time)
    ensures LatenciesRight(MetricsOf(RowsFor(rows, experimentID, variant, from, to)), rows, experimentID, variant,
                           from, to)
  {
    var mine := RowsFor(rows, experimentID, variant, from, to);
    var values := Latencies(mine);
    SamplesAre(rows, experimentID, variant, from, to, 0.0);
    assert MetricsOf(mine)["avg_latency"] == Average(values) && MetricsOf(mine)["p95_latency"] == Percentile95(values);
    AverageIs(values);
    assert values == [] ==> Percentile95(values) == 0.0;
    if values != [] {
      forall x ensures x >= Percentile95(values) <==>
        SamplesUpTo(rows, experimentID, variant, from, to, x)
          > (Samples(rows, experimentID, variant, from, to) - 1) * 95 / 100 {
        PercentileExactly(rows, experimentID, variant, from, to, x);
      }
    }
    hide CountType, RowsFor, Samples, SamplesUpTo, SampleSum, Latencies, Percentile95, Sum, MetricsOf, Average;
  }

  lemma AverageIs(values: seq<real>)
    ensures IsRate(Average(values), Sum(values), |values| as real)
  {
  }

  lemma {:induction false} MoreAtMost(values: seq<real>, x: real, y: real)
    requires x <= y
    ensures AtMost(values, x) <= AtMost(values, y)
  {
    if values != [] {
      MoreAtMost(values[1..], x, y);
    }
  }

  // ---- A report ------------------------------------------------------------

  ghost predicate Listed(report: seq<VariantReport>, name: string) {
    exists i :: 0 <= i < |report| && report[i].variantName == name
  }

  /** The variant is configured or has rows in the window. */
  ghost predicate HasLine(configured: seq<string>, rows: seq<AttributedEvent>, experimentID: string,
                          from: Time, to: Time, name: string)
  {
    name in configured || exists r :: r in rows && OfVariant(r, experimentID, name, from, to)
  }

  ghost predicate NamesVariants(report: seq<VariantReport>, configured: seq<string>, rows: seq<AttributedEvent>,
                                experimentID: string, from: Time, to: Time)
  {
    forall name :: Listed(report, name) <==> HasLine(configured, rows, experimentID, from, to, name)
  }

  /** One line per variant that is configured or has rows in the window, each with the numbers of
      its own rows. */
  ghost predicate TrueReport(report: seq<VariantReport>, configured: seq<string>, rows: seq<AttributedEvent>,
                             experimentID: string, from: Time, to: Time)
  {
    && (forall i, j :: 0 <= i < j < |report| ==> report[i].variantName != report[j].variantName)
    && NamesVariants(report, configured, rows, experimentID, from, to)
    && forall i :: 0 <= i < |report| ==>
         && CountsRight(report[i].metrics, rows, experimentID, report[i].variantName, from, to)
         && LatenciesRight(report[i].metrics, rows, experimentID, report[i].variantName, from, to)
  }

  lemma NamesRight(report: seq<VariantReport>, configured: seq<string>, rows: seq<AttributedEvent>,
                   experimentID: string, from: Time, to: Time, name: string)
    requires Lists(Names(report), ReportNames(configured, rows, experimentID, from, to))
    ensures Listed(report, name) <==> HasLine(configured, rows, experimentID, from, to, name)
  {
    var names := Names(report);
    if i :| 0 <= i < |report| && report[i].variantName == name {
      assert names[i] in names;
    }
    forall r | r in rows && OfVariant(r, experimentID, name, from, to)
      ensures Reports.Reported(r, experimentID, from, to) {
    }
    if name in ReportNames(configured, rows, experimentID, from, to) {
      assert name in names;
      var i :| 0 <= i < |names| && names[i] == name;
      assert report[i].variantName == name;
      if name !in configured {
        var r :| r in rows && Reports.Reported(r, experimentID, from, to) && r.variantName == name;
        assert OfVariant(r, experimentID, name, from, to);
      }
    }
  }

  lemma NamedInReport(report: seq<VariantReport>, configured: seq<string>, rows: seq<AttributedEvent>,
                      experimentID: string, from: Time, to: Time)
    requires Lists(Names(report), ReportNames(configured, rows, experimentID, from, to))
    ensures NamesVariants(report, configured, rows, experimentID, from, to)
  {
    forall name ensures Listed(report, name) <==> HasLine(configured, rows, experimentID, from, to, name) {
      NamesRight(report, configured, rows, experimentID, from, to, name);
    }
  }

  /** Every report, however the map listed its variants, is true of the rows. */
  lemma ReportsAreTrue(report: seq<VariantReport>, configured: seq<string>, rows: seq<AttributedEvent>,
                       experimentID: string, from: Time, to: Time)
    requires IsReport(report, configured, rows, experimentID, from, to)
    ensures TrueReport(report, configured, rows, experimentID, from, to)
  {
    forall i, j | 0 <= i < j < |report| ensures report[i].variantName != report[j].variantName {
      assert Names(report)[i] != Names(report)[j];
    }
    NamedInReport(report, configured, rows, experimentID, from, to);
    forall i | 0 <= i < |report|
      ensures CountsRight(report[i].metrics, rows, experimentID, report[i].variantName, from, to)
      ensures LatenciesRight(report[i].metrics, rows, experimentID, report[i].variantName, from, to) {
      CountsAreRight(rows, experimentID, report[i].variantName, from, to);
      LatenciesAreRight(rows, experimentID, report[i].variantName, from, to);
    }
    hide CountsRight, LatenciesRight, MetricsOf, RowsFor, ReportNames, OfVariant, IsReport;
  }

  // ---- The guardrail's comparison ------------------------------------------

  /** "A" or "control", in any mixture of cases. */
  predicate ControlLike(name: string) {
    || name == "A" || name == "a"
    || (|name| == 7 && forall i :: 0 <= i < 7 ==> name[i] == "control"[i] || name[i] == "CONTROL"[i])
  }

  lemma FoldsTo(c: char, lower: char)
    requires 'a' <= lower <= 'z'
    ensures LowerCase(c) == lower <==> c == lower || c as int == lower as int - 32
  {
  }

  lemma ControlExactly(name: string)
    ensures ControlName(name) <==> ControlLike(name)
  {
    ControlWord(name);
    if |name| == 1 {
      FoldsTo(name[0], 'a');
      assert name == [name[0]];
    }
  }

  lemma ControlWord(name: string)
    ensures EqualFold(name, "control") <==>
      |name| == 7 && forall i :: 0 <= i < 7 ==> name[i] == "control"[i] || name[i] == "CONTROL"[i]
  {
    var small, capital := "control", "CONTROL";
    forall i | 0 <= i < 7 && |name| == 7
      ensures LowerCase(name[i]) == LowerCase(small[i]) <==> name[i] == small[i] || name[i] == capital[i] {
      FoldsTo(name[i], small[i]);
      assert capital[i] as int == small[i] as int - 32;
    }
  }

  /** Variant c is the one the others are compared with: the first that is named as control, or
      the first of all if none is. */
  ghost predicate Compared(report: seq<VariantReport>, c: nat) {
    && c < |report|
    && if exists i :: 0 <= i < |report| && ControlLike(report[i].variantName)
       then ControlLike(report[c].variantName) && forall i :: 0 <= i < c ==> !ControlLike(report[i].variantName)
       else c == 0
  }

  /** The largest excess of a listed variant over the compared one, which is never below zero; a
      metric that a variant lacks counts as zero. */
  ghost predicate TrueExcess(report: seq<VariantReport>, key: string, r: real) {
    if report == [] then r == 0.0
    else exists c: nat :: Compared(report, c) && LargestExcess(report, key, report[c], r)
  }

  function MetricOf(v: VariantReport, key: string): real {
    if key in v.metrics then v.metrics[key] else 0.0
  }

  ghost predicate LargestExcess(report: seq<VariantReport>, key: string, control: VariantReport, r: real) {
    && (forall v :: v in report ==> MetricOf(v, key) <= MetricOf(control, key) + r)
    && exists v :: v in report && MetricOf(v, key) == MetricOf(control, key) + r
  }

  lemma {:induction false} FirstControlAt(report: seq<VariantReport>, key: string, c: nat)
    requires c < |report| && ControlName(report[c].variantName)
    requires forall i :: 0 <= i < c ==> !ControlName(report[i].variantName)
    ensures FirstControl(report, key) == Value(report[c], key)
  {
    if c > 0 {
      FirstControlAt(report[1..], key, c - 1);
    }
  }

  lemma ComparedExists(report: seq<VariantReport>, key: string) returns (c: nat)
    requires report != []
    ensures Compared(report, c) && ControlValue(report, key) == MetricOf(report[c], key)
  {
    forall i | 0 <= i < |report| ensures ControlName(report[i].variantName) <==> ControlLike(report[i].variantName) {
      ControlExactly(report[i].variantName);
    }
    c := 0;
    hide ControlName, ControlLike;
    if exists i :: 0 <= i < |report| && ControlLike(report[i].variantName) {
      while !ControlLike(report[c].variantName)
        invariant c < |report| && forall i :: 0 <= i < c ==> !ControlLike(report[i].variantName)
        decreases |report| - c
      {
        c := c + 1;
      }
      FirstControlAt(report, key, c);
    }
  }

  /** The guardrail metric is the largest excess over the control. */
  lemma ExcessIsTrue(report: seq<VariantReport>, key: string, r: real)
    requires IsMaxDelta(report, key, ControlValue(report, key), r)
    ensures TrueExcess(report, key, r)
  {
    if report != [] {
      var c := ComparedExists(report, key);
      assert report[c] in report;
      hide ControlValue, Compared;
      forall v | v in report ensures MetricOf(v, key) <= MetricOf(report[c], key) + r {
        var i :| 0 <= i < |report| && report[i] == v;
        assert Value(report[i], key) - MetricOf(report[c], key) <= r;
      }
      if r != 0.0 {
        var i :| 0 <= i < |report| && Value(report[i], key) - MetricOf(report[c], key) == r;
        assert report[i] in report;
      }
    }
  }

  /** What a rule measures at an instant: the excess, in a true report over the rule's window,
      which ends before the instant and starts its length earlier. */
  lemma RuleMeasures(e: X.Experiment, rule: X.GuardrailRule, at: Time, rows: seq<AttributedEvent>, actual: real)
    returns (report: seq<VariantReport>)
    requires ES.Measured(e, rule, at, rows, actual)
    ensures TrueReport(report, ES.VariantNames(e.variants), rows, e.id,
                       at - rule.windowSeconds * 1_000_000_000, at)
    ensures TrueExcess(report, rule.metricKey, actual)
  {
    hide IsReport, IsMaxDelta, TrueReport, TrueExcess;
    report :| ES.Yields(report, e, rule, at, rows, actual);
    ReportsAreTrue(report, ES.VariantNames(e.variants), rows, e.id, at - rule.windowSeconds * SECOND, at);
    ExcessIsTrue(report, rule.metricKey, actual);
  }

  /** Rows of other experiments and variants or outside the window add nothing to a variant's
      numbers. */
  lemma {:induction false} OnlyTheWindowMatters(rows: seq<AttributedEvent>, others: seq<AttributedEvent>,
                                                experimentID: string, variant: string, from: Time, to: Time,
                                                typ: string, x: real)
    requires forall r :: r in others ==> !OfVariant(r, experimentID, variant, from, to)
    ensures Count(rows + others, experimentID, variant, from, to, typ)
      == Count(rows, experimentID, variant, from, to, typ)
    ensures Samples(rows + others, experimentID, variant, from, to) == Samples(rows, experimentID, variant, from, to)
    ensures SampleSum(rows + others, experimentID, variant, from, to)
      == SampleSum(rows, experimentID, variant, from, to)
    ensures SamplesUpTo(rows + others, experimentID, variant, from, to, x)
      == SamplesUpTo(rows, experimentID, variant, from, to, x)
    decreases |others|
  {
    if others == [] {
      assert rows + others == rows;
    } else {
      var n := |others| - 1;
      var all := rows + others;
      assert all[..|all| - 1] == rows + others[..n] && all[|all| - 1] == others[n];
      OnlyTheWindowMatters(rows, others[..n], experimentID, variant, from, to, typ, x);
    }
  }
}
