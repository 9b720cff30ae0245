/** Reports per variant over a half-open window, and the metric a guardrail compares. */
module Reports {
  import opened Common
  import opened Events

  type Metrics = map<string, real>

  datatype VariantReport = VariantReport(variantName: string, metrics: Metrics)

  // ---- Counting ------------------------------------------------------------

  predicate Reported(e: AttributedEvent, experimentID: string, from: Time, to: Time) {
    e.experimentID == experimentID && InWindow(e.occurredAt, from, to)
  }

  /** The window's rows of one variant, in store order. */
  function RowsFor(rows: seq<AttributedEvent>, experimentID: string, variant: string, from: Time, to: Time)
    : seq<AttributedEvent>
  {
    if rows == [] then []
    else
      var n := |rows| - 1;
      RowsFor(rows[..n], experimentID, variant, from, to)
      + (if Reported(rows[n], experimentID, from, to) && rows[n].variantName == variant then [rows[n]] else [])
  }

  function CountType(rows: seq<AttributedEvent>, typ: string): nat {
    if rows == [] then 0
    else CountType(rows[..|rows| - 1], typ) + if rows[|rows| - 1].typ == typ then 1 else 0
  }

  /** The latency sample a row carries, if any. */
  function Sample(e: AttributedEvent): Option<real> {
    match e.properties
    case None => None
    case Some(p) => if "ms" in p && p["ms"].Number? then Some(p["ms"].n) else None
  }

  function Latencies(rows: seq<AttributedEvent>): seq<real> {
    if rows == [] then []
    else
      var e := rows[|rows| - 1];
      Latencies(rows[..|rows| - 1])
      + (if e.typ == "latency" && Sample(e).Some? then [Sample(e).value] else [])
  }

  function Sum(values: seq<real>): real {
    if values == [] then 0.0 else Sum(values[..|values| - 1]) + values[|values| - 1]
  }

  function SafeDiv(a: real, b: real): real {
    if b == 0.0 then 0.0 else a / b
  }

  function Insert(sorted: seq<real>, v: real): (r: seq<real>)
    ensures |r| == |sorted| + 1
  {
    if sorted == [] || v <= sorted[0] then [v] + sorted else [sorted[0]] + Insert(sorted[1..], v)
  }

  /** `sort.Float64s`. */
  function SortReals(values: seq<real>): (r: seq<real>)
    ensures |r| == |values|
  {
    if values == [] then [] else Insert(SortReals(values[..|values| - 1]), values[|values| - 1])
  }

  function Average(values: seq<real>): real {
    if values == [] then 0.0 else Sum(values) / |values| as real
  }

  /** The sample at index ⌊0.95 (n−1)⌋ of the sorted samples. */
  function Percentile95(values: seq<real>): real {
    if values == [] then 0.0 else SortReals(values)[(|values| - 1) * 95 / 100]
  }

  predicate Ascending(s: seq<real>) {
    forall i, j :: 0 <= i < j < |s| ==> s[i] <= s[j]
  }

  /** How many samples are at most `x`. */
  function AtMost(values: seq<real>, x: real): nat {
    if values == [] then 0 else (if values[0] <= x then 1 else 0) + AtMost(values[1..], x)
  }

  lemma {:induction false} AtMostConcat(a: seq<real>, b: seq<real>, x: real)
    ensures AtMost(a + b, x) == AtMost(a, x) + AtMost(b, x)
  {
    if a == [] {
      assert a + b == b;
    } else {
      AtMostConcat(a[1..], b, x);
      assert (a + b)[1..] == a[1..] + b;
    }
  }

  lemma {:induction false} InsertAscending(sorted: seq<real>, v: real)
    requires Ascending(sorted)
    ensures Ascending(Insert(sorted, v))
    ensures forall x :: x in Insert(sorted, v) ==> x in sorted || x == v
  {
    if sorted != [] && v > sorted[0] {
      InsertAscending(sorted[1..], v);
      var t := Insert(sorted[1..], v);
      forall i | 0 <= i < |t| ensures sorted[0] <= t[i] {
        assert t[i] in t;
      }
    }
  }

  lemma {:induction false} InsertCounts(sorted: seq<real>, v: real, x: real)
    ensures AtMost(Insert(sorted, v), x) == AtMost(sorted, x) + if v <= x then 1 else 0
  {
    if sorted != [] && v > sorted[0] {
      InsertCounts(sorted[1..], v, x);
    } else {
      assert ([v] + sorted)[1..] == sorted;
    }
  }

  /** Sorting orders the samples, and neither adds nor loses one. */
  lemma {:induction false} SortingSorts(values: seq<real>)
    ensures Ascending(SortReals(values))
    ensures forall x :: x in SortReals(values) ==> x in values
    ensures forall x :: AtMost(SortReals(values), x) == AtMost(values, x)
  {
    if values != [] {
      var n := |values| - 1;
      var s := SortReals(values[..n]);
      SortingSorts(values[..n]);
      InsertAscending(s, values[n]);
      forall x ensures AtMost(SortReals(values), x) == AtMost(values, x) {
        InsertCounts(s, values[n], x);
        AtMostConcat(values[..n], [values[n]], x);
        assert values == values[..n] + [values[n]];
      }
    }
  }

  lemma {:induction false} AtMostBound(s: seq<real>, x: real)
    ensures AtMost(s, x) <= |s|
  {
    if s != [] {
      AtMostBound(s[1..], x);
    }
  }

  lemma {:induction false} AllAtMost(s: seq<real>, x: real)
    requires forall i :: 0 <= i < |s| ==> s[i] <= x
    ensures AtMost(s, x) == |s|
  {
    if s != [] {
      AllAtMost(s[1..], x);
    }
  }

  lemma {:induction false} NoneAtMost(s: seq<real>, x: real)
    requires forall i :: 0 <= i < |s| ==> s[i] > x
    ensures AtMost(s, x) == 0
  {
    if s != [] {
      NoneAtMost(s[1..], x);
    }
  }

  /** In ascending samples the one at index k has k + 1 at most it, and nothing less has. */
  lemma RankInAscending(s: seq<real>, k: nat, x: real)
    requires Ascending(s) && k < |s|
    ensures AtMost(s, s[k]) >= k + 1
    ensures x < s[k] ==> AtMost(s, x) < k + 1
  {
    EnoughAtMost(s, k);
    if x < s[k] {
      FewAtMost(s, k, x);
    }
  }

  lemma EnoughAtMost(s: seq<real>, k: nat)
    requires Ascending(s) && k < |s|
    ensures AtMost(s, s[k]) >= k + 1
  {
    hide AtMost;
    var low, high := s[..k + 1], s[k + 1..];
    assert s == low + high;
    AllAtMost(low, s[k]);
    AtMostConcat(low, high, s[k]);
  }

  lemma FewAtMost(s: seq<real>, k: nat, x: real)
    requires Ascending(s) && k < |s| && x < s[k]
    ensures AtMost(s, x) <= k
  {
    hide AtMost;
    var low, high := s[..k], s[k..];
    assert s == low + high;
    AtMostBound(low, x);
    NoneAtMost(high, x);
    AtMostConcat(low, high, x);
  }

  /** The 95th percentile is a sample, ⌊0.95 (n−1)⌋ + 1 samples or more are at most it, and no
      smaller number has as many. */
  lemma PercentileRank(values: seq<real>)
    requires values != []
    ensures var p, rank := Percentile95(values), (|values| - 1) * 95 / 100 + 1;
      && p in values && AtMost(values, p) >= rank
      && forall x :: x < p ==> AtMost(values, x) < rank
  {
    var s := SortReals(values);
    var k := (|values| - 1) * 95 / 100;
    SortingSorts(values);
    assert s[k] in s;
    forall x | x < s[k] ensures AtMost(values, x) < k + 1 {
      RankInAscending(s, k, x);
    }
    RankInAscending(s, k, s[k]);
  }

  function MetricsOf(rows: seq<AttributedEvent>): Metrics {
    var impressions := CountType(rows, EXPOSURE) as real;
    var conversions := CountType(rows, "conversion") as real;
    var errors := CountType(rows, "error") as real;
    var latencies := Latencies(rows);
    map[
      "impressions" := impressions,
      "conversions" := conversions,
      "conversion_rate" := SafeDiv(conversions, impressions),
      "errors" := errors,
      "error_rate" := SafeDiv(errors, impressions),
      "avg_latency" := Average(latencies),
      "p95_latency" := Percentile95(latencies)]
  }

  /** The variants a report lists: the configured ones and any that rows mention. */
  ghost function ReportNames(configured: seq<string>, rows: seq<AttributedEvent>,
                             experimentID: string, from: Time, to: Time): set<string>
  {
    (set n | n in configured)
    + (set e | e in rows && Reported(e, experimentID, from, to) :: e.variantName)
  }

  ghost function Names(report: seq<VariantReport>): seq<string> {
    seq(|report|, i requires 0 <= i < |report| => report[i].variantName)
  }

  ghost predicate Measured(report: seq<VariantReport>, rows: seq<AttributedEvent>,
                           experimentID: string, from: Time, to: Time)
  {
    forall i :: 0 <= i < |report| ==>
      report[i].metrics == MetricsOf(RowsFor(rows, experimentID, report[i].variantName, from, to))
  }

  /** A report lists each name once, in any order, with the metrics of its own rows. */
  ghost predicate IsReport(report: seq<VariantReport>, configured: seq<string>, rows: seq<AttributedEvent>,
                           experimentID: string, from: Time, to: Time)
  {
    && Lists(Names(report), ReportNames(configured, rows, experimentID, from, to))
    && Measured(report, rows, experimentID, from, to)
  }

  // ---- Building a report ---------------------------------------------------

  method VariantMetrics(rows: seq<AttributedEvent>) returns (metrics: Metrics)
    ensures metrics == MetricsOf(rows)
  {
    var impressions, conversions, errors := 0.0, 0.0, 0.0;
    var latencies := [];
    for i := 0 to |rows|
      invariant impressions == CountType(rows[..i], EXPOSURE) as real
      invariant conversions == CountType(rows[..i], "conversion") as real
      invariant errors == CountType(rows[..i], "error") as real
      invariant latencies == Latencies(rows[..i])
    {
      var e := rows[i];
      assert rows[..i + 1][..i] == rows[..i];
      if e.typ == EXPOSURE {
        impressions := impressions + 1.0;
      } else if e.typ == "conversion" {
        conversions := conversions + 1.0;
      } else if e.typ == "error" {
        errors := errors + 1.0;
      } else if e.typ == "latency" {
        if Sample(e).Some? { latencies := latencies + [Sample(e).value]; }
      }
    }
    assert rows[..|rows|] == rows;
    return map[
      "impressions" := impressions,
      "conversions" := conversions,
      "conversion_rate" := SafeDiv(conversions, impressions),
      "errors" := errors,
      "error_rate" := SafeDiv(errors, impressions),
      "avg_latency" := Average(latencies),
      "p95_latency" := Percentile95(latencies)];
  }

  lemma {:induction false} NoRows(rows: seq<AttributedEvent>, experimentID: string, variant: string,
                                  from: Time, to: Time)
    requires forall e :: e in rows && Reported(e, experimentID, from, to) ==> e.variantName != variant
    ensures RowsFor(rows, experimentID, variant, from, to) == []
  {
    if rows != [] {
      NoRows(rows[..|rows| - 1], experimentID, variant, from, to);
      assert rows[|rows| - 1] in rows;
    }
  }

  method GroupRows(configured: seq<string>, rows: seq<AttributedEvent>, experimentID: string, from: Time, to: Time)
    returns (groups: map<string, seq<AttributedEvent>>)
    ensures groups.Keys == ReportNames(configured, rows, experimentID, from, to)
    ensures forall v :: v in groups ==> groups[v] == RowsFor(rows, experimentID, v, from, to)
  {
    groups := map[];
    for i := 0 to |configured|
      invariant groups.Keys == set n | n in configured[..i]
      invariant forall v :: v in groups ==> groups[v] == []
    {
      groups := groups[configured[i] := []];
    }
    assert configured[..|configured|] == configured;
    for i := 0 to |rows|
      invariant groups.Keys == ReportNames(configured, rows[..i], experimentID, from, to)
      invariant forall v :: v in groups ==> groups[v] == RowsFor(rows[..i], experimentID, v, from, to)
    {
      var e := rows[i];
      assert rows[..i + 1][..i] == rows[..i] && rows[..i + 1] == rows[..i] + [e];
      if e.experimentID != experimentID { continue; }
      if e.occurredAt < from || !(e.occurredAt < to) { continue; }
      if e.variantName !in groups {
        NoRows(rows[..i], experimentID, e.variantName, from, to);
      }
      var group := if e.variantName in groups then groups[e.variantName] else [];
      groups := groups[e.variantName := group + [e]];
    }
    assert rows[..|rows|] == rows;
  }

  lemma MeasuredNext(report: seq<VariantReport>, v: VariantReport, rows: seq<AttributedEvent>,
                     experimentID: string, from: Time, to: Time)
    requires Measured(report, rows, experimentID, from, to)
    requires v.metrics == MetricsOf(RowsFor(rows, experimentID, v.variantName, from, to))
    ensures Measured(report + [v], rows, experimentID, from, to)
  {
  }

  lemma ListNext(report: seq<VariantReport>, v: VariantReport, all: set<string>, rest: set<string>)
    requires rest <= all && Lists(Names(report), all - rest) && v.variantName in rest
    ensures Lists(Names(report + [v]), all - (rest - {v.variantName}))
  {
    NoDuplicatesConcat(Names(report), [v.variantName]);
    assert Names(report + [v]) == Names(report) + [v.variantName];
  }

  /** Variants are listed in map iteration order: any order. */
  method BuildReport(configured: seq<string>, rows: seq<AttributedEvent>, experimentID: string, from: Time, to: Time)
    returns (report: seq<VariantReport>)
    ensures IsReport(report, configured, rows, experimentID, from, to)
  {
    var groups := GroupRows(configured, rows, experimentID, from, to);
    report := [];
    var rest := groups.Keys;
    while rest != {}
      invariant rest <= groups.Keys
      invariant Lists(Names(report), groups.Keys - rest)
      invariant Measured(report, rows, experimentID, from, to)
      decreases |rest|
    {
      var variant :| variant in rest;
      var metrics := VariantMetrics(groups[variant]);
      var entry := VariantReport(variant, metrics);
      MeasuredNext(report, entry, rows, experimentID, from, to);
      ListNext(report, entry, groups.Keys, rest);
      rest := rest - {variant};
      report := report + [entry];
    }
  }

  // ---- Conservation --------------------------------------------------------

  /** The experiment's rows of one type in the window. */
  function CountInWindow(rows: seq<AttributedEvent>, experimentID: string, typ: string, from: Time, to: Time): nat {
    if rows == [] then 0
    else
      var e := rows[|rows| - 1];
      CountInWindow(rows[..|rows| - 1], experimentID, typ, from, to)
      + if Reported(e, experimentID, from, to) && e.typ == typ then 1 else 0
  }

  function TotalFor(names: seq<string>, rows: seq<AttributedEvent>, experimentID: string, typ: string,
                    from: Time, to: Time): nat
  {
    if names == [] then 0
    else
      TotalFor(names[..|names| - 1], rows, experimentID, typ, from, to)
      + CountType(RowsFor(rows, experimentID, names[|names| - 1], from, to), typ)
  }

  lemma RowsForStep(rows: seq<AttributedEvent>, e: AttributedEvent, experimentID: string, variant: string,
                    from: Time, to: Time)
    ensures var before := RowsFor(rows, experimentID, variant, from, to);
      RowsFor(rows + [e], experimentID, variant, from, to)
        == if Reported(e, experimentID, from, to) && e.variantName == variant then before + [e] else before
  {
    var more := rows + [e];
    assert more[..|more| - 1] == rows;
  }

  lemma CountStep(rows: seq<AttributedEvent>, e: AttributedEvent, typ: string)
    ensures CountType(rows + [e], typ) == CountType(rows, typ) + if e.typ == typ then 1 else 0
  {
    var more := rows + [e];
    assert more[..|more| - 1] == rows;
  }

  lemma {:induction false} TotalStep(names: seq<string>, rows: seq<AttributedEvent>, e: AttributedEvent,
                                     experimentID: string, typ: string, from: Time, to: Time)
    requires NoDuplicates(names)
    ensures TotalFor(names, rows + [e], experimentID, typ, from, to)
         == TotalFor(names, rows, experimentID, typ, from, to)
          + if Reported(e, experimentID, from, to) && e.typ == typ && e.variantName in names then 1 else 0
  {
    if names != [] {
      var n := |names| - 1;
      assert names == names[..n] + [names[n]];
      TotalStep(names[..n], rows, e, experimentID, typ, from, to);
      assert e.variantName == names[n] ==> e.variantName !in names[..n];
      RowsForStep(rows, e, experimentID, names[n], from, to);
      CountStep(RowsFor(rows, experimentID, names[n], from, to), e, typ);
    }
  }

  lemma {:induction false} TotalEmpty(names: seq<string>, experimentID: string, typ: string, from: Time, to: Time)
    ensures TotalFor(names, [], experimentID, typ, from, to) == 0
  {
    if names != [] {
      TotalEmpty(names[..|names| - 1], experimentID, typ, from, to);
    }
  }

  lemma {:induction false} TotalIsCount(names: seq<string>, rows: seq<AttributedEvent>, experimentID: string,
                                        typ: string, from: Time, to: Time)
    requires NoDuplicates(names)
    requires forall e :: e in rows && Reported(e, experimentID, from, to) ==> e.variantName in names
    ensures TotalFor(names, rows, experimentID, typ, from, to) == CountInWindow(rows, experimentID, typ, from, to)
  {
    if rows == [] {
      TotalEmpty(names, experimentID, typ, from, to);
    } else {
      var n := |rows| - 1;
      assert rows == rows[..n] + [rows[n]];
      TotalIsCount(names, rows[..n], experimentID, typ, from, to);
      TotalStep(names, rows[..n], rows[n], experimentID, typ, from, to);
    }
  }

  /** A metric summed over the variants of a report. */
  function SumMetric(report: seq<VariantReport>, key: string): real {
    if report == [] then 0.0
    else
      var v := report[|report| - 1];
      SumMetric(report[..|report| - 1], key) + if key in v.metrics then v.metrics[key] else 0.0
  }

  datatype Counted = Counted(key: string, typ: string)

  const COUNTED: set<Counted> := {
    Counted("impressions", EXPOSURE), Counted("conversions", "conversion"), Counted("errors", "error")}

  lemma CountedMetric(rows: seq<AttributedEvent>, c: Counted)
    requires c in COUNTED
    ensures c.key in MetricsOf(rows) && MetricsOf(rows)[c.key] == CountType(rows, c.typ) as real
  {
  }

  lemma {:induction false} SumIsTotal(report: seq<VariantReport>, rows: seq<AttributedEvent>, c: Counted,
                                      experimentID: string, from: Time, to: Time)
    requires c in COUNTED && Measured(report, rows, experimentID, from, to)
    ensures SumMetric(report, c.key) == TotalFor(Names(report), rows, experimentID, c.typ, from, to) as real
  {
    if report != [] {
      var n := |report| - 1;
      SumIsTotal(report[..n], rows, c, experimentID, from, to);
      CountedMetric(RowsFor(rows, experimentID, report[n].variantName, from, to), c);
      assert Names(report)[..n] == Names(report[..n]);
    }
  }

  /** Nothing is lost or counted twice: impressions, conversions and errors summed over the
      variants are the experiment's rows of that type in the window. */
  lemma ReportsConserveCounts(report: seq<VariantReport>, configured: seq<string>, rows: seq<AttributedEvent>,
                              experimentID: string, from: Time, to: Time, c: Counted)
    requires IsReport(report, configured, rows, experimentID, from, to) && c in COUNTED
    ensures SumMetric(report, c.key) == CountInWindow(rows, experimentID, c.typ, from, to) as real
  {
    SumIsTotal(report, rows, c, experimentID, from, to);
    TotalIsCount(Names(report), rows, experimentID, c.typ, from, to);
  }

  lemma {:induction false} WindowsAdd(rows: seq<AttributedEvent>, experimentID: string, typ: string,
                                      from: Time, mid: Time, to: Time)
    requires from <= mid <= to
    ensures CountInWindow(rows, experimentID, typ, from, to)
         == CountInWindow(rows, experimentID, typ, from, mid) + CountInWindow(rows, experimentID, typ, mid, to)
  {
    if rows != [] {
      WindowsAdd(rows[..|rows| - 1], experimentID, typ, from, mid, to);
    }
  }

  /** Reports over adjacent windows add up to the report over their union. */
  lemma AdjacentReportsAdd(left: seq<VariantReport>, right: seq<VariantReport>, whole: seq<VariantReport>,
                           configured: seq<string>, rows: seq<AttributedEvent>, experimentID: string,
                           from: Time, mid: Time, to: Time, c: Counted)
    requires from <= mid <= to && c in COUNTED
    requires IsReport(left, configured, rows, experimentID, from, mid)
    requires IsReport(right, configured, rows, experimentID, mid, to)
    requires IsReport(whole, configured, rows, experimentID, from, to)
    ensures SumMetric(left, c.key) + SumMetric(right, c.key) == SumMetric(whole, c.key)
  {
    ReportsConserveCounts(left, configured, rows, experimentID, from, mid, c);
    ReportsConserveCounts(right, configured, rows, experimentID, mid, to, c);
    ReportsConserveCounts(whole, configured, rows, experimentID, from, to, c);
    WindowsAdd(rows, experimentID, c.typ, from, mid, to);
  }

  // ---- The guardrail metric ------------------------------------------------

  function LowerCase(c: char): char {
    if 'A' <= c <= 'Z' then (c as int + 32) as char else c
  }

  predicate EqualFold(a: string, b: string) {
    |a| == |b| && forall i :: 0 <= i < |a| ==> LowerCase(a[i]) == LowerCase(b[i])
  }

  predicate ControlName(name: string) {
    EqualFold(name, "A") || EqualFold(name, "control")
  }

  function Value(v: VariantReport, key: string): real {
    if key in v.metrics then v.metrics[key] else 0.0
  }

  /** The value the others are compared with: the first control-named variant's, else the
      first variant's. */
  function ControlValue(report: seq<VariantReport>, key: string): real {
    if exists i :: 0 <= i < |report| && ControlName(report[i].variantName) then
      FirstControl(report, key)
    else if report != [] then Value(report[0], key) else 0.0
  }

  function FirstControl(report: seq<VariantReport>, key: string): real {
    if report == [] then 0.0
    else if ControlName(report[0].variantName) then Value(report[0], key)
    else FirstControl(report[1..], key)
  }

  /** The result is the largest excess over the control value, or zero. */
  ghost predicate IsMaxDelta(report: seq<VariantReport>, key: string, control: real, r: real) {
    && r >= 0.0
    && (forall i :: 0 <= i < |report| ==> Value(report[i], key) - control <= r)
    && (r == 0.0 || exists i :: 0 <= i < |report| && Value(report[i], key) - control == r)
  }

  method GuardrailMetric(report: seq<VariantReport>, key: string) returns (maxDelta: real)
    ensures IsMaxDelta(report, key, ControlValue(report, key), maxDelta)
  {
    var controlValue := 0.0;
    var first := true;
    for i := 0 to |report|
      invariant first && forall j :: 0 <= j < i ==> !ControlName(report[j].variantName)
      invariant FirstControl(report, key) == FirstControl(report[i..], key)
    {
      if ControlName(report[i].variantName) {
        controlValue := Value(report[i], key);
        first := false;
        break;
      }
      assert report[i..][1..] == report[i + 1..];
    }
    if first && |report| > 0 {
      controlValue := Value(report[0], key);
    }
    maxDelta := 0.0;
    for i := 0 to |report|
      invariant IsMaxDelta(report[..i], key, controlValue, maxDelta)
    {
      ghost var before := report[..i];
      assert report[..i + 1] == before + [report[i]];
      assert report[..i + 1][i] == report[i] && forall j :: 0 <= j < i ==> report[..i + 1][j] == before[j];
      var delta := Value(report[i], key) - controlValue;
      if delta > maxDelta {
        maxDelta := delta;
      }
    }
    assert report[..|report|] == report;
  }

  lemma MaxDeltaUnique(a: seq<VariantReport>, b: seq<VariantReport>, key: string, control: real, r: real, s: real)
    requires multiset(a) == multiset(b)
    requires IsMaxDelta(a, key, control, r) && IsMaxDelta(b, key, control, s)
    ensures r == s
  {
    MultisetMembers(a, b);
    if r > 0.0 {
      var i :| 0 <= i < |a| && Value(a[i], key) - control == r;
      assert a[i] in b;
    }
    if s > 0.0 {
      var i :| 0 <= i < |b| && Value(b[i], key) - control == s;
      assert b[i] in a;
    }
  }

  ghost predicate OneControl(report: seq<VariantReport>) {
    && (exists v :: v in report && ControlName(v.variantName))
    && (forall v, w :: v in report && w in report && ControlName(v.variantName) && ControlName(w.variantName) ==>
          v == w)
  }

  /** With one control-named variant the metric does not depend on the order in which the map
      listed the variants. */
  lemma MetricIgnoresOrder(a: seq<VariantReport>, key: string)
    requires OneControl(a)
    ensures OrderIrrelevant(a, key)
  {
    OrderIrrelevantExactly(a, key);
  }

  /** The metric comes out the same for every listing of the same variants. */
  ghost predicate OrderIrrelevant(a: seq<VariantReport>, key: string) {
    forall b, r, c, s :: Reading(a, key, b, r) && Reading(a, key, c, s) ==> r == s
  }

  /** Some listing of the variants of `a` yields `r`. */
  ghost predicate Reading(a: seq<VariantReport>, key: string, b: seq<VariantReport>, r: real) {
    multiset(b) == multiset(a) && IsMaxDelta(b, key, ControlValue(b, key), r)
  }

  /** A variant the others may be compared with: a control-named one, or any if there is none. */
  ghost predicate Contender(report: seq<VariantReport>, v: VariantReport) {
    v in report && (ControlName(v.variantName) || forall w :: w in report ==> !ControlName(w.variantName))
  }

  ghost predicate ContendersAlike(a: seq<VariantReport>, key: string) {
    forall v, w :: Contender(a, v) && Contender(a, w) ==> Value(v, key) == Value(w, key)
  }

  lemma {:induction false} FirstControlContends(report: seq<VariantReport>, key: string) returns (v: VariantReport)
    requires exists v :: v in report && ControlName(v.variantName)
    ensures v in report && ControlName(v.variantName) && FirstControl(report, key) == Value(v, key)
  {
    if ControlName(report[0].variantName) {
      v := report[0];
    } else {
      v := FirstControlContends(report[1..], key);
    }
  }

  lemma ControlContends(b: seq<VariantReport>, key: string) returns (v: VariantReport)
    requires b != []
    ensures Contender(b, v) && ControlValue(b, key) == Value(v, key)
  {
    if exists i :: 0 <= i < |b| && ControlName(b[i].variantName) {
      v := FirstControlContends(b, key);
    } else {
      v := b[0];
    }
  }

  lemma ContendersPermute(a: seq<VariantReport>, b: seq<VariantReport>, v: VariantReport)
    requires multiset(a) == multiset(b) && Contender(b, v)
    ensures Contender(a, v)
  {
    MultisetMembers(a, b);
  }

  /** The listing that starts with variant i compares with it, if it contends. */
  lemma InFront(a: seq<VariantReport>, key: string, i: nat) returns (b: seq<VariantReport>)
    requires i < |a| && Contender(a, a[i])
    ensures multiset(b) == multiset(a) && ControlValue(b, key) == Value(a[i], key)
  {
    b := [a[i]] + (a[..i] + a[i + 1..]);
    MovedToFront(a, i);
    MultisetMembers(a, b);
    FirstCompared(b, key);
  }

  lemma MovedToFront(a: seq<VariantReport>, i: nat)
    requires i < |a|
    ensures multiset([a[i]] + (a[..i] + a[i + 1..])) == multiset(a)
  {
    assert a == a[..i] + ([a[i]] + a[i + 1..]);
  }

  lemma FirstCompared(b: seq<VariantReport>, key: string)
    requires b != [] && Contender(b, b[0])
    ensures ControlValue(b, key) == Value(b[0], key)
  {
    if ControlName(b[0].variantName) {
      assert FirstControl(b, key) == Value(b[0], key);
    }
  }

  lemma {:induction false} MaxDeltaExists(report: seq<VariantReport>, key: string, control: real) returns (r: real)
    ensures IsMaxDelta(report, key, control, r)
  {
    if report == [] {
      r := 0.0;
    } else {
      var n := |report| - 1;
      var init := report[..n];
      r := MaxDeltaExists(init, key, control);
      var last := Value(report[n], key) - control;
      assert forall i :: 0 <= i < n ==> report[i] == init[i];
      if last > r {
        r := last;
      }
    }
  }

  /** Comparing with a listed variant, the result is the largest value less that variant's. */
  lemma DeltaShifts(a: seq<VariantReport>, key: string, v: VariantReport, w: VariantReport, r: real, s: real)
    requires v in a && w in a
    requires IsMaxDelta(a, key, Value(v, key), r) && IsMaxDelta(a, key, Value(w, key), s)
    ensures r - s == Value(w, key) - Value(v, key)
  {
    var i := LargestAt(a, key, v, r);
    var j := LargestAt(a, key, w, s);
    assert Value(a[j], key) - Value(v, key) <= r && Value(a[i], key) - Value(w, key) <= s;
  }

  lemma LargestAt(a: seq<VariantReport>, key: string, v: VariantReport, r: real) returns (i: nat)
    requires v in a && IsMaxDelta(a, key, Value(v, key), r)
    ensures i < |a| && Value(a[i], key) - Value(v, key) == r
  {
    if r == 0.0 {
      i :| 0 <= i < |a| && a[i] == v;
    } else {
      i :| 0 <= i < |a| && Value(a[i], key) - Value(v, key) == r;
    }
  }

  /** The same multiset yields the same result against the same control. */
  lemma ReadingFor(a: seq<VariantReport>, key: string, b: seq<VariantReport>, r: real)
    requires Reading(a, key, b, r)
    ensures IsMaxDelta(a, key, ControlValue(b, key), r)
  {
    var s := MaxDeltaExists(a, key, ControlValue(b, key));
    MaxDeltaUnique(a, b, key, ControlValue(b, key), s, r);
  }

  /** The metric is independent of the listing exactly when all variants that may serve as the
      control have the same value. */
  lemma OrderIrrelevantExactly(a: seq<VariantReport>, key: string)
    ensures OrderIrrelevant(a, key) <==> ContendersAlike(a, key)
  {
    if ContendersAlike(a, key) {
      forall b, r, c, s | Reading(a, key, b, r) && Reading(a, key, c, s) ensures r == s {
        AlikeAgree(a, key, b, r, c, s);
      }
    } else {
      var v, w :| Contender(a, v) && Contender(a, w) && Value(v, key) != Value(w, key);
      var i: nat :| i < |a| && a[i] == v;
      var j: nat :| j < |a| && a[j] == w;
      var b := InFront(a, key, i);
      var c := InFront(a, key, j);
      var r := MaxDeltaExists(b, key, Value(v, key));
      var s := MaxDeltaExists(c, key, Value(w, key));
      assert Reading(a, key, b, r) && Reading(a, key, c, s);
      ReadingFor(a, key, b, r);
      ReadingFor(a, key, c, s);
      DeltaShifts(a, key, v, w, r, s);
    }
  }

  lemma AlikeAgree(a: seq<VariantReport>, key: string, b: seq<VariantReport>, r: real, c: seq<VariantReport>, s: real)
    requires ContendersAlike(a, key) && Reading(a, key, b, r) && Reading(a, key, c, s)
    ensures r == s
  {
    if a == [] {
      assert |b| == |multiset(a)| == 0 && |c| == |multiset(a)|;
    } else {
      assert |b| == |multiset(a)| == |a| && |c| == |multiset(a)|;
      var v := ControlContends(b, key);
      var w := ControlContends(c, key);
      ContendersPermute(a, b, v);
      ContendersPermute(a, c, w);
      MaxDeltaUnique(b, c, key, Value(v, key), r, s);
    }
  }

  /** Without one it does: two variants, neither called control, two answers. */
  lemma MetricShowsOrder()
    ensures var hi := VariantReport("X", map["errors" := 3.0]);
      var lo := VariantReport("Y", map["errors" := 1.0]);
      && IsMaxDelta([hi, lo], "errors", ControlValue([hi, lo], "errors"), 0.0)
      && IsMaxDelta([lo, hi], "errors", ControlValue([lo, hi], "errors"), 2.0)
  {
    var hi := VariantReport("X", map["errors" := 3.0]);
    var lo := VariantReport("Y", map["errors" := 1.0]);
    assert LowerCase("X"[0]) != LowerCase("A"[0]) && LowerCase("Y"[0]) != LowerCase("A"[0]);
    assert !ControlName(hi.variantName) && !ControlName(lo.variantName);
    assert Value([lo, hi][1], "errors") - 1.0 == 2.0;
  }
}
