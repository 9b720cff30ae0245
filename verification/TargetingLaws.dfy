/** Laws of targeting: strings have one total order, rules compose, well-formed trees are
    Boolean algebra. */
module TargetingLaws {
  import opened Common
  import opened Targeting

  // ---- The calendar agrees with the alphabet --------------------------------

  lemma LeapStep(year: int)
    requires 0 <= year
    ensures LeapsBefore(year + 1) == LeapsBefore(year) + if IsLeap(year) then 1 else 0
  {
    CeilingStep(year, 4);
    CeilingStep(year, 100);
    CeilingStep(year, 400);
    Centuries(year);
  }

  lemma Centuries(year: int)
    ensures year % 400 == 0 ==> year % 100 == 0
    ensures year % 100 == 0 ==> year % 4 == 0
  {
    if year % 400 == 0 {
      DivideUnique(year, 100, 4 * (year / 400), 0);
    }
    if year % 100 == 0 {
      DivideUnique(year, 4, 25 * (year / 100), 0);
    }
  }

  lemma CeilingStep(n: int, k: int)
    requires 0 <= n && k > 0
    ensures (n + k) / k == (n + k - 1) / k + if n % k == 0 then 1 else 0
  {
    var q, r := n / k, n % k;
    assert n == q * k + r;
    assert (n + k) / k == q + 1 by { DivideUnique(n + k, k, q + 1, r); }
    if r == 0 {
      DivideUnique(n + k - 1, k, q, k - 1);
    } else {
      DivideUnique(n + k - 1, k, q + 1, r - 1);
    }
  }

  lemma DivideUnique(n: int, k: int, q: int, r: int)
    requires k > 0 && 0 <= r < k && n == q * k + r
    ensures n / k == q && n % k == r
  {
    var d := n / k - q;
    assert n == (n / k) * k + n % k;
    assert d * k == r - n % k;
    MultipleBound(d, k);
  }

  lemma MultipleBound(d: int, k: int)
    requires k > 0
    ensures d >= 1 ==> d * k >= k
    ensures d <= -1 ==> d * k <= -k
  {
  }

  function YearLength(year: int): int {
    if IsLeap(year) then 366 else 365
  }

  lemma MonthsFitYear(year: int, month: int)
    requires 1 <= month <= 12
    ensures 0 <= DaysBeforeMonth(year, month)
    ensures DaysBeforeMonth(year, month) + DaysIn(year, month) <= YearLength(year)
  {
    assert DaysBeforeMonth(year, 2) == 31;
    assert DaysBeforeMonth(year, 3) == 31 + DaysIn(year, 2);
    assert DaysBeforeMonth(year, 4) == 62 + DaysIn(year, 2);
    assert DaysBeforeMonth(year, 5) == 92 + DaysIn(year, 2);
    assert DaysBeforeMonth(year, 6) == 123 + DaysIn(year, 2);
    assert DaysBeforeMonth(year, 7) == 153 + DaysIn(year, 2);
    assert DaysBeforeMonth(year, 8) == 184 + DaysIn(year, 2);
    assert DaysBeforeMonth(year, 9) == 215 + DaysIn(year, 2);
    assert DaysBeforeMonth(year, 10) == 245 + DaysIn(year, 2);
    assert DaysBeforeMonth(year, 11) == 276 + DaysIn(year, 2);
    assert DaysBeforeMonth(year, 12) == 306 + DaysIn(year, 2);
  }

  lemma {:induction false} LaterMonth(year: int, m: int, n: int)
    requires 1 <= m < n
    ensures DaysBeforeMonth(year, m) + DaysIn(year, m) <= DaysBeforeMonth(year, n)
  {
    if m + 1 < n {
      LaterMonth(year, m, n - 1);
    }
  }

  lemma {:induction false} LaterYear(y: int, z: int)
    requires 0 <= y < z
    ensures 365 * y + LeapsBefore(y) + YearLength(y) <= 365 * z + LeapsBefore(z)
    decreases z - y
  {
    LeapStep(y);
    if y + 1 < z {
      LaterYear(y + 1, z);
    }
  }

  /** Year, then month, then day. */
  function OrderDates(a: Date, b: Date): Ordering {
    if a.year != b.year then OrderInts(a.year, b.year)
    else if a.month != b.month then OrderInts(a.month, b.month)
    else OrderInts(a.day, b.day)
  }

  lemma EarlierDay(a: Date, b: Date)
    requires ValidDate(a) && ValidDate(b) && OrderDates(a, b) == Less
    ensures DayNumber(a) < DayNumber(b)
  {
    MonthsFitYear(a.year, a.month);
    MonthsFitYear(b.year, b.month);
    if a.year < b.year {
      LaterYear(a.year, b.year);
    } else if a.month < b.month {
      LaterMonth(a.year, a.month, b.month);
    }
  }

  lemma DayOrder(a: Date, b: Date)
    requires ValidDate(a) && ValidDate(b)
    ensures OrderInts(DayNumber(a), DayNumber(b)) == OrderDates(a, b)
  {
    if OrderDates(a, b) == Less {
      EarlierDay(a, b);
    } else if OrderDates(a, b) == Greater {
      EarlierDay(b, a);
    }
  }

  lemma {:induction false} FirstDifference(a: string, b: string, k: nat)
    requires k < |a| && k < |b| && a[..k] == b[..k] && a[k] != b[k]
    ensures OrderStrings(a, b) == if a[k] < b[k] then Less else Greater
  {
    if k > 0 {
      assert a[0] == a[..k][0] == b[..k][0] == b[0];
      assert a[1..][..k - 1] == a[..k][1..] == b[..k][1..] == b[1..][..k - 1];
      FirstDifference(a[1..], b[1..], k - 1);
    }
  }

  lemma {:induction false} SameStrings(a: string)
    ensures OrderStrings(a, a) == Equal
  {
    if a != [] {
      SameStrings(a[1..]);
    }
  }

  lemma DateDigits(a: string, b: string, k: nat)
    requires DateShape(a) && DateShape(b)
    requires k < 10 && a[k] != b[k] && forall i :: 0 <= i < k ==> a[i] == b[i]
    ensures OrderDates(ReadDate(a), ReadDate(b)) == if a[k] < b[k] then Less else Greater
  {
  }

  lemma DateStringOrder(a: string, b: string)
    requires DateShape(a) && DateShape(b)
    ensures OrderStrings(a, b) == OrderDates(ReadDate(a), ReadDate(b))
  {
    if a == b {
      SameStrings(a);
    } else {
      var k := 0;
      while k < 10 && a[k] == b[k]
        invariant 0 <= k <= 10 && forall i :: 0 <= i < k ==> a[i] == b[i]
      {
        k := k + 1;
      }
      assert k == 10 ==> a == b;
      assert a[..k] == b[..k];
      FirstDifference(a, b, k);
      DateDigits(a, b, k);
    }
  }

  /** Although dates are compared as instants and other strings as bytes, all six operators
      read one order: the bytes. */
  lemma StringsHaveOneOrder(op: Op, a: string, b: string)
    requires Relational(op)
    ensures CompareStrings(op, a, b) == Holds(op, OrderStrings(a, b))
  {
    if ParseDate(a).Some? && ParseDate(b).Some? {
      DateStringOrder(a, b);
      DayOrder(ReadDate(a), ReadDate(b));
    }
  }

  lemma {:induction false} StringOrderFlips(a: string, b: string)
    ensures OrderStrings(b, a) == Flip(OrderStrings(a, b))
    ensures OrderStrings(a, b) == Equal <==> a == b
  {
    if a != [] && b != [] {
      if a[0] == b[0] {
        StringOrderFlips(a[1..], b[1..]);
        assert a == [a[0]] + a[1..] && b == [b[0]] + b[1..];
      }
    }
  }

  lemma {:induction false} StringOrderTransitive(a: string, b: string, c: string)
    requires OrderStrings(a, b) != Greater && OrderStrings(b, c) != Greater
    ensures OrderStrings(a, c) != Greater
  {
    if a != [] && b != [] && c != [] && a[0] == b[0] == c[0] {
      StringOrderTransitive(a[1..], b[1..], c[1..]);
    }
  }

  /** Comparison of strings, dates or not, is a total order: `==` is identity, `<=` is
      transitive and total, and `<` is `>=` denied. */
  lemma StringComparisonTotalOrder(a: string, b: string, c: string)
    ensures CompareStrings(EQ, a, b) <==> a == b
    ensures CompareStrings(LE, a, b) || CompareStrings(LE, b, a)
    ensures CompareStrings(LE, a, b) && CompareStrings(LE, b, a) ==> a == b
    ensures CompareStrings(LE, a, b) && CompareStrings(LE, b, c) ==> CompareStrings(LE, a, c)
    ensures CompareStrings(LT, a, b) <==> !CompareStrings(GE, a, b)
    ensures CompareStrings(GT, a, b) <==> CompareStrings(LT, b, a)
  {
    StringsHaveOneOrder(EQ, a, b);
    StringsHaveOneOrder(LE, a, b);
    StringsHaveOneOrder(LE, b, a);
    StringsHaveOneOrder(LE, b, c);
    StringsHaveOneOrder(LE, a, c);
    StringsHaveOneOrder(LT, a, b);
    StringsHaveOneOrder(GE, a, b);
    StringsHaveOneOrder(GT, a, b);
    StringsHaveOneOrder(LT, b, a);
    StringOrderFlips(a, b);
    if OrderStrings(a, b) != Greater && OrderStrings(b, c) != Greater {
      StringOrderTransitive(a, b, c);
    }
  }

  // ---- Composition ---------------------------------------------------------

  function Node(op: Op, children: seq<RuleNode>): RuleNode {
    RuleNode(op, "", Null, [], children)
  }

  function Not(child: RuleNode): RuleNode {
    Node(NOT, [child])
  }

  function Nots(children: seq<RuleNode>): seq<RuleNode> {
    seq(|children|, i requires 0 <= i < |children| => Not(children[i]))
  }

  lemma {:induction false} AndAccepts(children: seq<RuleNode>, attrs: Attributes)
    ensures EvaluateAnd(children, attrs) == Ok(true) <==> forall c :: c in children ==> Accepts(c, attrs)
  {
    if children != [] {
      AndAccepts(children[1..], attrs);
      assert EvaluateAnd(children, attrs) == Ok(true)
        <==> Accepts(children[0], attrs) && EvaluateAnd(children[1..], attrs) == Ok(true);
      assert forall c :: c in children <==> c == children[0] || c in children[1..];
    }
  }

  lemma {:induction false} OrAccepts(children: seq<RuleNode>, attrs: Attributes)
    ensures EvaluateOr(children, attrs) <==> exists c :: c in children && Accepts(c, attrs)
  {
    if children != [] {
      OrAccepts(children[1..], attrs);
      assert EvaluateOr(children, attrs) <==> Accepts(children[0], attrs) || EvaluateOr(children[1..], attrs);
      assert forall c :: c in children <==> c == children[0] || c in children[1..];
    }
  }

  /** On every tree, erring or not: AND accepts when all children do, OR when some child does,
      and neither depends on the order of the children. */
  lemma AcceptanceComposes(rule: RuleNode, shuffled: seq<RuleNode>, attrs: Attributes)
    requires multiset(shuffled) == multiset(rule.children)
    ensures rule.op == AND ==> (Accepts(rule, attrs) <==> forall c :: c in rule.children ==> Accepts(c, attrs))
    ensures rule.op == OR ==> (Accepts(rule, attrs) <==> exists c :: c in rule.children && Accepts(c, attrs))
    ensures rule.op in {AND, OR} ==>
      (Accepts(rule.(children := shuffled), attrs) <==> Accepts(rule, attrs))
  {
    MultisetMembers(shuffled, rule.children);
    AndAccepts(rule.children, attrs);
    AndAccepts(shuffled, attrs);
    OrAccepts(rule.children, attrs);
    OrAccepts(shuffled, attrs);
  }

  /** Known operators throughout, and one child under every NOT. */
  predicate WellFormed(rule: RuleNode) {
    && !rule.op.Unknown?
    && (rule.op == NOT ==> |rule.children| == 1)
    && (rule.op in {AND, OR, NOT} ==> forall c :: c in rule.children ==> WellFormed(c))
  }

  lemma {:induction false} NeverErrs(rule: RuleNode, attrs: Attributes)
    requires WellFormed(rule)
    ensures Evaluate(rule, attrs).Ok?
    decreases rule, 1
  {
    match rule.op
    case AND => AndNeverErrs(rule.children, attrs);
    case NOT => NeverErrs(rule.children[0], attrs);
    case _ =>
  }

  lemma {:induction false} AndNeverErrs(children: seq<RuleNode>, attrs: Attributes)
    requires forall c :: c in children ==> WellFormed(c)
    ensures EvaluateAnd(children, attrs).Ok?
    decreases children, 0
  {
    if children != [] {
      NeverErrs(children[0], attrs);
      AndNeverErrs(children[1..], attrs);
    }
  }

  lemma NotAccepts(rule: RuleNode, attrs: Attributes)
    requires WellFormed(rule)
    ensures Accepts(Not(rule), attrs) <==> !Accepts(rule, attrs)
    ensures WellFormed(Not(rule))
  {
    NeverErrs(rule, attrs);
  }

  lemma NotsWellFormed(children: seq<RuleNode>, attrs: Attributes)
    requires forall c :: c in children ==> WellFormed(c)
    ensures forall n :: n in Nots(children) ==> WellFormed(n)
    ensures (forall n :: n in Nots(children) ==> Accepts(n, attrs))
       <==> !(exists c :: c in children && Accepts(c, attrs))
    ensures (exists n :: n in Nots(children) && Accepts(n, attrs))
       <==> !(forall c :: c in children ==> Accepts(c, attrs))
  {
    var nots := Nots(children);
    forall i | 0 <= i < |children|
      ensures nots[i] in nots && children[i] in children && WellFormed(nots[i])
      ensures Accepts(nots[i], attrs) <==> !Accepts(children[i], attrs) {
      NotAccepts(children[i], attrs);
    }
  }

  lemma OkBool(r: Result<bool, RuleError>, b: bool)
    requires r.Ok? && (r == Ok(true) <==> b)
    ensures r == Ok(b)
  {
    match r
    case Ok(v) => assert v <==> b;
  }

  lemma NotAndIsOrNot(children: seq<RuleNode>, attrs: Attributes)
    requires forall c :: c in children ==> WellFormed(c)
    ensures Evaluate(Not(Node(AND, children)), attrs) == Evaluate(Node(OR, Nots(children)), attrs)
  {
    NotsWellFormed(children, attrs);
    AndNeverErrs(children, attrs);
    AndAccepts(children, attrs);
    OrAccepts(Nots(children), attrs);
    assert Evaluate(Node(AND, children), attrs) == EvaluateAnd(children, attrs);
  }

  lemma NotOrIsAndNot(children: seq<RuleNode>, attrs: Attributes)
    requires forall c :: c in children ==> WellFormed(c)
    ensures Evaluate(Not(Node(OR, children)), attrs) == Evaluate(Node(AND, Nots(children)), attrs)
  {
    NotsWellFormed(children, attrs);
    AndNeverErrs(Nots(children), attrs);
    AndAccepts(Nots(children), attrs);
    OrAccepts(children, attrs);
    var any := Node(OR, children);
    assert Evaluate(any, attrs) == Ok(EvaluateOr(children, attrs));
    assert Evaluate(Not(any), attrs) == Ok(!EvaluateOr(children, attrs));
    var both := Node(AND, Nots(children));
    assert Evaluate(both, attrs) == EvaluateAnd(Nots(children), attrs);
    var all := EvaluateAnd(Nots(children), attrs);
    OkBool(all, !EvaluateOr(children, attrs));
  }

  /** De Morgan, and no error on either side: well-formed trees are Boolean algebra. */
  lemma DeMorgan(children: seq<RuleNode>, attrs: Attributes)
    requires forall c :: c in children ==> WellFormed(c)
    ensures var left, right := Not(Node(AND, children)), Node(OR, Nots(children));
      Evaluate(left, attrs) == Evaluate(right, attrs) && Evaluate(left, attrs).Ok?
    ensures var left, right := Not(Node(OR, children)), Node(AND, Nots(children));
      Evaluate(left, attrs) == Evaluate(right, attrs) && Evaluate(left, attrs).Ok?
  {
    NotAndIsOrNot(children, attrs);
    NotOrIsAndNot(children, attrs);
    NotsWellFormed(children, attrs);
    NeverErrs(Node(OR, Nots(children)), attrs);
    NeverErrs(Node(AND, Nots(children)), attrs);
  }

  // ---- When the order of children shows --------------------------------------

  ghost predicate SomeErrs(children: seq<RuleNode>, attrs: Attributes) {
    exists c :: c in children && Evaluate(c, attrs).Err?
  }

  ghost predicate SomeRefuses(children: seq<RuleNode>, attrs: Attributes) {
    exists c :: c in children && Evaluate(c, attrs) == Ok(false)
  }

  /** Acceptance of NOT over AND is the same for every order of the children. */
  ghost predicate OrderHidden(children: seq<RuleNode>, attrs: Attributes) {
    forall s, t :: multiset(s) == multiset(children) && multiset(t) == multiset(children) ==>
      (Accepts(Not(Node(AND, s)), attrs) <==> Accepts(Not(Node(AND, t)), attrs))
  }

  lemma NotAndAccepts(children: seq<RuleNode>, attrs: Attributes)
    ensures Accepts(Not(Node(AND, children)), attrs) <==> EvaluateAnd(children, attrs) == Ok(false)
  {
    var node := Node(AND, children);
    assert Evaluate(node, attrs) == EvaluateAnd(children, attrs);
    if EvaluateAnd(children, attrs).Ok? {
      var v := EvaluateAnd(children, attrs).value;
      assert Evaluate(Not(node), attrs) == Ok(!v);
    }
  }

  /** Without an erring child AND is false exactly when some child is, and without a refusing
      child it never is. */
  lemma {:induction false} AndRefuses(children: seq<RuleNode>, attrs: Attributes)
    ensures !SomeErrs(children, attrs) ==>
      (EvaluateAnd(children, attrs) == Ok(false) <==> SomeRefuses(children, attrs))
    ensures EvaluateAnd(children, attrs) == Ok(false) ==> SomeRefuses(children, attrs)
  {
    if children != [] {
      var first := Evaluate(children[0], attrs);
      AndRefuses(children[1..], attrs);
      assert forall c :: c in children <==> c == children[0] || c in children[1..];
      if first.Ok? && first.value {
        assert EvaluateAnd(children, attrs) == EvaluateAnd(children[1..], attrs);
      } else {
        assert EvaluateAnd(children, attrs) == first;
        assert children[0] in children;
      }
    }
  }

  /** A child that is not true decides when it comes first. */
  lemma FirstDecides(children: seq<RuleNode>, attrs: Attributes, i: nat) returns (s: seq<RuleNode>)
    requires i < |children| && Evaluate(children[i], attrs) != Ok(true)
    ensures multiset(s) == multiset(children)
    ensures EvaluateAnd(s, attrs) == Evaluate(children[i], attrs)
  {
    s := [children[i]] + (children[..i] + children[i + 1..]);
    assert children == children[..i] + ([children[i]] + children[i + 1..]);
  }

  /** The order of the children of an AND under a NOT is hidden if and only if no child errs
      beside one that is false. */
  lemma OrderHiddenExactly(children: seq<RuleNode>, attrs: Attributes)
    ensures OrderHidden(children, attrs) <==> !(SomeErrs(children, attrs) && SomeRefuses(children, attrs))
  {
    if SomeErrs(children, attrs) && SomeRefuses(children, attrs) {
      var bad :| bad in children && Evaluate(bad, attrs).Err?;
      var no :| no in children && Evaluate(no, attrs) == Ok(false);
      var i: nat :| i < |children| && children[i] == bad;
      var j: nat :| j < |children| && children[j] == no;
      var s := FirstDecides(children, attrs, i);
      var t := FirstDecides(children, attrs, j);
      NotAndAccepts(s, attrs);
      NotAndAccepts(t, attrs);
    } else {
      forall s, t | multiset(s) == multiset(children) && multiset(t) == multiset(children)
        ensures Accepts(Not(Node(AND, s)), attrs) <==> Accepts(Not(Node(AND, t)), attrs) {
        SameAnswer(children, s, attrs);
        SameAnswer(children, t, attrs);
      }
    }
  }

  lemma SameAnswer(children: seq<RuleNode>, s: seq<RuleNode>, attrs: Attributes)
    requires multiset(s) == multiset(children)
    requires !(SomeErrs(children, attrs) && SomeRefuses(children, attrs))
    ensures Accepts(Not(Node(AND, s)), attrs) <==> SomeRefuses(children, attrs)
  {
    MultisetMembers(s, children);
    NotAndAccepts(s, attrs);
    AndRefuses(s, attrs);
    assert SomeErrs(s, attrs) <==> SomeErrs(children, attrs);
    assert SomeRefuses(s, attrs) <==> SomeRefuses(children, attrs);
  }

  /** An operator that does not exist beside a field that is absent: the order shows. */
  lemma OrderShowsUnderNot(bad: RuleNode, missing: RuleNode)
    requires bad.op.Unknown? && missing.op == EQ
    ensures !OrderHidden([missing, bad], map[])
    ensures Accepts(Not(Node(AND, [missing, bad])), map[]) && !Accepts(Not(Node(AND, [bad, missing])), map[])
  {
    var children := [missing, bad];
    assert children[0] == missing && children[1] == bad;
    assert Evaluate(missing, map[]) == Ok(false) && Evaluate(bad, map[]).Err?;
    assert SomeErrs(children, map[]) && SomeRefuses(children, map[]);
    OrderHiddenExactly(children, map[]);
    NotAndAccepts(children, map[]);
    NotAndAccepts([bad, missing], map[]);
  }

  // ---- Membership ----------------------------------------------------------

  function Leaves(field: string, values: seq<Json>): seq<RuleNode> {
    seq(|values|, i requires 0 <= i < |values| => RuleNode(EQ, field, values[i], [], []))
  }

  /** IN is an OR of equalities on the same field; NOT IN is its negation when, and only when,
      the field is present. */
  lemma InIsOrOfEquals(field: string, value: Json, values: seq<Json>, children: seq<RuleNode>, attrs: Attributes)
    ensures Evaluate(RuleNode(IN, field, value, values, children), attrs)
         == Evaluate(Node(OR, Leaves(field, values)), attrs)
    ensures Evaluate(RuleNode(NOT_IN, field, value, values, children), attrs)
         == Evaluate(Not(RuleNode(IN, field, value, values, children)), attrs)
       <==> field in attrs
  {
    var leaves := Leaves(field, values);
    OrAccepts(leaves, attrs);
    if field in attrs {
      if Among(attrs[field], values) {
        var i :| 0 <= i < |values| && CompareValues(EQ, attrs[field], values[i]);
        assert leaves[i] in leaves && Accepts(leaves[i], attrs);
      }
      forall c | c in leaves && Accepts(c, attrs) ensures Among(attrs[field], values) {
        var i :| 0 <= i < |leaves| && leaves[i] == c;
        assert CompareValues(EQ, attrs[field], values[i]);
      }
    }
  }
}
