/** Targeting rules: the rule tree, the comparison of mixed values, and the calendar behind
    the comparison of date strings. */
module Targeting {
  import opened Common

  /** Operators after trimming and upper-casing. */
  datatype Op = AND | OR | NOT | EQ | NE | GT | GE | LT | LE | IN | NOT_IN | Unknown(name: string)

  datatype RuleNode = RuleNode(op: Op, field: string, value: Json, values: seq<Json>, children: seq<RuleNode>)

  datatype RuleError = NotArity | UnsupportedOp(name: string)

  type Attributes = map<string, Json>

  predicate Relational(op: Op) {
    op in {EQ, NE, GT, GE, LT, LE}
  }

  // ---- Orders --------------------------------------------------------------

  datatype Ordering = Less | Equal | Greater

  function Flip(o: Ordering): Ordering {
    match o
    case Less => Greater
    case Equal => Equal
    case Greater => Less
  }

  predicate Holds(op: Op, o: Ordering)
    requires Relational(op)
  {
    match op
    case EQ => o == Equal
    case NE => o != Equal
    case GT => o == Greater
    case GE => o != Less
    case LT => o == Less
    case LE => o != Greater
  }

  function OrderReals(a: real, b: real): Ordering {
    if a < b then Less else if a == b then Equal else Greater
  }

  function OrderInts(a: int, b: int): Ordering {
    if a < b then Less else if a == b then Equal else Greater
  }

  /** Byte-wise comparison of strings. */
  function OrderStrings(a: string, b: string): Ordering {
    if a == [] then (if b == [] then Equal else Less)
    else if b == [] then Greater
    else if a[0] < b[0] then Less
    else if b[0] < a[0] then Greater
    else OrderStrings(a[1..], b[1..])
  }

  // ---- Dates ---------------------------------------------------------------

  datatype Date = Date(year: int, month: int, day: int)

  predicate IsDigit(c: char) {
    '0' <= c <= '9'
  }

  function Digit(c: char): int {
    c as int - '0' as int
  }

  predicate IsLeap(year: int) {
    year % 4 == 0 && (year % 100 != 0 || year % 400 == 0)
  }

  function DaysIn(year: int, month: int): int {
    if month == 2 then (if IsLeap(year) then 29 else 28)
    else if month == 4 || month == 6 || month == 9 || month == 11 then 30
    else 31
  }

  predicate DateShape(s: string) {
    && |s| == 10 && s[4] == '-' && s[7] == '-'
    && (forall i :: 0 <= i < 10 && i != 4 && i != 7 ==> IsDigit(s[i]))
  }

  function ReadDate(s: string): Date
    requires DateShape(s)
  {
    Date(
      1000 * Digit(s[0]) + 100 * Digit(s[1]) + 10 * Digit(s[2]) + Digit(s[3]),
      10 * Digit(s[5]) + Digit(s[6]),
      10 * Digit(s[8]) + Digit(s[9]))
  }

  predicate ValidDate(d: Date) {
    0 <= d.year && 1 <= d.month <= 12 && 1 <= d.day <= DaysIn(d.year, d.month)
  }

  /** `time.Parse("2006-01-02", s)`. */
  function ParseDate(s: string): Option<Date> {
    if DateShape(s) && ValidDate(ReadDate(s)) then Some(ReadDate(s)) else None
  }

  /** Leap years among 0 .. year-1. */
  function LeapsBefore(year: int): int {
    (year + 3) / 4 - (year + 99) / 100 + (year + 399) / 400
  }

  function DaysBeforeMonth(year: int, month: int): int
    requires 1 <= month
  {
    if month == 1 then 0 else DaysBeforeMonth(year, month - 1) + DaysIn(year, month - 1)
  }

  /** The day a date denotes, counted from the first day of year 0. */
  function DayNumber(d: Date): int
    requires ValidDate(d)
  {
    365 * d.year + LeapsBefore(d.year) + DaysBeforeMonth(d.year, d.month) + d.day - 1
  }

  // ---- Comparison ----------------------------------------------------------

  function CompareStrings(op: Op, a: string, b: string): bool
    requires Relational(op)
  {
    var x, y := ParseDate(a), ParseDate(b);
    if x.Some? && y.Some? then Holds(op, OrderInts(DayNumber(x.value), DayNumber(y.value)))
    else Holds(op, OrderStrings(a, b))
  }

  function CompareValues(op: Op, left: Json, right: Json): bool
    requires Relational(op)
  {
    if left.Number? && right.Number? then Holds(op, OrderReals(left.n, right.n))
    else if left.String? && right.String? then CompareStrings(op, left.s, right.s)
    else if left.Bool? && right.Bool? then
      match op
      case EQ => left.b == right.b
      case NE => left.b != right.b
      case _ => false
    else false
  }

  /** Some listed value compares equal. */
  predicate Among(left: Json, rights: seq<Json>) {
    exists i :: 0 <= i < |rights| && CompareValues(EQ, left, rights[i])
  }

  predicate Leaf(op: Op) {
    Relational(op) || op == IN || op == NOT_IN
  }

  function CompareLeaf(op: Op, left: Json, right: Json, rights: seq<Json>): bool
    requires Leaf(op)
  {
    match op
    case IN => Among(left, rights)
    case NOT_IN => !Among(left, rights)
    case _ => CompareValues(op, left, right)
  }

  method Compare(op: Op, left: Json, right: Json, rights: seq<Json>) returns (r: bool)
    requires Leaf(op)
    ensures r == CompareLeaf(op, left, right, rights)
  {
    if op == IN || op == NOT_IN {
      var found := false;
      for i := 0 to |rights|
        invariant !found
        invariant forall j :: 0 <= j < i ==> !CompareValues(EQ, left, rights[j])
      {
        if CompareValues(EQ, left, rights[i]) {
          found := true;
          break;
        }
      }
      return if op == IN then found else !found;
    }
    return CompareValues(op, left, right);
  }

  // ---- Evaluation ----------------------------------------------------------

  function Evaluate(rule: RuleNode, attrs: Attributes): Result<bool, RuleError>
    decreases rule, 1
  {
    match rule.op
    case AND => EvaluateAnd(rule.children, attrs)
    case OR => Ok(EvaluateOr(rule.children, attrs))
    case NOT =>
      if |rule.children| != 1 then Err(NotArity)
      else
        var child := Evaluate(rule.children[0], attrs);
        if child.Err? then child else Ok(!child.value)
    case Unknown(name) => Err(UnsupportedOp(name))
    case _ =>
      if rule.field !in attrs then Ok(false)
      else Ok(CompareLeaf(rule.op, attrs[rule.field], rule.value, rule.values))
  }

  /** The first child that errs or is false decides. */
  function EvaluateAnd(children: seq<RuleNode>, attrs: Attributes): Result<bool, RuleError>
    decreases children, 0
  {
    if children == [] then Ok(true)
    else
      var first := Evaluate(children[0], attrs);
      if first != Ok(true) then first else EvaluateAnd(children[1..], attrs)
  }

  /** The first child that is true decides; children that err are passed over. */
  function EvaluateOr(children: seq<RuleNode>, attrs: Attributes): bool
    decreases children, 0
  {
    children != [] && (Evaluate(children[0], attrs) == Ok(true) || EvaluateOr(children[1..], attrs))
  }

  /** A rule may be absent, and then everybody qualifies. */
  function EvaluateRule(rule: Option<RuleNode>, attrs: Attributes): Result<bool, RuleError> {
    match rule
    case None => Ok(true)
    case Some(node) => Evaluate(node, attrs)
  }

  /** What assignment asks of a rule: no error, and true. */
  predicate Accepts(rule: RuleNode, attrs: Attributes) {
    Evaluate(rule, attrs) == Ok(true)
  }
}
