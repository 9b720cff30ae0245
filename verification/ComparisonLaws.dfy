/** What the leaves of targeting rules mean, said of the attribute and the rule's value. */
module ComparisonLaws {
  import opened Common
  import opened Targeting
  import opened TargetingLaws

  /** The answer of the rule `field op value`. */
  function Answer(op: Op, field: string, value: Json, attrs: Attributes): Result<bool, RuleError> {
    Evaluate(RuleNode(op, field, value, [], []), attrs)
  }

  /** Numbers compare as numbers, under each of the six operators. */
  lemma NumbersCompare(field: string, a: real, b: real, attrs: Attributes)
    requires field in attrs && attrs[field] == Number(a)
    ensures Answer(EQ, field, Number(b), attrs) == Ok(a == b)
    ensures Answer(NE, field, Number(b), attrs) == Ok(a != b)
    ensures Answer(GT, field, Number(b), attrs) == Ok(a > b)
    ensures Answer(GE, field, Number(b), attrs) == Ok(a >= b)
    ensures Answer(LT, field, Number(b), attrs) == Ok(a < b)
    ensures Answer(LE, field, Number(b), attrs) == Ok(a <= b)
  {
  }

  /** In the alphabet: a proper prefix, or smaller at the first difference. */
  ghost predicate Precedes(a: string, b: string) {
    || (|a| < |b| && a == b[..|a|])
    || exists k: nat :: k < |a| && k < |b| && a[..k] == b[..k] && a[k] < b[k]
  }

  lemma PrefixFirst(a: string, b: string)
    requires |a| < |b| && a == b[..|a|]
    ensures OrderStrings(a, b) == Less
  {
    if a != [] {
      assert a[0] == b[..|a|][0] == b[0];
      assert a[1..] == b[..|a|][1..] == b[1..][..|a| - 1];
      PrefixFirst(a[1..], b[1..]);
    }
  }

  lemma {:induction false} LessPrecedes(a: string, b: string)
    requires OrderStrings(a, b) == Less
    ensures Precedes(a, b)
  {
    if a == [] {
      assert b[..0] == [];
    } else if a[0] < b[0] {
      assert a[..0] == b[..0];
    } else {
      var c, d := a[1..], b[1..];
      LessPrecedes(c, d);
      assert a == [a[0]] + c && b == [a[0]] + d;
      if |c| < |d| && c == d[..|c|] {
        assert b[..|a|] == [a[0]] + d[..|c|];
      } else {
        var k: nat :| k < |c| && k < |d| && c[..k] == d[..k] && c[k] < d[k];
        assert a[..k + 1] == [a[0]] + c[..k] && b[..k + 1] == [a[0]] + d[..k];
        assert a[k + 1] == c[k] && b[k + 1] == d[k];
      }
    }
  }

  lemma PrecedesLess(a: string, b: string)
    requires Precedes(a, b)
    ensures OrderStrings(a, b) == Less
  {
    if |a| < |b| && a == b[..|a|] {
      PrefixFirst(a, b);
    } else {
      var k: nat :| k < |a| && k < |b| && a[..k] == b[..k] && a[k] < b[k];
      FirstDifference(a, b, k);
    }
  }

  lemma OrderIsPrecedes(a: string, b: string)
    ensures OrderStrings(a, b) == Less <==> Precedes(a, b)
    ensures OrderStrings(a, b) == Equal <==> a == b
    ensures OrderStrings(a, b) == Greater <==> Precedes(b, a)
  {
    StringOrderFlips(a, b);
    if OrderStrings(a, b) == Less { LessPrecedes(a, b); }
    if OrderStrings(b, a) == Less { LessPrecedes(b, a); }
    if Precedes(a, b) { PrecedesLess(a, b); }
    if Precedes(b, a) { PrecedesLess(b, a); }
  }

  /** Strings, dates included, compare in the order of the alphabet. */
  lemma StringsCompare(field: string, a: string, b: string, attrs: Attributes)
    requires field in attrs && attrs[field] == String(a)
    ensures Answer(EQ, field, String(b), attrs) == Ok(a == b)
    ensures Answer(NE, field, String(b), attrs) == Ok(a != b)
    ensures Answer(GT, field, String(b), attrs) == Ok(Precedes(b, a))
    ensures Answer(GE, field, String(b), attrs) == Ok(Precedes(b, a) || a == b)
    ensures Answer(LT, field, String(b), attrs) == Ok(Precedes(a, b))
    ensures Answer(LE, field, String(b), attrs) == Ok(Precedes(a, b) || a == b)
  {
    OrderIsPrecedes(a, b);
    StringsHaveOneOrder(EQ, a, b);
    StringsHaveOneOrder(NE, a, b);
    StringsHaveOneOrder(GT, a, b);
    StringsHaveOneOrder(GE, a, b);
    StringsHaveOneOrder(LT, a, b);
    StringsHaveOneOrder(LE, a, b);
    hide CompareStrings, Precedes, OrderStrings;
  }

  predicate SameKind(a: Json, b: Json) {
    (a.Number? && b.Number?) || (a.String? && b.String?) || (a.Bool? && b.Bool?)
  }

  /** Everything else: booleans are equal or not and never ordered; values of different or other
      kinds satisfy no operator, not even `!=`; a missing attribute satisfies no leaf. */
  lemma OthersCompare(op: Op, field: string, value: Json, values: seq<Json>, attrs: Attributes)
    requires Relational(op)
    ensures field in attrs && attrs[field].Bool? && value.Bool? ==>
      Answer(op, field, value, attrs)
        == Ok((op == EQ && attrs[field].b == value.b) || (op == NE && attrs[field].b != value.b))
    ensures field in attrs && !SameKind(attrs[field], value) ==> Answer(op, field, value, attrs) == Ok(false)
    ensures forall leaf :: leaf in {EQ, NE, GT, GE, LT, LE, IN, NOT_IN} && field !in attrs ==>
      Evaluate(RuleNode(leaf, field, value, values, []), attrs) == Ok(false)
  {
  }

  lemma EqualityExactly(left: Json, right: Json)
    ensures CompareValues(EQ, left, right) <==> SameKind(left, right) && left == right
  {
    if left.String? && right.String? {
      StringComparisonTotalOrder(left.s, right.s, left.s);
    }
  }

  /** Membership: the attribute is a number, string or boolean that is listed; its denial needs
      the attribute too. */
  lemma MembershipExactly(field: string, value: Json, values: seq<Json>, children: seq<RuleNode>, attrs: Attributes)
    requires field in attrs
    ensures var left := attrs[field];
      var listed := (left.Number? || left.String? || left.Bool?) && left in values;
      && Evaluate(RuleNode(IN, field, value, values, children), attrs) == Ok(listed)
      && Evaluate(RuleNode(NOT_IN, field, value, values, children), attrs) == Ok(!listed)
  {
    var left := attrs[field];
    forall i | 0 <= i < |values|
      ensures CompareValues(EQ, left, values[i]) <==> SameKind(left, values[i]) && left == values[i] {
      EqualityExactly(left, values[i]);
    }
    hide CompareValues;
    if left in values && SameKind(left, left) {
      var i :| 0 <= i < |values| && values[i] == left;
      assert CompareValues(EQ, left, values[i]);
    }
  }

  /** NOT turns the answer round and passes errors on; unknown operators err; no rule accepts
      everybody. */
  lemma NegationExactly(child: RuleNode, children: seq<RuleNode>, name: string, attrs: Attributes)
    ensures Evaluate(Not(child), attrs)
      == if Evaluate(child, attrs).Ok? then Ok(!Evaluate(child, attrs).value) else Evaluate(child, attrs)
    ensures |children| != 1 ==> Evaluate(Node(NOT, children), attrs).Err?
    ensures Evaluate(Node(Unknown(name), children), attrs).Err?
    ensures EvaluateRule(None, attrs) == Ok(true) && EvaluateRule(Some(child), attrs) == Evaluate(child, attrs)
  {
  }
}
