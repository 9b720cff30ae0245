/** Small vocabulary shared by every module: options, results, instants and
    finite sequences that list a set. */
module Common {

  datatype Option<+T> = None | Some(value: T)

  datatype Result<+T, +E> = Ok(value: T) | Err(error: E)

  /** An instant, in nanoseconds since Go's zero time (1 January of year 1, UTC). */
  type Time = int

  const SECOND: int := 1_000_000_000
  const MINUTE: int := 60 * SECOND

  /** Seconds between Go's zero time and the Unix epoch. */
  const UNIX_EPOCH_SECONDS: int := 62_135_596_800

  /** `time.Time.Truncate`: rounds down, counting from Go's zero time. */
  function Truncate(t: Time, unit: int): Time
    requires unit > 0
  {
    t - t % unit
  }

  function Unix(t: Time): int {
    t / SECOND - UNIX_EPOCH_SECONDS
  }

  function Min(a: int, b: int): int {
    if a < b then a else b
  }

  function Max(a: int, b: int): int {
    if a > b then a else b
  }

  /** A JSON value as Go decodes it into `interface{}`. */
  datatype Json =
    | Null
    | Bool(b: bool)
    | Number(n: real)
    | String(s: string)
    | Array(items: seq<Json>)
    | Object(fields: map<string, Json>)

  /** The decimal numeral that `%d` prints. */
  function Decimal(n: int): string
    decreases if n < 0 then 1 - n else n
  {
    if n < 0 then "-" + Decimal(-n)
    else if n < 10 then ["0123456789"[n]]
    else Decimal(n / 10) + ["0123456789"[n % 10]]
  }

  lemma {:induction false} DecimalShape(n: nat)
    ensures var d := Decimal(n);
      d != "" && d[0] != '-' && d[|d| - 1] == "0123456789"[n % 10] && (|d| == 1 <==> n < 10)
    ensures n >= 10 ==> Decimal(n)[..|Decimal(n)| - 1] == Decimal(n / 10)
  {
    if n >= 10 {
      DecimalShape(n / 10);
    }
  }

  lemma SameDigit(x: nat, y: nat)
    requires x < 10 && y < 10 && "0123456789"[x] == "0123456789"[y]
    ensures x == y
  {
  }

  lemma {:induction false} NaturalInjective(a: nat, b: nat)
    requires Decimal(a) == Decimal(b)
    ensures a == b
  {
    DecimalShape(a);
    DecimalShape(b);
    SameDigit(a % 10, b % 10);
    if a >= 10 {
      NaturalInjective(a / 10, b / 10);
    }
  }

  /** Different numbers have different numerals. */
  lemma DecimalInjective(a: int, b: int)
    requires Decimal(a) == Decimal(b)
    ensures a == b
  {
    if a >= 0 && b >= 0 {
      NaturalInjective(a, b);
    } else {
      DecimalShape(if a < 0 then -a else a);
      DecimalShape(if b < 0 then -b else b);
      assert a < 0 && b < 0;
      assert Decimal(-a) == Decimal(a)[1..] == Decimal(b)[1..] == Decimal(-b);
      NaturalInjective(-a, -b);
    }
  }

  ghost predicate NoDuplicates<T>(s: seq<T>) {
    forall i, j :: 0 <= i < j < |s| ==> s[i] != s[j]
  }

  /** The sequence lists every element of the set, each exactly once. */
  ghost predicate Lists<T(!new)>(s: seq<T>, elements: set<T>) {
    && NoDuplicates(s)
    && forall x :: x in s <==> x in elements
  }

  lemma {:induction false} NoDuplicatesCount<T>(s: seq<T>, x: T)
    requires NoDuplicates(s)
    ensures multiset(s)[x] == if x in s then 1 else 0
  {
    if s != [] {
      var n := |s| - 1;
      assert s == s[..n] + [s[n]];
      assert forall i :: 0 <= i < n ==> s[..n][i] == s[i];
      NoDuplicatesCount(s[..n], x);
    }
  }

  lemma ListsIsMultiset<T(!new)>(s: seq<T>, elements: set<T>)
    requires Lists(s, elements)
    ensures multiset(s) == multiset(elements)
    ensures |s| == |elements|
  {
    forall x ensures multiset(s)[x] == multiset(elements)[x] {
      NoDuplicatesCount(s, x);
    }
    assert multiset(s) == multiset(elements);
    assert |multiset(s)| == |s|;
    assert |multiset(elements)| == |elements|;
  }

  lemma NoDuplicatesConcat<T>(s: seq<T>, t: seq<T>)
    requires NoDuplicates(s) && NoDuplicates(t)
    requires forall x :: x in s ==> x !in t
    ensures NoDuplicates(s + t)
  {
    forall i, j | 0 <= i < j < |s + t| ensures (s + t)[i] != (s + t)[j] {
      if i < |s| <= j {
        assert s[i] in s && t[j - |s|] in t;
      }
    }
  }

  lemma MultisetMembers<T>(s: seq<T>, t: seq<T>)
    requires multiset(s) == multiset(t)
    ensures |s| == |t|
    ensures forall x :: x in s <==> x in t
  {
    assert |multiset(s)| == |s| && |multiset(t)| == |t|;
    forall x ensures x in s <==> x in t {
      assert x in s <==> x in multiset(s);
      assert x in t <==> x in multiset(t);
    }
  }

  lemma SubsetSize<T>(a: set<T>, b: set<T>)
    requires a <= b
    ensures |a| <= |b|
  {
    assert b == a + (b - a);
    assert |b| == |a| + |b - a|;
  }

  lemma CountTwice<T>(s: seq<T>, i: nat, j: nat)
    requires i < j < |s| && s[i] == s[j]
    ensures multiset(s)[s[i]] >= 2
  {
    assert s == s[..j] + [s[j]] + s[j + 1..];
    assert s[..j][i] == s[i];
    assert multiset(s) == multiset(s[..j]) + multiset([s[j]]) + multiset(s[j + 1..]);
    assert s[i] in multiset(s[..j]);
  }

  lemma PermutationLists<T(!new)>(s: seq<T>, t: seq<T>, elements: set<T>)
    requires Lists(s, elements) && multiset(s) == multiset(t)
    ensures Lists(t, elements)
  {
    MultisetMembers(s, t);
    forall i, j | 0 <= i < j < |t| ensures t[i] != t[j] {
      if t[i] == t[j] {
        NoDuplicatesCount(s, t[i]);
        CountTwice(t, i, j);
      }
    }
  }

  lemma BagCancel<T>(a: multiset<T>, b: multiset<T>, x: T)
    requires a + multiset{x} == b + multiset{x}
    ensures a == b
  {
    assert a == a + multiset{x} - multiset{x};
    assert b == b + multiset{x} - multiset{x};
  }

  /** How many elements have the property. */
  function Tally<T>(s: seq<T>, p: T -> bool): nat {
    if s == [] then 0 else Tally(s[..|s| - 1], p) + if p(s[|s| - 1]) then 1 else 0
  }

  lemma {:induction false} TallyConcat<T>(s: seq<T>, t: seq<T>, p: T -> bool)
    ensures Tally(s + t, p) == Tally(s, p) + Tally(t, p)
  {
    if t == [] {
      assert s + t == s;
    } else {
      var all := s + t;
      TallyConcat(s, t[..|t| - 1], p);
      assert all[..|all| - 1] == s + t[..|t| - 1] && all[|all| - 1] == t[|t| - 1];
    }
  }

  /** The order of the elements does not matter. */
  lemma {:induction false} TallyBag<T>(s: seq<T>, t: seq<T>, p: T -> bool)
    requires multiset(s) == multiset(t)
    ensures Tally(s, p) == Tally(t, p)
    decreases |s|
  {
    assert |s| == |multiset(s)| == |multiset(t)| == |t|;
    if s != [] {
      var n := |s| - 1;
      assert s == s[..n] + [s[n]];
      assert s[n] in multiset(t);
      var i :| 0 <= i < |t| && t[i] == s[n];
      var rest := t[..i] + t[i + 1..];
      assert t == t[..i] + ([t[i]] + t[i + 1..]);
      assert multiset(s) == multiset(s[..n]) + multiset{s[n]};
      assert multiset(t) == multiset(rest) + multiset{s[n]};
      BagCancel(multiset(s[..n]), multiset(rest), s[n]);
      TallyBag(s[..n], rest, p);
      TallyWithout(t, i, p);
    }
  }

  lemma TallyWithout<T>(t: seq<T>, i: nat, p: T -> bool)
    requires i < |t|
    ensures Tally(t, p) == Tally(t[..i] + t[i + 1..], p) + if p(t[i]) then 1 else 0
  {
    var one, rest := [t[i]], t[i + 1..];
    assert Tally(one, p) == if p(t[i]) then 1 else 0;
    hide Tally;
    assert t == t[..i] + (one + rest);
    TallyConcat(t[..i], one + rest, p);
    TallyConcat(one, rest, p);
    TallyConcat(t[..i], rest, p);
  }

  /** Every finite set can be listed. */
  lemma {:induction false} ListingExists<T(!new)>(elements: set<T>) returns (s: seq<T>)
    ensures Lists(s, elements)
    decreases |elements|
  {
    if elements == {} {
      s := [];
    } else {
      var x :| x in elements;
      var rest := ListingExists(elements - {x});
      NoDuplicatesConcat(rest, [x]);
      s := rest + [x];
    }
  }

  /** There is always another identifier. */
  lemma {:induction false} FreshString(used: set<string>) returns (s: string)
    ensures s != "" && s !in used
    ensures forall t :: t in used ==> |t| < |s|
    decreases |used|
  {
    if used == {} {
      s := "x";
    } else {
      var t :| t in used;
      var rest := FreshString(used - {t});
      s := rest + t + "x";
    }
  }
}
