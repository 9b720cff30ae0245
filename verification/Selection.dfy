/** Which experiments a subject takes part in: at most k candidates, lowest score first. */
module Selection {
  import opened Common

  datatype Candidate = Candidate(flagKey: string, experimentID: string, score: nat)

  predicate Sorted(cs: seq<Candidate>) {
    forall i, j :: 0 <= i < j < |cs| ==> cs[i].score <= cs[j].score
  }

  lemma InsertedAt(sorted: seq<Candidate>, c: Candidate, i: nat)
    requires i <= |sorted| && Sorted(sorted)
    requires forall j :: 0 <= j < i ==> sorted[j].score <= c.score
    requires i < |sorted| ==> c.score <= sorted[i].score
    ensures var r := sorted[..i] + [c] + sorted[i..];
      Sorted(r) && multiset(r) == multiset(sorted) + multiset{c}
  {
    InsertedSorted(sorted, c, i);
    assert sorted == sorted[..i] + sorted[i..];
    hide Sorted;
  }

  lemma InsertedSorted(sorted: seq<Candidate>, c: Candidate, i: nat)
    requires i <= |sorted| && Sorted(sorted)
    requires forall j :: 0 <= j < i ==> sorted[j].score <= c.score
    requires i < |sorted| ==> c.score <= sorted[i].score
    ensures Sorted(sorted[..i] + [c] + sorted[i..])
  {
    var r := sorted[..i] + [c] + sorted[i..];
    forall j ensures 0 <= j < |r| ==> r[j] == if j < i then sorted[j] else if j == i then c else sorted[j - 1] {
    }
  }

  method InsertByScore(sorted: seq<Candidate>, c: Candidate) returns (r: seq<Candidate>)
    requires Sorted(sorted)
    ensures Sorted(r) && multiset(r) == multiset(sorted) + multiset{c}
  {
    var i := 0;
    while i < |sorted| && sorted[i].score <= c.score
      invariant 0 <= i <= |sorted|
      invariant forall j :: 0 <= j < i ==> sorted[j].score <= c.score
    {
      i := i + 1;
    }
    r := sorted[..i] + [c] + sorted[i..];
    InsertedAt(sorted, c, i);
  }

  /** `sort.Slice` by score: sorted and a permutation; how ties fall is not promised. */
  method SortByScore(cs: seq<Candidate>) returns (r: seq<Candidate>)
    ensures Sorted(r) && multiset(r) == multiset(cs)
  {
    r := [];
    for i := 0 to |cs|
      invariant Sorted(r) && multiset(r) == multiset(cs[..i])
    {
      assert cs[..i + 1] == cs[..i] + [cs[i]];
      r := InsertByScore(r, cs[i]);
    }
    assert cs[..|cs|] == cs;
  }

  // ---- The selection, without an order of evaluation ------------------------

  ghost function Lower(cs: set<Candidate>, c: Candidate): set<Candidate> {
    set d | d in cs && d.score < c.score
  }

  /** The candidates that fewer than k others undercut. */
  ghost function Chosen(cs: set<Candidate>, k: nat): set<Candidate> {
    set c | c in cs && |Lower(cs, c)| < k
  }

  ghost predicate DistinctKeys(cs: set<Candidate>) {
    forall c, d :: c in cs && d in cs && c.flagKey == d.flagKey ==> c == d
  }

  /** The flags of the first k. */
  function TopKeys(order: seq<Candidate>, k: nat): set<string> {
    set c | c in order[..Min(k, |order|)] :: c.flagKey
  }

  /** The last candidate inside the first k and the first one outside have the same score. */
  predicate CutTied(order: seq<Candidate>, k: nat) {
    0 < k < |order| && order[k - 1].score == order[k].score
  }

  lemma LowerWithin(s: seq<Candidate>, cs: set<Candidate>, i: nat, m: nat)
    requires Lists(s, cs) && i < |s| && m <= |s|
    requires forall j :: m <= j < |s| ==> s[j].score >= s[i].score
    ensures |Lower(cs, s[i])| <= m
  {
    var prefix := s[..m];
    forall x | x in Lower(cs, s[i]) ensures x in prefix {
      assert x in s;
      var j :| 0 <= j < |s| && s[j] == x;
      assert prefix[j] == x;
    }
    var members := set x | x in prefix;
    ListsIsMultiset(prefix, members);
    SubsetSize(Lower(cs, s[i]), members);
  }

  lemma LowerBeyond(s: seq<Candidate>, cs: set<Candidate>, i: nat, m: nat)
    requires Lists(s, cs) && i < |s| && m <= |s|
    requires forall j :: 0 <= j < m ==> s[j].score < s[i].score
    ensures |Lower(cs, s[i])| >= m
  {
    var prefix := s[..m];
    forall x | x in prefix ensures x in Lower(cs, s[i]) {
      var j :| 0 <= j < m && prefix[j] == x;
      assert s[j] in s;
    }
    var members := set x | x in prefix;
    ListsIsMultiset(prefix, members);
    SubsetSize(members, Lower(cs, s[i]));
  }

  /** The first k of a sorted listing are always among the chosen. */
  lemma EarlyAreChosen(s: seq<Candidate>, cs: set<Candidate>, k: nat, j: nat)
    requires Lists(s, cs) && Sorted(s) && j < |s|
    requires j < k || (CutTied(s, k) && j == k)
    ensures s[j] in Chosen(cs, k)
  {
    assert s[j] in s;
    LowerWithin(s, cs, j, if j < k then j else k - 1);
  }

  /** Unless a tie straddles the cut, the first k of a sorted listing are exactly the chosen
      candidates, min(k, n) of them. */
  lemma FirstKAreChosen(s: seq<Candidate>, cs: set<Candidate>, k: nat)
    requires Lists(s, cs) && Sorted(s) && !CutTied(s, k)
    ensures var m := Min(k, |s|);
      Lists(s[..m], Chosen(cs, k)) && |Chosen(cs, k)| == Min(k, |cs|)
  {
    var m := Min(k, |s|);
    var top := s[..m];
    forall x ensures x in top <==> x in Chosen(cs, k) {
      if x in top {
        var j :| 0 <= j < m && top[j] == x;
        EarlyAreChosen(s, cs, k, j);
      }
      if x in Chosen(cs, k) {
        assert x in s;
        var j :| 0 <= j < |s| && s[j] == x;
        if j >= k {
          LowerBeyond(s, cs, j, k);
        }
        assert top[j] == x;
      }
    }
    ListsIsMultiset(top, Chosen(cs, k));
    ListsIsMultiset(s, cs);
  }

  /** A tie straddles the cut of every sorted listing or of none. */
  lemma TieIsShared(s: seq<Candidate>, t: seq<Candidate>, cs: set<Candidate>, k: nat)
    requires Lists(s, cs) && Sorted(s) && Lists(t, cs) && Sorted(t) && !CutTied(s, k)
    ensures !CutTied(t, k)
  {
    if CutTied(t, k) {
      FirstKAreChosen(s, cs, k);
      var longer := t[..k + 1];
      var members := set x | x in longer;
      ListsIsMultiset(longer, members);
      ListsIsMultiset(s, cs);
      ListsIsMultiset(t, cs);
      forall x | x in members ensures x in Chosen(cs, k) {
        var j :| 0 <= j < k + 1 && longer[j] == x;
        EarlyAreChosen(t, cs, k, j);
      }
      SubsetSize(members, Chosen(cs, k));
      assert false;
    }
  }

  /** The last candidate inside changes places with the first outside. */
  function Swapped(s: seq<Candidate>, k: nat): seq<Candidate>
    requires 0 < k < |s|
  {
    s[k - 1 := s[k]][k := s[k - 1]]
  }

  lemma SwapMatters(s: seq<Candidate>, cs: set<Candidate>, k: nat)
    requires Lists(s, cs) && Sorted(s) && DistinctKeys(cs) && CutTied(s, k)
    ensures Sorted(Swapped(s, k)) && multiset(Swapped(s, k)) == multiset(s)
    ensures s[k].flagKey in TopKeys(Swapped(s, k), k) && s[k].flagKey !in TopKeys(s, k)
  {
    var t := Swapped(s, k);
    assert t[..k][k - 1] == s[k];
    assert s[k].flagKey in TopKeys(t, k);
    forall c | c in s[..k] ensures c.flagKey != s[k].flagKey {
      var j :| 0 <= j < k && s[j] == c;
      assert s[j] in s && s[k] in s;
    }
  }

  /** Sorted listings of the same candidates have the same first k, unless a tie straddles the
      cut. */
  lemma SameTop(s: seq<Candidate>, u: seq<Candidate>, cs: set<Candidate>, k: nat)
    requires Lists(s, cs) && Sorted(s) && Lists(u, cs) && Sorted(u) && !CutTied(s, k)
    ensures TopKeys(u, k) == TopKeys(s, k)
  {
    TieIsShared(s, u, cs, k);
    FirstKAreChosen(s, cs, k);
    FirstKAreChosen(u, cs, k);
    assert forall c :: c in u[..Min(k, |u|)] <==> c in s[..Min(k, |s|)];
  }

  /** Every way of breaking ties selects the same flags if and only if no tie straddles the
      cut. */
  lemma TiesMatterExactly(s: seq<Candidate>, cs: set<Candidate>, k: nat)
    requires Lists(s, cs) && Sorted(s) && DistinctKeys(cs)
    ensures (forall t :: Sorted(t) && multiset(t) == multiset(s) ==> TopKeys(t, k) == TopKeys(s, k))
      <==> !CutTied(s, k)
  {
    if CutTied(s, k) {
      SwapMatters(s, cs, k);
    } else {
      forall t | Sorted(t) && multiset(t) == multiset(s) ensures TopKeys(t, k) == TopKeys(s, k) {
        PermutationLists(s, t, cs);
        SameTop(s, t, cs, k);
      }
    }
  }

  /** A subject keeps its experiments when an experiment it is not in goes away. */
  lemma DroppingUnchosen(cs: set<Candidate>, k: nat, u: Candidate)
    requires u in cs && u !in Chosen(cs, k)
    ensures Chosen(cs - {u}, k) == Chosen(cs, k)
  {
    var rest := cs - {u};
    forall c | c in rest ensures c in Chosen(rest, k) <==> c in Chosen(cs, k) {
      if u.score < c.score {
        assert Lower(rest, c) == Lower(cs, c) - {u};
        assert Lower(cs, u) <= Lower(rest, c);
        SubsetSize(Lower(cs, u), Lower(rest, c));
        SubsetSize(Lower(rest, c), Lower(cs, c));
      } else {
        assert Lower(rest, c) == Lower(cs, c);
      }
    }
  }

  // ---- One more and one less -----------------------------------------------

  /** One more flag lets in no other flag, and displaces at most one. */
  ghost predicate Steady(s: seq<Candidate>, t: seq<Candidate>, a: string, k: nat) {
    TopKeys(t, k) <= TopKeys(s, k) + {a} && |TopKeys(s, k) - TopKeys(t, k)| <= 1
  }

  /** Listing `t` is sorted, and has a candidate of a new flag beside those of `cs`. */
  ghost predicate Adds(cs: set<Candidate>, a: Candidate, t: seq<Candidate>) {
    (forall c :: c in cs ==> c.flagKey != a.flagKey) && Sorted(t) && Lists(t, cs + {a})
  }

  /** The listing without its element i. */
  function Without(t: seq<Candidate>, i: nat): (u: seq<Candidate>)
    requires i < |t|
    ensures |u| == |t| - 1
    ensures forall j :: 0 <= j < |u| ==> u[j] == t[if j < i then j else j + 1]
  {
    t[..i] + t[i + 1..]
  }

  lemma WithoutBag(t: seq<Candidate>, i: nat)
    requires i < |t|
    ensures multiset(t) == multiset(Without(t, i)) + multiset{t[i]}
  {
    assert t == t[..i] + ([t[i]] + t[i + 1..]);
  }

  /** A sorted listing is still one when an element is taken out. */
  lemma TakenOut(t: seq<Candidate>, cs: set<Candidate>, i: nat)
    requires i < |t| && Sorted(t) && Lists(t, cs)
    ensures Sorted(Without(t, i)) && Lists(Without(t, i), cs - {t[i]})
  {
    hide Without;
    var u := Without(t, i);
    assert NoDuplicates(u);
    assert Sorted(u);
    forall x ensures x in u <==> x in cs - {t[i]} {
      TakenOutMember(t, cs, i, x);
    }
  }

  lemma TakenOutMember(t: seq<Candidate>, cs: set<Candidate>, i: nat, x: Candidate)
    requires i < |t| && Lists(t, cs)
    ensures x in Without(t, i) <==> x in cs - {t[i]}
  {
    hide Without;
    var u := Without(t, i);
    if x in u {
      var j :| 0 <= j < |u| && u[j] == x;
      assert t[if j < i then j else j + 1] in t;
    }
    if x in cs - {t[i]} {
      assert x in t;
      var j :| 0 <= j < |t| && t[j] == x;
      assert u[if j < i then j else j - 1] == x;
    }
  }

  lemma TopKeyAt(s: seq<Candidate>, k: nat, j: nat)
    requires j < |s| && j < k
    ensures s[j].flagKey in TopKeys(s, k)
  {
    assert s[..Min(k, |s|)][j] == s[j];
  }

  lemma TopKeyFrom(s: seq<Candidate>, k: nat, f: string) returns (j: nat)
    requires f in TopKeys(s, k)
    ensures j < |s| && j < k && s[j].flagKey == f
  {
    var c :| c in s[..Min(k, |s|)] && c.flagKey == f;
    j :| 0 <= j < Min(k, |s|) && s[..Min(k, |s|)][j] == c;
  }

  /** Taking one out of a listing moves at most one candidate into its first k. */
  lemma FirstAfter(t: seq<Candidate>, i: nat, k: nat)
    requires i < |t|
    ensures Steady(Without(t, i), t, t[i].flagKey, k)
  {
    hide TopKeys, Without;
    var u := Without(t, i);
    forall f | f in TopKeys(t, k) ensures f in TopKeys(u, k) + {t[i].flagKey} {
      var j := TopKeyFrom(t, k, f);
      if j != i {
        TopKeyAt(u, k, if j < i then j else j - 1);
      }
    }
    var gone := TopKeys(u, k) - TopKeys(t, k);
    forall f | f in gone ensures 0 < k <= |u| && f == u[k - 1].flagKey {
      var j := TopKeyFrom(u, k, f);
      if j < i || j < k - 1 {
        TopKeyAt(t, k, if j < i then j else j + 1);
      }
    }
    if gone != {} {
      SubsetSize(gone, {u[k - 1].flagKey});
    }
  }

  /** Unless a tie straddles the cut, a new candidate displaces at most one and lets in no
      other, however the two sorts break ties. */
  lemma AddingOne(s: seq<Candidate>, cs: set<Candidate>, k: nat, a: Candidate, t: seq<Candidate>)
    requires Lists(s, cs) && Sorted(s) && DistinctKeys(cs) && Adds(cs, a, t) && !CutTied(s, k)
    ensures Steady(s, t, a.flagKey, k)
  {
    assert a in t;
    var i: nat :| i < |t| && t[i] == a;
    var u := Without(t, i);
    TakenOut(t, cs + {a}, i);
    assert cs + {a} - {a} == cs;
    SameTop(s, u, cs, k);
    FirstAfter(t, i, k);
  }

  /** A new candidate, whatever it is and however the sorts break ties, displaces at most one
      and lets in no other, if and only if no tie straddles the cut before it comes. */
  lemma AddingOneExactly(s: seq<Candidate>, cs: set<Candidate>, k: nat)
    requires Lists(s, cs) && Sorted(s) && DistinctKeys(cs)
    ensures (forall a, t :: Adds(cs, a, t) ==> Steady(s, t, a.flagKey, k)) <==> !CutTied(s, k)
  {
    if CutTied(s, k) {
      var a, t := AddedLast(s, cs, k);
    } else {
      forall a, t | Adds(cs, a, t) ensures Steady(s, t, a.flagKey, k) {
        AddingOne(s, cs, k, a, t);
      }
    }
  }

  /** A candidate that comes last lets the sort break the tie anew. */
  lemma AddedLast(s: seq<Candidate>, cs: set<Candidate>, k: nat) returns (a: Candidate, t: seq<Candidate>)
    requires Lists(s, cs) && Sorted(s) && DistinctKeys(cs) && CutTied(s, k)
    ensures Adds(cs, a, t) && !Steady(s, t, a.flagKey, k)
  {
    var keys := set c | c in cs :: c.flagKey;
    var name := FreshString(keys);
    a := Candidate(name, "", s[|s| - 1].score);
    t := Swapped(s, k) + [a];
    forall c | c in cs ensures c.flagKey != name && c.score <= a.score {
      assert c.flagKey in keys && c in s;
    }
    assert s[k] in s;
    SwapMatters(s, cs, k);
    SwapLists(s, cs, k);
    LastAdded(Swapped(s, k), cs, a);
    SwappedUnsteady(s, cs, k, [a], name);
  }

  lemma SwappedUnsteady(s: seq<Candidate>, cs: set<Candidate>, k: nat, more: seq<Candidate>, name: string)
    requires Lists(s, cs) && Sorted(s) && DistinctKeys(cs) && CutTied(s, k) && name != s[k].flagKey
    ensures !Steady(s, Swapped(s, k) + more, name, k)
  {
    SwapMatters(s, cs, k);
    SwapLists(s, cs, k);
    TopKeyAt(Swapped(s, k) + more, k, k - 1);
  }

  lemma SwapLists(s: seq<Candidate>, cs: set<Candidate>, k: nat)
    requires Lists(s, cs) && 0 < k < |s|
    ensures Lists(Swapped(s, k), cs)
    ensures |Swapped(s, k)| == |s| && Swapped(s, k)[k - 1] == s[k]
  {
    PermutationLists(s, Swapped(s, k), cs);
  }

  lemma LastAdded(u: seq<Candidate>, cs: set<Candidate>, a: Candidate)
    requires Lists(u, cs) && Sorted(u) && forall c :: c in cs ==> c.flagKey != a.flagKey && c.score <= a.score
    ensures Adds(cs, a, u + [a])
  {
    NoDuplicatesConcat(u, [a]);
    forall i | 0 <= i < |u| ensures u[i].score <= a.score {
      assert u[i] in u;
    }
  }

  /** When a candidate outside the first k is dropped, the rest is selected as before by every
      sort, if and only if no tie straddles the cut that remains. */
  lemma DroppingOneExactly(s: seq<Candidate>, cs: set<Candidate>, k: nat, i: nat)
    requires Lists(s, cs) && Sorted(s) && DistinctKeys(cs) && k <= i < |s|
    ensures var rest := Without(s, i);
      (forall t :: Sorted(t) && multiset(t) == multiset(rest) ==> TopKeys(t, k) == TopKeys(s, k))
      <==> !CutTied(rest, k)
  {
    var rest := Without(s, i);
    TakenOut(s, cs, i);
    assert rest[..k] == s[..k];
    TiesMatterExactly(rest, cs - {s[i]}, k);
  }
}
