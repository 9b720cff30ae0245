/** Replay deletes a window's rows and rebuilds them from raw events and decisions. When that
    gives back the rows that were there, for every state and window. */
module EventReplay {
  import opened Common
  import opened Events
  import opened EventConsistency

  /** The attributed rows are exactly the due ones, each once. */
  ghost predicate RowsExact(st: State) {
    Keyed(st) && Lists(st.attributed, DueRows(st))
  }

  /** How often a row ought to be attributed. */
  ghost function DueCount(st: State, r: AttributedEvent): nat {
    if r in DueRows(st) then 1 else 0
  }

  lemma {:induction false} KeptCount(rows: seq<AttributedEvent>, experimentID: string, from: Time, to: Time,
                                     r: AttributedEvent)
    ensures multiset(Kept(rows, experimentID, from, to))[r]
      == if Replaced(r, experimentID, from, to) then 0 else multiset(rows)[r]
  {
    if rows != [] {
      var n := |rows| - 1;
      assert rows == rows[..n] + [rows[n]];
      KeptCount(rows[..n], experimentID, from, to, r);
    }
  }

  lemma {:induction false} RebuiltMembers(st: State, experimentID: string, raw: seq<Event>)
    requires DistinctIDs(raw)
    ensures NoDuplicates(Rebuilt(st, experimentID, raw))
    ensures forall r :: r in Rebuilt(st, experimentID, raw) <==>
      exists e :: e in raw && Rebuilds(st, experimentID, e) && r == Row(st.decisions, e)
  {
    if raw != [] {
      var n := |raw| - 1;
      assert raw == raw[..n] + [raw[n]];
      RebuiltMembers(st, experimentID, raw[..n]);
      if Rebuilds(st, experimentID, raw[n]) {
        NoDuplicatesConcat(Rebuilt(st, experimentID, raw[..n]), [Row(st.decisions, raw[n])]);
      }
    }
  }

  lemma RawDistinct(st: State, from: Time, to: Time, raw: seq<Event>)
    requires Keyed(st) && Lists(raw, InRange(st.events, from, to))
    ensures DistinctIDs(raw)
    ensures forall e :: e in raw <==> e.id in st.events && st.events[e.id] == e && InWindow(e.occurredAt, from, to)
  {
    forall i, j | 0 <= i < j < |raw| ensures raw[i].id != raw[j].id {
      assert raw[i] in raw && raw[j] in raw;
    }
  }

  lemma RebuiltCount(st: State, experimentID: string, from: Time, to: Time, raw: seq<Event>, r: AttributedEvent)
    requires Keyed(st) && experimentID in st.experiments && Lists(raw, InRange(st.events, from, to))
    ensures multiset(Rebuilt(st, experimentID, raw))[r]
      == if Replaced(r, experimentID, from, to) then DueCount(st, r) else 0
  {
    var rebuilt := Rebuilt(st, experimentID, raw);
    RawDistinct(st, from, to, raw);
    RebuiltMembers(st, experimentID, raw);
    NoDuplicatesCount(rebuilt, r);
    if r in rebuilt {
      var e :| e in raw && Rebuilds(st, experimentID, e) && r == Row(st.decisions, e);
      assert Due(st, st.events[e.id]);
    }
    if r in DueRows(st) && Replaced(r, experimentID, from, to) {
      var id :| id in st.events && Due(st, st.events[id]) && r == Row(st.decisions, st.events[id]);
      assert st.events[id] in raw && Rebuilds(st, experimentID, st.events[id]);
    }
  }

  lemma ReplayCount(st: State, experimentID: string, from: Time, to: Time, raw: seq<Event>, r: AttributedEvent)
    requires Keyed(st) && experimentID in st.experiments && Lists(raw, InRange(st.events, from, to))
    ensures multiset(Replay(st, experimentID, from, to, raw).attributed)[r]
      == if Replaced(r, experimentID, from, to) then DueCount(st, r) else multiset(st.attributed)[r]
  {
    KeptCount(st.attributed, experimentID, from, to, r);
    RebuiltCount(st, experimentID, from, to, raw, r);
  }

  /** One replay gives back the rows it found if and only if the rows it replaces were the due
      ones, each once. */
  lemma ReplaySameExactly(st: State, experimentID: string, from: Time, to: Time, raw: seq<Event>)
    requires Keyed(st) && experimentID in st.experiments && Lists(raw, InRange(st.events, from, to))
    ensures multiset(Replay(st, experimentID, from, to, raw).attributed) == multiset(st.attributed)
      <==> forall r :: Replaced(r, experimentID, from, to) ==> multiset(st.attributed)[r] == DueCount(st, r)
  {
    var after := multiset(Replay(st, experimentID, from, to, raw).attributed);
    forall r ensures after[r]
      == if Replaced(r, experimentID, from, to) then DueCount(st, r) else multiset(st.attributed)[r] {
      ReplayCount(st, experimentID, from, to, raw, r);
    }
    if forall r :: Replaced(r, experimentID, from, to) ==> multiset(st.attributed)[r] == DueCount(st, r) {
      assert forall r :: after[r] == multiset(st.attributed)[r];
    }
  }

  /** Whatever experiment, window and listing of raw events: a replay gives back the same rows. */
  ghost predicate EveryReplaySame(st: State) {
    forall x, from, to, raw :: ReplayPossible(st, x, from, to, raw) ==>
      multiset(Replay(st, x, from, to, raw).attributed) == multiset(st.attributed)
  }

  ghost predicate ReplayPossible(st: State, experimentID: string, from: Time, to: Time, raw: seq<Event>) {
    experimentID in st.experiments && Lists(raw, InRange(st.events, from, to))
  }

  /** Every replay gives back the same rows if and only if, for each experiment that can be
      replayed, its rows are the due ones, each once. */
  lemma EveryReplaySameExactly(st: State)
    requires Keyed(st)
    ensures EveryReplaySame(st)
      <==> forall r: AttributedEvent ::
        r.experimentID in st.experiments ==> multiset(st.attributed)[r] == DueCount(st, r)
  {
    if EveryReplaySame(st) {
      forall r: AttributedEvent | r.experimentID in st.experiments
        ensures multiset(st.attributed)[r] == DueCount(st, r) {
        var from, to := r.occurredAt, r.occurredAt + 1;
        var raw := ListingExists(InRange(st.events, from, to));
        assert ReplayPossible(st, r.experimentID, from, to, raw);
        ReplayCount(st, r.experimentID, from, to, raw, r);
      }
    } else {
      var x, from, to, raw :| ReplayPossible(st, x, from, to, raw)
        && multiset(Replay(st, x, from, to, raw).attributed) != multiset(st.attributed);
      ReplaySameExactly(st, x, from, to, raw);
    }
  }

  /** Exact rows count as due, and make every replay the identity. */
  lemma RowsExactReplays(st: State)
    requires RowsExact(st)
    ensures forall r :: multiset(st.attributed)[r] == DueCount(st, r)
    ensures EveryReplaySame(st)
  {
    forall r ensures multiset(st.attributed)[r] == DueCount(st, r) {
      NoDuplicatesCount(st.attributed, r);
    }
    EveryReplaySameExactly(st);
  }

  /** On a consistent state replay is the identity: the same multiset of rows is back, nothing
      else moved, the state is still consistent, and the count returned is the number of rows
      the deletion took out. */
  lemma ReplayIdentity(st: State, experimentID: string, from: Time, to: Time, raw: seq<Event>)
    requires Consistent(st) && experimentID in st.experiments
    requires Lists(raw, InRange(st.events, from, to))
    ensures var after := Replay(st, experimentID, from, to, raw);
      && Consistent(after)
      && multiset(after.attributed) == multiset(st.attributed)
      && after == st.(attributed := after.attributed, jobs := after.jobs)
      && |Rebuilt(st, experimentID, raw)| == |st.attributed| - |Kept(st.attributed, experimentID, from, to)|
  {
    var after := Replay(st, experimentID, from, to, raw);
    RowsExactReplays(st);
    assert ReplayPossible(st, experimentID, from, to, raw);
    assert |multiset(after.attributed)| == |after.attributed|;
    assert |multiset(st.attributed)| == |st.attributed|;
    PermutationLists(st.attributed, after.attributed, DueRows(st));
    SameViews(st, after);
  }

  lemma SameViews(st: State, after: State)
    requires Consistent(st) && after == st.(attributed := after.attributed, jobs := after.jobs)
    requires Lists(after.attributed, DueRows(st))
    ensures Consistent(after)
  {
    assert DueRows(after) == DueRows(st);
    assert forall id :: HasExposure(after, id) <==> HasExposure(st, id);
    forall id ensures Lists(Pending(after, id), HeldEvents(after, id)) {
      assert Lists(Pending(st, id), HeldEvents(st, id));
      assert HeldEvents(after, id) == HeldEvents(st, id);
    }
  }
}
