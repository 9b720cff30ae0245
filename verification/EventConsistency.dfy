/** The attributed rows and the waiting queues are views of the raw events, the issued
    decisions and the event types. `Consistent` says that the incrementally maintained
    collections are exactly those views; every operation keeps it. */
module EventConsistency {
  import opened Common
  import opened Events

  predicate Waits(types: map<string, EventType>, typ: string) {
    typ != EXPOSURE && typ in types && types[typ].requiresExposure
  }

  /** Attributed by a batch recomputation. */
  predicate Due(st: State, e: Event) {
    Belongs(st.decisions, e) && (Waits(st.types, e.typ) ==> st.decisions[e.decisionID].exposed)
  }

  /** Still waiting, by a batch recomputation. */
  predicate Held(st: State, e: Event) {
    Waits(st.types, e.typ) && e.decisionID in st.decisions && !st.decisions[e.decisionID].exposed
  }

  ghost function DueRows(st: State): set<AttributedEvent> {
    set id | id in st.events && Due(st, st.events[id]) :: Row(st.decisions, st.events[id])
  }

  ghost function HeldEvents(st: State, decisionID: string): set<Event> {
    set id | id in st.events && st.events[id].decisionID == decisionID && Held(st, st.events[id]) :: st.events[id]
  }

  ghost predicate HasExposure(st: State, decisionID: string) {
    exists id :: id in st.events && st.events[id].typ == EXPOSURE && st.events[id].decisionID == decisionID
  }

  ghost predicate Keyed(st: State) {
    && (forall k :: k in st.types ==> st.types[k].key == k)
    && (forall id :: id in st.decisions ==> id != "" && st.decisions[id].id == id)
    && (forall id :: id in st.events ==>
          id != "" && st.events[id].id == id && st.events[id].typ in st.types)
    && "" !in st.experiments
  }

  ghost predicate ExposureTracked(st: State) {
    forall id :: id in st.decisions ==> (st.decisions[id].exposed <==> HasExposure(st, id))
  }

  ghost predicate QueuesExact(st: State) {
    forall id :: Lists(Pending(st, id), HeldEvents(st, id))
  }

  ghost predicate Consistent(st: State) {
    && Keyed(st)
    && ExposureTracked(st)
    && Lists(st.attributed, DueRows(st))
    && QueuesExact(st)
  }

  lemma InitialConsistent()
    ensures Consistent(INITIAL)
  {
    assert HeldEvents(INITIAL, "") == {};
  }

  // ---- Rows of a list of events --------------------------------------------

  lemma {:induction false} RowsMembers(decisions: map<string, Decision>, es: seq<Event>)
    ensures forall r :: r in Rows(decisions, es) <==>
      exists e :: e in es && Belongs(decisions, e) && r == Row(decisions, e)
  {
    if es != [] {
      var n := |es| - 1;
      RowsMembers(decisions, es[..n]);
      assert es == es[..n] + [es[n]];
    }
  }

  ghost predicate DistinctIDs(es: seq<Event>) {
    forall i, j :: 0 <= i < j < |es| ==> es[i].id != es[j].id
  }

  lemma {:induction false} RowsDistinct(decisions: map<string, Decision>, es: seq<Event>)
    requires DistinctIDs(es)
    ensures NoDuplicates(Rows(decisions, es))
  {
    if es != [] {
      var n := |es| - 1;
      RowsDistinct(decisions, es[..n]);
      RowsMembers(decisions, es[..n]);
      if Belongs(decisions, es[n]) {
        NoDuplicatesConcat(Rows(decisions, es[..n]), [Row(decisions, es[n])]);
      }
    }
  }

  /** Appending the rows of new events extends the view from `old` to `target`. */
  lemma AppendRows(rows: seq<AttributedEvent>, old_: set<AttributedEvent>, decisions: map<string, Decision>,
                   es: seq<Event>, target: set<AttributedEvent>)
    requires Lists(rows, old_)
    requires DistinctIDs(es)
    requires forall r, e :: r in old_ && e in es ==> r.eventID != e.id
    requires forall r :: r in target <==>
      r in old_ || exists e :: e in es && Belongs(decisions, e) && r == Row(decisions, e)
    ensures Lists(rows + Rows(decisions, es), target)
  {
    RowsMembers(decisions, es);
    RowsDistinct(decisions, es);
    NoDuplicatesConcat(rows, Rows(decisions, es));
  }

  // ---- Ingestion keeps the views exact -------------------------------------

  lemma HeldDistinct(st: State, decisionID: string)
    requires Keyed(st) && QueuesExact(st)
    ensures DistinctIDs(Pending(st, decisionID))
    ensures forall e :: e in Pending(st, decisionID) ==> e.id in st.events && st.events[e.id] == e
  {
    var es := Pending(st, decisionID);
    assert Lists(es, HeldEvents(st, decisionID));
    forall i, j | 0 <= i < j < |es| ensures es[i].id != es[j].id {
      assert es[i] in es && es[j] in es;
    }
  }

  ghost predicate Fresh(st: State, e: Event) {
    e.id != "" && e.id !in st.events && e.typ in st.types
  }

  function Saved(st: State, e: Event): State {
    st.(events := st.events[e.id := e])
  }

  lemma ExposeFields(st: State, e: Event)
    requires Belongs(st.decisions, e) ==> e.decisionID in st.decisions
    ensures var after := Expose(st, e);
      && after.types == st.types && after.experiments == st.experiments && after.events == st.events
      && after.decisions == MarkExposed(st.decisions, e.decisionID)
      && after.pending == st.pending - {e.decisionID}
      && after.attributed == st.attributed + Rows(after.decisions, [e] + Pending(st, e.decisionID))
  {
    RowsConcat(MarkExposed(st.decisions, e.decisionID), [e], Pending(st, e.decisionID));
  }

  lemma {:induction false} RowsConcat(decisions: map<string, Decision>, a: seq<Event>, b: seq<Event>)
    ensures Rows(decisions, a + b) == Rows(decisions, a) + Rows(decisions, b)
  {
    if b == [] {
      assert a + b == a;
    } else {
      var n := |b| - 1;
      var whole := a + b;
      RowsConcat(decisions, a, b[..n]);
      assert whole[..|whole| - 1] == a + b[..n] && whole[|whole| - 1] == b[n];
    }
  }

  /** What an exposure `e` of decision `d`, stored as a new event, changes besides the rows. */
  ghost predicate ExposedBy(st: State, e: Event, after: State) {
    && after.types == st.types && after.experiments == st.experiments
    && after.events == st.events[e.id := e]
    && after.decisions == MarkExposed(st.decisions, e.decisionID)
    && after.pending == st.pending - {e.decisionID}
  }

  lemma ExposeQueues(st: State, e: Event, after: State)
    requires Consistent(st) && Fresh(st, e) && e.typ == EXPOSURE && ExposedBy(st, e, after)
    ensures QueuesExact(after)
  {
    forall id ensures Lists(Pending(after, id), HeldEvents(after, id)) {
      assert Lists(Pending(st, id), HeldEvents(st, id));
      if id == e.decisionID {
        assert HeldEvents(after, id) == {};
      } else {
        forall x ensures x in HeldEvents(after, id) <==> x in HeldEvents(st, id) {
          if x in HeldEvents(st, id) {
            var k :| k in st.events && st.events[k] == x;
            assert after.events[k] == x;
          }
        }
      }
    }
  }

  lemma ExposeTracked(st: State, e: Event, after: State)
    requires Consistent(st) && Fresh(st, e) && e.typ == EXPOSURE && ExposedBy(st, e, after)
    ensures Keyed(after) && ExposureTracked(after)
  {
    assert after.events[e.id] == e;
    forall id | id in after.decisions ensures after.decisions[id].exposed <==> HasExposure(after, id) {
      if HasExposure(st, id) {
        var k :| k in st.events && st.events[k].typ == EXPOSURE && st.events[k].decisionID == id;
        assert after.events[k] == st.events[k];
      }
    }
  }

  lemma DueStays(st: State, e: Event, after: State, r: AttributedEvent)
    requires Keyed(st) && Fresh(st, e) && ExposedBy(st, e, after) && r in DueRows(st)
    ensures r in DueRows(after)
  {
    var id :| id in st.events && Due(st, st.events[id]) && r == Row(st.decisions, st.events[id]);
    assert after.events[id] == st.events[id] && Due(after, after.events[id]);
  }

  /** The exposure and the events that waited for it are due afterwards, ... */
  lemma ReleasedDue(st: State, e: Event, after: State, x: Event)
    requires Consistent(st) && Fresh(st, e) && e.typ == EXPOSURE && ExposedBy(st, e, after)
    requires x == e || x in Pending(st, e.decisionID)
    requires Belongs(after.decisions, x)
    ensures Row(after.decisions, x) in DueRows(after)
  {
    if x != e {
      assert Lists(Pending(st, e.decisionID), HeldEvents(st, e.decisionID));
      assert x in HeldEvents(st, e.decisionID);
    }
    assert after.events[x.id] == x && Due(after, x);
  }

  /** ... and nothing else is newly so. */
  lemma NewlyReleased(st: State, e: Event, after: State, r: AttributedEvent) returns (x: Event)
    requires Consistent(st) && Fresh(st, e) && e.typ == EXPOSURE && ExposedBy(st, e, after)
    requires r in DueRows(after) && r !in DueRows(st)
    ensures x == e || x in Pending(st, e.decisionID)
    ensures Belongs(after.decisions, x) && r == Row(after.decisions, x)
  {
    var id :| id in after.events && Due(after, after.events[id]) && r == Row(after.decisions, after.events[id]);
    x := after.events[id];
    if id != e.id {
      assert r == Row(st.decisions, x);
      assert Held(st, x) && x.decisionID == e.decisionID;
      assert Lists(Pending(st, e.decisionID), HeldEvents(st, e.decisionID));
      assert x in HeldEvents(st, e.decisionID);
    }
  }

  lemma ExposeRows(st: State, e: Event, after: State)
    requires Consistent(st) && Fresh(st, e) && e.typ == EXPOSURE && ExposedBy(st, e, after)
    ensures Lists(st.attributed + Rows(after.decisions, [e] + Pending(st, e.decisionID)), DueRows(after))
  {
    var waiting := Pending(st, e.decisionID);
    assert Lists(waiting, HeldEvents(st, e.decisionID));
    HeldDistinct(st, e.decisionID);
    var all := [e] + waiting;
    assert forall x :: x in all <==> x == e || x in waiting;
    assert DistinctIDs(all);
    forall r | r in DueRows(st) ensures r in DueRows(after) {
      DueStays(st, e, after, r);
    }
    forall x | x in all && Belongs(after.decisions, x) ensures Row(after.decisions, x) in DueRows(after) {
      ReleasedDue(st, e, after, x);
    }
    forall r | r in DueRows(after) && r !in DueRows(st)
      ensures exists x :: x in all && Belongs(after.decisions, x) && r == Row(after.decisions, x) {
      var x := NewlyReleased(st, e, after, r);
    }
    forall r, x | r in DueRows(st) && x in all ensures r.eventID != x.id {
      if x != e {
        assert Held(st, x);
      }
    }
    AppendRows(st.attributed, DueRows(st), after.decisions, all, DueRows(after));
  }

  lemma ExposeConsistent(st: State, e: Event)
    requires Consistent(st) && Fresh(st, e) && e.typ == EXPOSURE
    ensures Consistent(Expose(Saved(st, e), e))
  {
    ExposeFields(Saved(st, e), e);
    var after := Expose(Saved(st, e), e);
    ExposeQueues(st, e, after);
    ExposeTracked(st, e, after);
    ExposeRows(st, e, after);
    assert Pending(Saved(st, e), e.decisionID) == Pending(st, e.decisionID);
  }

  // ---- Events that are not exposures ---------------------------------------

  /** What saving a new raw event `e` changes. */
  ghost predicate SavedBy(st: State, e: Event, after: State) {
    && after.types == st.types && after.experiments == st.experiments
    && after.decisions == st.decisions && after.events == st.events[e.id := e]
  }

  lemma SavedTracked(st: State, e: Event, after: State)
    requires Consistent(st) && Fresh(st, e) && e.typ != EXPOSURE && SavedBy(st, e, after)
    ensures Keyed(after) && ExposureTracked(after)
  {
    forall id | id in after.decisions ensures after.decisions[id].exposed <==> HasExposure(after, id) {
      if HasExposure(st, id) {
        var k :| k in st.events && st.events[k].typ == EXPOSURE && st.events[k].decisionID == id;
        assert after.events[k] == st.events[k];
      }
    }
  }

  lemma SavedRows(st: State, e: Event, after: State)
    requires Keyed(st) && Fresh(st, e) && SavedBy(st, e, after)
    ensures DueRows(after) == DueRows(st) + if Due(st, e) then {Row(st.decisions, e)} else {}
  {
    assert after.events[e.id] == e;
    forall r ensures r in DueRows(after) <==> r in DueRows(st) || (Due(st, e) && r == Row(st.decisions, e)) {
      if r in DueRows(st) {
        var id :| id in st.events && Due(st, st.events[id]) && r == Row(st.decisions, st.events[id]);
        assert after.events[id] == st.events[id];
      }
    }
  }

  lemma SavedHeld(st: State, e: Event, after: State, id: string)
    requires Keyed(st) && Fresh(st, e) && SavedBy(st, e, after)
    ensures HeldEvents(after, id) == HeldEvents(st, id) + if e.decisionID == id && Held(st, e) then {e} else {}
  {
    assert after.events[e.id] == e;
    forall x | x in HeldEvents(st, id) ensures x in HeldEvents(after, id) {
      var k :| k in st.events && st.events[k] == x;
      assert after.events[k] == x;
    }
  }

  /** A new raw event of another type leaves every other event's standing alone. */
  lemma SavedViews(st: State, e: Event, after: State)
    requires Consistent(st) && Fresh(st, e) && e.typ != EXPOSURE && SavedBy(st, e, after)
    ensures Keyed(after) && ExposureTracked(after)
    ensures DueRows(after) == DueRows(st) + if Due(st, e) then {Row(st.decisions, e)} else {}
    ensures forall id ::
      HeldEvents(after, id) == HeldEvents(st, id) + if e.decisionID == id && Held(st, e) then {e} else {}
  {
    SavedTracked(st, e, after);
    SavedRows(st, e, after);
    forall id ensures HeldEvents(after, id)
      == HeldEvents(st, id) + if e.decisionID == id && Held(st, e) then {e} else {} {
      SavedHeld(st, e, after, id);
    }
  }

  lemma NotHeldConsistent(st: State, e: Event)
    requires Consistent(st) && Fresh(st, e) && e.typ != EXPOSURE && !Held(st, e)
    requires Due(st, e) <==> Belongs(st.decisions, e)
    ensures Consistent(Attribute(Saved(st, e), [e]))
  {
    var after := Attribute(Saved(st, e), [e]);
    SavedViews(st, e, after);
    assert after.attributed == st.attributed + Rows(st.decisions, [e]);
    AppendRows(st.attributed, DueRows(st), st.decisions, [e], DueRows(after));
    forall id ensures Lists(Pending(after, id), HeldEvents(after, id)) {
      assert Lists(Pending(st, id), HeldEvents(st, id));
      assert HeldEvents(after, id) == HeldEvents(st, id);
    }
  }

  lemma EnqueuedConsistent(st: State, e: Event)
    requires Consistent(st) && Fresh(st, e) && Held(st, e)
    ensures Consistent(Enqueued(Saved(st, e), e))
  {
    var after := Enqueued(Saved(st, e), e);
    SavedViews(st, e, after);
    assert DueRows(after) == DueRows(st);
    forall id ensures Lists(Pending(after, id), HeldEvents(after, id)) {
      var queue := Pending(st, id);
      assert Lists(queue, HeldEvents(st, id));
      if id == e.decisionID {
        assert forall x :: x in HeldEvents(st, id) ==> x.id in st.events;
        NoDuplicatesConcat(queue, [e]);
      } else {
        assert HeldEvents(after, id) == HeldEvents(st, id);
      }
    }
  }

  lemma UnknownDecisionConsistent(st: State, e: Event)
    requires Consistent(st) && Fresh(st, e) && e.typ != EXPOSURE && e.decisionID !in st.decisions
    ensures Consistent(Saved(st, e))
  {
    SavedViews(st, e, Saved(st, e));
    assert DueRows(Saved(st, e)) == DueRows(st);
    forall id ensures Lists(Pending(Saved(st, e), id), HeldEvents(Saved(st, e), id)) {
      assert Lists(Pending(st, id), HeldEvents(st, id));
      assert HeldEvents(Saved(st, e), id) == HeldEvents(st, id);
    }
  }

  /** Ingesting any event, admissible or not, in any order, keeps the views exact. */
  lemma IngestOneConsistent(st: State, raw: Event, now: Time)
    requires Consistent(st)
    ensures Consistent(IngestOne(st, raw, now).0)
  {
    var e := Stamp(raw, now);
    if Refusal(st.types, raw, now).None? && e.id !in st.events {
      if e.typ == EXPOSURE {
        ExposeConsistent(st, e);
      } else if Held(st, e) {
        EnqueuedConsistent(st, e);
      } else if Waits(st.types, e.typ) && e.decisionID !in st.decisions {
        UnknownDecisionConsistent(st, e);
      } else {
        NotHeldConsistent(st, e);
      }
    }
  }

  lemma {:induction false} IngestBatchConsistent(st: State, batch: seq<Event>, now: Time)
    requires Consistent(st)
    ensures Consistent(IngestBatch(st, batch, now).0)
  {
    if batch != [] {
      var n := |batch| - 1;
      IngestBatchConsistent(st, batch[..n], now);
      IngestOneConsistent(IngestBatch(st, batch[..n], now).0, batch[n], now);
    }
  }
}
