/** What any deliveries do to one decision's exposure mark and queue, and order independence from
    every reachable state, decisions outside experiments included. */
module EventDelivery {
  import opened Common
  import opened Events
  import opened EventConsistency
  import opened EventSteps
  import opened EventRuns
  import opened EventOrder

  // ---- One decision's mark and queue ---------------------------------------

  /** A new exposure of the decision is among the arrivals. */
  ghost predicate ExposureArrives(st: State, xs: seq<Arrival>, id: string) {
    exists x :: x in xs && NewEvent(st, x.event, id) && x.event.typ == EXPOSURE
  }

  predicate NewEvent(st: State, e: Event, id: string) {
    e.id !in st.events && e.decisionID == id
  }

  /** The new event has to wait for the decision's exposure. */
  predicate MustWait(st: State, e: Event, id: string) {
    NewEvent(st, e, id) && Waits(st.types, e.typ) && id in st.decisions && !st.decisions[id].exposed
  }

  function Waiting(st: State, es: seq<Event>, id: string): seq<Event> {
    if es == [] then []
    else
      var n := |es| - 1;
      Waiting(st, es[..n], id) + (if MustWait(st, es[n], id) then [es[n]] else [])
  }

  /** A new exposure marks the decision and empties its queue for good; without one the queue
      grows by the new events that must wait, in order of arrival. */
  ghost predicate MarkedAndQueued(st: State, xs: seq<Arrival>, id: string, end: State) {
    && (id in end.decisions <==> id in st.decisions)
    && (id in st.decisions ==>
          (end.decisions[id].exposed <==> st.decisions[id].exposed || ExposureArrives(st, xs, id)))
    && AllUnreceived(Pending(end, id)) ==
         if ExposureArrives(st, xs, id) then []
         else AllUnreceived(Pending(st, id) + Waiting(st, EventsOf(xs), id))
  }

  ghost predicate TypesKeyed(st: State) {
    forall k :: k in st.types ==> st.types[k].key == k
  }

  lemma ArrivesNext(st: State, before: seq<Arrival>, x: Arrival, id: string)
    ensures ExposureArrives(st, before + [x], id)
      <==> ExposureArrives(st, before, id) || (NewEvent(st, x.event, id) && x.event.typ == EXPOSURE)
  {
    var xs := before + [x];
    assert forall y :: y in xs <==> y in before || y == x;
  }

  lemma WaitingNext(st: State, before: seq<Arrival>, x: Arrival, id: string)
    ensures Waiting(st, EventsOf(before + [x]), id)
      == Waiting(st, EventsOf(before), id) + if MustWait(st, x.event, id) then [x.event] else []
  {
    var es := EventsOf(before + [x]);
    assert es[..|es| - 1] == EventsOf(before) && es[|es| - 1] == x.event;
  }

  /** What one new event, placed or exposed, does to the decision. */
  lemma NewEventEffect(mid: State, e: Event, id: string)
    requires TypesKeyed(mid) && e.typ in mid.types
    ensures var end := if e.typ == EXPOSURE then Expose(Saved(mid, e), e) else Placed(Saved(mid, e), e);
      && (id in end.decisions <==> id in mid.decisions)
      && (id in mid.decisions ==> (end.decisions[id].exposed <==>
            mid.decisions[id].exposed || (e.typ == EXPOSURE && e.decisionID == id)))
      && Pending(end, id) ==
           if e.decisionID != id then Pending(mid, id)
           else if e.typ == EXPOSURE then []
           else if Waits(mid.types, e.typ) && id in mid.decisions && !mid.decisions[id].exposed then
             Pending(mid, id) + [e]
           else Pending(mid, id)
  {
    if e.typ == EXPOSURE {
      ExposeEffect(Saved(mid, e), e);
      ExposePending(Saved(mid, e), e);
    }
  }

  lemma ExposePending(st: State, e: Event)
    ensures Expose(st, e).pending == st.pending - {e.decisionID}
  {
  }

  lemma UnreceivedConcat(a: seq<Event>, b: seq<Event>)
    ensures AllUnreceived(a + b) == AllUnreceived(a) + AllUnreceived(b)
  {
  }

  lemma ArrivalNext(st: State, before: seq<Arrival>, mid: State, x: Arrival, id: string)
    requires TypesKeyed(st) && Admissible(st.types, x) && x.event.id !in IDs(before)
    requires Delivered(st, before, mid) && MarkedAndQueued(st, before, id, mid)
    ensures MarkedAndQueued(st, before + [x], id, IngestOne(mid, x.event, x.now).0)
  {
    hide IngestOne, Expose, Placed, Waiting;
    var e := Stamp(x.event, x.now);
    ArrivesNext(st, before, x, id);
    WaitingNext(st, before, x, id);
    IngestOneIs(mid, x.event, x.now);
    assert e == x.event.(receivedAt := x.now);
    if x.event.id in st.events {
      assert x.event.id in mid.events;
      assert Waiting(st, EventsOf(before + [x]), id) == Waiting(st, EventsOf(before), id);
    } else {
      assert x.event.id !in mid.events;
      NewEventEffect(mid, e, id);
      QueueNext(st, before, x, id, mid, IngestOne(mid, x.event, x.now).0, e);
    }
  }

  lemma QueueNext(st: State, before: seq<Arrival>, x: Arrival, id: string, mid: State, end: State, e: Event)
    requires MarkedAndQueued(st, before, id, mid) && mid.types == st.types
    requires x.event.id !in st.events && e == x.event.(receivedAt := x.now)
    requires id in end.decisions <==> id in mid.decisions
    requires id in mid.decisions ==>
      (end.decisions[id].exposed <==> mid.decisions[id].exposed || (e.typ == EXPOSURE && e.decisionID == id))
    requires Pending(end, id) ==
      if e.decisionID != id then Pending(mid, id)
      else if e.typ == EXPOSURE then []
      else if Waits(mid.types, e.typ) && id in mid.decisions && !mid.decisions[id].exposed then Pending(mid, id) + [e]
      else Pending(mid, id)
    ensures MarkedAndQueued(st, before + [x], id, end)
  {
    hide Waiting;
    ArrivesNext(st, before, x, id);
    WaitingNext(st, before, x, id);
    UnreceivedConcat(Pending(mid, id), [e]);
    var queued := Pending(st, id) + Waiting(st, EventsOf(before), id);
    UnreceivedConcat(queued, [x.event]);
    assert Unreceived(e) == Unreceived(x.event);
    assert Pending(st, id) + (Waiting(st, EventsOf(before), id) + [x.event]) == queued + [x.event];
    assert AllUnreceived([e]) == AllUnreceived([x.event]);
    assert Waiting(st, EventsOf(before), id) + [] == Waiting(st, EventsOf(before), id);
  }

  /** Any admissible deliveries, from any state. */
  lemma {:induction false} DeliveryEffect(st: State, xs: seq<Arrival>, id: string)
    requires TypesKeyed(st) && forall x :: x in xs ==> Admissible(st.types, x)
    requires DistinctIDs(EventsOf(xs))
    ensures MarkedAndQueued(st, xs, id, IngestAll(st, xs))
  {
    if xs == [] {
      assert EventsOf(xs) == [] && Pending(st, id) + [] == Pending(st, id);
    } else {
      var before, x := LastArrival(st.types, xs);
      DeliveryEffect(st, before, id);
      ArrivalsEffect(st, before);
      hide MarkedAndQueued, Delivered, IngestOne, Admissible;
      ArrivalNext(st, before, IngestAll(st, before), x, id);
    }
  }

  // ---- Order ---------------------------------------------------------------

  lemma {:induction false} WaitingMembers(st: State, es: seq<Event>, id: string)
    requires DistinctIDs(es)
    ensures DistinctIDs(Waiting(st, es, id))
    ensures forall e :: e in Waiting(st, es, id) <==> e in es && MustWait(st, e, id)
  {
    if es != [] {
      var n := |es| - 1;
      var before := Waiting(st, es[..n], id);
      WaitingMembers(st, es[..n], id);
      assert es == es[..n] + [es[n]];
      forall i | 0 <= i < |before| ensures before[i].id != es[n].id {
        assert before[i] in es[..n];
      }
    }
  }

  /** Listing the same events with distinct ids in another order permutes their bare forms. */
  lemma BareEvents(a: seq<Event>, b: seq<Event>)
    requires DistinctIDs(a) && DistinctIDs(b) && forall e :: e in a <==> e in b
    ensures multiset(AllUnreceived(a)) == multiset(AllUnreceived(b))
  {
    var all := set e | e in a :: Unreceived(e);
    BareLists(a, all);
    BareLists(b, all);
    ListsIsMultiset(AllUnreceived(a), all);
    ListsIsMultiset(AllUnreceived(b), all);
  }

  lemma BareLists(es: seq<Event>, all: set<Event>)
    requires DistinctIDs(es)
    requires forall x :: x in all <==> exists e :: e in es && x == Unreceived(e)
    ensures Lists(AllUnreceived(es), all)
  {
    var bare := AllUnreceived(es);
    forall i, j | 0 <= i < j < |bare| ensures bare[i] != bare[j] {
      assert es[i].id != es[j].id;
    }
    forall x ensures x in bare <==> x in all {
      if x in bare {
        var i :| 0 <= i < |bare| && bare[i] == x;
        assert es[i] in es;
      }
      if x in all {
        var e :| e in es && x == Unreceived(e);
        var i :| 0 <= i < |es| && es[i] == e;
        assert bare[i] == x;
      }
    }
  }

  lemma SameExposures(st: State, xs: seq<Arrival>, ys: seq<Arrival>, id: string)
    requires multiset(EventsOf(xs)) == multiset(EventsOf(ys))
    ensures ExposureArrives(st, xs, id) ==> ExposureArrives(st, ys, id)
  {
    SameArrivals(xs, ys);
  }

  /** The two states agree on the decision's mark and queue. */
  ghost predicate MarksAlike(a: State, b: State, id: string) {
    && (id in a.decisions <==> id in b.decisions)
    && (id in a.decisions ==> (a.decisions[id].exposed <==> b.decisions[id].exposed))
    && multiset(AllUnreceived(Pending(a, id))) == multiset(AllUnreceived(Pending(b, id)))
  }

  /** The decision's mark and queue come out the same whichever way the events arrive. */
  lemma SameMarkAndQueue(st: State, xs: seq<Arrival>, ys: seq<Arrival>, id: string)
    requires TypesKeyed(st)
    requires forall x :: x in xs || x in ys ==> Admissible(st.types, x)
    requires DistinctIDs(EventsOf(xs)) && multiset(EventsOf(xs)) == multiset(EventsOf(ys))
    ensures MarksAlike(IngestAll(st, xs), IngestAll(st, ys), id)
  {
    DistinctTransfers(EventsOf(xs), EventsOf(ys));
    DeliveryEffect(st, xs, id);
    DeliveryEffect(st, ys, id);
    SameExposures(st, xs, ys, id);
    SameExposures(st, ys, xs, id);
    var p, q := Waiting(st, EventsOf(xs), id), Waiting(st, EventsOf(ys), id);
    WaitingMembers(st, EventsOf(xs), id);
    WaitingMembers(st, EventsOf(ys), id);
    MultisetMembers(EventsOf(xs), EventsOf(ys));
    BareEvents(p, q);
    UnreceivedConcat(Pending(st, id), p);
    UnreceivedConcat(Pending(st, id), q);
  }

  lemma {:induction false} BatchesInside(st: State, batches: seq<Batch>)
    requires QueuesStored(st)
    ensures Inside(IngestBatches(st, batches)) == IngestBatches(Inside(st), batches)
    ensures QueuesStored(IngestBatches(st, batches))
  {
    if batches != [] {
      var n := |batches| - 1;
      BatchesInside(st, batches[..n]);
      IngestBatchInside(IngestBatches(st, batches[..n]), batches[n].events, batches[n].now);
    }
  }

  /** Any two ways of delivering the same events, in any order, split into any batches at any
      instants that admit them, from any reachable state, leave the same outcome. */
  lemma OrderIndependent(ops: seq<Op>, st: State, first: seq<Batch>, second: seq<Batch>)
    requires Run(InsideExperiments, INITIAL, ops, st)
    requires forall x :: x in Arrivals(first) || x in Arrivals(second) ==> Admissible(st.types, x)
    requires DistinctIDs(EventsOf(Arrivals(first)))
    requires multiset(EventsOf(Arrivals(first))) == multiset(EventsOf(Arrivals(second)))
    ensures SameOutcome(IngestBatches(st, first), IngestBatches(st, second))
  {
    InitialExact();
    RunExact(INITIAL, ops, st);
    AnyOrderFrom(st, first, second);
  }

  /** The same from any state that is exact inside experiments. */
  lemma AnyOrderFrom(st: State, first: seq<Batch>, second: seq<Batch>)
    requires Exact(st)
    requires forall x :: x in Arrivals(first) || x in Arrivals(second) ==> Admissible(st.types, x)
    requires DistinctIDs(EventsOf(Arrivals(first)))
    requires multiset(EventsOf(Arrivals(first))) == multiset(EventsOf(Arrivals(second)))
    ensures SameOutcome(IngestBatches(st, first), IngestBatches(st, second))
  {
    var a, b := IngestBatches(st, first), IngestBatches(st, second);
    assert TypesKeyed(st);
    RowsAnyOrder(st, first, second);
    SameRaw(st, first, second);
    forall id ensures MarksAlike(a, b, id) {
      SameMarks(st, first, second, id);
    }
    OutcomeOf(a, b);
  }

  lemma OutcomeOf(a: State, b: State)
    requires a.types == b.types && a.experiments == b.experiments
    requires SameDecisions(a.decisions, b.decisions) && SameEvents(a.events, b.events)
    requires multiset(a.attributed) == multiset(b.attributed)
    requires forall id :: MarksAlike(a, b, id)
    ensures SameOutcome(a, b)
  {
    hide SameEvents, AllUnreceived;
    forall id | id in a.decisions ensures id in b.decisions && a.decisions[id] == b.decisions[id] {
      assert MarksAlike(a, b, id);
      assert b.decisions[id] == a.decisions[id].(exposed := b.decisions[id].exposed);
    }
    assert a.decisions == b.decisions;
    forall id ensures multiset(AllUnreceived(Pending(a, id))) == multiset(AllUnreceived(Pending(b, id))) {
      assert MarksAlike(a, b, id);
    }
  }

  lemma SameMarks(st: State, first: seq<Batch>, second: seq<Batch>, id: string)
    requires TypesKeyed(st)
    requires forall x :: x in Arrivals(first) || x in Arrivals(second) ==> Admissible(st.types, x)
    requires DistinctIDs(EventsOf(Arrivals(first)))
    requires multiset(EventsOf(Arrivals(first))) == multiset(EventsOf(Arrivals(second)))
    ensures MarksAlike(IngestBatches(st, first), IngestBatches(st, second), id)
  {
    BatchesAreArrivals(st, first);
    BatchesAreArrivals(st, second);
    SameMarkAndQueue(st, Arrivals(first), Arrivals(second), id);
  }

  lemma RowsAnyOrder(st: State, first: seq<Batch>, second: seq<Batch>)
    requires Exact(st)
    requires forall x :: x in Arrivals(first) || x in Arrivals(second) ==> Admissible(st.types, x)
    requires DistinctIDs(EventsOf(Arrivals(first)))
    requires multiset(EventsOf(Arrivals(first))) == multiset(EventsOf(Arrivals(second)))
    ensures multiset(IngestBatches(st, first).attributed) == multiset(IngestBatches(st, second).attributed)
  {
    BatchesInside(st, first);
    BatchesInside(st, second);
    OrderIndependentFrom(Inside(st), first, second);
  }

  lemma SameRaw(st: State, first: seq<Batch>, second: seq<Batch>)
    requires forall x :: x in Arrivals(first) || x in Arrivals(second) ==> Admissible(st.types, x)
    requires DistinctIDs(EventsOf(Arrivals(first)))
    requires multiset(EventsOf(Arrivals(first))) == multiset(EventsOf(Arrivals(second)))
    ensures var a, b := IngestBatches(st, first), IngestBatches(st, second);
      && a.types == b.types && a.experiments == b.experiments
      && SameDecisions(a.decisions, b.decisions) && SameEvents(a.events, b.events)
  {
    var xs, ys := Arrivals(first), Arrivals(second);
    DistinctTransfers(EventsOf(xs), EventsOf(ys));
    BatchesAreArrivals(st, first);
    BatchesAreArrivals(st, second);
    ArrivalsEffect(st, xs);
    ArrivalsEffect(st, ys);
    SameDecisionsJoin(st.decisions, IngestAll(st, xs).decisions, IngestAll(st, ys).decisions);
    DeliveredSame(st, xs, ys, IngestAll(st, xs), IngestAll(st, ys));
  }
}
