/** Ingestion across orders, batch splits and repetitions. */
module EventOrder {
  import opened Common
  import opened Events
  import opened EventConsistency
  import opened EventSteps
  import opened EventRuns

  datatype Batch = Batch(events: seq<Event>, now: Time)
  datatype Arrival = Arrival(event: Event, now: Time)

  function IngestBatches(st: State, batches: seq<Batch>): State {
    if batches == [] then st
    else
      var n := |batches| - 1;
      IngestBatch(IngestBatches(st, batches[..n]), batches[n].events, batches[n].now).0
  }

  function Arrivals(batches: seq<Batch>): seq<Arrival> {
    if batches == [] then []
    else
      var n := |batches| - 1;
      Arrivals(batches[..n]) + Spread(batches[n].events, batches[n].now)
  }

  function Spread(batch: seq<Event>, now: Time): seq<Arrival> {
    seq(|batch|, i requires 0 <= i < |batch| => Arrival(batch[i], now))
  }

  function IngestAll(st: State, xs: seq<Arrival>): State {
    if xs == [] then st
    else
      var n := |xs| - 1;
      IngestOne(IngestAll(st, xs[..n]), xs[n].event, xs[n].now).0
  }

  function EventsOf(xs: seq<Arrival>): seq<Event> {
    seq(|xs|, i requires 0 <= i < |xs| => xs[i].event)
  }

  lemma {:induction false} IngestAllConcat(st: State, xs: seq<Arrival>, ys: seq<Arrival>)
    ensures IngestAll(st, xs + ys) == IngestAll(IngestAll(st, xs), ys)
  {
    hide IngestOne;
    if ys == [] {
      assert xs + ys == xs;
    } else {
      var n := |ys| - 1;
      var all := xs + ys;
      IngestAllConcat(st, xs, ys[..n]);
      assert all[..|all| - 1] == xs + ys[..n] && all[|all| - 1] == ys[n];
    }
  }

  lemma {:induction false} BatchIsArrivals(st: State, batch: seq<Event>, now: Time)
    ensures IngestBatch(st, batch, now).0 == IngestAll(st, Spread(batch, now))
  {
    if batch != [] {
      var n := |batch| - 1;
      BatchIsArrivals(st, batch[..n], now);
      assert Spread(batch, now)[..n] == Spread(batch[..n], now);
    }
  }

  lemma {:induction false} BatchesAreArrivals(st: State, batches: seq<Batch>)
    ensures IngestBatches(st, batches) == IngestAll(st, Arrivals(batches))
  {
    if batches != [] {
      var n := |batches| - 1;
      var b := batches[n];
      BatchesAreArrivals(st, batches[..n]);
      BatchIsArrivals(IngestBatches(st, batches[..n]), b.events, b.now);
      IngestAllConcat(st, Arrivals(batches[..n]), Spread(b.events, b.now));
    }
  }

  // ---- Order independence --------------------------------------------------

  /** Not refused at its arrival, and dated by its sender. */
  predicate Admissible(types: map<string, EventType>, x: Arrival) {
    x.event.occurredAt != ZERO_TIME && Refusal(types, x.event, x.now).None?
  }

  /** Equal but for exposure flags. */
  ghost predicate SameDecisions(a: map<string, Decision>, b: map<string, Decision>) {
    && a.Keys == b.Keys
    && forall id :: id in a ==> b[id] == a[id].(exposed := b[id].exposed)
  }

  lemma ExposeEffect(st: State, e: Event)
    ensures var end := Expose(st, e);
      && end.types == st.types && end.experiments == st.experiments && end.events == st.events
      && end.decisions == MarkExposed(st.decisions, e.decisionID)
  {
  }

  lemma MarkingSame(decisions: map<string, Decision>, id: string)
    ensures SameDecisions(decisions, MarkExposed(decisions, id))
  {
  }

  lemma IngestOneEffect(st: State, raw: Event, now: Time)
    ensures var end := IngestOne(st, raw, now).0;
      && end.types == st.types && end.experiments == st.experiments
      && SameDecisions(st.decisions, end.decisions)
      && end.events == if Refusal(st.types, raw, now).None? && raw.id !in st.events
                       then st.events[raw.id := Stamp(raw, now)] else st.events
  {
    hide Expose, MarkExposed, Attribute;
    var e := Stamp(raw, now);
    var saved := st.(events := st.events[e.id := e]);
    ExposeEffect(saved, e);
    MarkingSame(st.decisions, e.decisionID);
    AttributeEffect(saved, [e]);
  }

  lemma AttributeEffect(st: State, es: seq<Event>)
    ensures var end := Attribute(st, es);
      && end.types == st.types && end.experiments == st.experiments && end.events == st.events
      && end.decisions == st.decisions && end.pending == st.pending
  {
  }

  ghost function IDs(xs: seq<Arrival>): set<string> {
    set x | x in xs :: x.event.id
  }

  /** The raw events after any admissible arrivals: the old ones, and each new id once. */
  ghost predicate Delivered(st: State, xs: seq<Arrival>, end: State) {
    && end.types == st.types && end.experiments == st.experiments
    && SameDecisions(st.decisions, end.decisions)
    && end.events.Keys == st.events.Keys + IDs(xs)
    && (forall id :: id in st.events ==> end.events[id] == st.events[id])
    && (forall x :: x in xs && x.event.id !in st.events ==>
          end.events[x.event.id] == x.event.(receivedAt := x.now))
  }

  lemma DeliveredNext(st: State, before: seq<Arrival>, mid: State, x: Arrival, end: State)
    requires Delivered(st, before, mid) && x.event.id !in IDs(before)
    requires end.types == mid.types && end.experiments == mid.experiments
    requires SameDecisions(mid.decisions, end.decisions)
    requires end.events == if x.event.id in mid.events then mid.events
                           else mid.events[x.event.id := x.event.(receivedAt := x.now)]
    ensures Delivered(st, before + [x], end)
  {
    var xs := before + [x];
    assert forall y :: y in xs <==> y in before || y == x;
    assert IDs(xs) == IDs(before) + {x.event.id};
    assert forall y :: y in before ==> y.event.id in IDs(before);
  }

  lemma {:induction false} ArrivalsEffect(st: State, xs: seq<Arrival>)
    requires forall x :: x in xs ==> Admissible(st.types, x)
    requires DistinctIDs(EventsOf(xs))
    ensures Delivered(st, xs, IngestAll(st, xs))
  {
    if xs != [] {
      var before, x := LastArrival(st.types, xs);
      ArrivalsEffect(st, before);
      OneArrival(st, before, IngestAll(st, before), x);
      hide Delivered, IngestOne;
    } else {
      assert IDs(xs) == {};
    }
  }

  lemma LastArrival(types: map<string, EventType>, xs: seq<Arrival>) returns (before: seq<Arrival>, x: Arrival)
    requires xs != [] && DistinctIDs(EventsOf(xs)) && forall y :: y in xs ==> Admissible(types, y)
    ensures before == xs[..|xs| - 1] && x == xs[|xs| - 1] && xs == before + [x]
    ensures DistinctIDs(EventsOf(before)) && x.event.id !in IDs(before)
    ensures Admissible(types, x) && forall y :: y in before ==> Admissible(types, y)
  {
    hide Admissible;
    var n := |xs| - 1;
    before, x := xs[..n], xs[n];
    assert EventsOf(before) == EventsOf(xs)[..n];
    forall y | y in before ensures y.event.id != x.event.id {
      var i :| 0 <= i < n && before[i] == y;
      assert EventsOf(xs)[i].id != EventsOf(xs)[n].id;
    }
  }

  lemma OneArrival(st: State, before: seq<Arrival>, mid: State, x: Arrival)
    requires Delivered(st, before, mid) && Admissible(st.types, x) && x.event.id !in IDs(before)
    ensures Delivered(st, before + [x], IngestOne(mid, x.event, x.now).0)
  {
    IngestOneEffect(mid, x.event, x.now);
    assert Stamp(x.event, x.now) == x.event.(receivedAt := x.now);
    hide IngestOne;
    DeliveredNext(st, before, mid, x, IngestOne(mid, x.event, x.now).0);
  }

  lemma {:induction false} IngestAllConsistent(st: State, xs: seq<Arrival>)
    requires Consistent(st)
    ensures Consistent(IngestAll(st, xs))
  {
    if xs != [] {
      var n := |xs| - 1;
      IngestAllConsistent(st, xs[..n]);
      IngestOneConsistent(IngestAll(st, xs[..n]), xs[n].event, xs[n].now);
    }
  }

  function Unreceived(e: Event): Event {
    e.(receivedAt := 0)
  }

  function AllUnreceived(es: seq<Event>): seq<Event> {
    seq(|es|, i requires 0 <= i < |es| => Unreceived(es[i]))
  }

  ghost predicate SameEvents(a: map<string, Event>, b: map<string, Event>) {
    && a.Keys == b.Keys
    && forall id :: id in a ==> Unreceived(a[id]) == Unreceived(b[id])
  }

  /** Everything but arrival instants, row order and the job log is the same. */
  ghost predicate SameOutcome(a: State, b: State) {
    && a.types == b.types && a.experiments == b.experiments
    && a.decisions == b.decisions
    && SameEvents(a.events, b.events)
    && multiset(a.attributed) == multiset(b.attributed)
    && forall id :: multiset(AllUnreceived(Pending(a, id))) == multiset(AllUnreceived(Pending(b, id)))
  }

  /** Two consistent states over the same raw events and decisions agree on every view. */
  lemma ViewsDetermined(a: State, b: State)
    requires Consistent(a) && Consistent(b)
    requires a.types == b.types && a.experiments == b.experiments
    requires SameDecisions(a.decisions, b.decisions) && SameEvents(a.events, b.events)
    ensures SameOutcome(a, b)
  {
    forall id | id in a.decisions ensures a.decisions[id] == b.decisions[id] {
      ExposureDetermined(a, b, id);
      ExposureDetermined(b, a, id);
    }
    assert a.decisions == b.decisions;
    RowsDetermined(a, b);
    RowsDetermined(b, a);
    assert DueRows(a) == DueRows(b);
    ListsIsMultiset(a.attributed, DueRows(a));
    ListsIsMultiset(b.attributed, DueRows(b));
    forall id ensures multiset(AllUnreceived(Pending(a, id))) == multiset(AllUnreceived(Pending(b, id))) {
      QueueDetermined(a, b, id);
    }
  }

  lemma ExposureDetermined(a: State, b: State, id: string)
    requires SameEvents(a.events, b.events)
    ensures HasExposure(a, id) ==> HasExposure(b, id)
  {
    if HasExposure(a, id) {
      var k :| k in a.events && a.events[k].typ == EXPOSURE && a.events[k].decisionID == id;
      assert Unreceived(a.events[k]) == Unreceived(b.events[k]);
    }
  }

  lemma RowsDetermined(a: State, b: State)
    requires a.types == b.types && a.decisions == b.decisions && SameEvents(a.events, b.events)
    ensures DueRows(a) <= DueRows(b)
  {
    forall r | r in DueRows(a) ensures r in DueRows(b) {
      var k :| k in a.events && Due(a, a.events[k]) && r == Row(a.decisions, a.events[k]);
      assert Unreceived(a.events[k]) == Unreceived(b.events[k]);
      assert Due(b, b.events[k]) && r == Row(b.decisions, b.events[k]);
    }
  }

  ghost function HeldUnreceived(st: State, id: string): set<Event> {
    set e | e in HeldEvents(st, id) :: Unreceived(e)
  }

  lemma QueueLists(st: State, id: string)
    requires Consistent(st)
    ensures Lists(AllUnreceived(Pending(st, id)), HeldUnreceived(st, id))
  {
    var queue := Pending(st, id);
    var bare := AllUnreceived(queue);
    HeldDistinct(st, id);
    assert Lists(queue, HeldEvents(st, id));
    forall i, j | 0 <= i < j < |bare| ensures bare[i] != bare[j] {
      assert queue[i].id != queue[j].id;
      assert bare[i].id == queue[i].id && bare[j].id == queue[j].id;
    }
    forall x ensures x in bare <==> x in HeldUnreceived(st, id) {
      if x in bare {
        var i :| 0 <= i < |bare| && bare[i] == x;
        assert queue[i] in queue && x == Unreceived(queue[i]);
      }
      if x in HeldUnreceived(st, id) {
        var e :| e in HeldEvents(st, id) && x == Unreceived(e);
        var i :| 0 <= i < |queue| && queue[i] == e;
        assert bare[i] == x;
      }
    }
  }

  lemma HeldDetermined(a: State, b: State, id: string)
    requires a.types == b.types && a.decisions == b.decisions && SameEvents(a.events, b.events)
    ensures HeldUnreceived(a, id) <= HeldUnreceived(b, id)
  {
    forall x | x in HeldUnreceived(a, id) ensures x in HeldUnreceived(b, id) {
      var e :| e in HeldEvents(a, id) && x == Unreceived(e);
      var k :| k in a.events && a.events[k] == e && e.decisionID == id && Held(a, e);
      assert Unreceived(a.events[k]) == Unreceived(b.events[k]);
      assert b.events[k] in HeldEvents(b, id);
    }
  }

  lemma QueueDetermined(a: State, b: State, id: string)
    requires Consistent(a) && Consistent(b)
    requires a.types == b.types && a.decisions == b.decisions && SameEvents(a.events, b.events)
    ensures multiset(AllUnreceived(Pending(a, id))) == multiset(AllUnreceived(Pending(b, id)))
  {
    QueueLists(a, id);
    QueueLists(b, id);
    HeldDetermined(a, b, id);
    HeldDetermined(b, a, id);
    assert HeldUnreceived(a, id) == HeldUnreceived(b, id);
    ListsIsMultiset(AllUnreceived(Pending(a, id)), HeldUnreceived(a, id));
    ListsIsMultiset(AllUnreceived(Pending(b, id)), HeldUnreceived(b, id));
  }

  lemma SameArrivals(xs: seq<Arrival>, ys: seq<Arrival>)
    requires multiset(EventsOf(xs)) == multiset(EventsOf(ys))
    ensures forall x :: x in xs ==> exists y :: y in ys && y.event == x.event
  {
    MultisetMembers(EventsOf(xs), EventsOf(ys));
    forall x | x in xs ensures exists y :: y in ys && y.event == x.event {
      var i :| 0 <= i < |xs| && xs[i] == x;
      assert EventsOf(xs)[i] in EventsOf(xs);
      var j :| 0 <= j < |EventsOf(ys)| && EventsOf(ys)[j] == x.event;
      assert ys[j] in ys;
    }
  }

  lemma DeliveredSame(st: State, xs: seq<Arrival>, ys: seq<Arrival>, a: State, b: State)
    requires Delivered(st, xs, a) && Delivered(st, ys, b)
    requires multiset(EventsOf(xs)) == multiset(EventsOf(ys))
    ensures SameEvents(a.events, b.events)
  {
    SameArrivals(xs, ys);
    SameArrivals(ys, xs);
    assert IDs(xs) == IDs(ys);
    assert a.events.Keys == b.events.Keys;
    forall id | id in a.events ensures Unreceived(a.events[id]) == Unreceived(b.events[id]) {
      DeliveredEvent(st, xs, ys, a, b, id);
    }
  }

  lemma DeliveredEvent(st: State, xs: seq<Arrival>, ys: seq<Arrival>, a: State, b: State, id: string)
    requires Delivered(st, xs, a) && Delivered(st, ys, b) && id in a.events && id in b.events
    requires forall x :: x in xs ==> exists y :: y in ys && y.event == x.event
    ensures Unreceived(a.events[id]) == Unreceived(b.events[id])
  {
    if id !in st.events {
      assert id in IDs(xs);
      var x :| x in xs && x.event.id == id;
      var y :| y in ys && y.event == x.event;
      assert a.events[x.event.id] == x.event.(receivedAt := x.now);
      assert b.events[y.event.id] == y.event.(receivedAt := y.now);
    }
  }

  lemma SameDecisionsJoin(base: map<string, Decision>, a: map<string, Decision>, b: map<string, Decision>)
    requires SameDecisions(base, a) && SameDecisions(base, b)
    ensures SameDecisions(a, b)
  {
    forall id | id in a ensures b[id] == a[id].(exposed := b[id].exposed) {
      assert id in base && a[id] == base[id].(exposed := a[id].exposed);
      assert b[id] == base[id].(exposed := b[id].exposed);
    }
  }

  lemma DistinctTransfers(a: seq<Event>, b: seq<Event>)
    requires DistinctIDs(a) && multiset(a) == multiset(b)
    ensures DistinctIDs(b)
  {
    MultisetMembers(a, b);
    forall i, j | 0 <= i < j < |b| ensures b[i].id != b[j].id {
      if b[i].id == b[j].id {
        assert b[i] in b && b[j] in b;
        var p :| 0 <= p < |a| && a[p] == b[i];
        var q :| 0 <= q < |a| && a[q] == b[j];
        assert p == q;
        NoDuplicatesCount(a, b[i]);
        CountTwice(b, i, j);
      }
    }
  }

  /** Any two ways of delivering the same events, in any order, split into any batches at any
      instants that admit them, from any state whose views are exact, leave the same outcome. */
  lemma OrderIndependentFrom(st: State, first: seq<Batch>, second: seq<Batch>)
    requires Consistent(st)
    requires forall x :: x in Arrivals(first) || x in Arrivals(second) ==> Admissible(st.types, x)
    requires DistinctIDs(EventsOf(Arrivals(first)))
    requires multiset(EventsOf(Arrivals(first))) == multiset(EventsOf(Arrivals(second)))
    ensures SameOutcome(IngestBatches(st, first), IngestBatches(st, second))
  {
    var xs, ys := Arrivals(first), Arrivals(second);
    DistinctTransfers(EventsOf(xs), EventsOf(ys));
    BatchesAreArrivals(st, first);
    BatchesAreArrivals(st, second);
    IngestAllConsistent(st, xs);
    IngestAllConsistent(st, ys);
    ArrivalsEffect(st, xs);
    ArrivalsEffect(st, ys);
    SameDecisionsJoin(st.decisions, IngestAll(st, xs).decisions, IngestAll(st, ys).decisions);
    DeliveredSame(st, xs, ys, IngestAll(st, xs), IngestAll(st, ys));
    ViewsDetermined(IngestAll(st, xs), IngestAll(st, ys));
  }

  // ---- Repetition ----------------------------------------------------------

  ghost predicate Grown(before: State, after: State) {
    forall id :: id in before.events ==> id in after.events && after.events[id] == before.events[id]
  }

  lemma {:induction false} BatchGrows(st: State, batch: seq<Event>, now: Time)
    ensures var end := IngestBatch(st, batch, now).0;
      && Grown(st, end) && end.types == st.types
      && forall e :: e in batch ==> e.id in end.events || Refusal(st.types, e, now).Some?
  {
    if batch != [] {
      var n := |batch| - 1;
      assert batch == batch[..n] + [batch[n]];
      BatchGrows(st, batch[..n], now);
      IngestOneEffect(IngestBatch(st, batch[..n], now).0, batch[n], now);
    }
  }

  lemma {:induction false} RunGrows(naming: Naming, st: State, ops: seq<Op>, end: State)
    requires Run(naming, st, ops, end)
    ensures Grown(st, end)
    decreases |ops|
  {
    if ops != [] {
      if ops[0].Ingest? {
        BatchGrows(st, ops[0].batch, ops[0].now);
      }
      RunGrows(naming, Apply(st, ops[0]), ops[1..], end);
    }
  }

  lemma {:induction false} KnownBatchIgnored(st: State, batch: seq<Event>, now: Time)
    requires forall e :: e in batch ==> e.id in st.events || Refusal(st.types, e, now).Some?
    ensures IngestBatch(st, batch, now).0 == st
    ensures IngestBatch(st, batch, now).1.accepted == 0
  {
    if batch != [] {
      var n := |batch| - 1;
      assert batch[n] in batch && forall e :: e in batch[..n] ==> e in batch;
      KnownBatchIgnored(st, batch[..n], now);
    }
  }

  /** Re-ingesting a batch at any later time, after anything else has happened, stores nothing
      and accepts nothing: undated events, repeated ids and conflicting payloads included. */
  lemma ReingestionIsInert(naming: Naming, st: State, batch: seq<Event>, now: Time, ops: seq<Op>, later: State,
                           again: Time)
    requires Run(naming, IngestBatch(st, batch, now).0, ops, later)
    requires later.types == st.types && now <= again
    ensures IngestBatch(later, batch, again).0 == later
    ensures IngestBatch(later, batch, again).1.accepted == 0
  {
    BatchGrows(st, batch, now);
    RunGrows(naming, IngestBatch(st, batch, now).0, ops, later);
    KnownBatchIgnored(later, batch, again);
  }

  // ---- Accounting ----------------------------------------------------------

  function Orphans(errors: seq<Reason>): nat {
    if errors == [] then 0
    else Orphans(errors[..|errors| - 1]) + if errors[|errors| - 1].DecisionNotFound? then 1 else 0
  }

  /** Every event of a batch is counted once, every rejection leaves one error, and the raw
      events grow by exactly the accepted ones and those whose decision was not found. */
  lemma {:induction false} BatchAccounting(st: State, batch: seq<Event>, now: Time)
    ensures var (end, out) := IngestBatch(st, batch, now);
      && out.accepted + out.duplicate + out.rejected == |batch|
      && |out.errors| == out.rejected
      && |end.events| == |st.events| + out.accepted + Orphans(out.errors)
  {
    if batch != [] {
      var n := |batch| - 1;
      BatchAccounting(st, batch[..n], now);
      var (before, counts) := IngestBatch(st, batch[..n], now);
      var (after, outcome) := IngestOne(before, batch[n], now);
      if outcome.Rejected? {
        var errors := counts.errors + [outcome.reason];
        assert errors[..|errors| - 1] == counts.errors;
      }
      IngestOneEffect(before, batch[n], now);
      StoredOnce(before, batch[n], now);
    }
  }

  lemma StoredOnce(st: State, raw: Event, now: Time)
    ensures var (end, outcome) := IngestOne(st, raw, now);
      |end.events| == |st.events|
        + if outcome.Accepted? || (outcome.Rejected? && outcome.reason.DecisionNotFound?) then 1 else 0
  {
    IngestOneEffect(st, raw, now);
    var e := Stamp(raw, now);
    if e.id !in st.events {
      assert |st.events[e.id := e]| == |st.events| + 1;
    }
  }
}
