/** Whole runs over the event state. A decision outside every experiment may take any new id;
    one inside an experiment takes an id that no stored event names. */
module EventRuns {
  import opened Common
  import opened Events
  import opened EventConsistency
  import opened EventReplay
  import opened EventSteps

  // ---- Inside experiments --------------------------------------------------

  /** Queues belong to known decisions and hold stored events that name them. */
  ghost predicate QueuesStored(st: State) {
    forall id :: id in st.pending ==> id in st.decisions && forall e :: e in st.pending[id] ==>
      e.decisionID == id && e.id in st.events && st.events[e.id] == e
  }

  ghost predicate Exact(st: State) {
    Consistent(Inside(st)) && QueuesStored(st)
  }

  lemma {:induction false} RowsInside(st: State, es: seq<Event>)
    ensures Rows(Inside(st).decisions, es) == Rows(st.decisions, es)
  {
    if es != [] {
      RowsInside(st, es[..|es| - 1]);
    }
  }

  lemma AttributeInside(st: State, es: seq<Event>)
    ensures Inside(Attribute(st, es)) == Attribute(Inside(st), es)
  {
    RowsInside(st, es);
  }

  lemma {:induction false} NoRowsOutside(decisions: map<string, Decision>, es: seq<Event>, id: string)
    requires forall e :: e in es ==> e.decisionID == id
    requires id in decisions ==> decisions[id].experimentID == ""
    ensures Rows(decisions, es) == []
  {
    if es != [] {
      var n := |es| - 1;
      assert es[n] in es;
      NoRowsOutside(decisions, es[..n], id);
    }
  }

  lemma NothingAttributed(st: State, es: seq<Event>, id: string)
    requires (forall e :: e in es ==> e.decisionID == id) && !InExperiment(st, id)
    ensures Attribute(st, es) == st
  {
    NoRowsOutside(st.decisions, es, id);
    assert st.attributed + [] == st.attributed && st.jobs + [] == st.jobs;
  }

  lemma MarkInside(st: State, id: string)
    ensures Inside(st.(decisions := MarkExposed(st.decisions, id)))
      == Inside(st).(decisions := MarkExposed(Inside(st).decisions, id))
  {
    var marked := st.(decisions := MarkExposed(st.decisions, id));
    assert forall k :: InExperiment(marked, k) <==> InExperiment(st, k);
    assert Inside(marked).decisions == MarkExposed(Inside(st).decisions, id);
    assert Inside(marked).pending == Inside(st).pending;
  }

  lemma DrainInside(st: State, id: string)
    ensures Inside(st.(pending := st.pending - {id})) == Inside(st).(pending := Inside(st).pending - {id})
  {
    assert Inside(st.(pending := st.pending - {id})).pending == Inside(st).pending - {id};
  }

  /** Only events of a decision inside experiments leave its queue with a row. */
  lemma WaitingInside(st: State, id: string, at: State)
    requires QueuesStored(st) && (InExperiment(at, id) <==> InExperiment(st, id))
    ensures Attribute(at, Pending(st, id)) == Attribute(at, Pending(Inside(st), id))
  {
    if !InExperiment(st, id) {
      assert Pending(Inside(st), id) == [];
      NothingAttributed(at, Pending(st, id), id);
      NothingAttributed(at, [], id);
    }
  }

  lemma ExposeInside(st: State, e: Event)
    requires QueuesStored(st)
    ensures Inside(Expose(st, e)) == Expose(Inside(st), e)
  {
    var id := e.decisionID;
    var marked := st.(decisions := MarkExposed(st.decisions, id));
    MarkInside(st, id);
    AttributeInside(marked, [e]);
    var first := Attribute(marked, [e]);
    DrainInside(first, id);
    var drained := first.(pending := first.pending - {id});
    AttributeInside(drained, Pending(st, id));
    assert InExperiment(Inside(drained), id) <==> InExperiment(st, id);
    WaitingInside(st, id, Inside(drained));
    hide Inside, Attribute, MarkExposed;
    assert Inside(drained) == Attribute(Inside(marked), [e]).(pending := Inside(st).pending - {id}) by {
      AttributeQueues(Inside(marked), [e]);
    }
  }

  lemma AttributeQueues(st: State, es: seq<Event>)
    ensures Attribute(st, es).pending == st.pending
  {
  }

  lemma SaveInside(st: State, e: Event)
    ensures Inside(Saved(st, e)) == Saved(Inside(st), e)
  {
    assert Inside(Saved(st, e)).decisions == Inside(st).decisions;
    assert Inside(Saved(st, e)).pending == Inside(st).pending;
  }

  lemma EnqueueInside(st: State, e: Event)
    ensures Inside(Enqueued(st, e))
      == if InExperiment(st, e.decisionID) then Enqueued(Inside(st), e) else Inside(st)
  {
    var after := Enqueued(st, e);
    assert Inside(after).decisions == Inside(st).decisions;
    if InExperiment(st, e.decisionID) {
      assert Pending(Inside(st), e.decisionID) == Pending(st, e.decisionID);
      assert Inside(after).pending == Enqueued(Inside(st), e).pending;
    } else {
      assert Inside(after).pending == Inside(st).pending;
    }
  }

  lemma DecisionInside(st: State, id: string)
    ensures id in Inside(st).decisions <==> InExperiment(st, id)
    ensures InExperiment(st, id) ==> Inside(st).decisions[id] == st.decisions[id]
    ensures !InExperiment(Inside(st), id) <==> !InExperiment(st, id)
  {
  }

  /** What ingestion does with a saved event of another type. */
  lemma OtherInside(saved: State, e: Event)
    requires e.typ in saved.types && saved.types[e.typ].key != EXPOSURE
    ensures Inside(Placed(saved, e)) == Placed(Inside(saved), e)
  {
    DecisionInside(saved, e.decisionID);
    EnqueueInside(saved, e);
    AttributeInside(saved, [e]);
    hide Attribute, Enqueued;
    if !InExperiment(saved, e.decisionID) {
      NothingAttributed(saved, [e], e.decisionID);
      NothingAttributed(Inside(saved), [e], e.decisionID);
    }
  }

  /** Where an event that is no exposure goes once it is saved. */
  function Placed(saved: State, e: Event): State
    requires e.typ in saved.types
  {
    if !saved.types[e.typ].requiresExposure then Attribute(saved, [e])
    else if e.decisionID !in saved.decisions then saved
    else if !saved.decisions[e.decisionID].exposed then Enqueued(saved, e)
    else Attribute(saved, [e])
  }

  lemma IngestOneIs(st: State, raw: Event, now: Time)
    ensures var e := Stamp(raw, now);
      IngestOne(st, raw, now).0 ==
        if Refusal(st.types, raw, now).Some? || e.id in st.events then st
        else if st.types[e.typ].key == EXPOSURE then Expose(Saved(st, e), e)
        else Placed(Saved(st, e), e)
  {
  }

  /** Ingestion inside experiments does not see the decisions outside. */
  lemma IngestOneInside(st: State, raw: Event, now: Time)
    requires QueuesStored(st)
    ensures Inside(IngestOne(st, raw, now).0) == IngestOne(Inside(st), raw, now).0
  {
    var e := Stamp(raw, now);
    IngestOneIs(st, raw, now);
    IngestOneIs(Inside(st), raw, now);
    hide Expose, Placed, IngestOne;
    if Refusal(st.types, raw, now).None? && e.id !in st.events {
      var saved := Saved(st, e);
      SaveInside(st, e);
      if st.types[e.typ].key == EXPOSURE {
        assert QueuesStored(saved);
        ExposeInside(saved, e);
      } else {
        OtherInside(saved, e);
      }
    }
  }

  lemma IngestOneQueues(st: State, raw: Event, now: Time)
    requires QueuesStored(st)
    ensures QueuesStored(IngestOne(st, raw, now).0)
  {
    var e := Stamp(raw, now);
    if Refusal(st.types, raw, now).None? && e.id !in st.events {
      var saved := st.(events := st.events[e.id := e]);
      assert QueuesStored(saved);
    }
  }

  lemma {:induction false} IngestBatchInside(st: State, batch: seq<Event>, now: Time)
    requires QueuesStored(st)
    ensures Inside(IngestBatch(st, batch, now).0) == IngestBatch(Inside(st), batch, now).0
    ensures QueuesStored(IngestBatch(st, batch, now).0)
  {
    if batch != [] {
      var n := |batch| - 1;
      IngestBatchInside(st, batch[..n], now);
      var before := IngestBatch(st, batch[..n], now).0;
      IngestOneInside(before, batch[n], now);
      IngestOneQueues(before, batch[n], now);
    }
  }

  lemma {:induction false} RebuiltInside(st: State, experimentID: string, raw: seq<Event>)
    requires experimentID != ""
    ensures Rebuilt(Inside(st), experimentID, raw) == Rebuilt(st, experimentID, raw)
  {
    if raw != [] {
      RebuiltInside(st, experimentID, raw[..|raw| - 1]);
    }
  }

  lemma IssueInside(st: State, d: Decision)
    requires QueuesStored(st) && Allowed(InsideExperiments, st, d)
    ensures QueuesStored(Issued(st, d))
    ensures Inside(Issued(st, d)) == if d.experimentID == "" then Inside(st) else Issued(Inside(st), d)
  {
    var after := Issued(st, d);
    assert Inside(after).pending == Inside(st).pending;
    assert Inside(after).decisions
      == if d.experimentID == "" then Inside(st).decisions else Inside(st).decisions[d.id := d];
  }

  lemma ReplayInside(st: State, experimentID: string, from: Time, to: Time, raw: seq<Event>)
    requires experimentID != ""
    ensures Inside(Replay(st, experimentID, from, to, raw)) == Replay(Inside(st), experimentID, from, to, raw)
  {
    RebuiltInside(st, experimentID, raw);
    var after := Replay(st, experimentID, from, to, raw);
    assert Inside(after).decisions == Inside(st).decisions && Inside(after).pending == Inside(st).pending;
  }

  /** Every step either is the same step inside experiments, where it names no
      decision early, or moves nothing there. */
  lemma StepInside(st: State, op: Op)
    requires QueuesStored(st) && "" !in st.experiments && Enabled(InsideExperiments, st, op)
    ensures QueuesStored(Apply(st, op))
    ensures (Enabled(Everywhere, Inside(st), op) && Inside(Apply(st, op)) == Apply(Inside(st), op))
      || Inside(Apply(st, op)) == Inside(st)
  {
    match op
    case NewExperiment(_) =>
      var after := Apply(st, op);
      assert Inside(after).decisions == Inside(st).decisions && Inside(after).pending == Inside(st).pending;
    case Issue(d) => IssueInside(st, d);
    case DefineType(_) =>
      var after := Apply(st, op);
      assert Inside(after).decisions == Inside(st).decisions && Inside(after).pending == Inside(st).pending;
    case Ingest(batch, now) => IngestBatchInside(st, batch, now);
    case ReplayWindow(x, from, to, raw) => ReplayInside(st, x, from, to, raw);
  }

  lemma {:induction false} RunExact(st: State, ops: seq<Op>, end: State)
    requires Exact(st) && Run(InsideExperiments, st, ops, end)
    ensures Exact(end)
    decreases |ops|
  {
    if ops != [] {
      StepInside(st, ops[0]);
      if Inside(Apply(st, ops[0])) != Inside(st) {
        ApplyConsistent(Inside(st), ops[0]);
      }
      RunExact(Apply(st, ops[0]), ops[1..], end);
    }
  }

  lemma InitialExact()
    ensures Exact(INITIAL)
  {
    assert Inside(INITIAL) == INITIAL;
    InitialConsistent();
  }

  // ---- Replay --------------------------------------------------------------

  /** Replays give back the rows of a state exactly when they give back those of its inside. */
  lemma InsideReplays(st: State)
    requires "" !in st.experiments
    ensures EveryReplaySame(st) <==> EveryReplaySame(Inside(st))
  {
    forall x, from, to, raw | ReplayPossible(st, x, from, to, raw)
      ensures ReplayPossible(Inside(st), x, from, to, raw)
      ensures Replay(st, x, from, to, raw).attributed == Replay(Inside(st), x, from, to, raw).attributed {
      RebuiltInside(st, x, raw);
    }
    assert forall x, from, to, raw :: ReplayPossible(Inside(st), x, from, to, raw) ==>
      ReplayPossible(st, x, from, to, raw);
  }

  lemma ExactReplays(st: State)
    requires Exact(st)
    ensures EveryReplaySame(st)
  {
    RowsExactReplays(Inside(st));
    InsideReplays(st);
  }

  /** Replay is the identity on every reachable state: the same multiset of rows is back,
      nothing else moved, and the count returned is the number of rows the deletion took out. */
  lemma ReplayIdentityOnRuns(ops: seq<Op>, st: State, experimentID: string, from: Time, to: Time, raw: seq<Event>)
    requires Run(InsideExperiments, INITIAL, ops, st) && experimentID in st.experiments
    requires Lists(raw, InRange(st.events, from, to))
    ensures var after := Replay(st, experimentID, from, to, raw);
      && multiset(after.attributed) == multiset(st.attributed)
      && after == st.(attributed := after.attributed, jobs := after.jobs)
      && |Rebuilt(st, experimentID, raw)| == |st.attributed| - |Kept(st.attributed, experimentID, from, to)|
  {
    InitialExact();
    RunExact(INITIAL, ops, st);
    ReplayIdentity(Inside(st), experimentID, from, to, raw);
    RebuiltInside(st, experimentID, raw);
  }

  // ---- Exactly once --------------------------------------------------------

  function RowCount(rows: seq<AttributedEvent>, eventID: string): nat {
    if rows == [] then 0
    else RowCount(rows[..|rows| - 1], eventID) + if rows[|rows| - 1].eventID == eventID then 1 else 0
  }

  function EventCount(es: seq<Event>, eventID: string): nat {
    if es == [] then 0
    else EventCount(es[..|es| - 1], eventID) + if es[|es| - 1].id == eventID then 1 else 0
  }

  lemma {:induction false} RowCountIs(rows: seq<AttributedEvent>, eventID: string)
    requires forall i, j :: 0 <= i < j < |rows| ==> rows[i].eventID != rows[j].eventID
    ensures RowCount(rows, eventID) == if exists r :: r in rows && r.eventID == eventID then 1 else 0
  {
    if rows != [] {
      var n := |rows| - 1;
      assert rows == rows[..n] + [rows[n]];
      RowCountIs(rows[..n], eventID);
      if rows[n].eventID == eventID {
        assert rows[n] in rows;
      }
    }
  }

  lemma {:induction false} EventCountIs(es: seq<Event>, eventID: string)
    requires DistinctIDs(es)
    ensures EventCount(es, eventID) == if exists e :: e in es && e.id == eventID then 1 else 0
  {
    if es != [] {
      var n := |es| - 1;
      assert es == es[..n] + [es[n]];
      EventCountIs(es[..n], eventID);
      if es[n].id == eventID {
        assert es[n] in es;
      }
    }
  }

  lemma RowsDistinctIDs(st: State)
    requires Consistent(st)
    ensures forall i, j :: 0 <= i < j < |st.attributed| ==> st.attributed[i].eventID != st.attributed[j].eventID
  {
    forall i, j | 0 <= i < j < |st.attributed| ensures st.attributed[i].eventID != st.attributed[j].eventID {
      assert st.attributed[i] in DueRows(st) && st.attributed[j] in DueRows(st);
    }
  }

  /** Exactly once: an event of an experiment is attributed once or waits once, and waits
      precisely while its type needs an exposure its decision has not had. */
  lemma ExactlyOnce(ops: seq<Op>, st: State, id: string)
    requires Run(InsideExperiments, INITIAL, ops, st)
    requires id in st.events && Belongs(st.decisions, st.events[id])
    ensures var e := st.events[id];
      var waiting := Waits(st.types, e.typ) && !HasExposure(st, e.decisionID);
      && RowCount(st.attributed, id) == (if waiting then 0 else 1)
      && EventCount(Pending(st, e.decisionID), id) == (if waiting then 1 else 0)
      && (forall d :: d != e.decisionID ==> EventCount(Pending(st, d), id) == 0)
  {
    InitialExact();
    RunExact(INITIAL, ops, st);
    var e, inside := st.events[id], Inside(st);
    OnceInside(inside, id);
    assert HasExposure(inside, e.decisionID) <==> HasExposure(st, e.decisionID);
    assert Pending(inside, e.decisionID) == Pending(st, e.decisionID);
    forall d | d != e.decisionID ensures EventCount(Pending(st, d), id) == 0 {
      forall x | x in Pending(st, d) ensures x.id != id {
        assert st.events[x.id] == x;
      }
      NoneCounted(Pending(st, d), id);
    }
  }

  lemma {:induction false} NoneCounted(es: seq<Event>, eventID: string)
    requires forall e :: e in es ==> e.id != eventID
    ensures EventCount(es, eventID) == 0
  {
    if es != [] {
      assert es[|es| - 1] in es;
      NoneCounted(es[..|es| - 1], eventID);
    }
  }

  lemma OnceInside(st: State, id: string)
    requires Consistent(st) && id in st.events && Belongs(st.decisions, st.events[id])
    ensures var e := st.events[id];
      var waiting := Waits(st.types, e.typ) && !HasExposure(st, e.decisionID);
      && RowCount(st.attributed, id) == (if waiting then 0 else 1)
      && EventCount(Pending(st, e.decisionID), id) == (if waiting then 1 else 0)
  {
    var e := st.events[id];
    RowsDistinctIDs(st);
    RowCountIs(st.attributed, id);
    if Due(st, e) {
      assert Row(st.decisions, e) in DueRows(st);
    } else {
      forall r | r in st.attributed ensures r.eventID != id {
        assert r in DueRows(st);
      }
    }
    HeldDistinct(st, e.decisionID);
    EventCountIs(Pending(st, e.decisionID), id);
    assert Lists(Pending(st, e.decisionID), HeldEvents(st, e.decisionID));
    if Held(st, e) {
      assert e in HeldEvents(st, e.decisionID);
    }
  }

  predicate ExposesWith(st: State, x: AttributedEvent, r: AttributedEvent) {
    && x.typ == EXPOSURE && x.experimentID == r.experimentID && x.variantName == r.variantName
    && x.eventID in st.events && r.eventID in st.events
    && st.events[x.eventID].decisionID == st.events[r.eventID].decisionID
  }

  /** A row whose type needs an exposure is attributed only beside an attributed exposure of
      the same decision. */
  lemma NoRowWithoutExposure(ops: seq<Op>, st: State, r: AttributedEvent)
    requires Run(InsideExperiments, INITIAL, ops, st)
    requires r in st.attributed && Waits(st.types, r.typ)
    ensures r.eventID in st.events
    ensures exists x :: x in st.attributed && ExposesWith(st, x, r)
  {
    InitialExact();
    RunExact(INITIAL, ops, st);
    var x := ExposureInside(Inside(st), r);
    assert ExposesWith(st, x, r);
  }

  lemma ExposureInside(st: State, r: AttributedEvent) returns (x: AttributedEvent)
    requires Consistent(st) && r in st.attributed && Waits(st.types, r.typ)
    ensures r.eventID in st.events && x in st.attributed && ExposesWith(st, x, r)
  {
    assert r in DueRows(st);
    var id :| id in st.events && Due(st, st.events[id]) && r == Row(st.decisions, st.events[id]);
    var d := st.events[id].decisionID;
    assert HasExposure(st, d);
    var k :| k in st.events && st.events[k].typ == EXPOSURE && st.events[k].decisionID == d;
    assert Due(st, st.events[k]);
    x := Row(st.decisions, st.events[k]);
    assert x in DueRows(st);
    assert x in st.attributed;
  }

  // ---- Why decision ids must be fresh ---------------------------------------

  ghost predicate ReplaysForever(st: State) {
    forall ops, end :: Run(InsideExperiments, st, ops, end) ==> EveryReplaySame(end)
  }

  /** Storing a new decision on a reachable state keeps replay the identity for good, whatever
      happens next, if and only if the decision is outside experiments or no stored event names
      its id. */
  lemma IssueForeverExactly(ops: seq<Op>, st: State, d: Decision)
    requires Run(InsideExperiments, INITIAL, ops, st) && NewDecision(st, d)
    ensures ReplaysForever(Issued(st, d)) <==> d.experimentID == "" || Unnamed(st, d.id)
  {
    InitialExact();
    RunExact(INITIAL, ops, st);
    if Allowed(InsideExperiments, st, d) {
      OneStepExact(st, Issue(d));
      forall more, end | Run(InsideExperiments, Issued(st, d), more, end) ensures EveryReplaySame(end) {
        RunExact(Issued(st, d), more, end);
        ExactReplays(end);
      }
    } else {
      var id :| id in st.events && st.events[id].decisionID == d.id;
      var eventID := FreshString(st.events.Keys);
      var more, end := LateExposure(st, d, id, eventID);
      assert !EveryReplaySame(end);
    }
  }

  /** Storing an event type on a reachable state keeps replay the identity for good, whatever
      happens next, if and only if no stored event of a decision inside experiments changes
      standing by it. */
  lemma DefineForeverExactly(ops: seq<Op>, st: State, t: EventType)
    requires Run(InsideExperiments, INITIAL, ops, st)
    ensures ReplaysForever(Defined(st, t)) <==> Settles(Inside(st), t)
  {
    InitialExact();
    RunExact(INITIAL, ops, st);
    var after := Defined(st, t);
    if Settles(Inside(st), t) {
      OneStepExact(st, DefineType(t));
      forall more, end | Run(InsideExperiments, after, more, end) ensures EveryReplaySame(end) {
        RunExact(after, more, end);
        ExactReplays(end);
      }
    } else {
      var id :| Unsettles(Inside(st), t, id);
      UnsettledReplay(st, t, id);
    }
  }

  lemma OneStepExact(st: State, op: Op)
    requires Exact(st) && Enabled(InsideExperiments, st, op)
    ensures Exact(Apply(st, op))
  {
    OneStepRun(st, op);
    RunExact(st, [op], Apply(st, op));
  }

  /** Once its experiment exists, an event that changed standing makes a replay differ. */
  lemma UnsettledReplay(st: State, t: EventType, id: string)
    requires Exact(st) && Unsettles(Inside(st), t, id)
    ensures !ReplaysForever(Defined(st, t))
  {
    var op := NewExperiment(st.decisions[st.events[id].decisionID].experimentID);
    var known := Apply(st, op);
    var end := Defined(known, t);
    OneStepExact(st, op);
    UnsettledInside(known, t, id);
    assert !EveryReplaySame(end) by {
      InsideReplays(end);
      DefineInside(known, t);
    }
    assert end == Apply(Defined(st, t), op);
    OneStepRun(Defined(st, t), op);
    assert Run(InsideExperiments, Defined(st, t), [op], end);
  }

  lemma UnsettledInside(known: State, t: EventType, id: string)
    requires Exact(known) && Unsettles(Inside(known), t, id)
    requires known.decisions[known.events[id].decisionID].experimentID in known.experiments
    ensures !EveryReplaySame(Defined(Inside(known), t))
  {
    DefineReplaysExactly(Inside(known), t);
  }

  lemma DefineInside(st: State, t: EventType)
    ensures Inside(Defined(st, t)) == Defined(Inside(st), t)
  {
    var after := Defined(st, t);
    assert Inside(after).decisions == Inside(st).decisions && Inside(after).pending == Inside(st).pending;
  }

  lemma OneStepRun(st: State, op: Op)
    requires Enabled(InsideExperiments, st, op)
    ensures Run(InsideExperiments, st, [op], Apply(st, op))
  {
    assert [op][1..] == [];
    assert Run(InsideExperiments, Apply(st, op), [], Apply(st, op));
  }

  /** An event inside an experiment that names its decision early: once an exposure follows,
      the event is due and was never attributed. */
  lemma LateExposure(st: State, d: Decision, id: string, eventID: string) returns (more: seq<Op>, end: State)
    requires Exact(st) && NewDecision(st, d) && d.experimentID != ""
    requires id in st.events && st.events[id].decisionID == d.id
    requires eventID != "" && eventID !in st.events
    ensures Run(InsideExperiments, Issued(st, d), more, end) && !EveryReplaySame(end)
  {
    var x := Event(eventID, EXPOSURE, "", d.id, 1, None, 0);
    var known := Apply(Issued(st, d), NewExperiment(d.experimentID));
    var open := Apply(known, DefineType(EventType(EXPOSURE, false, false)));
    more := [NewExperiment(d.experimentID), DefineType(EventType(EXPOSURE, false, false)), Ingest([x], 1)];
    end := Apply(open, Ingest([x], 1));
    ThreeSteps(Issued(st, d), known, open, end, more);
    var stored := Stamp(x, 1);
    assert [x][..|[x]| - 1] == [];
    assert IngestBatch(open, [], 1).0 == open;
    assert end == IngestOne(open, x, 1).0;
    IngestOneIs(open, x, 1);
    assert end == Expose(Saved(open, stored), stored);
    LateRow(st, d, id, open, stored, end);
  }

  lemma ThreeSteps(a: State, b: State, c: State, e: State, ops: seq<Op>)
    requires |ops| == 3 && Enabled(InsideExperiments, a, ops[0])
    requires Enabled(InsideExperiments, b, ops[1]) && Enabled(InsideExperiments, c, ops[2])
    requires b == Apply(a, ops[0]) && c == Apply(b, ops[1]) && e == Apply(c, ops[2])
    ensures Run(InsideExperiments, a, ops, e)
  {
    assert ops[1..][1..] == ops[2..] && ops[2..][1..] == [] && ops[1..][0] == ops[1] && ops[2..][0] == ops[2];
    assert Run(InsideExperiments, e, [], e);
    assert Run(InsideExperiments, c, ops[2..], e);
    assert Run(InsideExperiments, b, ops[1..], e);
  }

  lemma LateRow(st: State, d: Decision, id: string, open: State, x: Event, end: State)
    requires Exact(st) && NewDecision(st, d) && d.experimentID != ""
    requires id in st.events && st.events[id].decisionID == d.id
    requires open.decisions == st.decisions[d.id := d] && open.pending == st.pending
    requires open.events == st.events && open.attributed == st.attributed
    requires d.experimentID in open.experiments && open.types.Keys >= st.types.Keys
    requires x.id !in st.events && x.typ == EXPOSURE && x.decisionID == d.id
    requires end == Expose(Saved(open, x), x)
    ensures !EveryReplaySame(end)
  {
    var e := st.events[id];
    assert e.id == id && Pending(Saved(open, x), d.id) == [];
    ExposeFields(Saved(open, x), x);
    assert [x] + [] == [x];
    var r := Row(end.decisions, e);
    assert Due(end, end.events[id]);
    assert r in DueRows(end);
    NeverAttributed(st, d, r);
    RowsMembers(end.decisions, [x]);
    assert r !in end.attributed;
    var from, to := e.occurredAt, e.occurredAt + 1;
    var raw := ListingExists(InRange(end.events, from, to));
    assert ReplayPossible(end, d.experimentID, from, to, raw);
    assert e in raw && Rebuilds(end, d.experimentID, e);
    RebuiltHas(end, d.experimentID, raw, e);
    assert r in multiset(Replay(end, d.experimentID, from, to, raw).attributed);
  }

  lemma {:induction false} RebuiltHas(st: State, experimentID: string, raw: seq<Event>, e: Event)
    requires e in raw && Rebuilds(st, experimentID, e)
    ensures Row(st.decisions, e) in Rebuilt(st, experimentID, raw)
  {
    var n := |raw| - 1;
    if raw[n] != e {
      RebuiltHas(st, experimentID, raw[..n], e);
    }
  }

  lemma NeverAttributed(st: State, d: Decision, r: AttributedEvent)
    requires Exact(st) && NewDecision(st, d)
    requires r.eventID in st.events && st.events[r.eventID].decisionID == d.id
    ensures r !in st.attributed
  {
    assert r !in DueRows(Inside(st));
  }

  const LATE_DECISION: Decision :=
    Decision("dcs_1", "u1", "color", Null, "exp_1", "A", 1, 10, false)

  const EARLY_EXPOSURE: Event := Event("e1", EXPOSURE, "u1", "dcs_1", 5, None, 0)

  /** A decision issued under an id that a stored event already names: replay attributes an
      event that ingestion did not. */
  lemma ReplayDiffersForLateDecision()
    ensures var ingested := IngestBatch(INITIAL.(experiments := {"exp_1"}), [EARLY_EXPOSURE], 6).0;
      var st := Issued(ingested, LATE_DECISION);
      var stored := Stamp(EARLY_EXPOSURE, 6);
      && Lists([stored], InRange(st.events, 0, 10))
      && st.attributed == []
      && |Replay(st, "exp_1", 0, 10, [stored]).attributed| == 1
  {
    var start := INITIAL.(experiments := {"exp_1"});
    var batch := [EARLY_EXPOSURE];
    var stored := Stamp(EARLY_EXPOSURE, 6);
    assert IngestBatch(start, batch[..|batch| - 1], 6) == (start, BatchResult(0, 0, 0, []));
    var saved := Saved(start, stored);
    ExposeFields(saved, stored);
    assert Rows(start.decisions, [stored] + []) == [] by {
      assert [stored] + [] == [stored] && [stored][..0] == [];
      assert !Belongs(start.decisions, stored);
    }
    var ingested := IngestBatch(start, batch, 6).0;
    assert ingested == IngestOne(start, EARLY_EXPOSURE, 6).0;
    assert ingested.events == map["e1" := stored];
    var st := Issued(ingested, LATE_DECISION);
    var raw := [stored];
    assert Rebuilt(st, "exp_1", raw[..0]) == [];
    assert Rebuilds(st, "exp_1", raw[0]);
    assert st.attributed == [];
  }
}
