/** The steps of the event state: experiments appear, decisions are issued, event types are
    defined, batches are ingested, windows are replayed. What each does to the exact views. */
module EventSteps {
  import opened Common
  import opened Events
  import opened EventConsistency
  import opened EventReplay

  datatype Op =
    | NewExperiment(experimentID: string)
    | Issue(decision: Decision)
    | DefineType(eventType: EventType)
    | Ingest(batch: seq<Event>, now: Time)
    | ReplayWindow(experimentID: string, from: Time, to: Time, raw: seq<Event>)

  function Issued(st: State, d: Decision): State {
    st.(decisions := st.decisions[d.id := d])
  }

  function Defined(st: State, t: EventType): State {
    st.(types := st.types[t.key := t])
  }

  function Apply(st: State, op: Op): State {
    match op
    case NewExperiment(id) => st.(experiments := st.experiments + {id})
    case Issue(d) => Issued(st, d)
    case DefineType(t) => Defined(st, t)
    case Ingest(batch, now) => IngestBatch(st, batch, now).0
    case ReplayWindow(id, from, to, raw) => Replay(st, id, from, to, raw)
  }

  // ---- Issuing decisions ---------------------------------------------------

  /** No stored event names the id. */
  ghost predicate Unnamed(st: State, decisionID: string) {
    forall id :: id in st.events ==> st.events[id].decisionID != decisionID
  }

  /** A decision the store does not have yet, not exposed. */
  predicate NewDecision(st: State, d: Decision) {
    d.id != "" && d.id !in st.decisions && !d.exposed
  }

  /** No stored event could gain or lose standing from the decision's arrival. */
  ghost predicate Harmless(st: State, d: Decision) {
    forall id :: id in st.events && st.events[id].decisionID == d.id ==>
      !Waits(st.types, st.events[id].typ) && st.events[id].typ != EXPOSURE && d.experimentID == ""
  }

  /** Storing a new unexposed decision keeps the views exact if and only if no stored event
      that names it is an exposure, waits for one, or would now be attributable. */
  lemma IssueConsistentExactly(st: State, d: Decision)
    requires Consistent(st) && NewDecision(st, d)
    ensures Consistent(Issued(st, d)) <==> Harmless(st, d)
  {
    if Harmless(st, d) {
      HarmlessKeeps(st, d);
    } else {
      var id :| id in st.events && st.events[id].decisionID == d.id
        && (Waits(st.types, st.events[id].typ) || st.events[id].typ == EXPOSURE || d.experimentID != "");
      IssueHarm(st, d, id);
    }
  }

  lemma HarmlessKeeps(st: State, d: Decision)
    requires Consistent(st) && NewDecision(st, d) && Harmless(st, d)
    ensures Consistent(Issued(st, d))
  {
    var after := Issued(st, d);
    HarmlessRows(st, d);
    forall id ensures Lists(Pending(after, id), HeldEvents(after, id)) {
      assert Lists(Pending(st, id), HeldEvents(st, id));
      forall x ensures x in HeldEvents(after, id) <==> x in HeldEvents(st, id) {
      }
    }
    assert forall id :: HasExposure(after, id) <==> HasExposure(st, id);
    assert Keyed(after);
  }

  lemma HarmlessRows(st: State, d: Decision)
    requires Keyed(st) && NewDecision(st, d) && Harmless(st, d)
    ensures DueRows(Issued(st, d)) == DueRows(st)
  {
    var after := Issued(st, d);
    forall r ensures r in DueRows(after) <==> r in DueRows(st) {
      if r in DueRows(st) {
        var id :| id in st.events && Due(st, st.events[id]) && r == Row(st.decisions, st.events[id]);
        assert Due(after, after.events[id]) && r == Row(after.decisions, after.events[id]);
      }
    }
  }

  lemma IssueHarm(st: State, d: Decision, id: string)
    requires Consistent(st) && NewDecision(st, d)
    requires id in st.events && st.events[id].decisionID == d.id
    requires Waits(st.types, st.events[id].typ) || st.events[id].typ == EXPOSURE || d.experimentID != ""
    ensures !Consistent(Issued(st, d))
  {
    var after := Issued(st, d);
    var e := st.events[id];
    if e.typ == EXPOSURE {
      assert HasExposure(after, d.id);
    } else if Waits(st.types, e.typ) {
      assert Lists(Pending(st, d.id), HeldEvents(st, d.id));
      assert HeldEvents(st, d.id) == {} && Pending(after, d.id) == Pending(st, d.id);
      assert Held(after, after.events[id]) && e in HeldEvents(after, d.id);
      assert !Lists(Pending(after, d.id), HeldEvents(after, d.id));
    } else {
      assert Due(after, after.events[id]);
      var r := Row(after.decisions, after.events[id]);
      assert r in DueRows(after) && r !in DueRows(st);
    }
  }

  /** Every stored event that names the decision waits for an exposure. */
  ghost predicate OnlyWaiting(st: State, d: Decision) {
    forall id :: id in st.events && st.events[id].decisionID == d.id ==> Waits(st.types, st.events[id].typ)
  }

  lemma IssueDue(st: State, d: Decision, r: AttributedEvent)
    requires RowsExact(st) && NewDecision(st, d)
    ensures r in DueRows(Issued(st, d)) <==> r in DueRows(st) || NewlyDue(st, d, r)
    ensures NewlyDue(st, d, r) ==> r !in DueRows(st)
  {
    var after := Issued(st, d);
    if r in DueRows(st) {
      var id :| id in st.events && Due(st, st.events[id]) && r == Row(st.decisions, st.events[id]);
      assert Due(after, after.events[id]) && r == Row(after.decisions, after.events[id]);
    }
    if NewlyDue(st, d, r) {
      assert Due(after, after.events[r.eventID]) && r == Row(after.decisions, after.events[r.eventID]);
    }
  }

  /** The row of a stored event that the decision's arrival makes attributable. */
  predicate NewlyDue(st: State, d: Decision, r: AttributedEvent) {
    && d.experimentID != "" && r.eventID in st.events
    && var e := st.events[r.eventID];
    && e.decisionID == d.id && !Waits(st.types, e.typ)
    && r == AttributedEvent(e.id, d.experimentID, d.variantName, e.typ, e.occurredAt, e.properties)
  }

  /** Storing a new decision keeps the rows exact if and only if it is outside experiments, or
      every stored event that names it waits for an exposure. */
  lemma IssueRowsExactly(st: State, d: Decision)
    requires RowsExact(st) && NewDecision(st, d)
    ensures RowsExact(Issued(st, d)) <==> d.experimentID == "" || OnlyWaiting(st, d)
  {
    var after := Issued(st, d);
    assert Keyed(after);
    if d.experimentID == "" || OnlyWaiting(st, d) {
      forall r ensures r in DueRows(after) <==> r in DueRows(st) {
        IssueDue(st, d, r);
      }
    } else {
      var r := NamedRow(st, d);
      IssueDue(st, d, r);
      assert r in DueRows(after) && r !in st.attributed;
    }
  }

  lemma NamedRow(st: State, d: Decision) returns (r: AttributedEvent)
    requires Keyed(st) && d.experimentID != "" && !OnlyWaiting(st, d)
    ensures NewlyDue(st, d, r) && r.experimentID == d.experimentID
  {
    var id :| id in st.events && st.events[id].decisionID == d.id && !Waits(st.types, st.events[id].typ);
    var e := st.events[id];
    r := AttributedEvent(id, d.experimentID, d.variantName, e.typ, e.occurredAt, e.properties);
  }

  /** After storing a new decision every replay still gives back the same rows if and only if
      the decision's experiment cannot be replayed, or every stored event that names the
      decision waits for an exposure. */
  lemma IssueReplaysExactly(st: State, d: Decision)
    requires RowsExact(st) && NewDecision(st, d)
    ensures EveryReplaySame(Issued(st, d)) <==> d.experimentID !in st.experiments || OnlyWaiting(st, d)
  {
    var after := Issued(st, d);
    assert Keyed(after);
    RowsExactReplays(st);
    EveryReplaySameExactly(after);
    forall r: AttributedEvent | r.experimentID in st.experiments
      ensures DueCount(after, r) == DueCount(st, r) + if NewlyDue(st, d, r) then 1 else 0 {
      IssueDue(st, d, r);
    }
    if d.experimentID in st.experiments && !OnlyWaiting(st, d) {
      var r := NamedRow(st, d);
      assert r.experimentID in after.experiments;
      assert multiset(after.attributed)[r] == DueCount(st, r) != DueCount(after, r);
    }
  }

  // ---- Defining types ------------------------------------------------------

  /** The event's decision is known and not exposed. */
  predicate Undecided(st: State, e: Event) {
    e.decisionID in st.decisions && !st.decisions[e.decisionID].exposed
  }

  /** The definition changes whether the stored event has to wait. */
  predicate Unsettles(st: State, t: EventType, id: string) {
    && t.key != EXPOSURE && t.key in st.types && st.types[t.key].requiresExposure != t.requiresExposure
    && id in st.events && st.events[id].typ == t.key && Undecided(st, st.events[id])
  }

  ghost predicate Settles(st: State, t: EventType) {
    forall id :: !Unsettles(st, t, id)
  }

  /** Storing an event type keeps the views exact if and only if it settles: its exposure
      requirement stays, or no stored event of the type could gain or lose standing by it. */
  lemma DefineConsistentExactly(st: State, t: EventType)
    requires Consistent(st)
    ensures Consistent(Defined(st, t)) <==> Settles(st, t)
  {
    if Settles(st, t) {
      DefineConsistent(st, t);
    } else {
      var id :| Unsettles(st, t, id);
      DefineHarm(st, t, id);
    }
  }

  lemma DefineHarm(st: State, t: EventType, id: string)
    requires Consistent(st) && Unsettles(st, t, id)
    ensures !Consistent(Defined(st, t))
  {
    var after := Defined(st, t);
    var e := st.events[id];
    var d := e.decisionID;
    assert Lists(Pending(st, d), HeldEvents(st, d)) && Pending(after, d) == Pending(st, d);
    assert e in HeldEvents(st, d) <==> Held(st, e);
    assert e in HeldEvents(after, d) <==> Held(after, e);
    assert Held(st, e) <==> !Held(after, e);
    assert !Lists(Pending(after, d), HeldEvents(after, d));
  }

  lemma DefineConsistent(st: State, t: EventType)
    requires Consistent(st) && Settles(st, t)
    ensures Consistent(Defined(st, t))
  {
    var after := Defined(st, t);
    forall id | id in st.events
      ensures Due(after, st.events[id]) <==> Due(st, st.events[id])
      ensures Held(after, st.events[id]) <==> Held(st, st.events[id]) {
      assert st.events[id].typ in st.types && !Unsettles(st, t, id);
    }
    forall r ensures r in DueRows(after) <==> r in DueRows(st) {
      if r in DueRows(st) {
        var id :| id in st.events && Due(st, st.events[id]) && r == Row(st.decisions, st.events[id]);
        assert Due(after, after.events[id]);
      }
      if r in DueRows(after) {
        var id :| id in st.events && Due(after, st.events[id]) && r == Row(st.decisions, st.events[id]);
        assert Due(st, st.events[id]);
      }
    }
    assert DueRows(after) == DueRows(st);
    forall id ensures Lists(Pending(after, id), HeldEvents(after, id)) {
      assert Lists(Pending(st, id), HeldEvents(st, id));
      forall x ensures x in HeldEvents(after, id) <==> x in HeldEvents(st, id) {
        if x in HeldEvents(st, id) {
          var k :| k in st.events && st.events[k] == x && st.events[k].decisionID == id && Held(st, x);
          assert Held(after, after.events[k]);
        }
        if x in HeldEvents(after, id) {
          var k :| k in st.events && st.events[k] == x && st.events[k].decisionID == id && Held(after, x);
          assert Held(st, st.events[k]);
        }
      }
    }
    assert forall id :: HasExposure(after, id) <==> HasExposure(st, id);
  }

  /** No event of an experiment that can be replayed changes standing. */
  ghost predicate SettlesReplays(st: State, t: EventType) {
    forall id :: Unsettles(st, t, id) ==> st.decisions[st.events[id].decisionID].experimentID !in st.experiments
  }

  lemma DueAfterDefining(st: State, t: EventType, id: string)
    requires Keyed(st) && id in st.events && Belongs(st.decisions, st.events[id])
    ensures var e, after := st.events[id], Defined(st, t);
      && Row(after.decisions, e) == Row(st.decisions, e)
      && (Unsettles(st, t, id) ==> (Due(after, e) <==> !Due(st, e)))
      && (!Unsettles(st, t, id) ==> (Due(after, e) <==> Due(st, e)))
  {
    assert st.events[id].typ in st.types;
  }

  /** The event's row is due exactly when the event is. */
  lemma RowIsDue(st: State, id: string)
    requires Keyed(st) && id in st.events && Belongs(st.decisions, st.events[id])
    ensures Row(st.decisions, st.events[id]) in DueRows(st) <==> Due(st, st.events[id])
  {
  }

  /** After storing an event type every replay still gives back the same rows if and only if no
      stored event of an experiment that can be replayed changes standing by it. */
  lemma DefineReplaysExactly(st: State, t: EventType)
    requires RowsExact(st)
    ensures EveryReplaySame(Defined(st, t)) <==> SettlesReplays(st, t)
  {
    var after := Defined(st, t);
    assert Keyed(after);
    RowsExactReplays(st);
    EveryReplaySameExactly(after);
    if SettlesReplays(st, t) {
      forall r: AttributedEvent | r.experimentID in st.experiments
        ensures DueCount(after, r) == DueCount(st, r) {
        DueUnmoved(st, t, r);
      }
    } else {
      var id :| Unsettles(st, t, id) && st.decisions[st.events[id].decisionID].experimentID in st.experiments;
      assert Belongs(st.decisions, st.events[id]);
      DueAfterDefining(st, t, id);
      RowIsDue(st, id);
      RowIsDue(after, id);
      var r := Row(st.decisions, st.events[id]);
      assert r.experimentID in after.experiments;
      assert multiset(after.attributed)[r] == DueCount(st, r) != DueCount(after, r);
    }
  }

  lemma DueUnmoved(st: State, t: EventType, r: AttributedEvent)
    requires Keyed(st) && SettlesReplays(st, t) && r.experimentID in st.experiments
    ensures r in DueRows(Defined(st, t)) <==> r in DueRows(st)
  {
    var after := Defined(st, t);
    if r in DueRows(st) {
      var id :| id in st.events && Due(st, st.events[id]) && r == Row(st.decisions, st.events[id]);
      DueAfterDefining(st, t, id);
      RowIsDue(after, id);
    }
    if r in DueRows(after) {
      var id :| id in st.events && Due(after, st.events[id]) && r == Row(st.decisions, st.events[id]);
      DueAfterDefining(st, t, id);
      RowIsDue(st, id);
    }
  }

  // ---- The state inside experiments ----------------------------------------

  predicate InExperiment(st: State, decisionID: string) {
    decisionID in st.decisions && st.decisions[decisionID].experimentID != ""
  }

  /** The state without the decisions outside experiments and their queues. It moves by itself,
      and has the same rows. */
  function Inside(st: State): State {
    st.(decisions := map id | id in st.decisions && InExperiment(st, id) :: st.decisions[id],
        pending := map id | id in st.pending && InExperiment(st, id) :: st.pending[id])
  }

  // ---- Runs ----------------------------------------------------------------

  /** Which new decisions take an id that no stored event names: all of them, or those inside
      experiments. */
  datatype Naming = Everywhere | InsideExperiments

  ghost predicate Allowed(naming: Naming, st: State, d: Decision) {
    NewDecision(st, d) && (Unnamed(st, d.id) || (naming == InsideExperiments && d.experimentID == ""))
  }

  ghost predicate Enabled(naming: Naming, st: State, op: Op) {
    match op
    case NewExperiment(id) => id != ""
    case Issue(d) => Allowed(naming, st, d)
    case DefineType(t) => Settles(if naming == Everywhere then st else Inside(st), t)
    case Ingest(_, _) => true
    case ReplayWindow(id, from, to, raw) => ReplayPossible(st, id, from, to, raw)
  }

  /** Performing `ops` from `st` is possible and leads to `end`. */
  ghost predicate Run(naming: Naming, st: State, ops: seq<Op>, end: State)
    decreases |ops|
  {
    if ops == [] then st == end
    else Enabled(naming, st, ops[0]) && Run(naming, Apply(st, ops[0]), ops[1..], end)
  }

  lemma ApplyConsistent(st: State, op: Op)
    requires Consistent(st) && Enabled(Everywhere, st, op)
    ensures Consistent(Apply(st, op))
  {
    match op
    case NewExperiment(id) =>
      var after := Apply(st, op);
      SameViews(st, after.(experiments := st.experiments));
      assert DueRows(after) == DueRows(st);
      assert forall k :: HasExposure(after, k) <==> HasExposure(st, k);
      forall k ensures Lists(Pending(after, k), HeldEvents(after, k)) {
        assert Lists(Pending(st, k), HeldEvents(st, k));
        assert HeldEvents(after, k) == HeldEvents(st, k);
      }
    case Issue(d) => IssueConsistentExactly(st, d);
    case DefineType(t) => DefineConsistent(st, t);
    case Ingest(batch, now) => IngestBatchConsistent(st, batch, now);
    case ReplayWindow(id, from, to, raw) => ReplayIdentity(st, id, from, to, raw);
  }

  /** When all decisions take unnamed ids, every collection stays exactly its view. */
  lemma {:induction false} RunConsistent(st: State, ops: seq<Op>, end: State)
    requires Consistent(st) && Run(Everywhere, st, ops, end)
    ensures Consistent(end)
    decreases |ops|
  {
    if ops != [] {
      ApplyConsistent(st, ops[0]);
      RunConsistent(Apply(st, ops[0]), ops[1..], end);
    }
  }
}
