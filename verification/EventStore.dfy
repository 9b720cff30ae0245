/** The event side of the in-memory store and the service methods that drive it. */
module EventStore {
  import opened Common
  import opened Events

  class MemoryStore {
    var eventTypes: map<string, EventType>
    var experiments: set<string>
    var decisionsByID: map<string, Decision>
    var eventsByID: map<string, Event>
    var pendingByDecision: map<string, seq<Event>>
    var attributed: seq<AttributedEvent>
    var jobRequests: seq<JobRequest>

    function View(): State
      reads this
    {
      State(eventTypes, experiments, decisionsByID, eventsByID, pendingByDecision, attributed, jobRequests)
    }

    constructor ()
      ensures View() == INITIAL
    {
      eventTypes, experiments, decisionsByID, eventsByID := INITIAL_TYPES, {}, map[], map[];
      pendingByDecision, attributed, jobRequests := map[], [], [];
    }

    method SaveEvent(e: Event) returns (duplicate: bool)
      modifies this`eventsByID
      ensures duplicate <==> e.id in old(eventsByID)
      ensures eventsByID == if duplicate then old(eventsByID) else old(eventsByID)[e.id := e]
    {
      if e.id in eventsByID { return true; }
      eventsByID := eventsByID[e.id := e];
      return false;
    }

    method MarkExposed(decisionID: string) returns (found: bool)
      modifies this`decisionsByID
      ensures found <==> decisionID in old(decisionsByID)
      ensures decisionsByID == Events.MarkExposed(old(decisionsByID), decisionID)
    {
      if decisionID !in decisionsByID { return false; }
      var d := decisionsByID[decisionID];
      decisionsByID := decisionsByID[decisionID := d.(exposed := true)];
      return true;
    }

    method PutPending(decisionID: string, e: Event)
      modifies this`pendingByDecision
      ensures pendingByDecision
           == old(pendingByDecision)[decisionID := Pending(old(View()), decisionID) + [e]]
    {
      var queue := if decisionID in pendingByDecision then pendingByDecision[decisionID] else [];
      pendingByDecision := pendingByDecision[decisionID := queue + [e]];
    }

    method DrainPending(decisionID: string) returns (list: seq<Event>)
      modifies this`pendingByDecision
      ensures list == Pending(old(View()), decisionID)
      ensures Pending(View(), decisionID) == []
      ensures pendingByDecision == old(pendingByDecision) - {decisionID}
    {
      list := if decisionID in pendingByDecision then pendingByDecision[decisionID] else [];
      pendingByDecision := pendingByDecision - {decisionID};
    }

    method DeleteAttributedForExperimentInRange(experimentID: string, from: Time, to: Time)
      modifies this`attributed
      ensures attributed == Kept(old(attributed), experimentID, from, to)
    {
      var filtered := [];
      for i := 0 to |attributed|
        invariant attributed == old(attributed)
        invariant filtered == Kept(attributed[..i], experimentID, from, to)
      {
        var a := attributed[i];
        assert attributed[..i + 1][..i] == attributed[..i];
        if a.experimentID == experimentID && from <= a.occurredAt && a.occurredAt < to { continue; }
        filtered := filtered + [a];
      }
      assert attributed[..|attributed|] == attributed;
      attributed := filtered;
    }

    /** Map iteration order is arbitrary: the result is some listing of the window's events. */
    method ListRawEventsInRange(from: Time, to: Time) returns (out: seq<Event>)
      requires forall id :: id in eventsByID ==> eventsByID[id].id == id
      ensures Lists(out, InRange(eventsByID, from, to))
    {
      out := [];
      var rest := eventsByID.Keys;
      while rest != {}
        invariant rest <= eventsByID.Keys
        invariant NoDuplicates(out)
        invariant forall e :: e in out <==>
          exists id :: id in eventsByID && id !in rest && e == eventsByID[id] && InWindow(e.occurredAt, from, to)
        decreases |rest|
      {
        ghost var before := rest;
        var id :| id in rest;
        rest := rest - {id};
        var e := eventsByID[id];
        if e.occurredAt < from || !(e.occurredAt < to) { continue; }
        NoDuplicatesConcat(out, [e]);
        out := out + [e];
      }
    }
  }

  /** What the audit log says of one replay. */
  datatype ReplayEntry = ReplayEntry(experimentID: string, from: Time, to: Time, rebuilt: nat)

  class Service {
    const store: MemoryStore
    var replays: seq<ReplayEntry>

    constructor (store: MemoryStore)
      ensures this.store == store && replays == []
    {
      this.store := store;
      replays := [];
    }

    method TryAttribute(e: Event)
      modifies store`attributed, store`jobRequests
      ensures store.View() == Attribute(old(store.View()), [e])
    {
      AttributeOne(store.View(), e);
      if e.decisionID == "" { return; }
      if e.decisionID !in store.decisionsByID { return; }
      var d := store.decisionsByID[e.decisionID];
      if d.experimentID == "" { return; }
      store.attributed := store.attributed
        + [AttributedEvent(e.id, d.experimentID, d.variantName, e.typ, e.occurredAt, e.properties)];
      store.jobRequests := store.jobRequests
        + [JobRequest(d.experimentID, WindowBucket(e.occurredAt), "attributed_event")];
    }

    method AttributeDrained(es: seq<Event>)
      modifies store`attributed, store`jobRequests
      ensures store.View() == Attribute(old(store.View()), es)
    {
      for i := 0 to |es|
        invariant store.View() == Attribute(old(store.View()), es[..i])
      {
        AttributeSplit(old(store.View()), es, i);
        TryAttribute(es[i]);
      }
      assert es[..|es|] == es;
    }

    method IngestEvents(events: seq<Event>, now: Time) returns (out: BatchResult)
      modifies store
      ensures (store.View(), out) == IngestBatch(old(store.View()), events, now)
    {
      out := BatchResult(0, 0, 0, []);
      for i := 0 to |events|
        invariant (store.View(), out) == IngestBatch(old(store.View()), events[..i], now)
      {
        assert events[..i + 1][..i] == events[..i];
        var outcome := IngestEvent(events[i], now);
        out := out.Count(outcome);
      }
      assert events[..|events|] == events;
    }

    /** The body of the ingestion loop. */
    method IngestEvent(raw: Event, now: Time) returns (outcome: Outcome)
      modifies store
      ensures (store.View(), outcome) == IngestOne(old(store.View()), raw, now)
    {
      var e := raw.(receivedAt := now);
      if e.id == "" { return Rejected(MissingID); }
      if e.occurredAt == ZERO_TIME { e := e.(occurredAt := now); }
      if now - e.occurredAt > WEEK { return Rejected(TooOld); }
      if e.typ !in store.eventTypes || store.eventTypes[e.typ].archived {
        return Rejected(UnknownType(e.typ));
      }
      var et := store.eventTypes[e.typ];
      var dup := store.SaveEvent(e);
      if dup {
        if !Equivalent(store.eventsByID[e.id], e) { return Rejected(ConflictingDuplicate(e.id)); }
        return Duplicate;
      }
      if et.key == EXPOSURE {
        var _ := store.MarkExposed(e.decisionID);
        TryAttribute(e);
        var waiting := store.DrainPending(e.decisionID);
        AttributeDrained(waiting);
        return Accepted;
      }
      if et.requiresExposure {
        if e.decisionID !in store.decisionsByID { return Rejected(DecisionNotFound(e.decisionID)); }
        if !store.decisionsByID[e.decisionID].exposed {
          store.PutPending(e.decisionID, e);
          return Accepted;
        }
      }
      TryAttribute(e);
      return Accepted;
    }

    /** Replays one experiment over a window; `raw` is the order in which the store listed it. */
    method ReplayAttribution(experimentID: string, from: Time, to: Time)
      returns (rebuilt: Result<nat, string>, ghost raw: seq<Event>)
      requires forall id :: id in store.eventsByID ==> store.eventsByID[id].id == id
      modifies store`attributed, store`jobRequests, `replays
      ensures rebuilt.Ok? <==> experimentID in store.experiments
      ensures rebuilt.Err? ==> store.View() == old(store.View()) && replays == old(replays)
      ensures rebuilt.Ok? ==> replays == old(replays) + [ReplayEntry(experimentID, from, to, rebuilt.value)]
      ensures rebuilt.Ok? ==>
        && Lists(raw, InRange(store.eventsByID, from, to))
        && store.View() == Replay(old(store.View()), experimentID, from, to, raw)
        && rebuilt.value == |Rebuilt(old(store.View()), experimentID, raw)|
    {
      raw := [];
      if experimentID !in store.experiments { return Err("experiment not found"), raw; }
      store.DeleteAttributedForExperimentInRange(experimentID, from, to);
      var kept := store.View();
      var list := store.ListRawEventsInRange(from, to);
      var count := 0;
      for i := 0 to |list|
        invariant store.View() == Replay(old(store.View()), experimentID, from, to, list[..i])
        invariant count == |Rebuilt(old(store.View()), experimentID, list[..i])|
        invariant replays == old(replays)
      {
        ReplaySplit(old(store.View()), experimentID, list, i);
        var e := list[i];
        if e.decisionID == "" { continue; }
        if e.decisionID !in store.decisionsByID { continue; }
        var decision := store.decisionsByID[e.decisionID];
        if decision.experimentID != experimentID { continue; }
        if e.typ != EXPOSURE {
          if e.typ !in store.eventTypes { continue; }
          if store.eventTypes[e.typ].requiresExposure && !decision.exposed { continue; }
        }
        store.attributed := store.attributed
          + [AttributedEvent(e.id, decision.experimentID, decision.variantName, e.typ, e.occurredAt, e.properties)];
        store.jobRequests := store.jobRequests
          + [JobRequest(decision.experimentID, WindowBucket(e.occurredAt), "replay")];
        count := count + 1;
      }
      assert list[..|list|] == list;
      replays := replays + [ReplayEntry(experimentID, from, to, count)];
      return Ok(count), list;
    }
  }

  lemma RequestsSplit(rows: seq<AttributedEvent>, row: AttributedEvent, reason: string)
    ensures Requests(rows + [row], reason)
         == Requests(rows, reason) + [JobRequest(row.experimentID, WindowBucket(row.occurredAt), reason)]
  {
  }

  lemma AttributeOne(st: State, e: Event)
    ensures Attribute(st, [e]) ==
      if Belongs(st.decisions, e) then
        var row := Row(st.decisions, e);
        st.(attributed := st.attributed + [row],
            jobs := st.jobs + [JobRequest(row.experimentID, WindowBucket(row.occurredAt), "attributed_event")])
      else st
  {
    var es := [e];
    var rows := Rows(st.decisions, es);
    assert Rows(st.decisions, es[..|es| - 1]) == [];
    if Belongs(st.decisions, e) {
      var row := Row(st.decisions, e);
      assert rows == [row];
      assert Requests(rows, "attributed_event")
          == [JobRequest(row.experimentID, WindowBucket(row.occurredAt), "attributed_event")];
    } else {
      assert rows == [];
      assert Requests(rows, "attributed_event") == [];
    }
  }

  lemma AttributeSplit(st: State, es: seq<Event>, i: nat)
    requires i < |es|
    ensures Attribute(st, es[..i + 1]) == Attribute(Attribute(st, es[..i]), [es[i]])
  {
    assert es[..i + 1][..i] == es[..i];
    AttributeOne(Attribute(st, es[..i]), es[i]);
    if Belongs(st.decisions, es[i]) {
      RequestsSplit(Rows(st.decisions, es[..i]), Row(st.decisions, es[i]), "attributed_event");
    }
  }

  lemma ReplaySplit(st: State, experimentID: string, raw: seq<Event>, i: nat)
    requires i < |raw|
    ensures var before := Rebuilt(st, experimentID, raw[..i]);
      var after := Rebuilt(st, experimentID, raw[..i + 1]);
      if Rebuilds(st, experimentID, raw[i]) then
        var row := Row(st.decisions, raw[i]);
        && after == before + [row]
        && Requests(after, "replay")
          == Requests(before, "replay") + [JobRequest(row.experimentID, WindowBucket(row.occurredAt), "replay")]
      else after == before
  {
    assert raw[..i + 1][..i] == raw[..i];
  }
}
