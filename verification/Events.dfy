/** Events, decisions and the four collections ingestion keeps in step: raw events,
    issued decisions, events waiting for an exposure, and attributed rows. What one
    ingested event, one batch and one replay do to them. */
module Events {
  import opened Common

  const WEEK: int := 7 * 24 * 60 * MINUTE
  const ZERO_TIME: Time := 0
  const EXPOSURE := "exposure"

  datatype EventType = EventType(key: string, requiresExposure: bool, archived: bool)

  datatype Event = Event(
    id: string, typ: string, subjectID: string, decisionID: string,
    occurredAt: Time, properties: Option<map<string, Json>>, receivedAt: Time)

  datatype Decision = Decision(
    id: string, subjectID: string, flagKey: string, value: Json,
    experimentID: string, variantName: string, configVersion: int,
    createdAt: Time, exposed: bool)

  datatype AttributedEvent = AttributedEvent(
    eventID: string, experimentID: string, variantName: string, typ: string,
    occurredAt: Time, properties: Option<map<string, Json>>)

  /** The identity of a guardrail job that an attributed row asks for. */
  datatype JobRequest = JobRequest(experimentID: string, windowBucket: int, reason: string)

  datatype State = State(
    types: map<string, EventType>,
    experiments: set<string>,
    decisions: map<string, Decision>,
    events: map<string, Event>,
    pending: map<string, seq<Event>>,
    attributed: seq<AttributedEvent>,
    jobs: seq<JobRequest>)

  datatype Reason =
    | MissingID
    | TooOld
    | UnknownType(typ: string)
    | ConflictingDuplicate(id: string)
    | DecisionNotFound(id: string)

  datatype Outcome = Accepted | Duplicate | Rejected(reason: Reason)

  datatype BatchResult = BatchResult(accepted: nat, duplicate: nat, rejected: nat, errors: seq<Reason>) {
    function Count(o: Outcome): BatchResult {
      match o
      case Accepted => this.(accepted := accepted + 1)
      case Duplicate => this.(duplicate := duplicate + 1)
      case Rejected(reason) => this.(rejected := rejected + 1, errors := errors + [reason])
    }
  }

  /** The seeded store: four event types and nothing else. */
  const INITIAL_TYPES: map<string, EventType> := map[
    EXPOSURE := EventType(EXPOSURE, false, false),
    "conversion" := EventType("conversion", true, false),
    "error" := EventType("error", true, false),
    "latency" := EventType("latency", true, false)]

  const INITIAL: State := State(INITIAL_TYPES, {}, map[], map[], map[], [], [])

  // ---- Payload equivalence -------------------------------------------------

  const MICROSECOND: int := 1000

  function Normalized(properties: Option<map<string, Json>>): map<string, Json> {
    match properties
    case None => map[]
    case Some(m) => m
  }

  predicate Equivalent(a: Event, b: Event) {
    && a.typ == b.typ
    && a.subjectID == b.subjectID
    && a.decisionID == b.decisionID
    && Truncate(a.occurredAt, MICROSECOND) == Truncate(b.occurredAt, MICROSECOND)
    && Normalized(a.properties) == Normalized(b.properties)
  }

  // ---- Attribution ---------------------------------------------------------

  function Pending(st: State, decisionID: string): seq<Event> {
    if decisionID in st.pending then st.pending[decisionID] else []
  }

  /** The event names a decision that was taken inside an experiment. */
  predicate Belongs(decisions: map<string, Decision>, e: Event) {
    && e.decisionID != ""
    && e.decisionID in decisions
    && decisions[e.decisionID].experimentID != ""
  }

  function Row(decisions: map<string, Decision>, e: Event): AttributedEvent
    requires e.decisionID in decisions
  {
    var d := decisions[e.decisionID];
    AttributedEvent(e.id, d.experimentID, d.variantName, e.typ, e.occurredAt, e.properties)
  }

  function Rows(decisions: map<string, Decision>, es: seq<Event>): seq<AttributedEvent> {
    if es == [] then []
    else
      var n := |es| - 1;
      Rows(decisions, es[..n]) + (if Belongs(decisions, es[n]) then [Row(decisions, es[n])] else [])
  }

  function WindowBucket(t: Time): int {
    Unix(Truncate(t, MINUTE)) / 60
  }

  function Requests(rows: seq<AttributedEvent>, reason: string): seq<JobRequest> {
    seq(|rows|, i requires 0 <= i < |rows| =>
      JobRequest(rows[i].experimentID, WindowBucket(rows[i].occurredAt), reason))
  }

  function Attribute(st: State, es: seq<Event>): State {
    var rows := Rows(st.decisions, es);
    st.(attributed := st.attributed + rows, jobs := st.jobs + Requests(rows, "attributed_event"))
  }

  // ---- Ingestion -----------------------------------------------------------

  function Stamp(e: Event, now: Time): Event {
    e.(receivedAt := now, occurredAt := if e.occurredAt == ZERO_TIME then now else e.occurredAt)
  }

  /** Why an event is refused before anything is stored, if it is. */
  function Refusal(types: map<string, EventType>, e: Event, now: Time): Option<Reason> {
    if e.id == "" then Some(MissingID)
    else if now - Stamp(e, now).occurredAt > WEEK then Some(TooOld)
    else if e.typ !in types || types[e.typ].archived then Some(UnknownType(e.typ))
    else None
  }

  function MarkExposed(decisions: map<string, Decision>, id: string): map<string, Decision> {
    if id in decisions then decisions[id := decisions[id].(exposed := true)] else decisions
  }

  function Enqueued(st: State, e: Event): State {
    st.(pending := st.pending[e.decisionID := Pending(st, e.decisionID) + [e]])
  }

  /** An exposure marks its decision, is attributed, and releases the events waiting for it. */
  function Expose(st: State, e: Event): State {
    var waiting := Pending(st, e.decisionID);
    var marked := Attribute(st.(decisions := MarkExposed(st.decisions, e.decisionID)), [e]);
    Attribute(marked.(pending := marked.pending - {e.decisionID}), waiting)
  }

  function IngestOne(st: State, raw: Event, now: Time): (State, Outcome) {
    match Refusal(st.types, raw, now)
    case Some(reason) => (st, Rejected(reason))
    case None =>
      var e := Stamp(raw, now);
      if e.id in st.events then
        (st, if Equivalent(st.events[e.id], e) then Duplicate else Rejected(ConflictingDuplicate(e.id)))
      else
        var saved := st.(events := st.events[e.id := e]);
        var et := st.types[e.typ];
        if et.key == EXPOSURE then (Expose(saved, e), Accepted)
        else if et.requiresExposure && e.decisionID !in st.decisions then
          (saved, Rejected(DecisionNotFound(e.decisionID)))
        else if et.requiresExposure && !st.decisions[e.decisionID].exposed then
          (Enqueued(saved, e), Accepted)
        else (Attribute(saved, [e]), Accepted)
  }

  /** A batch is ingested left to right at one instant. */
  function IngestBatch(st: State, batch: seq<Event>, now: Time): (State, BatchResult) {
    if batch == [] then (st, BatchResult(0, 0, 0, []))
    else
      var n := |batch| - 1;
      var (before, counts) := IngestBatch(st, batch[..n], now);
      var (after, outcome) := IngestOne(before, batch[n], now);
      (after, counts.Count(outcome))
  }

  // ---- Replay --------------------------------------------------------------

  predicate InWindow(t: Time, from: Time, to: Time) {
    from <= t < to
  }

  predicate Replaced(a: AttributedEvent, experimentID: string, from: Time, to: Time) {
    a.experimentID == experimentID && InWindow(a.occurredAt, from, to)
  }

  /** The rows a replay of the window leaves alone. */
  function Kept(rows: seq<AttributedEvent>, experimentID: string, from: Time, to: Time): seq<AttributedEvent> {
    if rows == [] then []
    else
      var n := |rows| - 1;
      Kept(rows[..n], experimentID, from, to) + (if Replaced(rows[n], experimentID, from, to) then [] else [rows[n]])
  }

  ghost function InRange(events: map<string, Event>, from: Time, to: Time): set<Event> {
    set id | id in events && InWindow(events[id].occurredAt, from, to) :: events[id]
  }

  predicate Rebuilds(st: State, experimentID: string, e: Event) {
    && e.decisionID != ""
    && e.decisionID in st.decisions
    && st.decisions[e.decisionID].experimentID == experimentID
    && (e.typ != EXPOSURE ==>
          && e.typ in st.types
          && !(st.types[e.typ].requiresExposure && !st.decisions[e.decisionID].exposed))
  }

  function Rebuilt(st: State, experimentID: string, raw: seq<Event>): seq<AttributedEvent> {
    if raw == [] then []
    else
      var n := |raw| - 1;
      Rebuilt(st, experimentID, raw[..n])
      + (if Rebuilds(st, experimentID, raw[n]) then [Row(st.decisions, raw[n])] else [])
  }

  /** Replay over `raw`, the window's raw events in the order the store happened to list them. */
  function Replay(st: State, experimentID: string, from: Time, to: Time, raw: seq<Event>): State {
    var rows := Rebuilt(st, experimentID, raw);
    st.(attributed := Kept(st.attributed, experimentID, from, to) + rows,
        jobs := st.jobs + Requests(rows, "replay"))
  }
}
