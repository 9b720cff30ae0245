/** What ingestion answers for every event, what it stores, and what rows say: each in terms of
    the event itself. */
module EventOutcomes {
  import opened Common
  import opened Events
  import opened EventConsistency
  import EventReplay
  import opened EventSteps
  import opened EventRuns
  import opened EventOrder

  // ---- Payloads ------------------------------------------------------------

  /** The microsecond an instant falls in. */
  function MicrosecondOf(t: Time): int {
    t / 1_000
  }

  function Properties(e: Event): map<string, Json> {
    if e.properties.Some? then e.properties.value else map[]
  }

  /** The same type, subject, decision, microsecond and properties; absent properties are empty. */
  predicate SamePayload(a: Event, b: Event) {
    && a.typ == b.typ && a.subjectID == b.subjectID && a.decisionID == b.decisionID
    && MicrosecondOf(a.occurredAt) == MicrosecondOf(b.occurredAt)
    && Properties(a) == Properties(b)
  }

  /** The event with the instant it is taken to have happened at. */
  function Dated(e: Event, now: Time): Event {
    if e.occurredAt == 0 then e.(occurredAt := now) else e
  }

  lemma SameMicrosecond(t: Time, u: Time)
    ensures Truncate(t, MICROSECOND) == Truncate(u, MICROSECOND) <==> MicrosecondOf(t) == MicrosecondOf(u)
  {
    assert t == 1000 * (t / 1000) + t % 1000;
    assert u == 1000 * (u / 1000) + u % 1000;
  }

  lemma PayloadEquivalent(a: Event, b: Event)
    ensures Equivalent(a, b) <==> SamePayload(a, b)
  {
    SameMicrosecond(a.occurredAt, b.occurredAt);
  }

  // ---- One event -----------------------------------------------------------

  /** At most seven days old; undated events count as happening now. */
  predicate Recent(e: Event, now: Time) {
    e.occurredAt == 0 || now - e.occurredAt <= 7 * 24 * 3600 * SECOND
  }

  /** Identified, recent, and of a type that is defined and not archived. */
  predicate Welcome(st: State, e: Event, now: Time) {
    e.id != "" && Recent(e, now) && e.typ in st.types && !st.types[e.typ].archived
  }

  lemma WelcomeExactly(st: State, e: Event, now: Time)
    ensures Refusal(st.types, e, now).None? <==> Welcome(st, e, now)
  {
  }

  /** The answer to an event whose id is stored: a duplicate if and only if its payload is the
      stored one, a conflict otherwise; nothing changes either way. */
  lemma KnownEventExactly(st: State, raw: Event, now: Time)
    requires Welcome(st, raw, now) && raw.id in st.events
    ensures var (end, outcome) := IngestOne(st, raw, now);
      && end == st
      && (outcome == Duplicate <==> SamePayload(st.events[raw.id], Dated(raw, now)))
      && (outcome != Duplicate ==> outcome == Rejected(ConflictingDuplicate(raw.id)))
  {
    PayloadEquivalent(st.events[raw.id], Stamp(raw, now));
    assert SamePayload(st.events[raw.id], Stamp(raw, now)) <==> SamePayload(st.events[raw.id], Dated(raw, now));
  }

  /** The answer to an unwelcome event names the first thing wrong with it; nothing changes. */
  lemma UnwelcomeExactly(st: State, raw: Event, now: Time)
    requires !Welcome(st, raw, now)
    ensures var (end, outcome) := IngestOne(st, raw, now);
      && end == st
      && outcome == Rejected(
           if raw.id == "" then MissingID
           else if !Recent(raw, now) then TooOld
           else UnknownType(raw.typ))
  {
  }

  /** The answer to a new event: accepted, unless it needs an exposure of a decision that does
      not exist. It is stored either way, with the instant of its receipt. */
  lemma NewEventExactly(st: State, raw: Event, now: Time)
    requires Keyed(st) && Welcome(st, raw, now) && raw.id !in st.events
    ensures var (end, outcome) := IngestOne(st, raw, now);
      && end.events == st.events[raw.id := Dated(raw, now).(receivedAt := now)]
      && (outcome == Rejected(DecisionNotFound(raw.decisionID)) <==>
            raw.typ != "exposure" && st.types[raw.typ].requiresExposure && raw.decisionID !in st.decisions)
      && (outcome != Rejected(DecisionNotFound(raw.decisionID)) ==> outcome == Accepted)
  {
    WelcomeExactly(st, raw, now);
    IngestOneEffect(st, raw, now);
    AnswerToNew(st, raw, now);
  }

  lemma AnswerToNew(st: State, raw: Event, now: Time)
    requires Keyed(st) && Refusal(st.types, raw, now).None? && raw.id !in st.events
    ensures IngestOne(st, raw, now).1 ==
      if raw.typ != EXPOSURE && st.types[raw.typ].requiresExposure && raw.decisionID !in st.decisions
      then Rejected(DecisionNotFound(raw.decisionID)) else Accepted
  {
  }

  // ---- Batches sent again --------------------------------------------------

  predicate KnownRepeat(st: State, e: Event, now: Time) {
    Welcome(st, e, now) && e.id in st.events && SamePayload(st.events[e.id], Dated(e, now))
  }

  /** A batch of welcome events whose payloads are the stored ones is all duplicates. */
  lemma {:induction false} AllDuplicates(st: State, batch: seq<Event>, now: Time)
    requires forall e :: e in batch ==> KnownRepeat(st, e, now)
    ensures IngestBatch(st, batch, now) == (st, BatchResult(0, |batch|, 0, []))
  {
    if batch != [] {
      var n := |batch| - 1;
      assert batch[n] in batch && forall e :: e in batch[..n] ==> e in batch;
      AllDuplicates(st, batch[..n], now);
      KnownEventExactly(st, batch[n], now);
    }
  }

  /** The batch's events have been stored beside the old ones. */
  ghost predicate AllStored(st: State, batch: seq<Event>, now: Time, end: State) {
    && end.types == st.types
    && (forall id :: id in end.events ==> id in st.events || exists e :: e in batch && e.id == id)
    && forall e :: e in batch ==> e.id in end.events && end.events[e.id] == Dated(e, now).(receivedAt := now)
  }

  lemma OneMoreStored(st: State, before: seq<Event>, mid: State, raw: Event, now: Time)
    requires AllStored(st, before, now, mid) && Welcome(st, raw, now) && raw.id !in st.events
    requires forall e :: e in before ==> e.id != raw.id
    ensures AllStored(st, before + [raw], now, IngestOne(mid, raw, now).0)
  {
    WelcomeExactly(mid, raw, now);
    IngestOneEffect(mid, raw, now);
    hide IngestOne;
    assert Stamp(raw, now) == Dated(raw, now).(receivedAt := now);
    assert forall e :: e in before + [raw] <==> e in before || e == raw;
  }

  lemma EarlierDistinct(batch: seq<Event>, n: nat)
    requires n < |batch| && DistinctIDs(batch)
    ensures DistinctIDs(batch[..n]) && forall e :: e in batch[..n] ==> e in batch && e.id != batch[n].id
  {
    forall e | e in batch[..n] ensures e in batch && e.id != batch[n].id {
      var i :| 0 <= i < n && batch[i] == e;
    }
  }

  lemma {:induction false} FirstStored(st: State, batch: seq<Event>, now: Time)
    requires DistinctIDs(batch)
    requires forall e :: e in batch ==> Welcome(st, e, now) && e.id !in st.events
    ensures AllStored(st, batch, now, IngestBatch(st, batch, now).0)
  {
    if batch != [] {
      var n := |batch| - 1;
      assert batch == batch[..n] + [batch[n]];
      assert IngestBatch(st, batch, now).0 == IngestOne(IngestBatch(st, batch[..n], now).0, batch[n], now).0;
      hide IngestOne, IngestBatch, AllStored, Welcome;
      EarlierDistinct(batch, n);
      FirstStored(st, batch[..n], now);
      OneMoreStored(st, batch[..n], IngestBatch(st, batch[..n], now).0, batch[n], now);
    }
  }

  /** A batch of new, dated, distinct events sent again unchanged while it is still recent, after
      anything else has happened, is counted as duplicates throughout, without one error. */
  lemma RepeatIsDuplicate(naming: Naming, st: State, batch: seq<Event>, now: Time, ops: seq<Op>, later: State,
                          again: Time)
    requires DistinctIDs(batch)
    requires forall e :: e in batch ==> Welcome(st, e, now) && e.id !in st.events && e.occurredAt != 0
    requires Run(naming, IngestBatch(st, batch, now).0, ops, later) && later.types == st.types
    requires forall e :: e in batch ==> Recent(e, again)
    ensures IngestBatch(later, batch, again) == (later, BatchResult(0, |batch|, 0, []))
  {
    hide IngestBatch, Run;
    FirstStored(st, batch, now);
    RunGrows(naming, IngestBatch(st, batch, now).0, ops, later);
    forall e | e in batch ensures KnownRepeat(later, e, again) {
      assert later.events[e.id] == e.(receivedAt := now);
    }
    AllDuplicates(later, batch, again);
  }

  // ---- Rows ----------------------------------------------------------------

  /** What a row says: its stored event's type, instant and properties, and the experiment and
      variant of the decision that the event names. */
  predicate Tells(st: State, r: AttributedEvent) {
    && r.eventID in st.events
    && var e := st.events[r.eventID];
    && r.typ == e.typ && r.occurredAt == e.occurredAt && r.properties == e.properties
    && e.decisionID in st.decisions
    && var d := st.decisions[e.decisionID];
    && r.experimentID == d.experimentID != "" && r.variantName == d.variantName
  }

  /** On every reachable state every row tells the truth. */
  lemma RowsTell(ops: seq<Op>, st: State, r: AttributedEvent)
    requires Run(InsideExperiments, INITIAL, ops, st) && r in st.attributed
    ensures Tells(st, r)
  {
    InitialExact();
    RunExact(INITIAL, ops, st);
    RowTells(Inside(st), r);
  }

  lemma RowTells(st: State, r: AttributedEvent)
    requires Consistent(st) && r in st.attributed
    ensures Tells(st, r)
  {
    assert r in DueRows(st);
  }

  // ---- Windows -------------------------------------------------------------

  /** A replay's window is half open: of the rows, those of its experiment from `from` on and
      before `to` go, however often they occur, and every other stays as often as it was. */
  lemma WindowRemoves(rows: seq<AttributedEvent>, experimentID: string, from: Time, to: Time, r: AttributedEvent)
    ensures multiset(Kept(rows, experimentID, from, to))[r] ==
      if r.experimentID == experimentID && from <= r.occurredAt < to then 0 else multiset(rows)[r]
  {
    EventReplay.KeptCount(rows, experimentID, from, to, r);
  }

  /** The raw events listed for a window are the stored ones in it. */
  lemma WindowLists(st: State, from: Time, to: Time, raw: seq<Event>, e: Event)
    requires Keyed(st) && Lists(raw, InRange(st.events, from, to))
    ensures e in raw <==> e.id in st.events && st.events[e.id] == e && from <= e.occurredAt < to
  {
  }
}
