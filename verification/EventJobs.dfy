/** Which guardrail jobs ingestion and replay ask for: one per attributed row, for the row's
    experiment and minute. */
module EventJobs {
  import opened Common
  import opened Events
  import opened EventConsistency
  import opened EventReplay
  import opened EventSteps
  import opened EventRuns

  /** The first instant of a minute counted from the Unix epoch. */
  function MinuteStart(minute: int): Time {
    (UNIX_EPOCH_SECONDS + 60 * minute) * SECOND
  }

  predicate InMinute(t: Time, minute: int) {
    MinuteStart(minute) <= t < MinuteStart(minute + 1)
  }

  /** The request is for the row's experiment and the minute the row falls in. */
  predicate AsksFor(request: JobRequest, row: AttributedEvent, reason: string) {
    && request.experimentID == row.experimentID && request.reason == reason
    && InMinute(row.occurredAt, request.windowBucket)
  }

  lemma BucketIsMinute(t: Time, minute: int)
    ensures InMinute(t, minute) <==> WindowBucket(t) == minute
  {
    var m := t / MINUTE;
    assert t == MINUTE * m + t % MINUTE;
    assert Truncate(t, MINUTE) == SECOND * (60 * m);
    assert Truncate(t, MINUTE) / SECOND == 60 * m;
    assert UNIX_EPOCH_SECONDS == 60 * (UNIX_EPOCH_SECONDS / 60);
    assert WindowBucket(t) == m - UNIX_EPOCH_SECONDS / 60;
    assert MinuteStart(minute) == MINUTE * (UNIX_EPOCH_SECONDS / 60 + minute);
    assert MinuteStart(minute + 1) == MINUTE * (UNIX_EPOCH_SECONDS / 60 + minute) + MINUTE;
  }

  // ---- Ingestion -----------------------------------------------------------

  /** One request per row, in order. */
  ghost predicate AllAsk(requests: seq<JobRequest>, rows: seq<AttributedEvent>, reason: string) {
    |requests| == |rows| && forall i :: 0 <= i < |rows| ==> AsksFor(requests[i], rows[i], reason)
  }

  lemma RequestsAsk(rows: seq<AttributedEvent>, reason: string)
    ensures AllAsk(Requests(rows, reason), rows, reason)
  {
    forall i | 0 <= i < |rows| ensures AsksFor(Requests(rows, reason)[i], rows[i], reason) {
      BucketIsMinute(rows[i].occurredAt, WindowBucket(rows[i].occurredAt));
    }
  }

  lemma AllAskConcat(p: seq<JobRequest>, a: seq<AttributedEvent>, q: seq<JobRequest>, b: seq<AttributedEvent>,
                     reason: string)
    requires AllAsk(p, a, reason) && AllAsk(q, b, reason)
    ensures AllAsk(p + q, a + b, reason)
  {
    hide AsksFor;
    forall i | 0 <= i < |a + b| ensures AsksFor((p + q)[i], (a + b)[i], reason) {
      if i >= |a| {
        assert AsksFor(q[i - |a|], b[i - |a|], reason);
      }
    }
  }

  /** Rows and requests are only appended, and the appended requests ask for the appended rows,
      one for one and in order. */
  ghost predicate AskedOneForOne(st: State, end: State, reason: string) {
    && st.attributed <= end.attributed && st.jobs <= end.jobs
    && AllAsk(end.jobs[|st.jobs|..], end.attributed[|st.attributed|..], reason)
  }

  lemma AskedJoin(a: State, b: State, c: State, reason: string)
    requires AskedOneForOne(a, b, reason) && AskedOneForOne(b, c, reason)
    ensures AskedOneForOne(a, c, reason)
  {
    hide AllAsk;
    AllAskConcat(b.jobs[|a.jobs|..], b.attributed[|a.attributed|..],
      c.jobs[|b.jobs|..], c.attributed[|b.attributed|..], reason);
    assert c.jobs[|a.jobs|..] == b.jobs[|a.jobs|..] + c.jobs[|b.jobs|..];
    assert c.attributed[|a.attributed|..] == b.attributed[|a.attributed|..] + c.attributed[|b.attributed|..];
  }

  /** Appending rows with their requests. */
  lemma AppendedAsk(st: State, end: State, rows: seq<AttributedEvent>, reason: string)
    requires end.attributed == st.attributed + rows && end.jobs == st.jobs + Requests(rows, reason)
    ensures AskedOneForOne(st, end, reason)
  {
    hide AllAsk, Requests;
    RequestsAsk(rows, reason);
    assert end.jobs[|st.jobs|..] == Requests(rows, reason) && end.attributed[|st.attributed|..] == rows;
  }

  lemma ExposeAsks(st: State, e: Event)
    ensures AskedOneForOne(st, Expose(st, e), "attributed_event")
  {
    var marked := st.(decisions := MarkExposed(st.decisions, e.decisionID));
    var first := Attribute(marked, [e]);
    var drained := first.(pending := first.pending - {e.decisionID});
    AppendedAsk(st, drained, Rows(marked.decisions, [e]), "attributed_event");
    AppendedAsk(drained, Expose(st, e), Rows(drained.decisions, Pending(st, e.decisionID)), "attributed_event");
    hide AskedOneForOne;
    AskedJoin(st, drained, Expose(st, e), "attributed_event");
  }

  lemma NothingAsked(st: State, end: State)
    requires end.attributed == st.attributed && end.jobs == st.jobs
    ensures AskedOneForOne(st, end, "attributed_event")
  {
  }

  lemma IngestOneAsks(st: State, raw: Event, now: Time)
    ensures AskedOneForOne(st, IngestOne(st, raw, now).0, "attributed_event")
  {
    var e := Stamp(raw, now);
    var saved := Saved(st, e);
    IngestOneIs(st, raw, now);
    NothingAsked(st, saved);
    ExposeAsks(saved, e);
    AppendedAsk(saved, Attribute(saved, [e]), Rows(saved.decisions, [e]), "attributed_event");
    NothingAsked(saved, Enqueued(saved, e));
    NothingAsked(saved, saved);
    NothingAsked(st, st);
    hide Expose, Attribute, IngestOne, Enqueued, AskedOneForOne;
    AskedJoin(st, saved, Expose(saved, e), "attributed_event");
    if e.typ in saved.types {
      AskedJoin(st, saved, Placed(saved, e), "attributed_event");
    }
  }

  /** However a batch turns out, it asks for one job per row it attributes: the row's experiment,
      the row's minute. */
  lemma {:induction false} IngestAsksPerRow(st: State, batch: seq<Event>, now: Time)
    ensures AskedOneForOne(st, IngestBatch(st, batch, now).0, "attributed_event")
  {
    if batch != [] {
      var n := |batch| - 1;
      var before := IngestBatch(st, batch[..n], now).0;
      IngestAsksPerRow(st, batch[..n], now);
      IngestOneAsks(before, batch[n], now);
      hide IngestOne, AskedOneForOne;
      AskedJoin(st, before, IngestBatch(st, batch, now).0, "attributed_event");
    } else {
      NothingAsked(st, st);
    }
  }

  // ---- Replay --------------------------------------------------------------

  /** The experiment's rows of the half-open window, in one minute. */
  function RowsIn(rows: seq<AttributedEvent>, experimentID: string, from: Time, to: Time, minute: int): nat {
    Tally(rows, (r: AttributedEvent) =>
      r.experimentID == experimentID && from <= r.occurredAt < to && InMinute(r.occurredAt, minute))
  }

  /** The experiment's rows of the half-open window. */
  function RowsOf(rows: seq<AttributedEvent>, experimentID: string, from: Time, to: Time): nat {
    Tally(rows, (r: AttributedEvent) => r.experimentID == experimentID && from <= r.occurredAt < to)
  }

  function RequestsFor(requests: seq<JobRequest>, minute: int): nat {
    Tally(requests, (j: JobRequest) => j.windowBucket == minute)
  }

  /** Requests that ask for the rows one for one are as many per minute as the rows. */
  lemma {:induction false} RequestsPerMinute(rows: seq<AttributedEvent>, requests: seq<JobRequest>, reason: string,
                                             experimentID: string, from: Time, to: Time, minute: int)
    requires AllAsk(requests, rows, reason)
    requires forall r :: r in rows ==> r.experimentID == experimentID && from <= r.occurredAt < to
    ensures RequestsFor(requests, minute) == RowsIn(rows, experimentID, from, to, minute)
    ensures RowsOf(rows, experimentID, from, to) == |rows|
  {
    if rows != [] {
      var n := |rows| - 1;
      assert rows[n] in rows && forall r :: r in rows[..n] ==> r in rows;
      RequestsPerMinute(rows[..n], requests[..n], reason, experimentID, from, to, minute);
      BucketIsMinute(rows[n].occurredAt, requests[n].windowBucket);
      BucketIsMinute(rows[n].occurredAt, minute);
    }
  }

  lemma {:induction false} KeptHasNone(rows: seq<AttributedEvent>, experimentID: string, from: Time, to: Time,
                                       minute: int)
    ensures RowsIn(Kept(rows, experimentID, from, to), experimentID, from, to, minute) == 0
    ensures RowsOf(Kept(rows, experimentID, from, to), experimentID, from, to) == 0
  {
    if rows != [] {
      var n := |rows| - 1;
      KeptHasNone(rows[..n], experimentID, from, to, minute);
      var before := Kept(rows[..n], experimentID, from, to);
      if !Replaced(rows[n], experimentID, from, to) {
        assert (before + [rows[n]])[..|before|] == before;
      } else {
        assert before + [] == before;
      }
    }
  }

  lemma {:induction false} RebuiltInWindow(st: State, experimentID: string, from: Time, to: Time, raw: seq<Event>)
    requires forall e :: e in raw ==> InWindow(e.occurredAt, from, to)
    ensures forall r :: r in Rebuilt(st, experimentID, raw) ==>
      r.experimentID == experimentID && from <= r.occurredAt < to
  {
    if raw != [] {
      var n := |raw| - 1;
      assert raw[n] in raw && forall e :: e in raw[..n] ==> e in raw;
      RebuiltInWindow(st, experimentID, from, to, raw[..n]);
    }
  }

  /** On every reachable state a replay only appends requests, all for the replayed experiment
      and marked as replays: for each minute as many as the experiment has rows of the window in
      that minute, and in all as many as it reports to have rebuilt. */
  lemma ReplayAsksPerRow(ops: seq<Op>, st: State, experimentID: string, from: Time, to: Time, raw: seq<Event>,
                         minute: int)
    requires Run(InsideExperiments, INITIAL, ops, st) && experimentID in st.experiments
    requires Lists(raw, InRange(st.events, from, to))
    ensures var after := Replay(st, experimentID, from, to, raw);
      && st.jobs <= after.jobs
      && var added := after.jobs[|st.jobs|..];
      && (forall j :: j in added ==> j.experimentID == experimentID && j.reason == "replay")
      && RequestsFor(added, minute) == RowsIn(st.attributed, experimentID, from, to, minute)
      && |added| == RowsOf(st.attributed, experimentID, from, to) == |Rebuilt(st, experimentID, raw)|
  {
    ReplayIdentityOnRuns(ops, st, experimentID, from, to, raw);
    var rows, kept := Rebuilt(st, experimentID, raw), Kept(st.attributed, experimentID, from, to);
    var after := Replay(st, experimentID, from, to, raw);
    var added := after.jobs[|st.jobs|..];
    assert added == Requests(rows, "replay");
    assert forall e :: e in raw ==> InWindow(e.occurredAt, from, to);
    RebuiltInWindow(st, experimentID, from, to, raw);
    RequestsAsk(rows, "replay");
    forall j | j in added ensures j.experimentID == experimentID && j.reason == "replay" {
      var i :| 0 <= i < |added| && added[i] == j;
      assert rows[i] in rows;
    }
    RequestsPerMinute(rows, added, "replay", experimentID, from, to, minute);
    KeptHasNone(st.attributed, experimentID, from, to, minute);
    RowsCounted(st.attributed, kept, rows, experimentID, from, to, minute);
  }

  lemma RowsCounted(all: seq<AttributedEvent>, kept: seq<AttributedEvent>, rows: seq<AttributedEvent>,
                    experimentID: string, from: Time, to: Time, minute: int)
    requires multiset(kept + rows) == multiset(all)
    requires RowsIn(kept, experimentID, from, to, minute) == 0 == RowsOf(kept, experimentID, from, to)
    ensures RowsIn(all, experimentID, from, to, minute) == RowsIn(rows, experimentID, from, to, minute)
    ensures RowsOf(all, experimentID, from, to) == RowsOf(rows, experimentID, from, to)
  {
    var p := (r: AttributedEvent) =>
      r.experimentID == experimentID && from <= r.occurredAt < to && InMinute(r.occurredAt, minute);
    var q := (r: AttributedEvent) => r.experimentID == experimentID && from <= r.occurredAt < to;
    TallyBag(kept + rows, all, p);
    TallyBag(kept + rows, all, q);
    TallyConcat(kept, rows, p);
    TallyConcat(kept, rows, q);
  }
}
