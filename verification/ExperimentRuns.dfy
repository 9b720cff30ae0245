/** Whole runs of the experiment service: what every operation keeps, the audit log against
    the stored status, approvals, stickiness of decisions, and incidents. */
module ExperimentRuns {
  import opened Common
  import opened Assignment
  import opened Selection
  import opened Events
  import opened Experiments
  import Targeting

  datatype Op =
    | PutFlag(flag: Flag)
    | PutUser(user: User)
    | PutPolicy(policy: Policy)
    | Create(creator: User, input: Experiment, newID: string, created: Time)
    | Perform(actor: User, id: string, command: Command, at: Time)
    | Decide(subjectID: string, attrs: Targeting.Attributes, keys: seq<string>, order: seq<Candidate>,
             ids: seq<string>, now: Time)
    | Expose(decisionID: string)
    | Guard(path: Path, guarded: string, when: Time, actuals: seq<real>)
    | Replayed(experimentID: string)

  const EMPTY: World := World(map[], map[], map[], map[], map[], [], {})

  /** What the environment guarantees: fresh ids, new experiments without reviews, one
      measured value per rule. */
  ghost predicate Enabled(cfg: Settings, w: World, op: Op) {
    match op
    case PutFlag(_) => true
    case PutUser(_) => true
    case PutPolicy(_) => true
    case Create(_, input, newID, _) =>
      newID != "" && newID !in w.experiments && input.reviewHistory == []
    case Perform(_, _, _, _) => true
    case Decide(subjectID, attrs, keys, order, ids, _) =>
      subjectID != "" && FreshIDs(w, ids) && |keys| <= |ids| && IsOrder(cfg, w, subjectID, attrs, keys, order)
    case Expose(_) => true
    case Guard(path, id, _, actuals) => id in w.experiments ==>
      |w.experiments[id].guardrails| == |actuals|
    case Replayed(id) => id in w.experiments
  }

  ghost function Apply(cfg: Settings, w: World, op: Op): World
    requires Enabled(cfg, w, op)
  {
    match op
    case PutFlag(f) => w.(flags := w.flags[f.key := f])
    case PutUser(u) => w.(users := w.users[u.id := u])
    case PutPolicy(p) => w.(policies := w.policies[p.experimenterID := p])
    case Create(actor, input, newID, now) => Performed(w, PlanCreate(w, actor, input, newID, now), actor.id)
    case Perform(actor, id, command, now) => Performed(w, Plan(w, actor, id, command, now), actor.id)
    case Decide(subjectID, attrs, keys, order, ids, now) =>
      w.(decisions := PutDecisions(w.decisions,
           Decisions(cfg, w, subjectID, keys, TopKeys(order, cfg.maxSimultaneous), ids, now)))
    case Expose(id) => w.(decisions := MarkExposed(w.decisions, id))
    case Guard(path, id, at, actuals) => GuardrailPass(w, path, id, at, actuals)
    case Replayed(id) => Logged(w, id, AttributionReplayed, "system")
  }

  /** `ops` can be performed from the empty store, and lead to `w`. */
  ghost predicate Run(cfg: Settings, ops: seq<Op>, w: World) {
    if ops == [] then w == EMPTY
    else
      var n := |ops| - 1;
      exists before :: Run(cfg, ops[..n], before) && Enabled(cfg, before, ops[n]) && w == Apply(cfg, before, ops[n])
  }

  // ---- Audit log -----------------------------------------------------------

  /** The lifecycle automaton: where an action may lead from a status. */
  function Moves(s: Status, a: Action): set<Status> {
    match a
    case ExperimentCreated => {}
    case SentToReview => if s == Draft || s == StatusRejected then {InReview} else {}
    case ReviewRequestedChanges => if s == InReview then {Draft} else {}
    case ReviewRejected => if s == InReview then {StatusRejected} else {}
    case ReviewApproved => if s == InReview then {InReview, Approved} else {}
    case ExperimentStarted => if s == Approved then {Running} else {}
    case ExperimentPaused => if s == Running then {Paused} else {}
    case ExperimentResumed => if s == Paused then {Running} else {}
    case ExperimentCompleted => if s == Running || s == Paused then {Completed} else {}
    case ConfigUpdated => if s == Draft then {Draft} else {}
    case GuardrailTriggered => if s == Running then {Paused} else {}
    case AttributionReplayed => {s}
  }

  /** The statuses an action history allows. */
  function Possible(actions: seq<Action>): set<Status> {
    if actions == [] then {}
    else if actions == [ExperimentCreated] then {Draft}
    else
      var a := actions[|actions| - 1];
      set s, t | s in Possible(actions[..|actions| - 1]) && t in Moves(s, a) :: t
  }

  function Trail(audit: seq<Audit>, id: string): seq<Action> {
    if audit == [] then []
    else
      var a := audit[|audit| - 1];
      Trail(audit[..|audit| - 1], id) + (if a.entityID == id then [a.action] else [])
  }

  lemma TrailNext(audit: seq<Audit>, a: Audit, id: string)
    ensures Trail(audit + [a], id) == if a.entityID == id then Trail(audit, id) + [a.action] else Trail(audit, id)
  {
    var more := audit + [a];
    assert more[..|more| - 1] == audit;
  }

  lemma PossibleNext(actions: seq<Action>, a: Action, s: Status, t: Status)
    requires s in Possible(actions) && t in Moves(s, a)
    ensures t in Possible(actions + [a])
  {
    var more := actions + [a];
    assert more[..|more| - 1] == actions;
  }

  ghost predicate AuditTracks(w: World) {
    && (forall id :: id in w.experiments ==> w.experiments[id].status in Possible(Trail(w.audit, id)))
    && (forall id :: id !in w.experiments ==> Trail(w.audit, id) == [])
  }

  // ---- Versions and configuration ------------------------------------------

  /** Versions are the snapshots 1 .. n, and the last is the current configuration. */
  ghost predicate VersionsSound(e: Experiment) {
    && ValidConfig(e.audiencePercent, e.variants)
    && e.version == |e.versions| >= 1
    && (forall i :: 0 <= i < |e.versions| ==> e.versions[i].version == i + 1)
    && var last := e.versions[|e.versions| - 1];
       last.audiencePercent == e.audiencePercent && last.variants == e.variants && last.targeting == e.targeting
  }

  ghost predicate Keyed(w: World) {
    && (forall id :: id in w.experiments ==> id != "" && w.experiments[id].id == id)
    && (forall id :: id in w.decisions ==> id != "" && w.decisions[id].id == id)
  }

  /** At most one running or paused experiment per flag. */
  ghost predicate OneActive(w: World) {
    forall a, b, f :: IsActiveFor(w, a, f) && IsActiveFor(w, b, f) ==> a == b
  }

  ghost predicate AllVersionsSound(w: World) {
    forall id :: id in w.experiments ==> VersionsSound(w.experiments[id])
  }

  // ---- Decisions -----------------------------------------------------------

  predicate Launched(e: Experiment) {
    e.status == Running || e.status == Paused || e.status == Completed
  }

  /** The decision is what the experiment's one launched configuration assigns its subject. */
  predicate Sticks(cfg: Settings, e: Experiment, d: Decision) {
    var v := VariantFor(cfg, e, d.subjectID);
    && Launched(e) && d.configVersion == e.version
    && v.Some? && d.variantName == v.value.name && d.value == v.value.value
  }

  ghost predicate Sticky(cfg: Settings, w: World) {
    forall id :: id in w.decisions && w.decisions[id].experimentID != "" ==>
      var d := w.decisions[id];
      d.experimentID in w.experiments && Sticks(cfg, w.experiments[d.experimentID], d)
  }

  // ---- Incidents -----------------------------------------------------------

  ghost predicate IncidentsOnce(w: World) {
    && (forall i :: 0 <= i < |w.audit| && w.audit[i].incident.Some? ==> w.audit[i].incident.value in w.incidents)
    && (forall i, j :: 0 <= i < j < |w.audit| && w.audit[i].incident.Some? ==>
          w.audit[i].incident != w.audit[j].incident)
  }

  ghost predicate Sound(cfg: Settings, w: World) {
    Keyed(w) && OneActive(w) && AllVersionsSound(w) && AuditTracks(w) && Sticky(cfg, w) && IncidentsOnce(w)
  }

  // ---- One experiment changes ----------------------------------------------

  predicate SameConfig(a: Experiment, b: Experiment) {
    && a.version == b.version && a.variants == b.variants
    && a.audiencePercent == b.audiencePercent && a.targeting == b.targeting
  }

  predicate SameIdentity(a: Experiment, b: Experiment) {
    a.id == b.id && a.flagKey == b.flagKey && a.name == b.name && a.ownerID == b.ownerID && a.createdAt == b.createdAt
  }

  /** The experiment stays itself; versions only grow; once launched it stays launched under
      the same configuration; it becomes active only on a free flag; the audit action explains
      the status. */
  ghost predicate SafeChange(w: World, before: Experiment, c: Change) {
    var e := c.experiment;
    && SameIdentity(before, e)
    && before.versions <= e.versions
    && VersionsSound(e)
    && e.status in Moves(before.status, c.action)
    && (Launched(before) ==> Launched(e) && SameConfig(before, e))
    && (Active(e) ==> Active(before) || !FlagBusy(w, e.flagKey))
  }

  /** A command that leaves the configuration alone is safe when its move is. */
  lemma MoveSafe(w: World, before: Experiment, c: Change)
    requires VersionsSound(before)
    requires SameIdentity(before, c.experiment) && SameConfig(before, c.experiment)
    requires before.versions == c.experiment.versions
    requires c.experiment.status in Moves(before.status, c.action)
    requires Launched(before) ==> Launched(c.experiment)
    requires Active(c.experiment) ==> Active(before) || !FlagBusy(w, c.experiment.flagKey)
    ensures SafeChange(w, before, c)
  {
  }

  lemma UpdateSafe(w: World, before: Experiment, config: ConfigUpdate, c: Change)
    requires VersionsSound(before) && before.status == Draft
    requires ValidConfig(config.audiencePercent, config.variants)
    requires SameIdentity(before, c.experiment) && c.experiment.status == Draft && c.action == ConfigUpdated
    requires c.experiment.audiencePercent == config.audiencePercent && c.experiment.variants == config.variants
    requires c.experiment.version == before.version + 1
    requires exists at, author :: c.experiment.versions == before.versions + [Snapshot(c.experiment, at, author)]
    ensures SafeChange(w, before, c)
  {
    assert c.experiment.versions[..|before.versions|] == before.versions;
  }

  /** Every command but an update leaves identity and configuration alone. */
  lemma PlanKeeps(w: World, actor: User, id: string, command: Command, now: Time)
    requires !command.Update? && Plan(w, actor, id, command, now).Ok?
    ensures id in w.experiments
    ensures var e, f := w.experiments[id], Plan(w, actor, id, command, now).value.experiment;
      SameIdentity(e, f) && SameConfig(e, f) && e.versions == f.versions
  {
    hide CanApprove, FlagBusy, Approvers, RequiredApprovals;
  }

  /** Every command makes a move of the automaton, and activates only on a free flag. */
  lemma PlanMoves(w: World, actor: User, id: string, command: Command, now: Time)
    requires Plan(w, actor, id, command, now).Ok?
    ensures id in w.experiments
    ensures var e, c := w.experiments[id], Plan(w, actor, id, command, now).value;
      && c.experiment.status in Moves(e.status, c.action)
      && (Launched(e) ==> Launched(c.experiment))
      && (Active(c.experiment) ==> Active(e) || !FlagBusy(w, c.experiment.flagKey))
  {
    hide CanApprove, FlagBusy, Approvers, RequiredApprovals, Snapshot, ValidConfig;
  }

  lemma PlanMoveSafe(w: World, actor: User, id: string, command: Command, now: Time)
    requires AllVersionsSound(w) && !command.Update?
    requires Plan(w, actor, id, command, now).Ok?
    ensures id in w.experiments
    ensures SafeChange(w, w.experiments[id], Plan(w, actor, id, command, now).value)
  {
    PlanKeeps(w, actor, id, command, now);
    PlanMoves(w, actor, id, command, now);
    assert VersionsSound(w.experiments[id]);
    hide Plan, VersionsSound, Moves, FlagBusy;
    MoveSafe(w, w.experiments[id], Plan(w, actor, id, command, now).value);
  }

  lemma PlanUpdateSafe(w: World, actor: User, id: string, command: Command, now: Time)
    requires AllVersionsSound(w) && command.Update?
    requires Plan(w, actor, id, command, now).Ok?
    ensures id in w.experiments
    ensures SafeChange(w, w.experiments[id], Plan(w, actor, id, command, now).value)
  {
    var e := w.experiments[id];
    var c := Plan(w, actor, id, command, now).value;
    assert VersionsSound(e);
    assert c.experiment.versions == e.versions + [Snapshot(c.experiment, now, actor.id)];
    UpdateSafe(w, e, command.config, c);
  }

  lemma PlanSafe(w: World, actor: User, id: string, command: Command, now: Time)
    requires AllVersionsSound(w) && Plan(w, actor, id, command, now).Ok?
    ensures id in w.experiments
    ensures SafeChange(w, w.experiments[id], Plan(w, actor, id, command, now).value)
  {
    if command.Update? {
      PlanUpdateSafe(w, actor, id, command, now);
    } else {
      PlanMoveSafe(w, actor, id, command, now);
    }
  }

  // ---- Storing a change ----------------------------------------------------

  /** The world after storing a change with its audit entry, and its incident if any. */
  ghost predicate Changed(w: World, id: string, c: Change, entry: Audit, after: World) {
    && entry.entityID == id && entry.action == c.action
    && after.experiments == w.experiments[id := c.experiment]
    && after.decisions == w.decisions
    && after.audit == w.audit + [entry]
    && after.incidents == w.incidents + if entry.incident.Some? then {entry.incident.value} else {}
  }

  lemma ChangeAudit(w: World, id: string, c: Change, entry: Audit, after: World)
    requires AuditTracks(w) && id in w.experiments && Changed(w, id, c, entry, after)
    requires c.experiment.status in Moves(w.experiments[id].status, c.action)
    ensures AuditTracks(after)
  {
    forall k ensures Trail(after.audit, k) == if k == id then Trail(w.audit, k) + [c.action] else Trail(w.audit, k) {
      TrailNext(w.audit, entry, k);
    }
    PossibleNext(Trail(w.audit, id), c.action, w.experiments[id].status, c.experiment.status);
  }

  lemma ChangeIncidents(w: World, id: string, c: Change, entry: Audit, after: World)
    requires IncidentsOnce(w) && Changed(w, id, c, entry, after)
    requires entry.incident.Some? ==> entry.incident.value !in w.incidents
    ensures IncidentsOnce(after)
  {
  }

  lemma ChangeRecords(w: World, id: string, c: Change, entry: Audit, after: World)
    requires Keyed(w) && AllVersionsSound(w) && id in w.experiments
    requires SafeChange(w, w.experiments[id], c) && Changed(w, id, c, entry, after)
    ensures Keyed(after) && AllVersionsSound(after)
  {
  }

  /** Storing a safe change and logging its action keeps everything. */
  lemma ChangeSound(cfg: Settings, w: World, id: string, c: Change, entry: Audit, after: World)
    requires Sound(cfg, w) && id in w.experiments && SafeChange(w, w.experiments[id], c)
    requires Changed(w, id, c, entry, after)
    requires entry.incident.Some? ==> entry.incident.value !in w.incidents
    ensures Sound(cfg, after)
  {
    ChangeAudit(w, id, c, entry, after);
    ChangeIncidents(w, id, c, entry, after);
    ChangeRecords(w, id, c, entry, after);
    ChangeOneActive(w, id, c, after);
    ChangeSticky(cfg, w, id, c, after);
  }

  lemma ChangeOneActive(w: World, id: string, c: Change, after: World)
    requires Keyed(w) && OneActive(w) && id in w.experiments && SafeChange(w, w.experiments[id], c)
    requires after.experiments == w.experiments[id := c.experiment]
    ensures OneActive(after)
  {
    forall a, b, f | IsActiveFor(after, a, f) && IsActiveFor(after, b, f) ensures a == b {
      if a != id { assert IsActiveFor(w, a, f); }
      if b != id { assert IsActiveFor(w, b, f); }
      if Active(w.experiments[id]) && f == c.experiment.flagKey {
        assert IsActiveFor(w, id, f);
      }
    }
  }

  lemma ChangeSticky(cfg: Settings, w: World, id: string, c: Change, after: World)
    requires Sticky(cfg, w) && id in w.experiments && SafeChange(w, w.experiments[id], c)
    requires after.experiments == w.experiments[id := c.experiment] && after.decisions == w.decisions
    ensures Sticky(cfg, after)
  {
  }

  lemma CreateAudit(w: World, e: Experiment, entry: Audit, after: World)
    requires AuditTracks(w) && e.id !in w.experiments && e.status == Draft
    requires entry.entityID == e.id && entry.action == ExperimentCreated
    requires after.experiments == w.experiments[e.id := e] && after.audit == w.audit + [entry]
    ensures AuditTracks(after)
  {
    forall k ensures Trail(after.audit, k) == if k == e.id then [ExperimentCreated] else Trail(w.audit, k) {
      TrailNext(w.audit, entry, k);
    }
  }

  lemma CreateOneActive(w: World, e: Experiment, after: World)
    requires OneActive(w) && e.id !in w.experiments && e.status == Draft
    requires after.experiments == w.experiments[e.id := e]
    ensures OneActive(after)
  {
    forall a, b, f | IsActiveFor(after, a, f) && IsActiveFor(after, b, f) ensures a == b {
      assert IsActiveFor(w, a, f) && IsActiveFor(w, b, f);
    }
  }

  lemma CreateSticky(cfg: Settings, w: World, e: Experiment, after: World)
    requires Sticky(cfg, w) && e.id !in w.experiments
    requires after.experiments == w.experiments[e.id := e] && after.decisions == w.decisions
    ensures Sticky(cfg, after)
  {
    hide Sticks;
  }

  lemma CreateRecords(cfg: Settings, w: World, e: Experiment, after: World)
    requires Keyed(w) && OneActive(w) && AllVersionsSound(w) && Sticky(cfg, w)
    requires e.id != "" && e.id !in w.experiments && e.status == Draft && VersionsSound(e)
    requires after.experiments == w.experiments[e.id := e] && after.decisions == w.decisions
    ensures Keyed(after) && OneActive(after) && AllVersionsSound(after) && Sticky(cfg, after)
  {
    CreateOneActive(w, e, after);
    CreateSticky(cfg, w, e, after);
    hide OneActive, Sticky, VersionsSound;
  }

  lemma CreateSound(cfg: Settings, w: World, actor: User, input: Experiment, newID: string, now: Time)
    requires Sound(cfg, w) && newID != "" && newID !in w.experiments
    ensures Sound(cfg, Performed(w, PlanCreate(w, actor, input, newID, now), actor.id))
  {
    var plan := PlanCreate(w, actor, input, newID, now);
    if plan.Ok? {
      var e := plan.value.experiment;
      var entry := Audit(newID, ExperimentCreated, actor.id, None);
      var after := Performed(w, plan, actor.id);
      CreateIs(w, actor, input, newID, now, e, after);
      CreateAudit(w, e, entry, after);
      CreateRecords(cfg, w, e, after);
      CreateIncidents(w, entry, after);
      hide PlanCreate, Performed, OneActive, Sticky, AuditTracks, IncidentsOnce, AllVersionsSound, Keyed;
    }
  }

  lemma CreateIs(w: World, actor: User, input: Experiment, newID: string, now: Time, e: Experiment, after: World)
    requires PlanCreate(w, actor, input, newID, now) == Ok(Change(e, ExperimentCreated))
    requires after == Performed(w, Ok(Change(e, ExperimentCreated)), actor.id)
    ensures e.id == newID && e.status == Draft && VersionsSound(e)
    ensures after.experiments == w.experiments[e.id := e] && after.decisions == w.decisions
    ensures after.audit == w.audit + [Audit(newID, ExperimentCreated, actor.id, None)]
    ensures after.incidents == w.incidents
  {
  }

  lemma CreateIncidents(w: World, entry: Audit, after: World)
    requires IncidentsOnce(w) && entry.incident.None?
    requires after.audit == w.audit + [entry] && after.incidents == w.incidents
    ensures IncidentsOnce(after)
  {
  }

  // ---- Deciding ------------------------------------------------------------

  lemma ActiveForIs(w: World, flagKey: string)
    requires Keyed(w)
    ensures ActiveFor(w, flagKey).Some? ==>
      var e := ActiveFor(w, flagKey).value;
      e.id in w.experiments && w.experiments[e.id] == e && IsActiveFor(w, e.id, flagKey)
  {
  }

  /** The candidate flags of a subject are flags of running experiments. */
  lemma {:induction false} CandidatesQualify(cfg: Settings, w: World, subjectID: string, attrs: Targeting.Attributes,
                                             keys: seq<string>)
    ensures forall c :: c in Candidates(cfg, w, subjectID, attrs, keys) ==>
      var active := ActiveFor(w, c.flagKey);
      c.flagKey in keys && active.Some? && c == CandidateOf(cfg, active.value, subjectID, c.flagKey)
      && Qualifies(cfg, active.value, subjectID, attrs)
  {
    if keys != [] {
      var n := |keys| - 1;
      assert keys == keys[..n] + [keys[n]];
      CandidatesQualify(cfg, w, subjectID, attrs, keys[..n]);
    }
  }

  ghost predicate Deserved(cfg: Settings, w: World, d: Decision) {
    d.experimentID != "" ==> d.experimentID in w.experiments && Sticks(cfg, w.experiments[d.experimentID], d)
  }

  lemma {:induction false} DecisionsDeserved(cfg: Settings, w: World, subjectID: string, attrs: Targeting.Attributes,
      all: seq<string>, order: seq<Candidate>, keys: seq<string>, ids: seq<string>, now: Time)
    requires Keyed(w) && |keys| <= |ids| && IsOrder(cfg, w, subjectID, attrs, all, order)
    ensures var ds := Decisions(cfg, w, subjectID, keys, TopKeys(order, cfg.maxSimultaneous), ids, now);
      forall i :: 0 <= i < |ds| ==> ds[i].id == ids[i] && Deserved(cfg, w, ds[i])
  {
    if keys != [] {
      var n := |keys| - 1;
      var key := keys[n];
      var top := TopKeys(order, cfg.maxSimultaneous);
      DecisionsDeserved(cfg, w, subjectID, attrs, all, order, keys[..n], ids, now);
      var before := Decisions(cfg, w, subjectID, keys[..n], top, ids, now);
      var ds := Decisions(cfg, w, subjectID, keys, top, ids, now);
      if key in w.flags {
        var d := DecisionFor(cfg, w, subjectID, key, top, ids[|before|], now);
        DecisionDeserved(cfg, w, subjectID, attrs, all, order, key, ids[|before|], now);
        hide DecisionFor, Deserved, TopKeys, IsOrder;
        assert ds == before + [d];
      } else {
        assert ds == before;
      }
    }
  }

  lemma DecisionDeserved(cfg: Settings, w: World, subjectID: string, attrs: Targeting.Attributes,
      all: seq<string>, order: seq<Candidate>, key: string, id: string, now: Time)
    requires Keyed(w) && key in w.flags && IsOrder(cfg, w, subjectID, attrs, all, order)
    ensures var d := DecisionFor(cfg, w, subjectID, key, TopKeys(order, cfg.maxSimultaneous), id, now);
      d.id == id && Deserved(cfg, w, d)
  {
    ActiveForIs(w, key);
    if key in TopKeys(order, cfg.maxSimultaneous) {
      var c :| c in order[..Min(cfg.maxSimultaneous, |order|)] && c.flagKey == key;
      assert c in order;
      MultisetMembers(order, Candidates(cfg, w, subjectID, attrs, all));
      CandidatesQualify(cfg, w, subjectID, attrs, all);
    }
  }

  lemma {:induction false} PutDecisionsHas(decisions: map<string, Decision>, ds: seq<Decision>, i: nat)
    requires i < |ds| && forall j :: i < j < |ds| ==> ds[j].id != ds[i].id
    ensures ds[i].id in PutDecisions(decisions, ds) && PutDecisions(decisions, ds)[ds[i].id] == ds[i]
  {
    if i < |ds| - 1 {
      PutDecisionsHas(decisions, ds[..|ds| - 1], i);
    }
  }

  lemma {:induction false} PutDecisionsKeeps(decisions: map<string, Decision>, ds: seq<Decision>, id: string)
    requires forall i :: 0 <= i < |ds| ==> ds[i].id != id
    ensures id in PutDecisions(decisions, ds) <==> id in decisions
    ensures id in decisions ==> PutDecisions(decisions, ds)[id] == decisions[id]
  {
    if ds != [] {
      PutDecisionsKeeps(decisions, ds[..|ds| - 1], id);
    }
  }

  lemma PutDecisionsMembers(decisions: map<string, Decision>, ds: seq<Decision>)
    requires forall i, j :: 0 <= i < j < |ds| ==> ds[i].id != ds[j].id
    ensures var after := PutDecisions(decisions, ds);
      && (forall i :: 0 <= i < |ds| ==> ds[i].id in after && after[ds[i].id] == ds[i])
      && (forall id :: id in after ==>
            (exists i :: 0 <= i < |ds| && id == ds[i].id) || (id in decisions && after[id] == decisions[id]))
      && (forall id :: id in decisions && (forall i :: 0 <= i < |ds| ==> ds[i].id != id) ==>
            id in after && after[id] == decisions[id])
  {
    forall i | 0 <= i < |ds|
      ensures ds[i].id in PutDecisions(decisions, ds) && PutDecisions(decisions, ds)[ds[i].id] == ds[i] {
      PutDecisionsHas(decisions, ds, i);
    }
    forall id | forall i :: 0 <= i < |ds| ==> ds[i].id != id
      ensures id in PutDecisions(decisions, ds) <==> id in decisions
      ensures id in decisions ==> PutDecisions(decisions, ds)[id] == decisions[id] {
      PutDecisionsKeeps(decisions, ds, id);
    }
  }

  lemma DecideSound(cfg: Settings, w: World, op: Op)
    requires Sound(cfg, w) && op.Decide? && Enabled(cfg, w, op)
    ensures Sound(cfg, Apply(cfg, w, op))
  {
    var ds := Decisions(cfg, w, op.subjectID, op.keys, TopKeys(op.order, cfg.maxSimultaneous), op.ids, op.now);
    DecisionsDeserved(cfg, w, op.subjectID, op.attrs, op.keys, op.order, op.keys, op.ids, op.now);
    forall i, j | 0 <= i < j < |ds| ensures ds[i].id != ds[j].id {
      assert op.ids[i] != op.ids[j];
    }
    PutDecisionsMembers(w.decisions, ds);
    var after := Apply(cfg, w, op);
    forall id | id in after.decisions
      ensures id != "" && after.decisions[id].id == id && Deserved(cfg, after, after.decisions[id]) {
      if i :| 0 <= i < |ds| && id == ds[i].id {
        assert op.ids[i] in op.ids;
      }
    }
    assert OneActive(after) by {
      forall a, b, f | IsActiveFor(after, a, f) && IsActiveFor(after, b, f) ensures a == b {
        assert IsActiveFor(w, a, f) && IsActiveFor(w, b, f);
      }
    }
  }

  // ---- Guardrails ----------------------------------------------------------

  /** A firing pass is a safe change with a new incident. */
  lemma GuardChange(w: World, path: Path, id: string, at: Time, actuals: seq<real>)
    returns (c: Change, entry: Audit)
    requires Keyed(w) && AllVersionsSound(w) && id in w.experiments && w.experiments[id].status == Running
    requires |w.experiments[id].guardrails| == |actuals|
    requires FirstFiring(w, path, w.experiments[id], at, actuals).Some?
    ensures SafeChange(w, w.experiments[id], c)
    ensures Changed(w, id, c, entry, GuardrailPass(w, path, id, at, actuals))
    ensures entry.incident.Some? && entry.incident.value !in w.incidents
    ensures c.experiment.status == Paused && c.experiment.reviewHistory == w.experiments[id].reviewHistory
  {
    var e := w.experiments[id];
    assert VersionsSound(e);
    var first := FirstFiring(w, path, e, at, actuals).value;
    var key := IncidentKey(path, e.id, e.guardrails[first], at);
    var log := e.guardrailLog + Triggers(e.guardrails, actuals, first + 1, at);
    c := Change(e.(status := Paused, updatedAt := at, guardrailLog := log), GuardrailTriggered);
    entry := Audit(e.id, GuardrailTriggered, "system", Some(key));
    MoveSafe(w, e, c);
  }

  lemma GuardSound(cfg: Settings, w: World, path: Path, id: string, at: Time, actuals: seq<real>)
    requires Sound(cfg, w)
    requires id in w.experiments ==>
      |w.experiments[id].guardrails| == |actuals|
    ensures Sound(cfg, GuardrailPass(w, path, id, at, actuals))
  {
    if id in w.experiments && w.experiments[id].status == Running
      && FirstFiring(w, path, w.experiments[id], at, actuals).Some? {
      var c, entry := GuardChange(w, path, id, at, actuals);
      ChangeSound(cfg, w, id, c, entry, GuardrailPass(w, path, id, at, actuals));
    }
  }

  // ---- Every step, every run -----------------------------------------------

  lemma SameExperiments(cfg: Settings, w: World, after: World)
    requires Sound(cfg, w)
    requires after.experiments == w.experiments && after.audit == w.audit && after.incidents == w.incidents
    requires after.decisions == w.decisions
    ensures Sound(cfg, after)
  {
    forall a, b, f | IsActiveFor(after, a, f) && IsActiveFor(after, b, f) ensures a == b {
      assert IsActiveFor(w, a, f) && IsActiveFor(w, b, f);
    }
  }

  lemma ExposeSound(cfg: Settings, w: World, id: string)
    requires Sound(cfg, w)
    ensures Sound(cfg, w.(decisions := MarkExposed(w.decisions, id)))
  {
    var after := w.(decisions := MarkExposed(w.decisions, id));
    forall a, b, f | IsActiveFor(after, a, f) && IsActiveFor(after, b, f) ensures a == b {
      assert IsActiveFor(w, a, f) && IsActiveFor(w, b, f);
    }
    forall k | k in after.decisions && after.decisions[k].experimentID != ""
      ensures Deserved(cfg, after, after.decisions[k]) {
      assert Deserved(cfg, w, w.decisions[k]);
    }
  }

  lemma ReplayedSound(cfg: Settings, w: World, id: string)
    requires Sound(cfg, w) && id in w.experiments
    ensures Sound(cfg, Logged(w, id, AttributionReplayed, "system"))
  {
    var e := w.experiments[id];
    assert VersionsSound(e);
    var c := Change(e, AttributionReplayed);
    MoveSafe(w, e, c);
    assert w.experiments[id := e] == w.experiments;
    ChangeSound(cfg, w, id, c, Audit(id, AttributionReplayed, "system", None),
      Logged(w, id, AttributionReplayed, "system"));
  }

  lemma PerformSound(cfg: Settings, w: World, actor: User, id: string, command: Command, now: Time)
    requires Sound(cfg, w)
    ensures Sound(cfg, Performed(w, Plan(w, actor, id, command, now), actor.id))
  {
    var plan := Plan(w, actor, id, command, now);
    if plan.Ok? {
      PlanSafe(w, actor, id, command, now);
      ChangeSound(cfg, w, id, plan.value, Audit(id, plan.value.action, actor.id, None),
        Performed(w, plan, actor.id));
    }
  }

  lemma ApplySound(cfg: Settings, w: World, op: Op)
    requires Sound(cfg, w) && Enabled(cfg, w, op)
    ensures Sound(cfg, Apply(cfg, w, op))
  {
    match op
    case PutFlag(_) => SameExperiments(cfg, w, Apply(cfg, w, op));
    case PutUser(_) => SameExperiments(cfg, w, Apply(cfg, w, op));
    case PutPolicy(_) => SameExperiments(cfg, w, Apply(cfg, w, op));
    case Create(actor, input, newID, now) => CreateSound(cfg, w, actor, input, newID, now);
    case Perform(actor, id, command, now) => PerformSound(cfg, w, actor, id, command, now);
    case Decide(_, _, _, _, _, _) => DecideSound(cfg, w, op);
    case Expose(id) => ExposeSound(cfg, w, id);
    case Guard(path, id, at, actuals) => GuardSound(cfg, w, path, id, at, actuals);
    case Replayed(id) => ReplayedSound(cfg, w, id);
  }

  lemma {:induction false} RunSound(cfg: Settings, ops: seq<Op>, w: World)
    requires Run(cfg, ops, w)
    ensures Sound(cfg, w)
  {
    if ops != [] {
      var n := |ops| - 1;
      var before :| Run(cfg, ops[..n], before) && Enabled(cfg, before, ops[n]) && w == Apply(cfg, before, ops[n]);
      RunSound(cfg, ops[..n], before);
      ApplySound(cfg, before, ops[n]);
    }
  }
}
