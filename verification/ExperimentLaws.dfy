/** What users of the experiment service can rely on over whole runs. */
module ExperimentLaws {
  import opened Common
  import opened Assignment
  import opened Selection
  import opened Events
  import opened Experiments
  import opened ExperimentRuns
  import Targeting

  // ---- Stickiness ----------------------------------------------------------

  predicate InSnapshot(s: ExperimentVersion, d: Decision) {
    exists i :: 0 <= i < |s.variants| && s.variants[i].name == d.variantName && s.variants[i].value == d.value
  }

  /** Two decisions of one experiment carry one version, whose snapshot holds the chosen
      variants, and agree when they are about the same subject. */
  predicate Agree(w: World, x: Decision, y: Decision) {
    && x.experimentID in w.experiments
    && var e := w.experiments[x.experimentID];
    && x.configVersion == y.configVersion == e.version
    && 1 <= x.configVersion <= |e.versions| && e.versions[x.configVersion - 1].version == x.configVersion
    && InSnapshot(e.versions[x.configVersion - 1], x) && InSnapshot(e.versions[x.configVersion - 1], y)
    && (x.subjectID == y.subjectID ==> x.variantName == y.variantName && x.value == y.value)
  }

  /** Stickiness: any two decisions ever recorded for an experiment agree. */
  lemma DecisionsStick(cfg: Settings, ops: seq<Op>, w: World, a: string, b: string)
    requires Run(cfg, ops, w) && a in w.decisions && b in w.decisions
    requires w.decisions[a].experimentID == w.decisions[b].experimentID != ""
    ensures Agree(w, w.decisions[a], w.decisions[b])
  {
    RunSound(cfg, ops, w);
    RecordedAgree(cfg, w, a, b);
  }

  lemma RecordedAgree(cfg: Settings, w: World, a: string, b: string)
    requires AllVersionsSound(w) && Sticky(cfg, w) && a in w.decisions && b in w.decisions
    requires w.decisions[a].experimentID == w.decisions[b].experimentID != ""
    ensures Agree(w, w.decisions[a], w.decisions[b])
  {
    RecordedSticks(cfg, w, a);
    RecordedSticks(cfg, w, b);
    var e := w.experiments[w.decisions[a].experimentID];
    SnapshotHolds(cfg, e, w.decisions[a]);
    SnapshotHolds(cfg, e, w.decisions[b]);
    SameVariant(cfg, e, w.decisions[a], w.decisions[b]);
  }

  lemma RecordedSticks(cfg: Settings, w: World, a: string)
    requires AllVersionsSound(w) && Sticky(cfg, w) && a in w.decisions && w.decisions[a].experimentID != ""
    ensures w.decisions[a].experimentID in w.experiments
    ensures VersionsSound(w.experiments[w.decisions[a].experimentID])
    ensures Sticks(cfg, w.experiments[w.decisions[a].experimentID], w.decisions[a])
  {
  }

  lemma SnapshotHolds(cfg: Settings, e: Experiment, x: Decision)
    requires VersionsSound(e) && Sticks(cfg, e, x)
    ensures 1 <= x.configVersion == e.version <= |e.versions|
    ensures e.versions[x.configVersion - 1].version == x.configVersion
    ensures InSnapshot(e.versions[x.configVersion - 1], x)
  {
    var chosen := ChosenIndex(e.variants, Score(Residue(cfg.hash, VariantKey(cfg, e, x.subjectID)), e.audiencePercent));
    var last := e.versions[|e.versions| - 1];
    assert last.variants[chosen].name == x.variantName && last.variants[chosen].value == x.value;
  }

  lemma SameVariant(cfg: Settings, e: Experiment, x: Decision, y: Decision)
    requires ValidConfig(e.audiencePercent, e.variants) && Sticks(cfg, e, x) && Sticks(cfg, e, y)
    ensures x.configVersion == y.configVersion
    ensures x.subjectID == y.subjectID ==> x.variantName == y.variantName && x.value == y.value
  {
  }

  // ---- One step on one experiment -------------------------------------------

  /** Whatever the operation, a stored experiment stays stored, as itself, its snapshots only
      appended to; a launched one stays launched under the same configuration. */
  ghost predicate Persists(w: World, after: World, id: string)
    requires id in w.experiments
  {
    && id in after.experiments
    && var e, f := w.experiments[id], after.experiments[id];
    && SameIdentity(e, f) && e.versions <= f.versions
    && (Launched(e) ==> Launched(f) && SameConfig(e, f))
  }

  /** The operation's audit entries about the experiment explain its status. */
  ghost predicate Explained(w: World, after: World, id: string)
    requires id in w.experiments && id in after.experiments
  {
    var s, t := w.experiments[id].status, after.experiments[id].status;
    var old_, new_ := Trail(w.audit, id), Trail(after.audit, id);
    if new_ == old_ then t == s
    else |new_| == |old_| + 1 && new_[..|old_|] == old_ && t in Moves(s, new_[|old_|])
  }

  lemma ChangeStep(w: World, id: string, c: Change, entry: Audit, after: World, other: string)
    requires Keyed(w) && id in w.experiments && other in w.experiments
    requires SafeChange(w, w.experiments[id], c) && Changed(w, id, c, entry, after)
    ensures Persists(w, after, other) && Explained(w, after, other)
  {
    TrailNext(w.audit, entry, other);
  }

  lemma GuardStep(w: World, path: Path, id: string, at: Time, actuals: seq<real>, other: string)
    requires Keyed(w) && AllVersionsSound(w) && other in w.experiments
    requires id in w.experiments ==>
      |w.experiments[id].guardrails| == |actuals|
    ensures var after := GuardrailPass(w, path, id, at, actuals);
      Persists(w, after, other) && Explained(w, after, other)
  {
    if id in w.experiments && w.experiments[id].status == Running
      && FirstFiring(w, path, w.experiments[id], at, actuals).Some? {
      var c, entry := GuardChange(w, path, id, at, actuals);
      ChangeStep(w, id, c, entry, GuardrailPass(w, path, id, at, actuals), other);
    }
  }

  lemma PerformStep(w: World, actor: User, id: string, command: Command, now: Time, other: string)
    requires Keyed(w) && AllVersionsSound(w) && other in w.experiments
    ensures var after := Performed(w, Plan(w, actor, id, command, now), actor.id);
      Persists(w, after, other) && Explained(w, after, other)
  {
    var plan := Plan(w, actor, id, command, now);
    if plan.Ok? {
      PlanSafe(w, actor, id, command, now);
      ChangeStep(w, id, plan.value, Audit(id, plan.value.action, actor.id, None), Performed(w, plan, actor.id), other);
    }
  }

  lemma CreateStep(w: World, actor: User, input: Experiment, newID: string, now: Time, other: string)
    requires newID !in w.experiments && other in w.experiments
    ensures var after := Performed(w, PlanCreate(w, actor, input, newID, now), actor.id);
      Persists(w, after, other) && Explained(w, after, other)
  {
    TrailNext(w.audit, Audit(newID, ExperimentCreated, actor.id, None), other);
  }

  lemma QuietStep(w: World, after: World, other: string)
    requires other in w.experiments && after.experiments == w.experiments && after.audit == w.audit
    ensures Persists(w, after, other) && Explained(w, after, other)
  {
  }

  lemma ReplayedStep(w: World, id: string, other: string)
    requires other in w.experiments
    ensures var after := Logged(w, id, AttributionReplayed, "system");
      Persists(w, after, other) && Explained(w, after, other)
  {
    TrailNext(w.audit, Audit(id, AttributionReplayed, "system", None), other);
  }

  predicate Quiet(op: Op) {
    op.PutFlag? || op.PutUser? || op.PutPolicy? || op.Decide? || op.Expose?
  }

  lemma QuietOp(cfg: Settings, w: World, op: Op)
    requires Enabled(cfg, w, op) && Quiet(op)
    ensures Apply(cfg, w, op).experiments == w.experiments && Apply(cfg, w, op).audit == w.audit
  {
  }

  lemma StepExplained(cfg: Settings, w: World, op: Op, id: string)
    requires Keyed(w) && AllVersionsSound(w) && Enabled(cfg, w, op) && id in w.experiments
    ensures Persists(w, Apply(cfg, w, op), id) && Explained(w, Apply(cfg, w, op), id)
  {
    if Quiet(op) {
      QuietOp(cfg, w, op);
      QuietStep(w, Apply(cfg, w, op), id);
    } else {
      match op
      case Create(actor, input, newID, now) => CreateStep(w, actor, input, newID, now, id);
      case Perform(actor, k, command, now) => PerformStep(w, actor, k, command, now, id);
      case Guard(path, k, at, actuals) => GuardStep(w, path, k, at, actuals, id);
      case Replayed(k) => ReplayedStep(w, k, id);
    }
  }

  /** Every status change appends one matching audit entry, and nothing else moves a status. */
  lemma EveryStepExplained(cfg: Settings, w: World, op: Op, id: string)
    requires Sound(cfg, w) && Enabled(cfg, w, op) && id in w.experiments
    ensures Persists(w, Apply(cfg, w, op), id) && Explained(w, Apply(cfg, w, op), id)
  {
    StepExplained(cfg, w, op, id);
  }

  lemma {:induction false} RunUnique(cfg: Settings, ops: seq<Op>, v: World, w: World)
    requires Run(cfg, ops, v) && Run(cfg, ops, w)
    ensures v == w
  {
    if ops != [] {
      var n := |ops| - 1;
      var a :| Run(cfg, ops[..n], a) && Enabled(cfg, a, ops[n]) && v == Apply(cfg, a, ops[n]);
      var b :| Run(cfg, ops[..n], b) && Enabled(cfg, b, ops[n]) && w == Apply(cfg, b, ops[n]);
      RunUnique(cfg, ops[..n], a, b);
    }
  }

  lemma PersistsJoin(a: World, b: World, c: World, id: string)
    requires id in a.experiments && Persists(a, b, id) && Persists(b, c, id)
    ensures Persists(a, c, id)
  {
  }

  /** Over any stretch of a run an experiment stays itself, its snapshots are only appended to,
      and once launched it stays launched under the configuration it was launched with. */
  lemma {:induction false} HistoryKept(cfg: Settings, ops: seq<Op>, n: nat, mid: World, end: World, id: string)
    requires n <= |ops| && Run(cfg, ops[..n], mid) && Run(cfg, ops, end) && id in mid.experiments
    ensures Persists(mid, end, id)
  {
    if n == |ops| {
      assert ops[..n] == ops;
      RunUnique(cfg, ops, mid, end);
    } else {
      var m := |ops| - 1;
      var before :| Run(cfg, ops[..m], before) && Enabled(cfg, before, ops[m]) && end == Apply(cfg, before, ops[m]);
      assert ops[..m][..n] == ops[..n];
      HistoryKept(cfg, ops[..m], n, mid, before, id);
      RunSound(cfg, ops[..m], before);
      EveryStepExplained(cfg, before, ops[m], id);
      PersistsJoin(mid, before, end, id);
    }
  }

  /** The decision is still recorded, unchanged but for an exposure. */
  predicate Recorded(w: World, after: World, id: string)
    requires id in w.decisions
  {
    && id in after.decisions
    && after.decisions[id] == w.decisions[id].(exposed := after.decisions[id].exposed)
    && (w.decisions[id].exposed ==> after.decisions[id].exposed)
  }

  lemma DecideKeeps(cfg: Settings, w: World, op: Op, id: string)
    requires Sound(cfg, w) && op.Decide? && Enabled(cfg, w, op) && id in w.decisions
    ensures id in Apply(cfg, w, op).decisions && Apply(cfg, w, op).decisions[id] == w.decisions[id]
  {
    var top := TopKeys(op.order, cfg.maxSimultaneous);
    var ds := Decisions(cfg, w, op.subjectID, op.keys, top, op.ids, op.now);
    DecisionsDeserved(cfg, w, op.subjectID, op.attrs, op.keys, op.order, op.keys, op.ids, op.now);
    forall i | 0 <= i < |ds| ensures ds[i].id != id {
      assert op.ids[i] in op.ids;
    }
    PutDecisionsKeeps(w.decisions, ds, id);
  }

  lemma OthersKeep(cfg: Settings, w: World, op: Op)
    requires Enabled(cfg, w, op) && !op.Decide? && !op.Expose?
    ensures Apply(cfg, w, op).decisions == w.decisions
  {
  }

  /** Decisions are never lost or rewritten: over any stretch of a run only the exposure mark of
      a recorded decision changes, and only from unset to set. */
  lemma {:induction false} DecisionsKept(cfg: Settings, ops: seq<Op>, n: nat, mid: World, end: World, id: string)
    requires n <= |ops| && Run(cfg, ops[..n], mid) && Run(cfg, ops, end) && id in mid.decisions
    ensures Recorded(mid, end, id)
  {
    if n == |ops| {
      assert ops[..n] == ops;
      RunUnique(cfg, ops, mid, end);
    } else {
      var m := |ops| - 1;
      var before :| Run(cfg, ops[..m], before) && Enabled(cfg, before, ops[m]) && end == Apply(cfg, before, ops[m]);
      assert ops[..m][..n] == ops[..n];
      DecisionsKept(cfg, ops[..m], n, mid, before, id);
      RunSound(cfg, ops[..m], before);
      RecordedNext(cfg, before, ops[m], id);
    }
  }

  lemma RecordedNext(cfg: Settings, w: World, op: Op, id: string)
    requires Sound(cfg, w) && Enabled(cfg, w, op) && id in w.decisions
    ensures Recorded(w, Apply(cfg, w, op), id)
  {
    if op.Decide? {
      DecideKeeps(cfg, w, op, id);
    } else if !op.Expose? {
      OthersKeep(cfg, w, op);
    }
  }

  /** Creation is idempotent: once the owner has an experiment of the name, a call with an
      idempotency key creates nothing, ever after. */
  lemma RetryNeverCreates(cfg: Settings, ops: seq<Op>, n: nat, mid: World, end: World, id: string,
                          actor: User, input: Experiment, idemKey: string)
    requires n <= |ops| && Run(cfg, ops[..n], mid) && Run(cfg, ops, end)
    requires Namesake(mid, actor, input, id) && idemKey != ""
    ensures !MayCreate(end, actor, input, idemKey)
  {
    HistoryKept(cfg, ops, n, mid, end, id);
    assert Namesake(end, actor, input, id);
  }

  /** The stored status is always one that the audit log allows; the log leaves at most the
      choice between in_review and approved. */
  lemma AuditRefinesStatus(cfg: Settings, ops: seq<Op>, w: World, id: string)
    requires Run(cfg, ops, w) && id in w.experiments
    ensures var possible := Possible(Trail(w.audit, id));
      && w.experiments[id].status in possible
      && (possible == {w.experiments[id].status} || possible == {InReview, Approved})
  {
    RunSound(cfg, ops, w);
    PossibleSharp(Trail(w.audit, id));
  }

  ghost predicate Sharp(p: set<Status>) {
    p == {} || p == {InReview, Approved} || exists s :: p == {s}
  }

  lemma MovesSharp(s: Status, a: Action)
    ensures Sharp(Moves(s, a))
    ensures s == Approved ==> Sharp(Moves(InReview, a) + Moves(s, a))
  {
    var m := Moves(s, a);
    if m != {} && m != {InReview, Approved} {
      var t :| t in m;
      assert m == {t};
    }
    if s == Approved {
      var n := Moves(InReview, a) + m;
      if n != {} && n != {InReview, Approved} {
        var t :| t in n;
        assert n == {t};
      }
    }
  }

  lemma {:induction false} PossibleSharp(actions: seq<Action>)
    ensures Sharp(Possible(actions))
  {
    if actions == [] {
    } else if actions == [ExperimentCreated] {
      assert Possible(actions) == {Draft};
    } else {
      var n := |actions| - 1;
      PossibleSharp(actions[..n]);
      NextSharp(Possible(actions[..n]), actions[n], Possible(actions));
    }
  }

  lemma NextSharp(p: set<Status>, a: Action, q: set<Status>)
    requires Sharp(p) && q == set s, t | s in p && t in Moves(s, a) :: t
    ensures Sharp(q)
  {
    if p == {InReview, Approved} {
      MovesSharp(Approved, a);
      assert q == Moves(InReview, a) + Moves(Approved, a);
    } else if s :| p == {s} {
      MovesSharp(s, a);
      assert q == Moves(s, a);
    } else {
      assert q == {};
    }
  }

  // ---- Approval ------------------------------------------------------------

  predicate ApprovedOrLaunched(e: Experiment) {
    e.status == Approved || Launched(e)
  }

  /** From `w` to `after` the experiment is either untouched as to approval, or newly approved
      by enough reviewers. */
  ghost predicate ApprovalStep(w: World, after: World, id: string)
    requires id in w.experiments && id in after.experiments
  {
    var e, f := w.experiments[id], after.experiments[id];
    && (ApprovedOrLaunched(f) && ApprovedOrLaunched(e) ==> f.reviewHistory == e.reviewHistory)
    && (ApprovedOrLaunched(f) && !ApprovedOrLaunched(e) ==>
          && e.status == InReview && f.status == Approved
          && |Approvers(f.reviewHistory)| >= RequiredApprovals(w, e.ownerID))
  }

  lemma ReviewStep(w: World, actor: User, id: string, command: Command, now: Time)
    requires Keyed(w) && command.Review? && Plan(w, actor, id, command, now).Ok?
    ensures var c := Plan(w, actor, id, command, now).value;
      id in w.experiments && c.experiment.id == id && ApprovalStep(w, Stored(w, c.experiment), id)
    ensures ApprovedOrLaunched(Plan(w, actor, id, command, now).value.experiment) ==> command.decision == Approve
  {
  }

  lemma OtherStep(w: World, actor: User, id: string, command: Command, now: Time)
    requires Keyed(w) && !command.Review? && Plan(w, actor, id, command, now).Ok?
    ensures var c := Plan(w, actor, id, command, now).value;
      id in w.experiments && c.experiment.id == id
      && c.experiment.reviewHistory == w.experiments[id].reviewHistory
      && (ApprovedOrLaunched(c.experiment) ==> ApprovedOrLaunched(w.experiments[id]))
  {
  }

  lemma PerformApproval(w: World, actor: User, k: string, command: Command, now: Time, id: string)
    requires Keyed(w) && id in w.experiments
    ensures var after := Performed(w, Plan(w, actor, k, command, now), actor.id);
      && id in after.experiments && ApprovalStep(w, after, id)
      && (ApprovedOrLaunched(after.experiments[id]) && !ApprovedOrLaunched(w.experiments[id]) ==>
            k == id && command.Review? && command.decision == Approve)
  {
    var plan := Plan(w, actor, k, command, now);
    if plan.Ok? {
      if command.Review? {
        ReviewStep(w, actor, k, command, now);
      } else {
        OtherStep(w, actor, k, command, now);
      }
    }
  }

  lemma GuardApproval(w: World, path: Path, k: string, at: Time, actuals: seq<real>, id: string)
    requires Keyed(w) && AllVersionsSound(w) && id in w.experiments
    requires k in w.experiments ==>
      |w.experiments[k].guardrails| == |actuals|
    ensures var after := GuardrailPass(w, path, k, at, actuals);
      && id in after.experiments && after.experiments[id].reviewHistory == w.experiments[id].reviewHistory
      && (ApprovedOrLaunched(after.experiments[id]) ==> ApprovedOrLaunched(w.experiments[id]))
  {
    if k in w.experiments && w.experiments[k].status == Running
      && FirstFiring(w, path, w.experiments[k], at, actuals).Some? {
      var c, entry := GuardChange(w, path, k, at, actuals);
    }
  }

  lemma ReviewMatters(cfg: Settings, w: World, op: Op, id: string)
    requires Sound(cfg, w) && Enabled(cfg, w, op)
    requires id in Apply(cfg, w, op).experiments && ApprovedOrLaunched(Apply(cfg, w, op).experiments[id])
    ensures id in w.experiments && ApprovalStep(w, Apply(cfg, w, op), id)
    ensures !ApprovedOrLaunched(w.experiments[id]) ==>
      op.Perform? && op.id == id && op.command.Review? && op.command.decision == Approve
  {
    var after := Apply(cfg, w, op);
    match op
    case Perform(actor, k, command, now) =>
      PerformKeeps(w, actor, k, command, now, id);
      PerformApproval(w, actor, k, command, now, id);
    case Guard(path, k, at, actuals) =>
      GuardKeeps(w, path, k, at, actuals, id);
      GuardApproval(w, path, k, at, actuals, id);
    case Create(actor, input, newID, now) => CreateApproval(w, actor, input, newID, now, id);
    case PutFlag(_) => assert after.experiments == w.experiments;
    case PutUser(_) => assert after.experiments == w.experiments;
    case PutPolicy(_) => assert after.experiments == w.experiments;
    case Decide(_, _, _, _, _, _) => assert after.experiments == w.experiments;
    case Expose(_) => assert after.experiments == w.experiments;
    case Replayed(_) => assert after.experiments == w.experiments;
  }

  lemma PerformKeeps(w: World, actor: User, k: string, command: Command, now: Time, id: string)
    requires Keyed(w) && AllVersionsSound(w)
    requires id in Performed(w, Plan(w, actor, k, command, now), actor.id).experiments
    ensures id in w.experiments
  {
    if Plan(w, actor, k, command, now).Ok? {
      PlanSafe(w, actor, k, command, now);
    }
  }

  lemma GuardKeeps(w: World, path: Path, k: string, at: Time, actuals: seq<real>, id: string)
    requires Keyed(w) && AllVersionsSound(w)
    requires k in w.experiments ==>
      |w.experiments[k].guardrails| == |actuals|
    requires id in GuardrailPass(w, path, k, at, actuals).experiments
    ensures id in w.experiments
  {
  }

  lemma CreateApproval(w: World, actor: User, input: Experiment, newID: string, now: Time, id: string)
    requires newID !in w.experiments
    requires var after := Performed(w, PlanCreate(w, actor, input, newID, now), actor.id);
      id in after.experiments && ApprovedOrLaunched(after.experiments[id])
    ensures id in w.experiments
    ensures Performed(w, PlanCreate(w, actor, input, newID, now), actor.id).experiments[id] == w.experiments[id]
  {
  }

  /** Every approved, running, paused or completed experiment was approved by a review after
      which its present history held at least as many distinct approvers as the policy then
      asked for; the history has not changed since. */
  lemma {:induction false} ApprovalBehind(cfg: Settings, ops: seq<Op>, w: World, id: string)
    returns (n: nat, before: World)
    requires Run(cfg, ops, w) && id in w.experiments && ApprovedOrLaunched(w.experiments[id])
    ensures n < |ops| && Run(cfg, ops[..n], before) && Enabled(cfg, before, ops[n])
    ensures ops[n].Perform? && ops[n].id == id && ops[n].command.Review? && ops[n].command.decision == Approve
    ensures id in before.experiments && before.experiments[id].status == InReview
    ensures id in Apply(cfg, before, ops[n]).experiments
      && Apply(cfg, before, ops[n]).experiments[id].status == Approved
      && Apply(cfg, before, ops[n]).experiments[id].reviewHistory == w.experiments[id].reviewHistory
    ensures |Approvers(w.experiments[id].reviewHistory)|
      >= RequiredApprovals(before, before.experiments[id].ownerID)
  {
    var last := |ops| - 1;
    var previous :| Run(cfg, ops[..last], previous) && Enabled(cfg, previous, ops[last])
      && w == Apply(cfg, previous, ops[last]);
    RunSound(cfg, ops[..last], previous);
    ReviewMatters(cfg, previous, ops[last], id);
    hide Sound, Apply, Approvers, RequiredApprovals, Enabled, Run;
    if ApprovedOrLaunched(previous.experiments[id]) {
      n, before := ApprovalBehind(cfg, ops[..last], previous, id);
      assert ops[..last][..n] == ops[..n];
    } else {
      n, before := last, previous;
    }
  }

  // ---- Participation -------------------------------------------------------

  ghost function CandidateSet(cfg: Settings, w: World, subjectID: string, attrs: Targeting.Attributes,
                              keys: set<string>): set<Candidate>
  {
    set k | k in keys && ActiveFor(w, k).Some? && Qualifies(cfg, ActiveFor(w, k).value, subjectID, attrs)
      :: CandidateOf(cfg, ActiveFor(w, k).value, subjectID, k)
  }

  /** The flags whose experiments the subject takes part in, as a set of flags asked for. */
  ghost function Participating(cfg: Settings, w: World, subjectID: string, attrs: Targeting.Attributes,
                               keys: set<string>): set<string>
  {
    KeysOf(Chosen(CandidateSet(cfg, w, subjectID, attrs, keys), cfg.maxSimultaneous))
  }

  ghost function KeySet(keys: seq<string>): set<string> {
    set k | k in keys
  }

  lemma {:induction false} CandidatesList(cfg: Settings, w: World, subjectID: string, attrs: Targeting.Attributes,
                                          keys: seq<string>)
    requires NoDuplicates(keys)
    ensures Lists(Candidates(cfg, w, subjectID, attrs, keys), CandidateSet(cfg, w, subjectID, attrs, KeySet(keys)))
  {
    if keys != [] {
      var n := |keys| - 1;
      assert keys == keys[..n] + [keys[n]];
      CandidatesList(cfg, w, subjectID, attrs, keys[..n]);
      CandidatesQualify(cfg, w, subjectID, attrs, keys[..n]);
      var before := Candidates(cfg, w, subjectID, attrs, keys[..n]);
      var active := ActiveFor(w, keys[n]);
      assert KeySet(keys) == KeySet(keys[..n]) + {keys[n]};
      if active.Some? && Qualifies(cfg, active.value, subjectID, attrs) {
        NoDuplicatesConcat(before, [CandidateOf(cfg, active.value, subjectID, keys[n])]);
      }
    }
  }

  /** With distinct flags, unless a tie straddles the cut, the experiments used are exactly the
      min(k, n) lowest-scoring candidates. */
  lemma SelectionIsTopK(cfg: Settings, w: World, subjectID: string, attrs: Targeting.Attributes,
                        keys: seq<string>, order: seq<Candidate>)
    requires NoDuplicates(keys) && IsOrder(cfg, w, subjectID, attrs, keys, order)
    requires !CutTied(order, cfg.maxSimultaneous)
    ensures var cs := CandidateSet(cfg, w, subjectID, attrs, KeySet(keys));
      && TopKeys(order, cfg.maxSimultaneous) == Participating(cfg, w, subjectID, attrs, KeySet(keys))
      && |Chosen(cs, cfg.maxSimultaneous)| == Min(cfg.maxSimultaneous, |cs|)
  {
    var cs := CandidateSet(cfg, w, subjectID, attrs, KeySet(keys));
    CandidatesList(cfg, w, subjectID, attrs, keys);
    PermutationLists(Candidates(cfg, w, subjectID, attrs, keys), order, cs);
    FirstKAreChosen(order, cs, cfg.maxSimultaneous);
    assert order[..Min(cfg.maxSimultaneous, |order|)] == order[..Min(cfg.maxSimultaneous, |order|)];
  }

  /** However the sort breaks ties, the same experiments are used if and only if no tie
      straddles the cut. */
  lemma TiesDecideExactly(cfg: Settings, w: World, subjectID: string, attrs: Targeting.Attributes,
                          keys: seq<string>, order: seq<Candidate>)
    requires NoDuplicates(keys) && IsOrder(cfg, w, subjectID, attrs, keys, order)
    ensures var k := cfg.maxSimultaneous;
      (forall other :: IsOrder(cfg, w, subjectID, attrs, keys, other) ==> TopKeys(other, k) == TopKeys(order, k))
      <==> !CutTied(order, k)
  {
    var k := cfg.maxSimultaneous;
    var cs := CandidateSet(cfg, w, subjectID, attrs, KeySet(keys));
    CandidatesList(cfg, w, subjectID, attrs, keys);
    PermutationLists(Candidates(cfg, w, subjectID, attrs, keys), order, cs);
    assert DistinctKeys(cs);
    TiesMatterExactly(order, cs, k);
    forall other ensures IsOrder(cfg, w, subjectID, attrs, keys, other)
      <==> Sorted(other) && multiset(other) == multiset(order) {
    }
  }

  /** Not asking for a flag the subject does not take part in changes nothing. */
  lemma DroppingFlag(cfg: Settings, w: World, subjectID: string, attrs: Targeting.Attributes,
                     keys: set<string>, u: string)
    requires u !in Participating(cfg, w, subjectID, attrs, keys)
    ensures Participating(cfg, w, subjectID, attrs, keys - {u}) == Participating(cfg, w, subjectID, attrs, keys)
  {
    var cs := CandidateSet(cfg, w, subjectID, attrs, keys);
    var rest := CandidateSet(cfg, w, subjectID, attrs, keys - {u});
    if u in keys && ActiveFor(w, u).Some? && Qualifies(cfg, ActiveFor(w, u).value, subjectID, attrs) {
      var c := CandidateOf(cfg, ActiveFor(w, u).value, subjectID, u);
      assert c in cs;
      assert rest == cs - {c};
      DroppingUnchosen(cs, cfg.maxSimultaneous, c);
    } else {
      assert rest == cs;
    }
  }

  lemma KeySetDistinct(cfg: Settings, w: World, subjectID: string, attrs: Targeting.Attributes,
                       keys: seq<string>, order: seq<Candidate>) returns (cs: set<Candidate>)
    requires NoDuplicates(keys) && IsOrder(cfg, w, subjectID, attrs, keys, order)
    ensures cs == CandidateSet(cfg, w, subjectID, attrs, KeySet(keys))
    ensures Lists(order, cs) && DistinctKeys(cs) && forall c :: c in cs ==> c.flagKey in keys
  {
    cs := CandidateSet(cfg, w, subjectID, attrs, KeySet(keys));
    CandidatesList(cfg, w, subjectID, attrs, keys);
    PermutationLists(Candidates(cfg, w, subjectID, attrs, keys), order, cs);
  }

  /** One more flag brings at most one more candidate. */
  lemma OneMoreFlag(cfg: Settings, w: World, subjectID: string, attrs: Targeting.Attributes, keys: seq<string>,
                    a: string) returns (c: Option<Candidate>)
    ensures Candidates(cfg, w, subjectID, attrs, keys + [a])
      == Candidates(cfg, w, subjectID, attrs, keys) + (if c.Some? then [c.value] else [])
    ensures c.Some? ==> c.value.flagKey == a
    ensures c.Some? ==> FlagBusy(w, a)
  {
    var more := keys + [a];
    assert more[..|more| - 1] == keys && more[|more| - 1] == a;
    var active := ActiveFor(w, a);
    c := if active.Some? && Qualifies(cfg, active.value, subjectID, attrs)
         then Some(CandidateOf(cfg, active.value, subjectID, a)) else None;
  }

  /** Unless a tie straddles the cut, asking for one more flag displaces at most one experiment
      and lets in no other, however the two sorts break ties. */
  lemma AddingFlag(cfg: Settings, w: World, subjectID: string, attrs: Targeting.Attributes, keys: seq<string>,
                   order: seq<Candidate>, a: string, later: seq<Candidate>)
    requires NoDuplicates(keys) && IsOrder(cfg, w, subjectID, attrs, keys, order) && a !in keys
    requires IsOrder(cfg, w, subjectID, attrs, keys + [a], later) && !CutTied(order, cfg.maxSimultaneous)
    ensures Steady(order, later, a, cfg.maxSimultaneous)
  {
    var k := cfg.maxSimultaneous;
    var cs := KeySetDistinct(cfg, w, subjectID, attrs, keys, order);
    var c := OneMoreFlag(cfg, w, subjectID, attrs, keys, a);
    hide IsOrder, Candidates, CandidateSet;
    if c.None? {
      assert multiset(later) == multiset(order) && Sorted(later) by {
        OrderOf(cfg, w, subjectID, attrs, keys, order);
        OrderOf(cfg, w, subjectID, attrs, keys + [a], later);
      }
      PermutationLists(order, later, cs);
      OrderOf(cfg, w, subjectID, attrs, keys, order);
      SameTop(order, later, cs, k);
      assert TopKeys(order, k) - TopKeys(later, k) == {};
    } else {
      OrderOf(cfg, w, subjectID, attrs, keys, order);
      OrderOf(cfg, w, subjectID, attrs, keys + [a], later);
      OneMoreListed(order, cs, c.value, later);
      AddingOne(order, cs, k, c.value, later);
    }
  }

  lemma OrderOf(cfg: Settings, w: World, subjectID: string, attrs: Targeting.Attributes, keys: seq<string>,
                order: seq<Candidate>)
    ensures IsOrder(cfg, w, subjectID, attrs, keys, order) <==>
      Sorted(order) && multiset(order) == multiset(Candidates(cfg, w, subjectID, attrs, keys))
  {
  }

  lemma OneMoreListed(order: seq<Candidate>, cs: set<Candidate>, c: Candidate, later: seq<Candidate>)
    requires Lists(order, cs) && Sorted(later) && (forall d :: d in cs ==> d.flagKey != c.flagKey)
    requires multiset(later) == multiset(order) + multiset{c}
    ensures Adds(cs, c, later)
  {
    NoDuplicatesConcat(order, [c]);
    assert multiset(order + [c]) == multiset(later);
    PermutationLists(order + [c], later, cs + {c});
  }

  /** Asking for one more flag, whichever it is and however the sorts break ties, displaces at
      most one experiment and lets in no other, if and only if no tie straddles the cut. */
  lemma AddingFlagExactly(cfg: Settings, w: World, subjectID: string, attrs: Targeting.Attributes, keys: seq<string>,
                          order: seq<Candidate>)
    requires NoDuplicates(keys) && IsOrder(cfg, w, subjectID, attrs, keys, order)
    ensures (forall a, later :: a !in keys && IsOrder(cfg, w, subjectID, attrs, keys + [a], later) ==>
               Steady(order, later, a, cfg.maxSimultaneous))
      <==> !CutTied(order, cfg.maxSimultaneous)
  {
    var k := cfg.maxSimultaneous;
    if CutTied(order, k) {
      var a, later := IdleFlag(cfg, w, subjectID, attrs, keys, order);
    } else {
      forall a, later | a !in keys && IsOrder(cfg, w, subjectID, attrs, keys + [a], later)
        ensures Steady(order, later, a, k) {
        AddingFlag(cfg, w, subjectID, attrs, keys, order, a, later);
      }
    }
  }

  /** A flag without an experiment already lets the sort break the tie anew. */
  lemma IdleFlag(cfg: Settings, w: World, subjectID: string, attrs: Targeting.Attributes, keys: seq<string>,
                 order: seq<Candidate>) returns (a: string, later: seq<Candidate>)
    requires NoDuplicates(keys) && IsOrder(cfg, w, subjectID, attrs, keys, order)
    requires CutTied(order, cfg.maxSimultaneous)
    ensures a !in keys && IsOrder(cfg, w, subjectID, attrs, keys + [a], later)
    ensures !Steady(order, later, a, cfg.maxSimultaneous)
  {
    var k := cfg.maxSimultaneous;
    var used := (set f | f in keys) + (set id | id in w.experiments :: w.experiments[id].flagKey);
    a := FreshString(used);
    assert !FlagBusy(w, a) by {
      forall id ensures !IsActiveFor(w, id, a) {
        assert id in w.experiments ==> w.experiments[id].flagKey in used;
      }
    }
    var c := OneMoreFlag(cfg, w, subjectID, attrs, keys, a);
    var cs := KeySetDistinct(cfg, w, subjectID, attrs, keys, order);
    later := Swapped(order, k) + [];
    hide IsOrder, Candidates, CandidateSet;
    OrderOf(cfg, w, subjectID, attrs, keys, order);
    OrderOf(cfg, w, subjectID, attrs, keys + [a], later);
    assert order[k] in order;
    SwapMatters(order, cs, k);
    assert later == Swapped(order, k);
    SwappedUnsteady(order, cs, k, [], a);
  }

  /** When the flag asked for last was not selected, asking for the others alone uses the same
      experiments under every sort, if and only if no tie straddles the cut that remains. */
  lemma DroppingFlagExactly(cfg: Settings, w: World, subjectID: string, attrs: Targeting.Attributes,
                            keys: seq<string>, u: string, order: seq<Candidate>, i: nat)
    requires NoDuplicates(keys + [u]) && IsOrder(cfg, w, subjectID, attrs, keys + [u], order)
    requires cfg.maxSimultaneous <= i < |order| && order[i].flagKey == u
    ensures var k := cfg.maxSimultaneous;
      (forall later :: IsOrder(cfg, w, subjectID, attrs, keys, later) ==> TopKeys(later, k) == TopKeys(order, k))
      <==> !CutTied(Without(order, i), k)
  {
    var k := cfg.maxSimultaneous;
    var cs := KeySetDistinct(cfg, w, subjectID, attrs, keys + [u], order);
    var c := OneMoreFlag(cfg, w, subjectID, attrs, keys, u);
    OrderOf(cfg, w, subjectID, attrs, keys + [u], order);
    NotYetAsked(cfg, w, subjectID, attrs, keys, u);
    DroppedRest(order, Candidates(cfg, w, subjectID, attrs, keys), c, u, i);
    DroppingOneExactly(order, cs, k, i);
    forall later ensures IsOrder(cfg, w, subjectID, attrs, keys, later)
      <==> Sorted(later) && multiset(later) == multiset(Without(order, i)) {
      OrderOf(cfg, w, subjectID, attrs, keys, later);
    }
  }

  lemma NotYetAsked(cfg: Settings, w: World, subjectID: string, attrs: Targeting.Attributes, keys: seq<string>,
                    u: string)
    requires NoDuplicates(keys + [u])
    ensures forall c :: c in Candidates(cfg, w, subjectID, attrs, keys) ==> c.flagKey != u
  {
    assert NoDuplicates(keys) by {
      assert forall i :: 0 <= i < |keys| ==> keys[i] == (keys + [u])[i];
    }
    assert u !in keys by {
      assert (keys + [u])[|keys|] == u;
      assert forall i :: 0 <= i < |keys| ==> keys[i] == (keys + [u])[i];
    }
    CandidatesList(cfg, w, subjectID, attrs, keys);
  }

  lemma DroppedRest(order: seq<Candidate>, rest: seq<Candidate>, c: Option<Candidate>, u: string, i: nat)
    requires i < |order| && order[i].flagKey == u && forall d :: d in rest ==> d.flagKey != u
    requires multiset(order) == multiset(rest + if c.Some? then [c.value] else [])
    ensures multiset(Without(order, i)) == multiset(rest)
  {
    var all := rest + if c.Some? then [c.value] else [];
    MultisetMembers(order, all);
    assert order[i] in all && order[i] !in rest;
    assert c == Some(order[i]);
    WithoutBag(order, i);
    assert multiset(all) == multiset(rest) + multiset{order[i]};
    BagCancel(multiset(Without(order, i)), multiset(rest), order[i]);
  }

  ghost function KeysOf(cs: set<Candidate>): set<string> {
    set c | c in cs :: c.flagKey
  }

  function KnownKeys(w: World, keys: seq<string>): seq<string> {
    if keys == [] then []
    else KnownKeys(w, keys[..|keys| - 1]) + if keys[|keys| - 1] in w.flags then [keys[|keys| - 1]] else []
  }

  /** One decision per known flag, in request order; a decision is inside an experiment exactly
      when its flag was selected. */
  lemma {:induction false} DecisionsAnswerKeys(cfg: Settings, w: World, subjectID: string, attrs: Targeting.Attributes,
      all: seq<string>, order: seq<Candidate>, keys: seq<string>, ids: seq<string>, now: Time)
    requires Sound(cfg, w) && |keys| <= |ids| && IsOrder(cfg, w, subjectID, attrs, all, order)
    ensures var top := TopKeys(order, cfg.maxSimultaneous);
      var ds := Decisions(cfg, w, subjectID, keys, top, ids, now);
      && |ds| == |KnownKeys(w, keys)|
      && forall i :: 0 <= i < |ds| ==>
        ds[i].flagKey == KnownKeys(w, keys)[i] && ds[i].subjectID == subjectID
        && (ds[i].experimentID != "" <==> ds[i].flagKey in top)
  {
    if keys != [] {
      var n := |keys| - 1;
      var key, top := keys[n], TopKeys(order, cfg.maxSimultaneous);
      DecisionsAnswerKeys(cfg, w, subjectID, attrs, all, order, keys[..n], ids, now);
      if key in w.flags {
        var before := Decisions(cfg, w, subjectID, keys[..n], top, ids, now);
        DecisionParticipates(cfg, w, subjectID, attrs, all, order, key, ids[|before|], now);
      }
    }
  }

  lemma DecisionParticipates(cfg: Settings, w: World, subjectID: string, attrs: Targeting.Attributes,
      all: seq<string>, order: seq<Candidate>, key: string, id: string, now: Time)
    requires Sound(cfg, w) && key in w.flags && IsOrder(cfg, w, subjectID, attrs, all, order)
    ensures var top := TopKeys(order, cfg.maxSimultaneous);
      var d := DecisionFor(cfg, w, subjectID, key, top, id, now);
      d.flagKey == key && d.subjectID == subjectID && (d.experimentID != "" <==> key in top)
  {
    if key in TopKeys(order, cfg.maxSimultaneous) {
      TopKeyActive(cfg, w, subjectID, attrs, all, order, key);
      DecisionFilled(cfg, DefaultDecision(w.flags[key], subjectID, key, id, now), ActiveFor(w, key).value);
    }
    hide Sound, IsOrder, TopKeys, DecisionIn, VersionsSound;
  }

  lemma TopKeyActive(cfg: Settings, w: World, subjectID: string, attrs: Targeting.Attributes,
      all: seq<string>, order: seq<Candidate>, key: string)
    requires Sound(cfg, w) && IsOrder(cfg, w, subjectID, attrs, all, order)
    requires key in TopKeys(order, cfg.maxSimultaneous)
    ensures ActiveFor(w, key).Some? && ActiveFor(w, key).value.id != ""
    ensures VersionsSound(ActiveFor(w, key).value)
  {
    var c :| c in order[..Min(cfg.maxSimultaneous, |order|)] && c.flagKey == key;
    assert c in order;
    MultisetMembers(order, Candidates(cfg, w, subjectID, attrs, all));
    CandidatesQualify(cfg, w, subjectID, attrs, all);
    ActiveForIs(w, key);
  }

  lemma DecisionFilled(cfg: Settings, base: Decision, e: Experiment)
    requires VersionsSound(e) && e.id != ""
    ensures var d := DecisionIn(cfg, base, e);
      d.experimentID == e.id && d.flagKey == base.flagKey && d.subjectID == base.subjectID
  {
  }

  // ---- One active experiment per flag ---------------------------------------

  /** In every reachable state the lookup of a flag's active experiment has one answer,
      whatever order the map is walked in. */
  lemma ActiveLookupDeterministic(cfg: Settings, ops: seq<Op>, w: World, a: string, b: string, flagKey: string)
    requires Run(cfg, ops, w) && IsActiveFor(w, a, flagKey) && IsActiveFor(w, b, flagKey)
    ensures a == b && ActiveFor(w, flagKey) == Some(w.experiments[a])
  {
    RunSound(cfg, ops, w);
    ActiveForIs(w, flagKey);
  }

  // ---- Guardrails ----------------------------------------------------------

  /** No incident is ever reported twice, by either path. */
  lemma IncidentsAtMostOnce(cfg: Settings, ops: seq<Op>, w: World, i: nat, j: nat)
    requires Run(cfg, ops, w) && i < j < |w.audit| && w.audit[i].incident.Some?
    ensures w.audit[i].incident != w.audit[j].incident
    ensures w.audit[i].incident.value in w.incidents
  {
    RunSound(cfg, ops, w);
  }

  /** An incident key determines the bucket in it. */
  lemma KeyDeterminesBucket(p: Path, q: Path, experimentID: string, rule: GuardrailRule, at: Time, other: Time)
    requires Divisible(p, rule) && Divisible(q, rule)
    ensures IncidentKey(p, experimentID, rule, at) == IncidentKey(q, experimentID, rule, other)
      <==> IncidentBucket(p, rule, at) == IncidentBucket(q, rule, other)
  {
    var prefix := experimentID + "|" + rule.metricKey + "|" + rule.action + "|";
    var x, y := Decimal(IncidentBucket(p, rule, at)), Decimal(IncidentBucket(q, rule, other));
    if prefix + x == prefix + y {
      assert x == (prefix + x)[|prefix|..] == (prefix + y)[|prefix|..] == y;
      DecimalInjective(IncidentBucket(p, rule, at), IncidentBucket(q, rule, other));
    }
  }

  /** A worker and the scan name an incident alike exactly when the rule's window is positive,
      except at the epoch, where any window gives bucket zero. */
  lemma PathsAgreeOnKeys(experimentID: string, rule: GuardrailRule, at: Time)
    requires rule.windowSeconds != 0
    ensures IncidentKey(Worker, experimentID, rule, at) == IncidentKey(Scan, experimentID, rule, at)
      <==> rule.windowSeconds >= 1 || Unix(at) == 0
  {
    KeyDeterminesBucket(Worker, Scan, experimentID, rule, at, at);
    var w, u := rule.windowSeconds, Unix(at);
    if w >= 1 {
      assert Max(w, 1) == w;
    } else {
      assert IncidentBucket(Worker, rule, at) == u;
      NegativeDivision(u, w);
    }
  }

  lemma NegativeDivision(u: int, w: int)
    requires w < 0
    ensures TruncDiv(u, w) == u <==> u == 0
  {
    if u > 0 {
      assert u == w * (u / w) + u % w;
    } else if u < 0 {
      assert -u == w * (-u / w) + (-u) % w;
    }
  }

  /** A pass over a running experiment stores a pause if and only if some breaching pause rule
      has an unused incident and no crash comes before it; it uses the first such rule's
      incident and reports it once. The guardrail log also receives the breaching rules passed
      over before it. */
  lemma PassPausesExactly(w: World, path: Path, id: string, at: Time, actuals: seq<real>)
    requires Keyed(w) && id in w.experiments && w.experiments[id].status == Running
    requires |w.experiments[id].guardrails| == |actuals|
    ensures var e := w.experiments[id];
      var after := GuardrailPass(w, path, id, at, actuals);
      && (after.experiments[id].status == Paused <==>
            exists i :: 0 <= i < |actuals| && Fires(w, path, e, i, at, actuals) && NoCrashBefore(path, e, i, actuals))
      && (after.experiments[id].status != Paused ==> after == w)
      && (after.experiments[id].status == Paused ==>
            exists i :: 0 <= i < |actuals| && FirstFired(w, path, e, i, at, actuals, after))
  {
    var e := w.experiments[id];
    var first := FirstEnding(w, path, e, 0, at, actuals);
    FiringExactly(w, path, e, at, actuals);
    if first.Some? && Fires(w, path, e, first.value, at, actuals) {
      BeforeEnding(w, path, e, first.value, at, actuals);
      assert FirstFired(w, path, e, first.value, at, actuals, GuardrailPass(w, path, id, at, actuals));
    }
  }

  lemma FiringExactly(w: World, path: Path, e: Experiment, at: Time, actuals: seq<real>)
    requires |e.guardrails| == |actuals|
    ensures FirstFiring(w, path, e, at, actuals).Some? <==>
      exists i :: 0 <= i < |actuals| && Fires(w, path, e, i, at, actuals) && NoCrashBefore(path, e, i, actuals)
  {
    var first := FirstEnding(w, path, e, 0, at, actuals);
    if first.Some? {
      BeforeEnding(w, path, e, first.value, at, actuals);
    }
    forall i | 0 <= i < |actuals| && Fires(w, path, e, i, at, actuals) && NoCrashBefore(path, e, i, actuals)
      ensures FirstFiring(w, path, e, at, actuals).Some? {
      assert Ends(w, path, e, i, at, actuals);
    }
  }

  predicate NoCrashBefore(path: Path, e: Experiment, i: nat, actuals: seq<real>)
    requires i <= |e.guardrails| == |actuals|
  {
    forall j :: 0 <= j < i ==> !Crashes(path, e, j, actuals)
  }

  ghost predicate FirstFired(w: World, path: Path, e: Experiment, i: nat, at: Time, actuals: seq<real>, after: World)
    requires i < |e.guardrails| == |actuals|
  {
    && Fires(w, path, e, i, at, actuals)
    && (forall j :: 0 <= j < i ==> !Fires(w, path, e, j, at, actuals))
    && after.incidents - w.incidents == {IncidentKey(path, e.id, e.guardrails[i], at)}
    && after.audit == w.audit
       + [Audit(e.id, GuardrailTriggered, "system", Some(IncidentKey(path, e.id, e.guardrails[i], at)))]
    && e.id in after.experiments
    && after.experiments[e.id].guardrailLog == e.guardrailLog + Triggers(e.guardrails, actuals, i + 1, at)
  }
}
