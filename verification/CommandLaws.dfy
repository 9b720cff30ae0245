/** When a lifecycle command succeeds and what it does then: who may do what to which experiment,
    who stands behind its reviews, and that every draft can be brought to its end. */
module CommandLaws {
  import opened Common
  import opened Assignment
  import opened Experiments
  import opened ExperimentRuns
  import opened ExperimentLaws
  import ServiceRuns

  // ---- Permission ----------------------------------------------------------

  /** The statuses a command starts from. */
  function From(command: Command): set<Status> {
    match command
    case Submit => {Draft, StatusRejected}
    case Review(_, _) => {InReview}
    case Start => {Approved}
    case Pause => {Running}
    case Resume => {Paused}
    case Complete(_) => {Running, Paused}
    case Update(_) => {Draft}
  }

  /** An administrator; or an approver whom the owner's policy names, or any known user with the
      right to approve when the owner has no effective policy. */
  ghost predicate MayReview(w: World, ownerID: string, actor: User) {
    || actor.role == Admin
    || (&& actor.role == Approver
        && if ownerID in w.policies && w.policies[ownerID].minApprovals >= 1
           then actor.id in w.policies[ownerID].approverIDs
           else exists k :: k in w.users && w.users[k].id == actor.id && w.users[k].role in {Admin, Approver})
  }

  ghost predicate MayCommand(w: World, actor: User, e: Experiment, command: Command) {
    match command
    case Submit => actor.role == Admin || actor.id == e.ownerID
    case Review(_, _) => MayReview(w, e.ownerID, actor)
    case Update(_) => actor.role == Admin || (actor.role == Experimenter && actor.id == e.ownerID)
    case _ => actor.role == Admin || actor.role == Experimenter
  }

  /** What a command asks for beside permission and status. */
  ghost predicate Sensible(w: World, e: Experiment, command: Command) {
    match command
    case Review(decision, _) => decision in {Approve, RequestChanges, Reject}
    case Start => forall k :: k in w.experiments && w.experiments[k].flagKey == e.flagKey ==>
      w.experiments[k].status !in {Running, Paused}
    case Update(config) => ValidConfig(config.audiencePercent, config.variants)
    case _ => true
  }

  ghost predicate Permitted(w: World, actor: User, id: string, command: Command) {
    && id in w.experiments && w.experiments[id].status in From(command)
    && MayCommand(w, actor, w.experiments[id], command) && Sensible(w, w.experiments[id], command)
  }

  lemma FreeExactly(w: World, flagKey: string)
    ensures !FlagBusy(w, flagKey) <==>
      forall k :: k in w.experiments && w.experiments[k].flagKey == flagKey ==>
        w.experiments[k].status !in {Running, Paused}
  {
    forall k | k in w.experiments && w.experiments[k].flagKey == flagKey
      ensures IsActiveFor(w, k, flagKey) <==> w.experiments[k].status in {Running, Paused} {
    }
  }

  lemma ReviewersExactly(w: World, ownerID: string, actor: User)
    ensures MayReview(w, ownerID, actor) <==>
      (actor.role == Approver || actor.role == Admin) && (CanApprove(w, ownerID, actor.id) || actor.role == Admin)
  {
  }

  /** A command succeeds if and only if it is permitted. */
  lemma SucceedsExactly(w: World, actor: User, id: string, command: Command, now: Time)
    ensures Plan(w, actor, id, command, now).Ok? <==> Permitted(w, actor, id, command)
  {
    if id in w.experiments {
      FreeExactly(w, w.experiments[id].flagKey);
      ReviewersExactly(w, w.experiments[id].ownerID, actor);
    }
    hide FlagBusy, CanApprove, MayReview, Approvers, RequiredApprovals, ValidConfig;
  }

  /** A refusal names a requirement that fails, and changes nothing. */
  lemma RefusalTrue(w: World, actor: User, id: string, command: Command, now: Time)
    requires Plan(w, actor, id, command, now).Err?
    ensures Performed(w, Plan(w, actor, id, command, now), actor.id) == w
    ensures match Plan(w, actor, id, command, now).error
      case NotFound => id !in w.experiments
      case WrongStatus => id in w.experiments && w.experiments[id].status !in From(command)
      case Forbidden => id in w.experiments ==> !MayCommand(w, actor, w.experiments[id], command)
      case FlagInUse | BadConfig | UnknownDecision =>
        id in w.experiments && !Sensible(w, w.experiments[id], command)
      case _ => false
  {
    if id in w.experiments {
      FreeExactly(w, w.experiments[id].flagKey);
      ReviewersExactly(w, w.experiments[id].ownerID, actor);
    }
    hide FlagBusy, CanApprove, MayReview, Approvers, RequiredApprovals, ValidConfig;
  }

  // ---- Effect --------------------------------------------------------------

  /** The reviewer approved at least once. */
  predicate Endorsed(history: seq<ReviewEntry>, reviewerID: string) {
    exists i :: 0 <= i < |history| && history[i].decision == Approve && history[i].reviewerID == reviewerID
  }

  /** As many different reviewers approved as the owner's policy asks for, and at least one. */
  ghost predicate EnoughApprovals(w: World, ownerID: string, history: seq<ReviewEntry>) {
    exists reviewers: set<string> ::
      && (forall r :: r in reviewers ==> Endorsed(history, r))
      && |reviewers| >= 1 && (ownerID in w.policies ==> |reviewers| >= w.policies[ownerID].minApprovals)
  }

  lemma EnoughExactly(w: World, ownerID: string, history: seq<ReviewEntry>)
    ensures EnoughApprovals(w, ownerID, history) <==> |Approvers(history)| >= RequiredApprovals(w, ownerID)
  {
    var all := Approvers(history);
    forall r ensures r in all <==> Endorsed(history, r) {
      if Endorsed(history, r) {
        var i :| 0 <= i < |history| && history[i].decision == Approve && history[i].reviewerID == r;
        assert history[i] in history;
      }
    }
    hide Approvers, Endorsed;
    forall reviewers: set<string> | forall r :: r in reviewers ==> Endorsed(history, r)
      ensures |reviewers| <= |all| {
      SubsetSize(reviewers, all);
    }
  }

  /** The status a command leads to. */
  ghost function To(w: World, e: Experiment, command: Command, history: seq<ReviewEntry>): Status {
    match command
    case Submit => InReview
    case Review(decision, _) =>
      (match decision
       case RequestChanges => Draft
       case Reject => StatusRejected
       case Approve => if EnoughApprovals(w, e.ownerID, history) then Approved else InReview
       case OtherDecision(_) => e.status)
    case Start => Running
    case Pause => Paused
    case Resume => Running
    case Complete(_) => Completed
    case Update(_) => Draft
  }

  /** A new configuration is the next version, with a snapshot of it; otherwise it stays. */
  ghost predicate Configured(e: Experiment, f: Experiment, author: string, command: Command, now: Time) {
    if command.Update? then
      var c := command.config;
      && f.version == e.version + 1 && f.guardrails == c.guardrails
      && f.audiencePercent == c.audiencePercent && f.variants == c.variants && f.targeting == c.targeting
      && f.versions == e.versions
         + [ExperimentVersion(e.version + 1, c.audiencePercent, c.variants, c.targeting, now, author)]
    else
      SameConfig(e, f) && f.guardrails == e.guardrails && f.versions == e.versions
  }

  /** What the command makes of the experiment. */
  ghost predicate Becomes(w: World, e: Experiment, f: Experiment, actor: User, command: Command, now: Time) {
    && SameIdentity(e, f) && f.updatedAt == now && f.guardrailLog == e.guardrailLog
    && f.reviewHistory == e.reviewHistory
       + (if command.Review? then [ReviewEntry(e.id, actor.id, command.decision, command.comment, now)] else [])
    && f.status == To(w, e, command, f.reviewHistory)
    && f.decisionComment == (if command.Complete? then command.comment else e.decisionComment)
    && Configured(e, f, actor.id, command, now)
  }

  /** The name the audit log gives a command. */
  function Named(command: Command): Action {
    match command
    case Submit => SentToReview
    case Review(decision, _) =>
      (match decision
       case RequestChanges => ReviewRequestedChanges
       case Reject => ReviewRejected
       case _ => ReviewApproved)
    case Start => ExperimentStarted
    case Pause => ExperimentPaused
    case Resume => ExperimentResumed
    case Complete(_) => ExperimentCompleted
    case Update(_) => ConfigUpdated
  }

  lemma ReviewBecomes(w: World, actor: User, id: string, command: Command, now: Time)
    requires Keyed(w) && command.Review? && Plan(w, actor, id, command, now).Ok?
    ensures id in w.experiments
    ensures var c := Plan(w, actor, id, command, now).value;
      c.action == Named(command) && Becomes(w, w.experiments[id], c.experiment, actor, command, now)
  {
    var e := w.experiments[id];
    EnoughExactly(w, e.ownerID,
      e.reviewHistory + [ReviewEntry(e.id, actor.id, command.decision, command.comment, now)]);
    hide EnoughApprovals, CanApprove, Approvers, RequiredApprovals;
  }

  lemma UpdateBecomes(w: World, actor: User, id: string, command: Command, now: Time)
    requires Keyed(w) && command.Update? && Plan(w, actor, id, command, now).Ok?
    ensures id in w.experiments
    ensures var c := Plan(w, actor, id, command, now).value;
      c.action == Named(command) && Becomes(w, w.experiments[id], c.experiment, actor, command, now)
  {
    hide ValidConfig;
  }

  lemma OtherBecomes(w: World, actor: User, id: string, command: Command, now: Time)
    requires Keyed(w) && !command.Review? && !command.Update? && Plan(w, actor, id, command, now).Ok?
    ensures id in w.experiments
    ensures var c := Plan(w, actor, id, command, now).value;
      c.action == Named(command) && Becomes(w, w.experiments[id], c.experiment, actor, command, now)
  {
    hide FlagBusy, ValidConfig;
  }

  lemma PlanBecomes(w: World, actor: User, id: string, command: Command, now: Time)
    requires Keyed(w) && Plan(w, actor, id, command, now).Ok?
    ensures id in w.experiments
    ensures var c := Plan(w, actor, id, command, now).value;
      c.action == Named(command) && Becomes(w, w.experiments[id], c.experiment, actor, command, now)
  {
    hide Plan, Becomes, Named;
    if command.Review? {
      ReviewBecomes(w, actor, id, command, now);
    } else if command.Update? {
      UpdateBecomes(w, actor, id, command, now);
    } else {
      OtherBecomes(w, actor, id, command, now);
    }
  }

  /** A permitted command changes its one experiment as its name says, and appends one audit entry
      in the name of its actor; nothing else changes. */
  lemma PermittedDoes(w: World, actor: User, id: string, command: Command, now: Time)
    requires Keyed(w) && Permitted(w, actor, id, command)
    ensures var after := Performed(w, Plan(w, actor, id, command, now), actor.id);
      && id in after.experiments && Becomes(w, w.experiments[id], after.experiments[id], actor, command, now)
      && after == w.(experiments := w.experiments[id := after.experiments[id]],
                     audit := w.audit + [Audit(id, Named(command), actor.id, None)])
  {
    SucceedsExactly(w, actor, id, command, now);
    PlanBecomes(w, actor, id, command, now);
    hide Plan, Permitted, To, Configured, Named;
  }

  // ---- Creation ------------------------------------------------------------

  /** A creation is carried out if and only if the actor may, the flag exists and the
      configuration is valid; the experiment is then the actor's, a draft at version 1. */
  lemma CreatesExactly(w: World, actor: User, input: Experiment, newID: string, now: Time)
    ensures PlanCreate(w, actor, input, newID, now).Ok? <==>
      && (actor.role == Admin || actor.role == Experimenter)
      && input.flagKey in w.flags && ValidConfig(input.audiencePercent, input.variants)
    ensures PlanCreate(w, actor, input, newID, now).Ok? ==>
      var after := Performed(w, PlanCreate(w, actor, input, newID, now), actor.id);
      && newID in after.experiments
      && var e := after.experiments[newID];
      && e.id == newID && e.ownerID == actor.id && e.status == Draft && e.version == 1
      && e.flagKey == input.flagKey && e.name == input.name && e.guardrails == input.guardrails
      && SameConfig(e, input.(version := 1))
      && e.versions == [ExperimentVersion(1, input.audiencePercent, input.variants, input.targeting, now, actor.id)]
      && after == w.(experiments := w.experiments[newID := e],
                     audit := w.audit + [Audit(newID, ExperimentCreated, actor.id, None)])
  {
    hide ValidConfig;
  }

  /** The actor's own experiment of that name. */
  predicate OwnNamed(w: World, actor: User, name: string, id: string) {
    id in w.experiments && w.experiments[id].ownerID == actor.id && w.experiments[id].name == name
  }

  /** A call creates anew if and only if the actor has no experiment of the name, or it came without
      an idempotency key and the one found is of another flag; the one found answers it otherwise. */
  lemma CreatesAnewExactly(w: World, actor: User, input: Experiment, idemKey: string)
    ensures MayCreate(w, actor, input, idemKey) <==>
      || (forall id :: !OwnNamed(w, actor, input.name, id))
      || (idemKey == "" && exists id ::
            OwnNamed(w, actor, input.name, id) && w.experiments[id].flagKey != input.flagKey)
    ensures forall id :: Reusable(w, actor, input, idemKey, id) <==>
      && OwnNamed(w, actor, input.name, id)
      && (idemKey == "" ==> w.experiments[id].flagKey == input.flagKey)
  {
    forall id ensures Namesake(w, actor, input, id) <==> OwnNamed(w, actor, input.name, id) {
    }
    if MayCreate(w, actor, input, idemKey) && exists id :: OwnNamed(w, actor, input.name, id) {
      var id :| Namesake(w, actor, input, id) && !Reusable(w, actor, input, idemKey, id);
      assert OwnNamed(w, actor, input.name, id);
    }
    if id :| idemKey == "" && OwnNamed(w, actor, input.name, id) && w.experiments[id].flagKey != input.flagKey {
      assert Namesake(w, actor, input, id) && !Reusable(w, actor, input, idemKey, id);
    }
  }

  // ---- Reviews over runs ---------------------------------------------------

  /** The review history is what it was, empty for a new experiment. */
  ghost predicate SameHistory(w: World, after: World, id: string)
    requires id in after.experiments
  {
    after.experiments[id].reviewHistory == if id in w.experiments then w.experiments[id].reviewHistory else []
  }

  lemma PerformHistory(w: World, actor: User, k: string, command: Command, now: Time, id: string)
    requires Keyed(w) && id in Performed(w, Plan(w, actor, k, command, now), actor.id).experiments
    requires !(k == id && command.Review? && Permitted(w, actor, id, command))
    ensures SameHistory(w, Performed(w, Plan(w, actor, k, command, now), actor.id), id)
  {
    SucceedsExactly(w, actor, k, command, now);
    if Permitted(w, actor, k, command) {
      PermittedDoes(w, actor, k, command, now);
      hide Plan, Permitted, To, Configured, Performed;
    } else {
      hide Plan, Permitted;
    }
  }

  lemma GuardHistory(w: World, path: Path, k: string, at: Time, actuals: seq<real>, id: string)
    requires k in w.experiments ==> |w.experiments[k].guardrails| == |actuals|
    requires Keyed(w) && AllVersionsSound(w) && id in GuardrailPass(w, path, k, at, actuals).experiments
    ensures SameHistory(w, GuardrailPass(w, path, k, at, actuals), id)
  {
    if k in w.experiments && w.experiments[k].status == Running
      && FirstFiring(w, path, w.experiments[k], at, actuals).Some? {
      var c, entry := GuardChange(w, path, k, at, actuals);
      hide GuardrailPass, FirstFiring, SafeChange;
    }
  }

  lemma QuietHistory(cfg: Settings, w: World, op: Op, id: string)
    requires Enabled(cfg, w, op) && id in Apply(cfg, w, op).experiments && !op.Perform? && !op.Guard?
    ensures SameHistory(w, Apply(cfg, w, op), id)
  {
    if op.Create? {
      CreatesExactly(w, op.creator, op.input, op.newID, op.created);
    }
  }

  /** A step keeps an experiment's review history, unless it reviews it. */
  lemma HistoryStep(cfg: Settings, w: World, op: Op, id: string)
    requires Sound(cfg, w) && Enabled(cfg, w, op) && id in Apply(cfg, w, op).experiments
    requires !(op.Perform? && op.id == id && op.command.Review? && Permitted(w, op.actor, id, op.command))
    ensures SameHistory(w, Apply(cfg, w, op), id)
  {
    hide Permitted, SameHistory, Plan, Performed, GuardrailPass;
    if op.Perform? {
      PerformHistory(w, op.actor, op.id, op.command, op.at, id);
    } else if op.Guard? {
      GuardHistory(w, op.path, op.guarded, op.when, op.actuals, id);
    } else {
      QuietHistory(cfg, w, op, id);
    }
  }

  /** Behind every review entry in every reachable state stands one step of the run, by a reviewer
      who was allowed to review at that moment, with the decision and comment recorded. */
  lemma {:induction false} ReviewBehind(cfg: Settings, ops: seq<Op>, w: World, id: string, i: nat)
    returns (n: nat, before: World)
    requires Run(cfg, ops, w) && id in w.experiments && i < |w.experiments[id].reviewHistory|
    ensures n < |ops| && Run(cfg, ops[..n], before)
    ensures ops[n].Perform? && ops[n].id == id && ops[n].command.Review?
    ensures Permitted(before, ops[n].actor, id, ops[n].command)
    ensures w.experiments[id].reviewHistory[i]
      == ReviewEntry(id, ops[n].actor.id, ops[n].command.decision, ops[n].command.comment, ops[n].at)
  {
    var last := |ops| - 1;
    var previous :| Run(cfg, ops[..last], previous) && Enabled(cfg, previous, ops[last])
      && w == Apply(cfg, previous, ops[last]);
    var op := ops[last];
    RunSound(cfg, ops[..last], previous);
    if id in previous.experiments && i < |previous.experiments[id].reviewHistory| {
      KeptEntry(cfg, previous, op, id, i);
      n, before := ReviewBehind(cfg, ops[..last], previous, id, i);
      assert ops[..last][..n] == ops[..n];
    } else {
      n, before := last, previous;
      NewEntry(cfg, previous, op, id, i);
    }
  }

  lemma KeptEntry(cfg: Settings, w: World, op: Op, id: string, i: nat)
    requires Sound(cfg, w) && Enabled(cfg, w, op) && id in w.experiments && id in Apply(cfg, w, op).experiments
    requires i < |w.experiments[id].reviewHistory|
    ensures i < |Apply(cfg, w, op).experiments[id].reviewHistory|
    ensures Apply(cfg, w, op).experiments[id].reviewHistory[i] == w.experiments[id].reviewHistory[i]
  {
    if op.Perform? && op.id == id && op.command.Review? && Permitted(w, op.actor, id, op.command) {
      PermittedDoes(w, op.actor, id, op.command, op.at);
    } else {
      HistoryStep(cfg, w, op, id);
      assert SameHistory(w, Apply(cfg, w, op), id);
    }
    hide Apply, Permitted, Sound, To, Configured;
  }

  lemma NewEntry(cfg: Settings, w: World, op: Op, id: string, i: nat)
    requires Sound(cfg, w) && Enabled(cfg, w, op) && id in Apply(cfg, w, op).experiments
    requires id in w.experiments ==> i >= |w.experiments[id].reviewHistory|
    requires i < |Apply(cfg, w, op).experiments[id].reviewHistory|
    ensures op.Perform? && op.id == id && op.command.Review? && Permitted(w, op.actor, id, op.command)
    ensures Apply(cfg, w, op).experiments[id].reviewHistory[i]
      == ReviewEntry(id, op.actor.id, op.command.decision, op.command.comment, op.at)
  {
    if !(op.Perform? && op.id == id && op.command.Review? && Permitted(w, op.actor, id, op.command)) {
      HistoryStep(cfg, w, op, id);
      assert false;
    }
    PermittedDoes(w, op.actor, id, op.command, op.at);
    hide Permitted, To, Configured;
  }

  // ---- From draft to the end -----------------------------------------------

  lemma RunCommand(cfg: Settings, ops: seq<Op>, w: World, actor: User, id: string, command: Command, now: Time)
    returns (longer: seq<Op>, after: World)
    requires Run(cfg, ops, w) && Permitted(w, actor, id, command)
    ensures ops <= longer && Run(cfg, longer, after)
    ensures id in w.experiments && id in after.experiments
    ensures Becomes(w, w.experiments[id], after.experiments[id], actor, command, now)
    ensures after.policies == w.policies
    ensures forall k :: k != id && k in after.experiments ==>
      k in w.experiments && after.experiments[k] == w.experiments[k]
  {
    var op := Perform(actor, id, command, now);
    RunSound(cfg, ops, w);
    ServiceRuns.RunNext(cfg, ops, w, op);
    PermittedDoes(w, actor, id, command, now);
    longer, after := ops + [op], Apply(cfg, w, op);
    hide Run, Permitted, Becomes;
  }

  lemma RoomForMore(w: World, e: Experiment, reviewers: set<string>)
    requires (forall r :: r in reviewers ==> Endorsed(e.reviewHistory, r)) && |reviewers| >= 1
    requires !EnoughApprovals(w, e.ownerID, e.reviewHistory)
    ensures e.ownerID in w.policies && |reviewers| < w.policies[e.ownerID].minApprovals
  {
  }

  lemma OneMoreEndorses(history: seq<ReviewEntry>, entry: ReviewEntry, reviewers: set<string>)
    requires entry.decision == Approve && forall r :: r in reviewers ==> Endorsed(history, r)
    ensures forall r :: r in reviewers + {entry.reviewerID} ==> Endorsed(history + [entry], r)
  {
    var longer := history + [entry];
    assert longer[|history|] == entry;
    forall r | r in reviewers ensures Endorsed(longer, r) {
      var i :| 0 <= i < |history| && history[i].decision == Approve && history[i].reviewerID == r;
      assert longer[i] == history[i];
    }
  }

  /** Enough administrators can always approve an experiment in review. */
  lemma {:induction false} ApprovalReachable(cfg: Settings, ops: seq<Op>, w: World, id: string, now: Time,
                                             reviewers: set<string>, missing: nat)
    returns (longer: seq<Op>, after: World)
    requires Run(cfg, ops, w) && id in w.experiments && w.experiments[id].status == InReview
    requires forall r :: r in reviewers ==> Endorsed(w.experiments[id].reviewHistory, r)
    requires var ownerID := w.experiments[id].ownerID;
      ownerID in w.policies ==> w.policies[ownerID].minApprovals <= |reviewers| + missing
    ensures ops <= longer && Run(cfg, longer, after)
    ensures id in after.experiments && after.experiments[id].status == Approved
    ensures after.experiments[id].flagKey == w.experiments[id].flagKey
    ensures forall k :: k != id && k in after.experiments ==>
      k in w.experiments && after.experiments[k] == w.experiments[k]
    decreases missing
  {
    hide Run, EnoughApprovals, Endorsed, Configured;
    var name := FreshString(reviewers);
    var command := Review(Approve, "");
    longer, after := RunCommand(cfg, ops, w, User(name, Admin), id, command, now);
    var e, f := w.experiments[id], after.experiments[id];
    var entry := ReviewEntry(e.id, name, Approve, "", now);
    assert f.reviewHistory == e.reviewHistory + [entry];
    OneMoreEndorses(e.reviewHistory, entry, reviewers);
    var more := reviewers + {name};
    if f.status != Approved {
      assert f.status == InReview;
      RoomForMore(w, f, more);
      var rest := missing - 1;
      longer, after := ApprovalReachable(cfg, longer, after, id, now, more, rest);
    }
  }

  /** The lifecycle gets nobody stuck: in every reachable state a draft of a free flag can be
      submitted, approved, started and completed. */
  lemma DraftCanComplete(cfg: Settings, ops: seq<Op>, w: World, id: string, now: Time, comment: string)
    returns (longer: seq<Op>, running: seq<Op>, mid: World, end: World)
    requires Run(cfg, ops, w) && id in w.experiments && w.experiments[id].status == Draft
    requires forall k :: k in w.experiments && w.experiments[k].flagKey == w.experiments[id].flagKey ==>
      w.experiments[k].status !in {Running, Paused}
    ensures ops <= running <= longer && Run(cfg, running, mid) && Run(cfg, longer, end)
    ensures id in mid.experiments && mid.experiments[id].status == Running
    ensures id in end.experiments && end.experiments[id].status == Completed
    ensures end.experiments[id].decisionComment == comment
  {
    hide Run, EnoughApprovals, Endorsed, Configured;
    var admin := User("", Admin);
    var a, x := RunCommand(cfg, ops, w, admin, id, Submit, now);
    var ownerID := x.experiments[id].ownerID;
    var missing: nat := if ownerID in x.policies && x.policies[ownerID].minApprovals > 0
                        then x.policies[ownerID].minApprovals else 0;
    var b, y := ApprovalReachable(cfg, a, x, id, now, {}, missing);
    running, mid := RunCommand(cfg, b, y, admin, id, Start, now);
    longer, end := RunCommand(cfg, running, mid, admin, id, Complete(comment), now);
  }
}
