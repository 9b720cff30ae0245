/** Experiments: their lifecycle, versions and reviews, the decisions taken under them, and
    the guardrail passes that pause them. Reads return values; only an explicit put changes
    what is stored. */
module Experiments {
  import opened Common
  import opened Assignment
  import opened Targeting
  import opened Selection
  import opened Events

  datatype Role = Admin | Experimenter | Approver | Viewer
  datatype User = User(id: string, role: Role)
  datatype Flag = Flag(key: string, defaultValue: Json)

  datatype Status = Draft | InReview | Approved | Running | Paused | Completed | Archived | StatusRejected

  const PAUSE := "pause"

  datatype GuardrailRule = GuardrailRule(metricKey: string, threshold: real, windowSeconds: int, action: string)

  datatype GuardrailTrigger = GuardrailTrigger(rule: GuardrailRule, actual: real, triggeredAt: Time)

  datatype ExperimentVersion = ExperimentVersion(
    version: int, audiencePercent: int, variants: seq<Variant>, targeting: Option<RuleNode>,
    updatedAt: Time, updatedBy: string)

  datatype ReviewDecision = Approve | RequestChanges | Reject | OtherDecision(name: string)

  datatype ReviewEntry = ReviewEntry(
    experimentID: string, reviewerID: string, decision: ReviewDecision, comment: string, createdAt: Time)

  datatype Experiment = Experiment(
    id: string, flagKey: string, name: string, ownerID: string, status: Status, version: int,
    audiencePercent: int, variants: seq<Variant>, targeting: Option<RuleNode>,
    guardrails: seq<GuardrailRule>, versions: seq<ExperimentVersion>, reviewHistory: seq<ReviewEntry>,
    guardrailLog: seq<GuardrailTrigger>, decisionComment: string, createdAt: Time, updatedAt: Time)

  datatype ConfigUpdate = ConfigUpdate(
    audiencePercent: int, variants: seq<Variant>, targeting: Option<RuleNode>, guardrails: seq<GuardrailRule>)

  datatype Policy = Policy(experimenterID: string, approverIDs: seq<string>, minApprovals: int)

  datatype Action =
    | ExperimentCreated | SentToReview | ReviewRequestedChanges | ReviewRejected | ReviewApproved
    | ExperimentStarted | ExperimentPaused | ExperimentResumed | ExperimentCompleted
    | ConfigUpdated | GuardrailTriggered | AttributionReplayed

  datatype Audit = Audit(entityID: string, action: Action, actorID: string, incident: Option<string>)

  datatype World = World(
    flags: map<string, Flag>,
    users: map<string, User>,
    policies: map<string, Policy>,
    experiments: map<string, Experiment>,
    decisions: map<string, Decision>,
    audit: seq<Audit>,
    incidents: set<string>)

  /** What a service is built with. */
  datatype Settings = Settings(hash: Hash, salt: string, maxSimultaneous: nat)

  datatype Failure =
    | Forbidden | FlagNotFound | BadConfig | NotFound | WrongStatus | FlagInUse | UnknownDecision | NoSubject

  /** An experiment to store and the audit action that goes with it. */
  datatype Change = Change(experiment: Experiment, action: Action)

  datatype Command =
    | Submit
    | Review(decision: ReviewDecision, comment: string)
    | Start
    | Pause
    | Resume
    | Complete(comment: string)
    | Update(config: ConfigUpdate)

  // ---- Lifecycle -----------------------------------------------------------

  predicate Active(e: Experiment) {
    e.status == Running || e.status == Paused
  }

  ghost predicate IsActiveFor(w: World, id: string, flagKey: string) {
    id in w.experiments && w.experiments[id].flagKey == flagKey && Active(w.experiments[id])
  }

  ghost predicate FlagBusy(w: World, flagKey: string) {
    exists id :: IsActiveFor(w, id, flagKey)
  }

  ghost predicate CanApprove(w: World, ownerID: string, reviewerID: string) {
    if HasPolicy(w, ownerID) then reviewerID in w.policies[ownerID].approverIDs
    else exists k :: k in w.users && w.users[k].role in {Admin, Approver} && w.users[k].id == reviewerID
  }

  predicate HasPolicy(w: World, ownerID: string) {
    ownerID in w.policies && w.policies[ownerID].minApprovals > 0
  }

  function RequiredApprovals(w: World, ownerID: string): int {
    if HasPolicy(w, ownerID) then w.policies[ownerID].minApprovals else 1
  }

  /** Everybody who ever approved, over the whole history. */
  function Approvers(history: seq<ReviewEntry>): set<string> {
    set h | h in history && h.decision == Approve :: h.reviewerID
  }

  function Snapshot(e: Experiment, at: Time, author: string): ExperimentVersion {
    ExperimentVersion(e.version, e.audiencePercent, e.variants, e.targeting, at, author)
  }

  function Moved(e: Experiment, status: Status, now: Time): Experiment {
    e.(status := status, updatedAt := now)
  }

  predicate MayOperate(actor: User) {
    actor.role == Admin || actor.role == Experimenter
  }

  /** The lifecycle commands as one transition system: what to store, or why not. */
  ghost function Plan(w: World, actor: User, id: string, command: Command, now: Time): Result<Change, Failure> {
    var known := id in w.experiments;
    match command
    case Submit =>
      if !known then Err(NotFound)
      else
        var e := w.experiments[id];
        if e.ownerID != actor.id && actor.role != Admin then Err(Forbidden)
        else if e.status != Draft && e.status != StatusRejected then Err(WrongStatus)
        else Ok(Change(Moved(e, InReview, now), SentToReview))
    case Review(decision, comment) =>
      if actor.role != Approver && actor.role != Admin then Err(Forbidden)
      else if !known then Err(NotFound)
      else
        var e := w.experiments[id];
        if e.status != InReview then Err(WrongStatus)
        else if !CanApprove(w, e.ownerID, actor.id) && actor.role != Admin then Err(Forbidden)
        else
          var history := e.reviewHistory + [ReviewEntry(e.id, actor.id, decision, comment, now)];
          var reviewed := e.(reviewHistory := history);
          var enough := |Approvers(history)| >= RequiredApprovals(w, e.ownerID);
          (match decision
           case RequestChanges => Ok(Change(Moved(reviewed, Draft, now), ReviewRequestedChanges))
           case Reject => Ok(Change(Moved(reviewed, StatusRejected, now), ReviewRejected))
           case Approve => Ok(Change(Moved(reviewed, if enough then Approved else InReview, now), ReviewApproved))
           case OtherDecision(_) => Err(UnknownDecision))
    case Start =>
      if !MayOperate(actor) then Err(Forbidden)
      else if !known then Err(NotFound)
      else
        var e := w.experiments[id];
        if e.status != Approved then Err(WrongStatus)
        else if FlagBusy(w, e.flagKey) then Err(FlagInUse)
        else Ok(Change(Moved(e, Running, now), ExperimentStarted))
    case Pause =>
      if !MayOperate(actor) then Err(Forbidden)
      else if !known then Err(NotFound)
      else if w.experiments[id].status != Running then Err(WrongStatus)
      else Ok(Change(Moved(w.experiments[id], Paused, now), ExperimentPaused))
    case Resume =>
      if !MayOperate(actor) then Err(Forbidden)
      else if !known then Err(NotFound)
      else if w.experiments[id].status != Paused then Err(WrongStatus)
      else Ok(Change(Moved(w.experiments[id], Running, now), ExperimentResumed))
    case Complete(comment) =>
      if !MayOperate(actor) then Err(Forbidden)
      else if !known then Err(NotFound)
      else if !Active(w.experiments[id]) then Err(WrongStatus)
      else Ok(Change(Moved(w.experiments[id], Completed, now).(decisionComment := comment), ExperimentCompleted))
    case Update(config) =>
      if !MayOperate(actor) then Err(Forbidden)
      else if !known then Err(NotFound)
      else
        var e := w.experiments[id];
        if e.ownerID != actor.id && actor.role != Admin then Err(Forbidden)
        else if e.status != Draft then Err(WrongStatus)
        else if !ValidConfig(config.audiencePercent, config.variants) then Err(BadConfig)
        else
          var updated := e.(
            audiencePercent := config.audiencePercent, variants := config.variants,
            targeting := config.targeting, guardrails := config.guardrails,
            version := e.version + 1, updatedAt := now);
          Ok(Change(updated.(versions := e.versions + [Snapshot(updated, now, actor.id)]), ConfigUpdated))
  }

  /** A new experiment built from the caller's input. */
  function PlanCreate(w: World, actor: User, input: Experiment, newID: string, now: Time): Result<Change, Failure> {
    if !MayOperate(actor) then Err(Forbidden)
    else if input.flagKey !in w.flags then Err(FlagNotFound)
    else if !ValidConfig(input.audiencePercent, input.variants) then Err(BadConfig)
    else
      var e := input.(
        id := newID, status := Draft, version := 1, ownerID := actor.id, createdAt := now, updatedAt := now);
      Ok(Change(e.(versions := [Snapshot(e, now, actor.id)]), ExperimentCreated))
  }

  predicate Namesake(w: World, actor: User, input: Experiment, id: string) {
    id in w.experiments && w.experiments[id].ownerID == actor.id && w.experiments[id].name == input.name
  }

  /** An existing experiment that answers the call: the owner's, of that name, and without an
      idempotency key of that flag. */
  predicate Reusable(w: World, actor: User, input: Experiment, idemKey: string, id: string) {
    Namesake(w, actor, input, id) && (idemKey != "" || w.experiments[id].flagKey == input.flagKey)
  }

  /** Some namesake, or the absence of any, lets the call create: the lookup returns one
      namesake, in map order. */
  ghost predicate MayCreate(w: World, actor: User, input: Experiment, idemKey: string) {
    || (forall id :: !Namesake(w, actor, input, id))
    || (exists id :: Namesake(w, actor, input, id) && !Reusable(w, actor, input, idemKey, id))
  }

  function Logged(w: World, id: string, action: Action, actorID: string): World {
    w.(audit := w.audit + [Audit(id, action, actorID, None)])
  }

  function Stored(w: World, e: Experiment): World {
    w.(experiments := w.experiments[e.id := e])
  }

  function Performed(w: World, plan: Result<Change, Failure>, actorID: string): World {
    match plan
    case Ok(c) => Logged(Stored(w, c.experiment), c.experiment.id, c.action, actorID)
    case Err(_) => w
  }

  // ---- Decisions -----------------------------------------------------------

  /** The running or paused experiment of a flag, when there is one. */
  ghost function ActiveFor(w: World, flagKey: string): Option<Experiment> {
    if FlagBusy(w, flagKey) then
      var id :| IsActiveFor(w, id, flagKey);
      Some(w.experiments[id])
    else None
  }

  predicate Qualifies(cfg: Settings, e: Experiment, subjectID: string, attrs: Attributes) {
    && e.status == Running
    && EvaluateRule(e.targeting, attrs) == Ok(true)
    && InAudience(cfg.hash, subjectID, e.audiencePercent, e.id, cfg.salt)
  }

  function CandidateOf(cfg: Settings, e: Experiment, subjectID: string, flagKey: string): Candidate {
    Candidate(flagKey, e.id, Residue(cfg.hash, subjectID + "|" + e.id + "|participation|" + cfg.salt))
  }

  /** The qualifying experiments of the requested flags, in request order. */
  ghost function Candidates(cfg: Settings, w: World, subjectID: string, attrs: Attributes, keys: seq<string>)
    : seq<Candidate>
  {
    if keys == [] then []
    else
      var n := |keys| - 1;
      var active := ActiveFor(w, keys[n]);
      Candidates(cfg, w, subjectID, attrs, keys[..n])
      + (if active.Some? && Qualifies(cfg, active.value, subjectID, attrs)
         then [CandidateOf(cfg, active.value, subjectID, keys[n])] else [])
  }

  function VariantKey(cfg: Settings, e: Experiment, subjectID: string): string {
    subjectID + "|" + e.id + "|" + Decimal(e.version) + "|" + cfg.salt
  }

  /** The variant a subject gets in an experiment: a function of the subject, the experiment's
      id, version and configuration, and nothing else. */
  function VariantFor(cfg: Settings, e: Experiment, subjectID: string): Option<Variant> {
    if e.variants == [] then None
    else Some(e.variants[ChosenIndex(e.variants,
      Score(Residue(cfg.hash, VariantKey(cfg, e, subjectID)), e.audiencePercent))])
  }

  function DefaultDecision(flag: Flag, subjectID: string, key: string, id: string, now: Time): Decision {
    Decision(id, subjectID, key, flag.defaultValue, "", "", 0, now, false)
  }

  function DecisionIn(cfg: Settings, base: Decision, e: Experiment): Decision {
    match VariantFor(cfg, e, base.subjectID)
    case None => base
    case Some(v) => base.(value := v.value, experimentID := e.id, variantName := v.name, configVersion := e.version)
  }

  ghost function DecisionFor(cfg: Settings, w: World, subjectID: string, key: string, top: set<string>,
                             id: string, now: Time): Decision
    requires key in w.flags
  {
    var base := DefaultDecision(w.flags[key], subjectID, key, id, now);
    var active := ActiveFor(w, key);
    if key in top && active.Some? then DecisionIn(cfg, base, active.value) else base
  }

  /** One decision per known flag, in request order, with ids taken in turn from the supply. */
  ghost function Decisions(cfg: Settings, w: World, subjectID: string, keys: seq<string>, top: set<string>,
                           ids: seq<string>, now: Time): (ds: seq<Decision>)
    requires |keys| <= |ids|
    ensures |ds| <= |keys|
  {
    if keys == [] then []
    else
      var n := |keys| - 1;
      var before := Decisions(cfg, w, subjectID, keys[..n], top, ids, now);
      if keys[n] in w.flags then
        before + [DecisionFor(cfg, w, subjectID, keys[n], top, ids[|before|], now)]
      else before
  }

  function PutDecisions(decisions: map<string, Decision>, ds: seq<Decision>): map<string, Decision> {
    if ds == [] then decisions
    else
      var d := ds[|ds| - 1];
      PutDecisions(decisions, ds[..|ds| - 1])[d.id := d]
  }

  /** `order` is how the sort happened to arrange the candidates. */
  ghost predicate IsOrder(cfg: Settings, w: World, subjectID: string, attrs: Attributes, keys: seq<string>,
                          order: seq<Candidate>)
  {
    Sorted(order) && multiset(order) == multiset(Candidates(cfg, w, subjectID, attrs, keys))
  }

  ghost predicate FreshIDs(w: World, ids: seq<string>) {
    NoDuplicates(ids) && forall id :: id in ids ==> id != "" && id !in w.decisions
  }

  // ---- Guardrails ----------------------------------------------------------

  /** The two places guardrails are evaluated: a worker's job, and the periodic scan. */
  datatype Path = Worker | Scan

  /** Go's integer division. */
  function TruncDiv(a: int, b: int): int
    requires b != 0
  {
    if a >= 0 then a / b else -((-a) / b)
  }

  /** The worker divides by the window or one, the scan by the window itself. */
  predicate Divisible(path: Path, rule: GuardrailRule) {
    path == Scan ==> rule.windowSeconds != 0
  }

  function IncidentBucket(path: Path, rule: GuardrailRule, at: Time): int
    requires Divisible(path, rule)
  {
    TruncDiv(Unix(at), if path == Worker then Max(rule.windowSeconds, 1) else rule.windowSeconds)
  }

  function IncidentKey(path: Path, experimentID: string, rule: GuardrailRule, at: Time): string
    requires Divisible(path, rule)
  {
    experimentID + "|" + rule.metricKey + "|" + rule.action + "|" + Decimal(IncidentBucket(path, rule, at))
  }

  predicate Breaches(rule: GuardrailRule, actual: real) {
    actual > rule.threshold && rule.action == PAUSE
  }

  /** The rule would pause, and its incident has not been used. */
  predicate Fires(w: World, path: Path, e: Experiment, i: nat, at: Time, actuals: seq<real>)
    requires i < |e.guardrails| == |actuals|
  {
    && Breaches(e.guardrails[i], actuals[i]) && Divisible(path, e.guardrails[i])
    && IncidentKey(path, e.id, e.guardrails[i], at) !in w.incidents
  }

  /** The rule would pause, and naming its incident divides by zero. */
  predicate Crashes(path: Path, e: Experiment, i: nat, actuals: seq<real>)
    requires i < |e.guardrails| == |actuals|
  {
    Breaches(e.guardrails[i], actuals[i]) && !Divisible(path, e.guardrails[i])
  }

  /** The rule ends the pass. */
  predicate Ends(w: World, path: Path, e: Experiment, i: nat, at: Time, actuals: seq<real>)
    requires i < |e.guardrails| == |actuals|
  {
    Fires(w, path, e, i, at, actuals) || Crashes(path, e, i, actuals)
  }

  /** The triggers of the breaching pause rules among the first n, used incidents included. */
  function Triggers(rules: seq<GuardrailRule>, actuals: seq<real>, n: nat, at: Time): seq<GuardrailTrigger>
    requires n <= |rules| == |actuals|
  {
    if n == 0 then []
    else
      Triggers(rules, actuals, n - 1, at)
      + (if Breaches(rules[n - 1], actuals[n - 1]) then [GuardrailTrigger(rules[n - 1], actuals[n - 1], at)] else [])
  }

  /** What a pass that fires on rule i leaves behind. */
  function Fired(w: World, path: Path, e: Experiment, i: nat, at: Time, actuals: seq<real>): World
    requires i < |e.guardrails| == |actuals| && Divisible(path, e.guardrails[i])
  {
    var key := IncidentKey(path, e.id, e.guardrails[i], at);
    var paused := e.(status := Paused, updatedAt := at,
                     guardrailLog := e.guardrailLog + Triggers(e.guardrails, actuals, i + 1, at));
    Stored(w, paused).(
      incidents := w.incidents + {key},
      audit := w.audit + [Audit(e.id, GuardrailTriggered, "system", Some(key))])
  }

  function FirstEnding(w: World, path: Path, e: Experiment, from: nat, at: Time, actuals: seq<real>): (i: Option<nat>)
    requires from <= |e.guardrails| == |actuals|
    ensures i.Some? ==> from <= i.value < |actuals| && Ends(w, path, e, i.value, at, actuals)
    ensures forall j :: from <= j < (if i.Some? then i.value else |actuals|) ==> !Ends(w, path, e, j, at, actuals)
    decreases |actuals| - from
  {
    if from == |actuals| then None
    else if Ends(w, path, e, from, at, actuals) then Some(from)
    else FirstEnding(w, path, e, from + 1, at, actuals)
  }

  lemma BeforeEnding(w: World, path: Path, e: Experiment, i: nat, at: Time, actuals: seq<real>)
    requires i <= |e.guardrails| == |actuals|
    requires forall j :: 0 <= j < i ==> !Ends(w, path, e, j, at, actuals)
    ensures forall j :: 0 <= j < i ==> !Fires(w, path, e, j, at, actuals)
    ensures forall j :: 0 <= j < i ==> !Crashes(path, e, j, actuals)
  {
    forall j | 0 <= j < i ensures !Fires(w, path, e, j, at, actuals) && !Crashes(path, e, j, actuals) {
      assert !Ends(w, path, e, j, at, actuals);
    }
  }

  /** The rule a pass fires on, if it does: none that a crash comes before. */
  function FirstFiring(w: World, path: Path, e: Experiment, at: Time, actuals: seq<real>): (i: Option<nat>)
    requires |e.guardrails| == |actuals|
    ensures i.Some? ==> i.value < |actuals| && Fires(w, path, e, i.value, at, actuals)
  {
    var first := FirstEnding(w, path, e, 0, at, actuals);
    if first.Some? && Fires(w, path, e, first.value, at, actuals) then first else None
  }

  /** The pass ends in a division by zero. */
  predicate PassCrashes(w: World, path: Path, e: Experiment, at: Time, actuals: seq<real>)
    requires |e.guardrails| == |actuals|
  {
    var first := FirstEnding(w, path, e, 0, at, actuals);
    first.Some? && Crashes(path, e, first.value, actuals)
  }

  /** One evaluation of one experiment, given the metric each rule was measured at. A crash
      leaves nothing behind: the pause before it was not stored. */
  function GuardrailPass(w: World, path: Path, id: string, at: Time, actuals: seq<real>): World
    requires id in w.experiments ==> |w.experiments[id].guardrails| == |actuals|
  {
    if id !in w.experiments || w.experiments[id].status != Running then w
    else
      var e := w.experiments[id];
      var first := FirstFiring(w, path, e, at, actuals);
      if first.Some? then Fired(w, path, e, first.value, at, actuals) else w
  }
}
