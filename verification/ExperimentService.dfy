/** The experiment side of the in-memory store, and the service methods over it. Time and
    fresh ids are parameters; reads hand out values. */
module ExperimentService {
  import opened Common
  import opened Assignment
  import opened Selection
  import opened Events
  import opened Experiments
  import opened ExperimentRuns
  import Reports
  import Targeting

  class ExperimentStore {
    var flags: map<string, Flag>
    var users: map<string, User>
    var policies: map<string, Policy>
    var experiments: map<string, Experiment>
    var decisions: map<string, Decision>
    var audit: seq<Audit>
    var incidents: set<string>

    function View(): World
      reads this
    {
      World(flags, users, policies, experiments, decisions, audit, incidents)
    }

    constructor ()
      ensures View() == EMPTY
    {
      flags, users, policies, experiments, decisions, audit, incidents := map[], map[], map[], map[], map[], [], {};
    }

    method PutExperiment(e: Experiment)
      modifies this`experiments
      ensures View() == Stored(old(View()), e)
    {
      experiments := experiments[e.id := e];
    }

    method AppendAudit(id: string, action: Action, actorID: string)
      modifies this`audit
      ensures View() == Logged(old(View()), id, action, actorID)
    {
      audit := audit + [Audit(id, action, actorID, None)];
    }

    method AddGuardrailTrigger(incidentKey: string) returns (inserted: bool)
      modifies this`incidents
      ensures inserted <==> incidentKey !in old(incidents)
      ensures incidents == old(incidents) + {incidentKey}
    {
      if incidentKey in incidents { return false; }
      incidents := incidents + {incidentKey};
      return true;
    }

    /** Walks the map in any order. */
    method FindActiveExperimentByFlag(flagKey: string) returns (found: Option<Experiment>)
      ensures found.None? <==> !FlagBusy(View(), flagKey)
      ensures found.Some? ==> exists id :: IsActiveFor(View(), id, flagKey) && found.value == experiments[id]
    {
      var rest := experiments.Keys;
      while rest != {}
        invariant rest <= experiments.Keys
        invariant forall id :: id in experiments && id !in rest ==> !IsActiveFor(View(), id, flagKey)
        decreases |rest|
      {
        var id :| id in rest;
        var e := experiments[id];
        if e.flagKey == flagKey && (e.status == Running || e.status == Paused) {
          assert IsActiveFor(View(), id, flagKey);
          return Some(e);
        }
        rest := rest - {id};
      }
      return None;
    }

    method FindExperimentByOwnerAndName(ownerID: string, name: string) returns (found: Option<Experiment>)
      ensures found.Some? ==> found.value.ownerID == ownerID && found.value.name == name
      ensures found.Some? ==> exists id :: id in experiments && found.value == experiments[id]
      ensures found.None? ==> forall id :: id in experiments ==>
        experiments[id].ownerID != ownerID || experiments[id].name != name
    {
      var rest := experiments.Keys;
      while rest != {}
        invariant rest <= experiments.Keys
        invariant forall id :: id in experiments && id !in rest ==>
          experiments[id].ownerID != ownerID || experiments[id].name != name
        decreases |rest|
      {
        var id :| id in rest;
        if experiments[id].ownerID == ownerID && experiments[id].name == name { return Some(experiments[id]); }
        rest := rest - {id};
      }
      return None;
    }

    method ResolveApproverPolicy(ownerID: string) returns (approverIDs: seq<string>, minApprovals: int)
      ensures minApprovals == RequiredApprovals(View(), ownerID)
      ensures forall r :: r in approverIDs <==> CanApprove(View(), ownerID, r)
    {
      if ownerID in policies && policies[ownerID].minApprovals > 0 {
        return policies[ownerID].approverIDs, policies[ownerID].minApprovals;
      }
      approverIDs, minApprovals := [], 1;
      var rest := users.Keys;
      while rest != {}
        invariant rest <= users.Keys
        invariant forall r :: r in approverIDs <==>
          exists k :: k in users && k !in rest && users[k].role in {Admin, Approver} && users[k].id == r
        decreases |rest|
      {
        var k :| k in rest;
        rest := rest - {k};
        if users[k].role in {Admin, Approver} {
          approverIDs := approverIDs + [users[k].id];
        }
      }
    }
  }

  /** A method carried out exactly what was planned, and returned it. */
  ghost predicate CarriesOut(before: World, plan: Result<Change, Failure>, actorID: string, after: World,
                             r: Result<Experiment, Failure>)
  {
    && after == Performed(before, plan, actorID)
    && r == (match plan case Ok(c) => Ok(c.experiment) case Err(f) => Err(f))
  }

  class Service {
    const store: ExperimentStore
    const cfg: Settings

    constructor (store: ExperimentStore, hash: Hash, salt: string, maxSimultaneous: int)
      ensures this.store == store
      ensures cfg == Settings(hash, salt, if maxSimultaneous <= 0 then 2 else maxSimultaneous)
    {
      this.store := store;
      cfg := Settings(hash, salt, if maxSimultaneous <= 0 then 2 else maxSimultaneous);
    }

    /** Either the call fails; or no namesake answers it, and the creation is carried out as
        planned; or an existing experiment answers it, and nothing changes. */
    method CreateExperimentIdempotent(actor: User, input: Experiment, idemKey: string, newID: string, now: Time)
      returns (r: Result<Experiment, Failure>)
      modifies store
      ensures var before := old(store.View());
        var plan := PlanCreate(before, actor, input, newID, now);
        || (CarriesOut(before, plan, actor.id, store.View(), r)
            && (plan.Ok? ==> MayCreate(before, actor, input, idemKey)))
        || (plan.Ok? && store.View() == before && r.Ok?
            && exists id :: Reusable(before, actor, input, idemKey, id) && r.value == before.experiments[id])
    {
      if actor.role != Experimenter && actor.role != Admin { return Err(Forbidden); }
      if input.flagKey !in store.flags { return Err(FlagNotFound); }
      var problem := ValidateVariants(input.audiencePercent, input.variants);
      if problem.Some? { return Err(BadConfig); }
      var existing := store.FindExperimentByOwnerAndName(actor.id, input.name);
      if existing.Some? {
        ghost var id :| Namesake(store.View(), actor, input, id) && store.experiments[id] == existing.value;
        if idemKey != "" { return Ok(existing.value); }
        if existing.value.flagKey == input.flagKey { return Ok(existing.value); }
      }
      var e := input.(
        id := newID, status := Draft, version := 1, ownerID := actor.id, createdAt := now, updatedAt := now);
      e := e.(versions := [ExperimentVersion(1, e.audiencePercent, e.variants, e.targeting, now, actor.id)]);
      store.PutExperiment(e);
      store.AppendAudit(e.id, ExperimentCreated, actor.id);
      return Ok(e);
    }

    method SubmitForReview(actor: User, id: string, now: Time) returns (r: Result<Experiment, Failure>)
      modifies store
      ensures CarriesOut(old(store.View()), Plan(old(store.View()), actor, id, Submit, now), actor.id, store.View(), r)
    {
      if id !in store.experiments { return Err(NotFound); }
      var e := store.experiments[id];
      if e.ownerID != actor.id && actor.role != Admin { return Err(Forbidden); }
      if e.status != Draft && e.status != StatusRejected { return Err(WrongStatus); }
      e := e.(status := InReview, updatedAt := now);
      store.PutExperiment(e);
      store.AppendAudit(e.id, SentToReview, actor.id);
      return Ok(e);
    }

    method ReviewExperiment(actor: User, id: string, decision: ReviewDecision, comment: string, now: Time)
      returns (r: Result<Experiment, Failure>)
      modifies store
      ensures var before := old(store.View());
        CarriesOut(before, Plan(before, actor, id, Review(decision, comment), now), actor.id, store.View(), r)
    {
      if actor.role != Approver && actor.role != Admin { return Err(Forbidden); }
      if id !in store.experiments { return Err(NotFound); }
      var e := store.experiments[id];
      if e.status != InReview { return Err(WrongStatus); }
      var approverIDs, minApprovals := store.ResolveApproverPolicy(e.ownerID);
      if actor.id !in approverIDs && actor.role != Admin { return Err(Forbidden); }
      e := e.(reviewHistory := e.reviewHistory + [ReviewEntry(e.id, actor.id, decision, comment, now)]);
      match decision {
        case RequestChanges =>
          e := e.(status := Draft);
          store.AppendAudit(e.id, ReviewRequestedChanges, actor.id);
        case Reject =>
          e := e.(status := StatusRejected);
          store.AppendAudit(e.id, ReviewRejected, actor.id);
        case Approve =>
          var approvedBy := CountApprovers(e.reviewHistory);
          if approvedBy >= minApprovals {
            e := e.(status := Approved);
          }
          store.AppendAudit(e.id, ReviewApproved, actor.id);
        case OtherDecision(_) =>
          return Err(UnknownDecision);
      }
      e := e.(updatedAt := now);
      store.PutExperiment(e);
      return Ok(e);
    }

    method CountApprovers(history: seq<ReviewEntry>) returns (n: nat)
      ensures n == |Approvers(history)|
    {
      var approvedBy := {};
      for i := 0 to |history|
        invariant approvedBy == Approvers(history[..i])
      {
        assert history[..i + 1] == history[..i] + [history[i]];
        if history[i].decision == Approve {
          approvedBy := approvedBy + {history[i].reviewerID};
        }
      }
      assert history[..|history|] == history;
      return |approvedBy|;
    }

    method StartExperiment(actor: User, id: string, now: Time) returns (r: Result<Experiment, Failure>)
      requires Keyed(store.View())
      modifies store
      ensures CarriesOut(old(store.View()), Plan(old(store.View()), actor, id, Start, now), actor.id, store.View(), r)
    {
      if actor.role != Admin && actor.role != Experimenter { return Err(Forbidden); }
      if id !in store.experiments { return Err(NotFound); }
      var e := store.experiments[id];
      if e.status != Approved { return Err(WrongStatus); }
      var active := store.FindActiveExperimentByFlag(e.flagKey);
      if active.Some? && active.value.id != e.id { return Err(FlagInUse); }
      e := e.(status := Running, updatedAt := now);
      store.PutExperiment(e);
      store.AppendAudit(e.id, ExperimentStarted, actor.id);
      return Ok(e);
    }

    method PauseExperiment(actor: User, id: string, now: Time) returns (r: Result<Experiment, Failure>)
      modifies store
      ensures CarriesOut(old(store.View()), Plan(old(store.View()), actor, id, Pause, now), actor.id, store.View(), r)
    {
      if actor.role != Admin && actor.role != Experimenter { return Err(Forbidden); }
      if id !in store.experiments { return Err(NotFound); }
      var e := store.experiments[id];
      if e.status != Running { return Err(WrongStatus); }
      e := e.(status := Paused, updatedAt := now);
      store.PutExperiment(e);
      store.AppendAudit(e.id, ExperimentPaused, actor.id);
      return Ok(e);
    }

    method ResumeExperiment(actor: User, id: string, now: Time) returns (r: Result<Experiment, Failure>)
      modifies store
      ensures CarriesOut(old(store.View()), Plan(old(store.View()), actor, id, Resume, now), actor.id, store.View(), r)
    {
      if actor.role != Admin && actor.role != Experimenter { return Err(Forbidden); }
      if id !in store.experiments { return Err(NotFound); }
      var e := store.experiments[id];
      if e.status != Paused { return Err(WrongStatus); }
      e := e.(status := Running, updatedAt := now);
      store.PutExperiment(e);
      store.AppendAudit(e.id, ExperimentResumed, actor.id);
      return Ok(e);
    }

    method CompleteExperiment(actor: User, id: string, comment: string, now: Time)
      returns (r: Result<Experiment, Failure>)
      modifies store
      ensures var before := old(store.View());
        CarriesOut(before, Plan(before, actor, id, Complete(comment), now), actor.id, store.View(), r)
    {
      if actor.role != Admin && actor.role != Experimenter { return Err(Forbidden); }
      if id !in store.experiments { return Err(NotFound); }
      var e := store.experiments[id];
      if e.status != Running && e.status != Paused { return Err(WrongStatus); }
      e := e.(status := Completed, decisionComment := comment, updatedAt := now);
      store.PutExperiment(e);
      store.AppendAudit(e.id, ExperimentCompleted, actor.id);
      return Ok(e);
    }

    method UpdateExperimentConfig(actor: User, id: string, config: ConfigUpdate, now: Time)
      returns (r: Result<Experiment, Failure>)
      modifies store
      ensures var before := old(store.View());
        CarriesOut(before, Plan(before, actor, id, Update(config), now), actor.id, store.View(), r)
    {
      if actor.role != Admin && actor.role != Experimenter { return Err(Forbidden); }
      if id !in store.experiments { return Err(NotFound); }
      var e := store.experiments[id];
      if e.ownerID != actor.id && actor.role != Admin { return Err(Forbidden); }
      if e.status != Draft { return Err(WrongStatus); }
      var problem := ValidateVariants(config.audiencePercent, config.variants);
      if problem.Some? { return Err(BadConfig); }
      e := e.(audiencePercent := config.audiencePercent, variants := config.variants,
              targeting := config.targeting, guardrails := config.guardrails,
              version := e.version + 1, updatedAt := now);
      e := e.(versions := e.versions
        + [ExperimentVersion(e.version, e.audiencePercent, e.variants, e.targeting, e.updatedAt, actor.id)]);
      store.PutExperiment(e);
      store.AppendAudit(e.id, ConfigUpdated, actor.id);
      return Ok(e);
    }

    // ---- Decide ------------------------------------------------------------

    method ChooseVariant(subjectID: string, e: Experiment) returns (v: Option<Variant>)
      ensures v == VariantFor(cfg, e, subjectID)
    {
      if |e.variants| == 0 { return None; }
      var residue := HashFraction(cfg.hash, VariantKey(cfg, e, subjectID));
      var index := ChooseIndex(e.variants, Score(residue, e.audiencePercent));
      return Some(e.variants[index.value]);
    }

    /** One flag's candidate, if its experiment runs and takes the subject. */
    method CandidateFor(subjectID: string, attrs: Targeting.Attributes, key: string) returns (c: Option<Candidate>)
      requires Keyed(store.View()) && OneActive(store.View())
      ensures var active := ActiveFor(store.View(), key);
        c == if active.Some? && Qualifies(cfg, active.value, subjectID, attrs)
             then Some(CandidateOf(cfg, active.value, subjectID, key)) else None
    {
      var found := store.FindActiveExperimentByFlag(key);
      ActiveForIs(store.View(), key);
      if found.None? || found.value.status != Running { return None; }
      var e := found.value;
      var allowed := Targeting.EvaluateRule(e.targeting, attrs);
      if allowed.Err? || !allowed.value { return None; }
      if !InAudience(cfg.hash, subjectID, e.audiencePercent, e.id, cfg.salt) { return None; }
      var score := HashFraction(cfg.hash, subjectID + "|" + e.id + "|participation|" + cfg.salt);
      return Some(Candidate(key, e.id, score));
    }

    method GatherCandidates(subjectID: string, attrs: Targeting.Attributes, keys: seq<string>)
      returns (candidates: seq<Candidate>)
      requires Keyed(store.View()) && OneActive(store.View())
      ensures candidates == Candidates(cfg, store.View(), subjectID, attrs, keys)
    {
      candidates := [];
      for i := 0 to |keys|
        invariant candidates == Candidates(cfg, store.View(), subjectID, attrs, keys[..i])
      {
        assert keys[..i + 1][..i] == keys[..i];
        var c := CandidateFor(subjectID, attrs, keys[i]);
        if c.Some? {
          candidates := candidates + [c.value];
        }
      }
      assert keys[..|keys|] == keys;
    }

    /** The experiments of the first k candidates, by flag. */
    method Select(subjectID: string, attrs: Targeting.Attributes, keys: seq<string>, sorted: seq<Candidate>)
      returns (selected: map<string, Experiment>)
      requires Keyed(store.View()) && IsOrder(cfg, store.View(), subjectID, attrs, keys, sorted)
      ensures SelectedBy(store.View(), sorted, cfg.maxSimultaneous, selected)
    {
      selected := map[];
      ghost var w := store.View();
      var i := 0;
      while i < |sorted| && i < cfg.maxSimultaneous
        invariant 0 <= i <= Min(|sorted|, cfg.maxSimultaneous)
        invariant SelectedBy(w, sorted, i, selected)
      {
        var c := sorted[i];
        CandidateKnown(cfg, w, subjectID, attrs, keys, sorted, c);
        SelectedNext(w, sorted, i, selected);
        selected := selected[c.flagKey := store.experiments[c.experimentID]];
        i := i + 1;
      }
    }

    /** One flag's decision. */
    method DecideFlag(subjectID: string, key: string, selected: map<string, Experiment>, id: string, now: Time)
      returns (d: Decision)
      requires key in store.flags
      requires forall k :: k in selected ==> ActiveFor(store.View(), k) == Some(selected[k])
      ensures d == DecisionFor(cfg, store.View(), subjectID, key, selected.Keys, id, now)
    {
      d := Decision(id, subjectID, key, store.flags[key].defaultValue, "", "", 0, now, false);
      if key in selected {
        var e := selected[key];
        var v := ChooseVariant(subjectID, e);
        if v.Some? {
          d := d.(value := v.value.value, experimentID := e.id,
                  variantName := v.value.name, configVersion := e.version);
        }
      }
    }

    /** `order` is how the sort arranged the candidates; `ids` is the supply of fresh ids. */
    method Decide(subjectID: string, attrs: Targeting.Attributes, keys: seq<string>, ids: seq<string>, now: Time)
      returns (r: Result<seq<Decision>, Failure>, ghost order: seq<Candidate>)
      requires Sound(cfg, store.View())
      requires FreshIDs(store.View(), ids) && |keys| <= |ids|
      modifies store`decisions
      ensures r.Err? <==> subjectID == ""
      ensures r.Err? ==> store.View() == old(store.View())
      ensures r.Ok? ==>
        && IsOrder(cfg, old(store.View()), subjectID, attrs, keys, order)
        && r.value == Decisions(cfg, old(store.View()), subjectID, keys, TopKeys(order, cfg.maxSimultaneous), ids, now)
        && store.View() == old(store.View()).(decisions := PutDecisions(old(store.decisions), r.value))
    {
      order := [];
      if subjectID == "" { return Err(NoSubject), order; }
      var candidates := GatherCandidates(subjectID, attrs, keys);
      var sorted := SortByScore(candidates);
      order := sorted;
      var selected := Select(subjectID, attrs, keys, sorted);
      var out := DecideFlags(subjectID, keys, selected, ids, now);
      return Ok(out), order;
    }

    /** The loop over the requested flags: one stored decision per known flag. */
    method DecideFlags(subjectID: string, keys: seq<string>, selected: map<string, Experiment>,
                       ids: seq<string>, now: Time) returns (out: seq<Decision>)
      requires Keyed(store.View()) && OneActive(store.View()) && |keys| <= |ids|
      requires forall k :: k in selected ==> ActiveFor(store.View(), k) == Some(selected[k])
      modifies store`decisions
      ensures out == Decisions(cfg, old(store.View()), subjectID, keys, selected.Keys, ids, now)
      ensures store.View() == old(store.View()).(decisions := PutDecisions(old(store.decisions), out))
    {
      out := [];
      ghost var w := store.View();
      for i := 0 to |keys|
        invariant out == Decisions(cfg, w, subjectID, keys[..i], selected.Keys, ids, now)
        invariant store.View() == w.(decisions := PutDecisions(w.decisions, out))
      {
        assert keys[..i + 1][..i] == keys[..i];
        var key := keys[i];
        if key !in store.flags { continue; }
        SameActive(w, store.View());
        var d := DecideFlag(subjectID, key, selected, ids[|out|], now);
        assert d == DecisionFor(cfg, w, subjectID, key, selected.Keys, ids[|out|], now);
        assert (out + [d])[..|out|] == out;
        store.decisions := store.decisions[d.id := d];
        out := out + [d];
      }
      assert keys[..|keys|] == keys;
    }

    // ---- Guardrails --------------------------------------------------------

    /** The report on a stored experiment; variants are listed in any order. */
    method BuildReport(id: string, from: Time, to: Time, rows: seq<AttributedEvent>)
      returns (r: Result<seq<Reports.VariantReport>, Failure>)
      ensures r.Err? <==> id !in store.experiments
      ensures r.Err? ==> r.error == NotFound
      ensures r.Ok? ==> Reports.IsReport(r.value, VariantNames(store.experiments[id].variants), rows, id, from, to)
    {
      if id !in store.experiments { return Err(NotFound); }
      var report := Reports.BuildReport(VariantNames(store.experiments[id].variants), rows, id, from, to);
      return Ok(report);
    }

    /** The metric of one rule over its window. */
    method Measure(e: Experiment, rule: GuardrailRule, at: Time, rows: seq<AttributedEvent>) returns (actual: real)
      ensures Measured(e, rule, at, rows, actual)
    {
      hide Reports.IsReport, Reports.IsMaxDelta;
      var report := Reports.BuildReport(VariantNames(e.variants), rows, e.id, at - rule.windowSeconds * SECOND, at);
      actual := Reports.GuardrailMetric(report, rule.metricKey);
      assert Yields(report, e, rule, at, rows, actual);
    }

    /** One turn of the rule loop: a breach is logged; then its incident is named, which may
        divide by zero, and the rule fires if the incident is new. */
    method EvaluateRule(path: Path, e: Experiment, i: nat, at: Time, actual: real, log: seq<GuardrailTrigger>)
      returns (newLog: seq<GuardrailTrigger>, turn: Turn)
      requires i < |e.guardrails|
      modifies store`experiments, store`incidents, store`audit
      ensures newLog == log + if Breaches(e.guardrails[i], actual)
                              then [GuardrailTrigger(e.guardrails[i], actual, at)] else []
      ensures turn == Crashed <==> Breaches(e.guardrails[i], actual) && !Divisible(path, e.guardrails[i])
      ensures turn == Pausing <==>
        (Breaches(e.guardrails[i], actual) && Divisible(path, e.guardrails[i])
         && IncidentKey(path, e.id, e.guardrails[i], at) !in old(store.incidents))
      ensures turn != Pausing ==> store.View() == old(store.View())
      ensures turn == Pausing ==> store.View() == PausedBy(old(store.View()), path, e, i, at, newLog)
    {
      var gr := e.guardrails[i];
      if actual <= gr.threshold || gr.action != PAUSE { return log, Passed; }
      newLog := log + [GuardrailTrigger(gr, actual, at)];
      if path == Scan && gr.windowSeconds == 0 { return newLog, Crashed; }
      var key := IncidentKey(path, e.id, gr, at);
      var inserted := store.AddGuardrailTrigger(key);
      if !inserted {
        assert old(store.incidents) + {key} == old(store.incidents);
        return newLog, Passed;
      }
      store.PutExperiment(e.(status := Paused, updatedAt := at, guardrailLog := newLog));
      store.audit := store.audit + [Audit(e.id, GuardrailTriggered, "system", Some(key))];
      return newLog, Pausing;
    }

    /** Rules are taken in order until one ends the pass. */
    method RunRules(path: Path, e: Experiment, at: Time, rows: seq<AttributedEvent>)
      returns (ghost actuals: seq<real>, ended: Option<nat>, turn: Turn, log: seq<GuardrailTrigger>)
      modifies store`experiments, store`incidents, store`audit
      ensures ended.Some? ==>
        && Stopped(old(store.View()), path, e, at, rows, actuals, ended.value, log)
        && (turn == Crashed <==> Crashes(path, e, ended.value, actuals))
        && store.View() == if turn == Crashed then old(store.View())
                           else PausedBy(old(store.View()), path, e, ended.value, at, log)
      ensures ended.None? ==>
        && Progress(old(store.View()), path, e, at, rows, actuals, |e.guardrails|, log)
        && store.View() == old(store.View()) && turn == Passed
    {
      hide Measured;
      ghost var w := store.View();
      actuals := seq(|e.guardrails|, i => 0.0);
      log := e.guardrailLog;
      for i := 0 to |e.guardrails|
        invariant Progress(w, path, e, at, rows, actuals, i, log)
        invariant store.View() == w
      {
        var actual := Measure(e, e.guardrails[i], at, rows);
        ghost var before := log;
        log, turn := EvaluateRule(path, e, i, at, actual, log);
        ProgressNext(w, path, e, at, rows, actuals, i, before, actual, log);
        actuals := actuals[i := actual];
        if turn != Passed { return actuals, Some(i), turn, log; }
      }
      return actuals, None, Passed, log;
    }

    /** The evaluation that jobs and the scan share, over a running experiment. `actuals` holds
        the value each rule was measured at, up to where the rules stopped. */
    method EvaluateRules(path: Path, e: Experiment, at: Time, rows: seq<AttributedEvent>)
      returns (crashed: bool, ghost actuals: seq<real>)
      requires e.id in store.experiments && store.experiments[e.id] == e && e.status == Running
      modifies store`experiments, store`incidents, store`audit
      ensures |actuals| == |e.guardrails|
      ensures store.View() == GuardrailPass(old(store.View()), path, e.id, at, actuals)
      ensures PassMeasured(old(store.View()), path, Pass(e.id, at, actuals), rows)
      ensures crashed <==> PassCrashes(old(store.View()), path, e, at, actuals)
    {
      ghost var w := store.View();
      var ended, turn, log;
      actuals, ended, turn, log := RunRules(path, e, at, rows);
      crashed := turn == Crashed;
      if ended.Some? {
        PassEnds(w, path, e, at, actuals, ended.value);
      } else {
        NoFiring(w, path, e, at, actuals);
      }
    }

    method EvaluateGuardrailForExperimentWindow(id: string, to: Time, rows: seq<AttributedEvent>)
      returns (err: Option<Failure>, ghost actuals: seq<real>)
      requires Keyed(store.View())
      modifies store`experiments, store`incidents, store`audit
      ensures err == if id in old(store.experiments) then None else Some(NotFound)
      ensures id in old(store.experiments) ==>
        |actuals| == |old(store.experiments)[id].guardrails|
        && PassAllowed(old(store.View()), Worker, Pass(id, to, actuals), rows)
        && store.View() == GuardrailPass(old(store.View()), Worker, id, to, actuals)
      ensures id !in old(store.experiments) ==> store.View() == old(store.View())
    {
      actuals := [];
      if id !in store.experiments { return Some(NotFound), actuals; }
      var e := store.experiments[id];
      actuals := seq(|e.guardrails|, i => 0.0);
      if e.status != Running { return None, actuals; }
      var crashed;
      ghost var w := store.View();
      crashed, actuals := EvaluateRules(Worker, e, to, rows);
      WorkerNeverCrashes(w, e, to, actuals);
      return None, actuals;
    }

    /** The scan: one pass over each experiment that was running, in any order, until one
        crashes. `passes` are those carried through, `last` the one that crashed. */
    method EvaluateGuardrails(now: Time, rows: seq<AttributedEvent>)
      returns (crashed: bool, ghost passes: seq<Pass>, ghost last: Option<Pass>)
      requires Keyed(store.View())
      modifies store`experiments, store`incidents, store`audit
      ensures Passes(old(store.View()), Scan, rows, passes, store.View())
      ensures forall i :: 0 <= i < |passes| ==> passes[i].at == now
      ensures !crashed ==> last.None? && Lists(PassIDs(passes), RunningIDs(old(store.View())))
      ensures crashed ==> last.Some? && last.value.at == now && CrashedOn(store.View(), Scan, last.value, rows)
      ensures crashed ==> NoDuplicates(PassIDs(passes) + [last.value.id])
      ensures crashed ==>
        forall id :: id in PassIDs(passes) + [last.value.id] ==> id in RunningIDs(old(store.View()))
    {
      hide Passes, MeasuredUpTo, GuardrailPass, FirstEnding, PassAllowed, PassMeasured, PassCrashes, CrashedOn;
      hide Scanning, RunningIDs;
      var list := store.experiments;
      passes, last := [], None;
      ghost var w := store.View();
      var rest := list.Keys;
      ScanningStart(w, now, rows);
      while rest != {}
        invariant Scanning(w, now, rows, rest, passes, store.View())
        invariant rest <= list.Keys
        decreases |rest|
      {
        var id :| id in rest;
        var e := list[id];
        ScanningKnows(w, now, rows, rest, id, passes, store.View());
        if e.status == Running {
          ghost var before := store.View();
          var broken;
          ghost var actuals;
          broken, actuals := EvaluateRules(Scan, e, now, rows);
          ghost var pass := Pass(id, now, actuals);
          PassIs(before, Scan, e, now, actuals, rows);
          if broken {
            ScanningCrash(w, now, rows, rest, passes, before, pass);
            return true, passes, Some(pass);
          }
          ScanningNext(w, now, rows, rest, passes, before, pass, store.View());
          passes := passes + [pass];
        } else {
          ScanningSkip(w, now, rows, rest, id, passes, store.View());
        }
        rest := rest - {id};
      }
      ScanningEnd(w, now, rows, passes, store.View());
      return false, passes, None;
    }
  }

  /** How one turn of the rule loop leaves the pass: it goes on, it has stored a pause, or it
      has divided by zero. */
  datatype Turn = Passed | Pausing | Crashed

  datatype Pass = Pass(id: string, at: Time, actuals: seq<real>)

  function PassIDs(passes: seq<Pass>): seq<string> {
    seq(|passes|, i requires 0 <= i < |passes| => passes[i].id)
  }

  ghost function RunningIDs(w: World): set<string> {
    set id | id in w.experiments && w.experiments[id].status == Running
  }

  /** A pass that was carried through: measured, and not crashed. */
  ghost predicate PassAllowed(w: World, path: Path, p: Pass, rows: seq<AttributedEvent>) {
    p.id in w.experiments && |w.experiments[p.id].guardrails| == |p.actuals|
    && (w.experiments[p.id].status == Running ==>
          PassMeasured(w, path, p, rows) && !PassCrashes(w, path, w.experiments[p.id], p.at, p.actuals))
  }

  /** The pass over the running experiment was measured, and crashed. */
  ghost predicate CrashedOn(w: World, path: Path, p: Pass, rows: seq<AttributedEvent>) {
    p.id in w.experiments && |w.experiments[p.id].guardrails| == |p.actuals|
    && w.experiments[p.id].status == Running
    && PassMeasured(w, path, p, rows) && PassCrashes(w, path, w.experiments[p.id], p.at, p.actuals)
  }

  /** The rules were measured at the pass's values, up to the first that ends it. */
  ghost predicate PassMeasured(w: World, path: Path, p: Pass, rows: seq<AttributedEvent>)
    requires p.id in w.experiments && |w.experiments[p.id].guardrails| == |p.actuals|
  {
    var e := w.experiments[p.id];
    var first := FirstEnding(w, path, e, 0, p.at, p.actuals);
    MeasuredUpTo(e, p.at, rows, p.actuals, if first.Some? then first.value + 1 else |p.actuals|)
  }

  lemma PassIs(w: World, path: Path, e: Experiment, at: Time, actuals: seq<real>, rows: seq<AttributedEvent>)
    requires e.id in w.experiments && w.experiments[e.id] == e && e.status == Running
    requires |actuals| == |e.guardrails| && PassMeasured(w, path, Pass(e.id, at, actuals), rows)
    ensures if PassCrashes(w, path, e, at, actuals)
      then CrashedOn(w, path, Pass(e.id, at, actuals), rows) && GuardrailPass(w, path, e.id, at, actuals) == w
      else PassAllowed(w, path, Pass(e.id, at, actuals), rows)
  {
    hide PassMeasured;
  }

  /** A worker's pass never crashes. */
  lemma WorkerNeverCrashes(w: World, e: Experiment, at: Time, actuals: seq<real>)
    requires |actuals| == |e.guardrails|
    ensures !PassCrashes(w, Worker, e, at, actuals)
  {
  }

  /** The passes, one after the other, lead from `w` to `after`. */
  ghost predicate Passes(w: World, path: Path, rows: seq<AttributedEvent>, passes: seq<Pass>, after: World) {
    if passes == [] then after == w
    else
      var n := |passes| - 1;
      exists mid :: Passes(w, path, rows, passes[..n], mid) && PassAllowed(mid, path, passes[n], rows)
        && after == GuardrailPass(mid, path, passes[n].id, passes[n].at, passes[n].actuals)
  }

  /** The scan has passed over the running experiments outside `rest`, and left `rest` alone. */
  ghost predicate Scanning(w: World, now: Time, rows: seq<AttributedEvent>, rest: set<string>,
                           passes: seq<Pass>, after: World) {
    && rest <= w.experiments.Keys == after.experiments.Keys && Keyed(after)
    && (forall id :: id in rest ==> after.experiments[id] == w.experiments[id])
    && Passes(w, Scan, rows, passes, after) && (forall i :: 0 <= i < |passes| ==> passes[i].at == now)
    && Lists(PassIDs(passes), RunningIDs(w) - rest)
  }

  lemma ScanningStart(w: World, now: Time, rows: seq<AttributedEvent>)
    requires Keyed(w)
    ensures Scanning(w, now, rows, w.experiments.Keys, [], w)
  {
    assert RunningIDs(w) - w.experiments.Keys == {};
  }

  lemma ScanningSkip(w: World, now: Time, rows: seq<AttributedEvent>, rest: set<string>, id: string,
                     passes: seq<Pass>, after: World)
    requires Scanning(w, now, rows, rest, passes, after) && id in rest && w.experiments[id].status != Running
    ensures Scanning(w, now, rows, rest - {id}, passes, after)
  {
    hide Passes, PassMeasured;
    assert RunningIDs(w) - (rest - {id}) == RunningIDs(w) - rest;
  }

  lemma ScanningEnd(w: World, now: Time, rows: seq<AttributedEvent>, passes: seq<Pass>, after: World)
    requires Scanning(w, now, rows, {}, passes, after)
    ensures Passes(w, Scan, rows, passes, after) && Lists(PassIDs(passes), RunningIDs(w))
    ensures forall i :: 0 <= i < |passes| ==> passes[i].at == now
  {
    hide Passes, PassMeasured;
    assert RunningIDs(w) - {} == RunningIDs(w);
  }

  lemma ScanningNext(w: World, now: Time, rows: seq<AttributedEvent>, rest: set<string>, passes: seq<Pass>,
                     before: World, p: Pass, after: World)
    requires Scanning(w, now, rows, rest, passes, before) && p.id in rest && w.experiments[p.id].status == Running
    requires p.at == now && PassAllowed(before, Scan, p, rows)
    requires after == GuardrailPass(before, Scan, p.id, now, p.actuals)
    ensures Scanning(w, now, rows, rest - {p.id}, passes + [p], after)
  {
    hide Passes, PassMeasured, GuardrailPass;
    PassesNext(w, Scan, rows, passes, before, p, after);
    PassKeeps(before, Scan, p.id, now, p.actuals);
    PassIDsNext(passes, p, RunningIDs(w), rest);
  }

  /** What the scan has not looked at yet is as it was. */
  lemma ScanningKnows(w: World, now: Time, rows: seq<AttributedEvent>, rest: set<string>, id: string,
                      passes: seq<Pass>, after: World)
    requires Scanning(w, now, rows, rest, passes, after) && id in rest
    ensures id in after.experiments && id in w.experiments && after.experiments[id] == w.experiments[id]
    ensures w.experiments[id].id == id
  {
    hide Passes;
  }

  lemma ScanningCrash(w: World, now: Time, rows: seq<AttributedEvent>, rest: set<string>, passes: seq<Pass>,
                      after: World, p: Pass)
    requires Scanning(w, now, rows, rest, passes, after) && p.id in rest && w.experiments[p.id].status == Running
    ensures Passes(w, Scan, rows, passes, after) && forall i :: 0 <= i < |passes| ==> passes[i].at == now
    ensures NoDuplicates(PassIDs(passes) + [p.id])
    ensures forall id :: id in PassIDs(passes) + [p.id] ==> id in RunningIDs(w)
  {
    hide Passes;
    NoDuplicatesConcat(PassIDs(passes), [p.id]);
  }

  lemma PassIDsNext(passes: seq<Pass>, p: Pass, all: set<string>, rest: set<string>)
    requires Lists(PassIDs(passes), all - rest) && p.id in rest && p.id in all
    ensures Lists(PassIDs(passes + [p]), all - (rest - {p.id}))
  {
    NoDuplicatesConcat(PassIDs(passes), [p.id]);
    assert PassIDs(passes + [p]) == PassIDs(passes) + [p.id];
  }

  lemma PassesNext(w: World, path: Path, rows: seq<AttributedEvent>, passes: seq<Pass>,
                   mid: World, p: Pass, after: World)
    requires Passes(w, path, rows, passes, mid) && PassAllowed(mid, path, p, rows)
    requires after == GuardrailPass(mid, path, p.id, p.at, p.actuals)
    ensures Passes(w, path, rows, passes + [p], after)
  {
    assert (passes + [p])[..|passes|] == passes;
  }

  lemma PassKeeps(w: World, path: Path, id: string, at: Time, actuals: seq<real>)
    requires Keyed(w) && id in w.experiments
    requires |w.experiments[id].guardrails| == |actuals|
    ensures var after := GuardrailPass(w, path, id, at, actuals);
      && Keyed(after) && after.experiments.Keys == w.experiments.Keys
      && forall k :: k in w.experiments && k != id ==> after.experiments[k] == w.experiments[k]
  {
  }

  function VariantNames(variants: seq<Variant>): seq<string> {
    seq(|variants|, i requires 0 <= i < |variants| => variants[i].name)
  }

  /** The listing reports the rule's window, and the metric taken from it is `actual`. */
  ghost predicate Yields(report: seq<Reports.VariantReport>, e: Experiment, rule: GuardrailRule, at: Time,
                         rows: seq<AttributedEvent>, actual: real)
  {
    && Reports.IsReport(report, VariantNames(e.variants), rows, e.id, at - rule.windowSeconds * SECOND, at)
    && Reports.IsMaxDelta(report, rule.metricKey, Reports.ControlValue(report, rule.metricKey), actual)
  }

  /** The value is what some listing of the report over the rule's window yields. */
  ghost predicate Measured(e: Experiment, rule: GuardrailRule, at: Time, rows: seq<AttributedEvent>, actual: real) {
    exists report :: Yields(report, e, rule, at, rows, actual)
  }

  lemma SameActive(w: World, v: World)
    requires Keyed(w) && OneActive(w) && v.experiments == w.experiments
    ensures forall k :: ActiveFor(v, k) == ActiveFor(w, k)
  {
    assert forall id, k :: IsActiveFor(v, id, k) <==> IsActiveFor(w, id, k);
    forall k ensures ActiveFor(v, k) == ActiveFor(w, k) {
      if FlagBusy(w, k) {
        var id :| IsActiveFor(w, id, k);
        assert IsActiveFor(v, id, k);
      }
    }
  }

  /** A sorted candidate's flag has its experiment. */
  lemma CandidateKnown(cfg: Settings, w: World, subjectID: string, attrs: Targeting.Attributes, keys: seq<string>,
                       sorted: seq<Candidate>, c: Candidate)
    requires Keyed(w) && IsOrder(cfg, w, subjectID, attrs, keys, sorted) && c in sorted
    ensures c.experimentID in w.experiments
    ensures ActiveFor(w, c.flagKey) == Some(w.experiments[c.experimentID])
  {
    MultisetMembers(sorted, Candidates(cfg, w, subjectID, attrs, keys));
    CandidatesQualify(cfg, w, subjectID, attrs, keys);
    ActiveForIs(w, c.flagKey);
  }

  /** The flags of the first k candidates, each with its experiment. */
  ghost predicate SelectedBy(w: World, order: seq<Candidate>, k: nat, selected: map<string, Experiment>) {
    && selected.Keys == TopKeys(order, k)
    && forall f :: f in selected ==> ActiveFor(w, f) == Some(selected[f])
  }

  lemma SelectedNext(w: World, order: seq<Candidate>, k: nat, selected: map<string, Experiment>)
    requires k < |order| && SelectedBy(w, order, k, selected)
    requires order[k].experimentID in w.experiments
    requires ActiveFor(w, order[k].flagKey) == Some(w.experiments[order[k].experimentID])
    ensures SelectedBy(w, order, k + 1, selected[order[k].flagKey := w.experiments[order[k].experimentID]])
  {
    assert order[..k + 1] == order[..k] + [order[k]];
  }

  lemma {:induction false} TriggersPrefix(rules: seq<GuardrailRule>, a: seq<real>, b: seq<real>, n: nat, at: Time)
    requires n <= |rules| == |a| == |b| && forall i :: 0 <= i < n ==> a[i] == b[i]
    ensures Triggers(rules, a, n, at) == Triggers(rules, b, n, at)
  {
    if n > 0 {
      TriggersPrefix(rules, a, b, n - 1, at);
    }
  }

  ghost predicate MeasuredUpTo(e: Experiment, at: Time, rows: seq<AttributedEvent>, actuals: seq<real>, n: nat)
    requires n <= |actuals| == |e.guardrails|
  {
    forall i :: 0 <= i < n ==> Measured(e, e.guardrails[i], at, rows, actuals[i])
  }

  ghost predicate QuietUpTo(w: World, path: Path, e: Experiment, at: Time, actuals: seq<real>, n: nat)
    requires n <= |actuals| == |e.guardrails|
  {
    forall i :: 0 <= i < n ==> !Ends(w, path, e, i, at, actuals)
  }

  /** The first n rules have been measured, none has ended the pass, and the log holds their
      breaches. */
  ghost predicate Progress(w: World, path: Path, e: Experiment, at: Time, rows: seq<AttributedEvent>,
                           actuals: seq<real>, n: nat, log: seq<GuardrailTrigger>)
  {
    && n <= |actuals| == |e.guardrails|
    && MeasuredUpTo(e, at, rows, actuals, n)
    && QuietUpTo(w, path, e, at, actuals, n)
    && log == e.guardrailLog + Triggers(e.guardrails, actuals, n, at)
  }

  /** Rule i is the first to end the pass. */
  ghost predicate Stopped(w: World, path: Path, e: Experiment, at: Time, rows: seq<AttributedEvent>,
                          actuals: seq<real>, i: nat, log: seq<GuardrailTrigger>)
  {
    && i < |actuals| == |e.guardrails|
    && MeasuredUpTo(e, at, rows, actuals, i + 1)
    && QuietUpTo(w, path, e, at, actuals, i)
    && Ends(w, path, e, i, at, actuals)
    && log == e.guardrailLog + Triggers(e.guardrails, actuals, i + 1, at)
  }

  lemma ProgressNext(w: World, path: Path, e: Experiment, at: Time, rows: seq<AttributedEvent>,
                     actuals: seq<real>, i: nat, before: seq<GuardrailTrigger>, actual: real,
                     log: seq<GuardrailTrigger>)
    requires i < |e.guardrails|
    requires Progress(w, path, e, at, rows, actuals, i, before) && Measured(e, e.guardrails[i], at, rows, actual)
    requires log == before + if Breaches(e.guardrails[i], actual)
                             then [GuardrailTrigger(e.guardrails[i], actual, at)] else []
    ensures var next := actuals[i := actual];
      if Ends(w, path, e, i, at, next) then Stopped(w, path, e, at, rows, next, i, log)
      else Progress(w, path, e, at, rows, next, i + 1, log)
  {
    hide Measured;
    var next := actuals[i := actual];
    RuleMeasured(w, path, e, at, rows, actuals, i, actual);
    assert log == e.guardrailLog + Triggers(e.guardrails, next, i + 1, at);
    if !Ends(w, path, e, i, at, next) {
      QuietNext(w, path, e, at, next, i);
    }
  }

  /** Measuring the next rule disturbs nothing known about the earlier ones. */
  lemma RuleMeasured(w: World, path: Path, e: Experiment, at: Time, rows: seq<AttributedEvent>,
                     actuals: seq<real>, i: nat, actual: real)
    requires i < |actuals| == |e.guardrails|
    requires MeasuredUpTo(e, at, rows, actuals, i) && Measured(e, e.guardrails[i], at, rows, actual)
    requires QuietUpTo(w, path, e, at, actuals, i)
    ensures MeasuredUpTo(e, at, rows, actuals[i := actual], i + 1)
    ensures QuietUpTo(w, path, e, at, actuals[i := actual], i)
    ensures Triggers(e.guardrails, actuals[i := actual], i, at) == Triggers(e.guardrails, actuals, i, at)
  {
    hide Measured;
    TriggersPrefix(e.guardrails, actuals, actuals[i := actual], i, at);
    var next := actuals[i := actual];
    forall j | 0 <= j < i ensures !Ends(w, path, e, j, at, next) {
      assert next[j] == actuals[j] && !Ends(w, path, e, j, at, actuals);
    }
  }

  /** The world after a pause persisted for rule i with the given log. */
  function PausedBy(w: World, path: Path, e: Experiment, i: nat, at: Time, log: seq<GuardrailTrigger>): World
    requires i < |e.guardrails| && Divisible(path, e.guardrails[i])
  {
    var key := IncidentKey(path, e.id, e.guardrails[i], at);
    Stored(w, e.(status := Paused, updatedAt := at, guardrailLog := log)).(
      incidents := w.incidents + {key},
      audit := w.audit + [Audit(e.id, GuardrailTriggered, "system", Some(key))])
  }

  lemma PassEnds(w: World, path: Path, e: Experiment, at: Time, actuals: seq<real>, i: nat)
    requires i < |e.guardrails| == |actuals|
    requires Ends(w, path, e, i, at, actuals) && QuietUpTo(w, path, e, at, actuals, i)
    requires e.id in w.experiments && w.experiments[e.id] == e && e.status == Running
    ensures FirstEnding(w, path, e, 0, at, actuals) == Some(i)
    ensures PassCrashes(w, path, e, at, actuals) <==> Crashes(path, e, i, actuals)
    ensures GuardrailPass(w, path, e.id, at, actuals)
      == if Crashes(path, e, i, actuals) then w
         else PausedBy(w, path, e, i, at, e.guardrailLog + Triggers(e.guardrails, actuals, i + 1, at))
  {
  }

  lemma QuietNext(w: World, path: Path, e: Experiment, at: Time, actuals: seq<real>, i: nat)
    requires i < |e.guardrails| == |actuals|
    requires !Ends(w, path, e, i, at, actuals) && QuietUpTo(w, path, e, at, actuals, i)
    ensures QuietUpTo(w, path, e, at, actuals, i + 1)
  {
  }

  lemma NoFiring(w: World, path: Path, e: Experiment, at: Time, actuals: seq<real>)
    requires |e.guardrails| == |actuals|
    requires QuietUpTo(w, path, e, at, actuals, |actuals|)
    requires e.id in w.experiments && w.experiments[e.id] == e
    ensures FirstEnding(w, path, e, 0, at, actuals) == None
    ensures GuardrailPass(w, path, e.id, at, actuals) == w
  {
  }
}
