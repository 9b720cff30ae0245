/** What deciding records, said of the stored flags and experiments and of the draws: who is
    taken into an experiment, who is left out of it, and what either is told. */
module DecideLaws {
  import opened Common
  import opened Assignment
  import opened Selection
  import opened Events
  import opened Experiments
  import opened ExperimentRuns
  import opened ExperimentLaws
  import opened VariantLaws
  import Targeting

  // ---- Who qualifies -------------------------------------------------------

  /** The experiment runs, its rule accepts the subject, and the subject's draw for the audience
      is among the first hundred per percent. */
  predicate Takes(cfg: Settings, e: Experiment, subjectID: string, attrs: Targeting.Attributes) {
    && e.status == Running
    && Targeting.EvaluateRule(e.targeting, attrs) == Ok(true)
    && Draw(cfg.hash, subjectID + "|" + e.id + "|audience|" + cfg.salt) < 100 * e.audiencePercent
  }

  /** The draw by which a subject's experiments compete, low draws first. */
  function Place(cfg: Settings, e: Experiment, subjectID: string): nat {
    Draw(cfg.hash, subjectID + "|" + e.id + "|participation|" + cfg.salt)
  }

  lemma TakesExactly(cfg: Settings, e: Experiment, subjectID: string, attrs: Targeting.Attributes)
    ensures Qualifies(cfg, e, subjectID, attrs) <==> Takes(cfg, e, subjectID, attrs)
    ensures forall key :: CandidateOf(cfg, e, subjectID, key) == Candidate(key, e.id, Place(cfg, e, subjectID))
  {
    DrawIsResidue(cfg.hash, subjectID + "|" + e.id + "|audience|" + cfg.salt);
    DrawIsResidue(cfg.hash, subjectID + "|" + e.id + "|participation|" + cfg.salt);
    hide Draw, Residue, Targeting.EvaluateRule;
  }

  /** The experiments of the requested flags that take the subject. */
  ghost function Takers(cfg: Settings, w: World, subjectID: string, attrs: Targeting.Attributes, keys: seq<string>)
    : set<string>
  {
    set id | id in w.experiments && w.experiments[id].flagKey in keys
             && Takes(cfg, w.experiments[id], subjectID, attrs)
  }

  // ---- One decision --------------------------------------------------------

  /** The variant and value are those of the first variant past the subject's scaled draw. */
  ghost predicate Drawn(cfg: Settings, e: Experiment, d: Decision) {
    exists i: nat ::
      && FirstPast(e.variants, VariantDraw(cfg, e, d.subjectID) * e.audiencePercent / 10000, i)
      && d.variantName == e.variants[i].name && d.value == e.variants[i].value
  }

  /** Inside an experiment: it is the flag's, takes the subject, and gave the drawn variant of
      its present version. */
  ghost predicate Admitted(cfg: Settings, w: World, attrs: Targeting.Attributes, d: Decision) {
    && d.experimentID in w.experiments
    && var e := w.experiments[d.experimentID];
    && e.flagKey == d.flagKey && Takes(cfg, e, d.subjectID, attrs)
    && d.configVersion == e.version && Drawn(cfg, e, d)
  }

  /** Outside experiments: exactly the flag's default. */
  predicate Defaulted(w: World, d: Decision)
    requires d.flagKey in w.flags
  {
    d.value == w.flags[d.flagKey].defaultValue && d.variantName == "" && d.configVersion == 0
  }

  /** What a decision answers to one requested flag. */
  ghost predicate Answers(cfg: Settings, w: World, subjectID: string, attrs: Targeting.Attributes,
                          keys: seq<string>, now: Time, d: Decision) {
    && d.subjectID == subjectID && d.createdAt == now && !d.exposed
    && d.flagKey in keys && d.flagKey in w.flags
    && if d.experimentID == "" then Defaulted(w, d) else Admitted(cfg, w, attrs, d)
  }

  lemma GivenVariant(cfg: Settings, e: Experiment, base: Decision)
    requires ValidConfig(e.audiencePercent, e.variants)
    ensures var d := DecisionIn(cfg, base, e);
      && Drawn(cfg, e, d) && d.experimentID == e.id && d.configVersion == e.version
      && d == base.(value := d.value, experimentID := d.experimentID, variantName := d.variantName,
                    configVersion := d.configVersion)
  {
    VariantExactly(cfg, e, base.subjectID);
    hide VariantFor, FirstPast, VariantDraw;
  }

  lemma SelectedTakes(cfg: Settings, w: World, subjectID: string, attrs: Targeting.Attributes, all: seq<string>,
                      order: seq<Candidate>, key: string)
    requires Sound(cfg, w) && IsOrder(cfg, w, subjectID, attrs, all, order)
    requires key in TopKeys(order, cfg.maxSimultaneous)
    ensures ActiveFor(w, key).Some?
    ensures var e := ActiveFor(w, key).value;
      && e.id != "" && e.id in w.experiments && w.experiments[e.id] == e && e.flagKey == key
      && Takes(cfg, e, subjectID, attrs) && ValidConfig(e.audiencePercent, e.variants)
  {
    TopKeyActive(cfg, w, subjectID, attrs, all, order, key);
    ActiveForIs(w, key);
    var j := TopKeyFrom(order, cfg.maxSimultaneous, key);
    assert order[j] in order;
    MultisetMembers(order, Candidates(cfg, w, subjectID, attrs, all));
    CandidatesQualify(cfg, w, subjectID, attrs, all);
    TakesExactly(cfg, ActiveFor(w, key).value, subjectID, attrs);
    hide Takes, Qualifies, Candidates, TopKeys;
  }

  lemma DecisionAnswers(cfg: Settings, w: World, subjectID: string, attrs: Targeting.Attributes, all: seq<string>,
                        order: seq<Candidate>, key: string, id: string, now: Time)
    requires Sound(cfg, w) && key in w.flags && key in all && IsOrder(cfg, w, subjectID, attrs, all, order)
    ensures var d := DecisionFor(cfg, w, subjectID, key, TopKeys(order, cfg.maxSimultaneous), id, now);
      d.id == id && d.flagKey == key && Answers(cfg, w, subjectID, attrs, all, now, d)
  {
    if key in TopKeys(order, cfg.maxSimultaneous) {
      SelectedTakes(cfg, w, subjectID, attrs, all, order, key);
      GivenVariant(cfg, ActiveFor(w, key).value, DefaultDecision(w.flags[key], subjectID, key, id, now));
    }
    hide Sound, IsOrder, TopKeys, DecisionIn, Takes, Drawn, ActiveFor, ValidConfig;
  }

  /** Known keys in turn, each answered. */
  lemma {:induction false} DecisionsAnswer(cfg: Settings, w: World, subjectID: string, attrs: Targeting.Attributes,
      all: seq<string>, order: seq<Candidate>, keys: seq<string>, ids: seq<string>, now: Time)
    requires Sound(cfg, w) && |keys| <= |ids| && IsOrder(cfg, w, subjectID, attrs, all, order)
    requires forall k :: k in keys ==> k in all
    ensures var ds := Decisions(cfg, w, subjectID, keys, TopKeys(order, cfg.maxSimultaneous), ids, now);
      && (forall i :: 0 <= i < |ds| ==> ds[i].id == ids[i] && Answers(cfg, w, subjectID, attrs, all, now, ds[i]))
      && forall k :: k in keys && k in w.flags ==> exists i :: 0 <= i < |ds| && ds[i].flagKey == k
  {
    hide Sound, IsOrder, TopKeys, Answers, DecisionFor;
    if keys != [] {
      var n := |keys| - 1;
      var top := TopKeys(order, cfg.maxSimultaneous);
      assert keys == keys[..n] + [keys[n]];
      DecisionsAnswer(cfg, w, subjectID, attrs, all, order, keys[..n], ids, now);
      var before := Decisions(cfg, w, subjectID, keys[..n], top, ids, now);
      var ds := Decisions(cfg, w, subjectID, keys, top, ids, now);
      if keys[n] in w.flags {
        var d := DecisionFor(cfg, w, subjectID, keys[n], top, ids[|before|], now);
        assert ds == before + [d];
        DecisionAnswers(cfg, w, subjectID, attrs, all, order, keys[n], ids[|before|], now);
        NextAnswered(w, keys[..n], keys[n], before, d);
        forall i | 0 <= i < |ds| ensures ds[i].id == ids[i] && Answers(cfg, w, subjectID, attrs, all, now, ds[i]) {
          assert ds[i] == if i < |before| then before[i] else d;
        }
      } else {
        assert ds == before;
      }
      hide Decisions;
    }
  }

  lemma NextAnswered(w: World, keys: seq<string>, key: string, before: seq<Decision>, d: Decision)
    requires forall k :: k in keys && k in w.flags ==> exists i :: 0 <= i < |before| && before[i].flagKey == k
    requires d.flagKey == key
    ensures forall k :: k in keys + [key] && k in w.flags ==>
      exists i :: 0 <= i < |before + [d]| && (before + [d])[i].flagKey == k
  {
    var ds := before + [d];
    forall k | k in keys + [key] && k in w.flags ensures exists i :: 0 <= i < |ds| && ds[i].flagKey == k {
      if k == key {
        assert ds[|before|] == d;
      } else {
        var i :| 0 <= i < |before| && before[i].flagKey == k;
        assert ds[i] == before[i];
      }
    }
  }

  // ---- Who is selected -----------------------------------------------------

  /** The takers that come before experiment `id`. */
  ghost function Before(cfg: Settings, w: World, subjectID: string, takers: set<string>, id: string): set<string>
    requires takers <= w.experiments.Keys && id in w.experiments
  {
    set t | t in takers && Place(cfg, w.experiments[t], subjectID) < Place(cfg, w.experiments[id], subjectID)
  }

  /** The other takers that come before it or tie with it. */
  ghost function NotAfter(cfg: Settings, w: World, subjectID: string, takers: set<string>, id: string): set<string>
    requires takers <= w.experiments.Keys && id in w.experiments
  {
    set t | t in takers && t != id
            && Place(cfg, w.experiments[t], subjectID) <= Place(cfg, w.experiments[id], subjectID)
  }

  /** Entry i of the sorted candidates is the experiment ids[i], at its place. */
  ghost predicate Stands(cfg: Settings, w: World, subjectID: string, order: seq<Candidate>, ids: seq<string>, i: nat)
    requires i < |order| == |ids|
  {
    && ids[i] == order[i].experimentID && ids[i] in w.experiments
    && order[i].flagKey == w.experiments[ids[i]].flagKey
    && order[i].score == Place(cfg, w.experiments[ids[i]], subjectID)
  }

  lemma CandidateStands(cfg: Settings, w: World, subjectID: string, attrs: Targeting.Attributes, keys: seq<string>,
                        c: Candidate)
    requires Sound(cfg, w) && c in Candidates(cfg, w, subjectID, attrs, keys)
    ensures c.experimentID in Takers(cfg, w, subjectID, attrs, keys)
    ensures var e := w.experiments[c.experimentID];
      c == Candidate(e.flagKey, e.id, Place(cfg, e, subjectID))
  {
    CandidatesQualify(cfg, w, subjectID, attrs, keys);
    ActiveForIs(w, c.flagKey);
    TakesExactly(cfg, ActiveFor(w, c.flagKey).value, subjectID, attrs);
    hide Takes, Qualifies, Candidates, CandidateOf, Place;
  }

  lemma TakerStands(cfg: Settings, w: World, subjectID: string, attrs: Targeting.Attributes, keys: seq<string>,
                    id: string)
    requires Sound(cfg, w) && id in Takers(cfg, w, subjectID, attrs, keys) && NoDuplicates(keys)
    ensures var e := w.experiments[id];
      Candidate(e.flagKey, id, Place(cfg, e, subjectID)) in Candidates(cfg, w, subjectID, attrs, keys)
  {
    var e := w.experiments[id];
    assert IsActiveFor(w, id, e.flagKey);
    ActiveForIs(w, e.flagKey);
    assert ActiveFor(w, e.flagKey) == Some(e);
    TakesExactly(cfg, e, subjectID, attrs);
    CandidatesList(cfg, w, subjectID, attrs, keys);
    assert CandidateOf(cfg, e, subjectID, e.flagKey) in CandidateSet(cfg, w, subjectID, attrs, KeySet(keys));
  }

  function ExperimentIDs(order: seq<Candidate>): seq<string> {
    seq(|order|, i requires 0 <= i < |order| => order[i].experimentID)
  }

  lemma EachStands(cfg: Settings, w: World, subjectID: string, attrs: Targeting.Attributes, keys: seq<string>,
                   order: seq<Candidate>)
    requires Sound(cfg, w) && IsOrder(cfg, w, subjectID, attrs, keys, order)
    ensures var ids := ExperimentIDs(order);
      && (forall i :: 0 <= i < |ids| ==> Stands(cfg, w, subjectID, order, ids, i))
      && forall id :: id in ids ==> id in Takers(cfg, w, subjectID, attrs, keys)
  {
    MultisetMembers(order, Candidates(cfg, w, subjectID, attrs, keys));
    var ids := ExperimentIDs(order);
    forall i | 0 <= i < |ids|
      ensures Stands(cfg, w, subjectID, order, ids, i) && ids[i] in Takers(cfg, w, subjectID, attrs, keys) {
      assert order[i] in order;
      CandidateStands(cfg, w, subjectID, attrs, keys, order[i]);
      StandsAt(cfg, w, subjectID, attrs, keys, order, i);
    }
    hide Sound, IsOrder, Takers, Stands, Candidates;
  }

  lemma StandsAt(cfg: Settings, w: World, subjectID: string, attrs: Targeting.Attributes, keys: seq<string>,
                 order: seq<Candidate>, i: nat)
    requires i < |order| && order[i].experimentID in Takers(cfg, w, subjectID, attrs, keys) && Keyed(w)
    requires var e := w.experiments[order[i].experimentID];
      order[i] == Candidate(e.flagKey, e.id, Place(cfg, e, subjectID))
    ensures Stands(cfg, w, subjectID, order, ExperimentIDs(order), i)
  {
    hide Place, Takes;
  }

  lemma StandDistinct(cfg: Settings, w: World, subjectID: string, order: seq<Candidate>)
    requires NoDuplicates(order)
    requires forall i :: 0 <= i < |order| ==> Stands(cfg, w, subjectID, order, ExperimentIDs(order), i)
    ensures NoDuplicates(ExperimentIDs(order))
  {
    hide Place;
    var ids := ExperimentIDs(order);
    forall i, j | 0 <= i < j < |ids| ensures ids[i] != ids[j] {
      assert Stands(cfg, w, subjectID, order, ids, i) && Stands(cfg, w, subjectID, order, ids, j);
      assert order[i] != order[j];
    }
  }

  /** The sorted candidates are the takers in the order of their places. */
  lemma TakersInOrder(cfg: Settings, w: World, subjectID: string, attrs: Targeting.Attributes, keys: seq<string>,
                      order: seq<Candidate>) returns (ids: seq<string>)
    requires Sound(cfg, w) && NoDuplicates(keys) && IsOrder(cfg, w, subjectID, attrs, keys, order)
    ensures |ids| == |order| && Lists(ids, Takers(cfg, w, subjectID, attrs, keys))
    ensures forall i :: 0 <= i < |ids| ==> Stands(cfg, w, subjectID, order, ids, i)
  {
    var cs := KeySetDistinct(cfg, w, subjectID, attrs, keys, order);
    MultisetMembers(order, Candidates(cfg, w, subjectID, attrs, keys));
    ids := ExperimentIDs(order);
    EachStands(cfg, w, subjectID, attrs, keys, order);
    StandDistinct(cfg, w, subjectID, order);
    forall id | id in Takers(cfg, w, subjectID, attrs, keys) ensures id in ids {
      TakerStands(cfg, w, subjectID, attrs, keys, id);
      var c := Candidate(w.experiments[id].flagKey, id, Place(cfg, w.experiments[id], subjectID));
      var i :| 0 <= i < |order| && order[i] == c;
      assert ids[i] == id;
    }
    hide Sound, IsOrder, Takers, Place, Candidates, CandidateSet, Stands, NoDuplicates, DistinctKeys;
  }

  /** Position j of the order has at least the strictly lower takers before it, and no more than
      the other takers that are not higher. */
  lemma PositionBounds(cfg: Settings, w: World, subjectID: string, takers: set<string>, order: seq<Candidate>,
                       ids: seq<string>, j: nat)
    requires takers <= w.experiments.Keys && |ids| == |order| && Sorted(order) && Lists(ids, takers) && j < |ids|
    requires forall i :: 0 <= i < |ids| ==> Stands(cfg, w, subjectID, order, ids, i)
    ensures ids[j] in w.experiments
    ensures |Before(cfg, w, subjectID, takers, ids[j])| <= j <= |NotAfter(cfg, w, subjectID, takers, ids[j])|
  {
    hide Place;
    var earlier := ids[..j];
    var members := set id | id in earlier;
    assert Stands(cfg, w, subjectID, order, ids, j);
    ListsIsMultiset(earlier, members);
    forall t | t in members ensures t in NotAfter(cfg, w, subjectID, takers, ids[j]) {
      var i :| 0 <= i < j && earlier[i] == t;
      assert Stands(cfg, w, subjectID, order, ids, i) && ids[i] in ids;
    }
    SubsetSize(members, NotAfter(cfg, w, subjectID, takers, ids[j]));
    forall t | t in Before(cfg, w, subjectID, takers, ids[j]) ensures t in members {
      assert t in ids;
      var i :| 0 <= i < |ids| && ids[i] == t;
      assert Stands(cfg, w, subjectID, order, ids, i);
      assert i < j;
      assert earlier[i] == t;
    }
    SubsetSize(Before(cfg, w, subjectID, takers, ids[j]), members);
  }

  lemma OneEntryPerFlag(order: seq<Candidate>, cs: set<Candidate>, i: nat, j: nat)
    requires Lists(order, cs) && DistinctKeys(cs) && i < |order| && j < |order|
    requires order[i].flagKey == order[j].flagKey
    ensures i == j
  {
    assert order[i] in order && order[j] in order;
  }

  /** A taker with fewer than k others at or below its place is selected; one with k or more
      strictly below is not. */
  lemma SelectedByPlace(cfg: Settings, w: World, subjectID: string, attrs: Targeting.Attributes, keys: seq<string>,
                        order: seq<Candidate>, id: string)
    requires Sound(cfg, w) && NoDuplicates(keys) && IsOrder(cfg, w, subjectID, attrs, keys, order)
    requires id in Takers(cfg, w, subjectID, attrs, keys)
    ensures var takers, k := Takers(cfg, w, subjectID, attrs, keys), cfg.maxSimultaneous;
      var key := w.experiments[id].flagKey;
      && (|NotAfter(cfg, w, subjectID, takers, id)| < k ==> key in TopKeys(order, k))
      && (|Before(cfg, w, subjectID, takers, id)| >= k ==> key !in TopKeys(order, k))
  {
    var takers, k := Takers(cfg, w, subjectID, attrs, keys), cfg.maxSimultaneous;
    var ids := TakersInOrder(cfg, w, subjectID, attrs, keys, order);
    var cs := KeySetDistinct(cfg, w, subjectID, attrs, keys, order);
    var key := w.experiments[id].flagKey;
    assert id in ids;
    var j: nat :| j < |ids| && ids[j] == id;
    assert Stands(cfg, w, subjectID, order, ids, j);
    PositionBounds(cfg, w, subjectID, takers, order, ids, j);
    hide TopKeys, Takers, Before, NotAfter, Place, Candidates, CandidateSet, Sound;
    if j < k {
      TopKeyAt(order, k, j);
    } else if key in TopKeys(order, k) {
      var i := TopKeyFrom(order, k, key);
      OneEntryPerFlag(order, cs, i, j);
    }
  }

  // ---- A step of a run -----------------------------------------------------

  /** `op` decides on a world that a run has reached. */
  ghost predicate Deciding(cfg: Settings, ops: seq<Op>, w: World, op: Op) {
    Run(cfg, ops, w) && op.Decide? && Enabled(cfg, w, op)
  }

  ghost function Added(cfg: Settings, w: World, op: Op): seq<Decision>
    requires op.Decide? && Enabled(cfg, w, op)
  {
    Decisions(cfg, w, op.subjectID, op.keys, TopKeys(op.order, cfg.maxSimultaneous), op.ids, op.now)
  }

  /** Deciding records exactly the decisions it returns, under ids of its supply in turn, and
      touches no other. */
  lemma AddedAreRecorded(cfg: Settings, ops: seq<Op>, w: World, op: Op)
    requires Deciding(cfg, ops, w, op)
    ensures var ds, after := Added(cfg, w, op), Apply(cfg, w, op).decisions;
      && |ds| <= |op.ids|
      && (forall i :: 0 <= i < |ds| ==>
            ds[i].id == op.ids[i] && op.ids[i] !in w.decisions && op.ids[i] in after && after[op.ids[i]] == ds[i])
      && (forall id :: id in after ==> id in w.decisions || id in op.ids[..|ds|])
      && forall id :: id in w.decisions ==> id in after && after[id] == w.decisions[id]
  {
    var ds := Added(cfg, w, op);
    RunSound(cfg, ops, w);
    DecisionsDeserved(cfg, w, op.subjectID, op.attrs, op.keys, op.order, op.keys, op.ids, op.now);
    hide Decisions, Sound, Run, IsOrder, Deserved;
    forall i | 0 <= i < |ds| ensures ds[i].id == op.ids[i] && op.ids[i] in op.ids[..|ds|] {
      assert op.ids[..|ds|][i] == op.ids[i];
    }
    forall i, j | 0 <= i < j < |ds| ensures ds[i].id != ds[j].id {
      assert op.ids[i] != op.ids[j];
    }
    forall i | 0 <= i < |ds| ensures op.ids[i] !in w.decisions {
      assert op.ids[i] in op.ids;
    }
    PutDecisionsMembers(w.decisions, ds);
    forall id | id in w.decisions ensures forall i :: 0 <= i < |ds| ==> ds[i].id != id {
    }
  }

  /** Every decision that deciding adds is about the subject and a requested known flag. Inside an
      experiment, that experiment is the flag's, runs, accepts the subject by rule and by
      audience, and the variant is the one drawn. Outside, the value is the flag's default. */
  lemma DecidedExactly(cfg: Settings, ops: seq<Op>, w: World, op: Op, id: string)
    requires Deciding(cfg, ops, w, op)
    requires id in Apply(cfg, w, op).decisions && id !in w.decisions
    ensures Answers(cfg, w, op.subjectID, op.attrs, op.keys, op.now, Apply(cfg, w, op).decisions[id])
  {
    RunSound(cfg, ops, w);
    AddedAreRecorded(cfg, ops, w, op);
    DecisionsAnswer(cfg, w, op.subjectID, op.attrs, op.keys, op.order, op.keys, op.ids, op.now);
    var ds := Added(cfg, w, op);
    hide Sound, Run, Apply, Answers, IsOrder, Decisions;
    var i :| 0 <= i < |ds| && op.ids[..|ds|][i] == id;
    assert op.ids[i] == id;
  }

  /** Some decision that the step adds for the flag is in that experiment (outside, if none). */
  ghost predicate Recorded(cfg: Settings, w: World, op: Op, key: string, experimentID: string)
    requires op.Decide? && Enabled(cfg, w, op)
  {
    exists id :: id in Apply(cfg, w, op).decisions && id !in w.decisions
      && Apply(cfg, w, op).decisions[id].flagKey == key && Apply(cfg, w, op).decisions[id].experimentID == experimentID
  }

  /** Every requested known flag gets a decision, inside or outside. */
  lemma EveryKnownFlagAnswered(cfg: Settings, ops: seq<Op>, w: World, op: Op, key: string)
    returns (experimentID: string)
    requires Deciding(cfg, ops, w, op) && key in op.keys && key in w.flags
    ensures Recorded(cfg, w, op, key, experimentID)
    ensures experimentID != "" <==> key in TopKeys(op.order, cfg.maxSimultaneous)
  {
    RunSound(cfg, ops, w);
    AddedAreRecorded(cfg, ops, w, op);
    DecisionsAnswer(cfg, w, op.subjectID, op.attrs, op.keys, op.order, op.keys, op.ids, op.now);
    DecisionsAnswerKeys(cfg, w, op.subjectID, op.attrs, op.keys, op.order, op.keys, op.ids, op.now);
    var ds := Added(cfg, w, op);
    hide Sound, Run, Apply, Answers, IsOrder, Decisions, TopKeys;
    var i :| 0 <= i < |ds| && ds[i].flagKey == key;
    experimentID := ds[i].experimentID;
    assert op.ids[i] in Apply(cfg, w, op).decisions;
  }

  lemma RecordedIn(cfg: Settings, ops: seq<Op>, w: World, op: Op, key: string, experimentID: string, id: string)
    requires Deciding(cfg, ops, w, op) && Recorded(cfg, w, op, key, experimentID) && experimentID != ""
    requires id in w.experiments && w.experiments[id].flagKey == key && w.experiments[id].status == Running
    ensures experimentID == id
  {
    var d :| d in Apply(cfg, w, op).decisions && d !in w.decisions
      && Apply(cfg, w, op).decisions[d].flagKey == key && Apply(cfg, w, op).decisions[d].experimentID == experimentID;
    DecidedExactly(cfg, ops, w, op, d);
    RunSound(cfg, ops, w);
    assert IsActiveFor(w, id, key) && IsActiveFor(w, experimentID, key);
  }

  /** An experiment that takes the subject, of a requested known flag, is used if fewer than k
      other takers have a place at or below its own, and its flag gets the default if k or more
      have a lower one. */
  lemma TakerUsed(cfg: Settings, ops: seq<Op>, w: World, op: Op, id: string)
    requires Deciding(cfg, ops, w, op) && NoDuplicates(op.keys)
    requires id in Takers(cfg, w, op.subjectID, op.attrs, op.keys) && w.experiments[id].flagKey in w.flags
    ensures var takers, k := Takers(cfg, w, op.subjectID, op.attrs, op.keys), cfg.maxSimultaneous;
      var key := w.experiments[id].flagKey;
      && (|NotAfter(cfg, w, op.subjectID, takers, id)| < k ==> Recorded(cfg, w, op, key, id))
      && (|Before(cfg, w, op.subjectID, takers, id)| >= k ==> Recorded(cfg, w, op, key, ""))
  {
    RunSound(cfg, ops, w);
    SelectedByPlace(cfg, w, op.subjectID, op.attrs, op.keys, op.order, id);
    var key := w.experiments[id].flagKey;
    var used := EveryKnownFlagAnswered(cfg, ops, w, op, key);
    if used != "" {
      RecordedIn(cfg, ops, w, op, key, used, id);
    }
  }

  /** When at most k experiments of the requested flags take the subject, it is in each of them. */
  lemma AllTakersUsed(cfg: Settings, ops: seq<Op>, w: World, op: Op, id: string)
    requires Deciding(cfg, ops, w, op) && NoDuplicates(op.keys)
    requires |Takers(cfg, w, op.subjectID, op.attrs, op.keys)| <= cfg.maxSimultaneous
    requires id in Takers(cfg, w, op.subjectID, op.attrs, op.keys) && w.experiments[id].flagKey in w.flags
    ensures Recorded(cfg, w, op, w.experiments[id].flagKey, id)
  {
    var takers := Takers(cfg, w, op.subjectID, op.attrs, op.keys);
    SubsetSize(NotAfter(cfg, w, op.subjectID, takers, id), takers - {id});
    TakerUsed(cfg, ops, w, op, id);
  }

  /** A flag without a running experiment that takes the subject gets exactly its default, a
      paused one's included. */
  lemma NoTakerNoExperiment(cfg: Settings, ops: seq<Op>, w: World, op: Op, key: string)
    requires Deciding(cfg, ops, w, op) && key in op.keys && key in w.flags
    requires forall id :: id in w.experiments && w.experiments[id].flagKey == key ==>
      !Takes(cfg, w.experiments[id], op.subjectID, op.attrs)
    ensures Recorded(cfg, w, op, key, "")
    ensures var after := Apply(cfg, w, op).decisions;
      forall d :: d in after && d !in w.decisions && after[d].flagKey == key ==>
        after[d].value == w.flags[key].defaultValue
  {
    var used := EveryKnownFlagAnswered(cfg, ops, w, op, key);
    hide Takes, Run;
    forall d | d in Apply(cfg, w, op).decisions && d !in w.decisions && Apply(cfg, w, op).decisions[d].flagKey == key
      ensures Apply(cfg, w, op).decisions[d].experimentID == ""
      ensures Apply(cfg, w, op).decisions[d].value == w.flags[key].defaultValue {
      DecidedExactly(cfg, ops, w, op, d);
    }
  }
}
