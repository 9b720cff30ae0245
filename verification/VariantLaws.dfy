/** Which variant a subject gets, said of the digest's bytes and the variants' weights. */
module VariantLaws {
  import opened Common
  import opened Assignment
  import opened Experiments

  // ---- Draws ---------------------------------------------------------------

  /** The first eight digest bytes of a key, most significant first, modulo 10000. */
  function Draw(hash: Hash, key: string): nat {
    var d := hash(key);
    var high := ((d[0] as nat * 256 + d[1]) * 256 + d[2]) * 256 + d[3];
    ((((high * 256 + d[4]) * 256 + d[5]) * 256 + d[6]) * 256 + d[7]) % 10000
  }

  lemma BigEndianNext(bytes: seq<Byte>, n: nat)
    requires n < |bytes|
    ensures BigEndian(bytes[..n + 1]) == BigEndian(bytes[..n]) * 256 + bytes[n]
  {
    assert bytes[..n + 1][..n] == bytes[..n];
  }

  lemma DrawIsResidue(hash: Hash, key: string)
    ensures Draw(hash, key) == Residue(hash, key)
  {
    var d := hash(key);
    assert d[..0] == [];
    BigEndianNext(d, 0);
    BigEndianNext(d, 1);
    BigEndianNext(d, 2);
    BigEndianNext(d, 3);
    BigEndianNext(d, 4);
    BigEndianNext(d, 5);
    BigEndianNext(d, 6);
    BigEndianNext(d, 7);
    hide BigEndian;
  }

  /** The draw that decides the variant. */
  function VariantDraw(cfg: Settings, e: Experiment, subjectID: string): nat {
    Draw(cfg.hash, subjectID + "|" + e.id + "|" + Decimal(e.version) + "|" + cfg.salt)
  }

  // ---- Weights -------------------------------------------------------------

  function TotalWeight(variants: seq<Variant>): int {
    if variants == [] then 0 else variants[0].weight + TotalWeight(variants[1..])
  }

  lemma {:induction false} WeightAppends(variants: seq<Variant>, v: Variant)
    ensures TotalWeight(variants + [v]) == TotalWeight(variants) + v.weight
  {
    if variants == [] {
      assert variants + [v] == [v] && [v][1..] == [];
    } else {
      assert (variants + [v])[1..] == variants[1..] + [v];
      WeightAppends(variants[1..], v);
    }
  }

  lemma {:induction false} CumulativeIsTotal(variants: seq<Variant>, n: nat)
    requires n <= |variants|
    ensures Cumulative(variants, n) == TotalWeight(variants[..n])
  {
    if n > 0 {
      CumulativeIsTotal(variants, n - 1);
      assert variants[..n] == variants[..n - 1] + [variants[n - 1]];
      WeightAppends(variants[..n - 1], variants[n - 1]);
    }
  }

  /** Variant i is the control, and no other is. */
  ghost predicate OnlyControl(variants: seq<Variant>, i: nat) {
    i < |variants| && forall j: nat :: j < |variants| ==> (variants[j].isControl <==> j == i)
  }

  lemma {:induction false} ControlsCounted(variants: seq<Variant>, n: nat)
    requires n <= |variants|
    ensures Controls(variants, n) == 0 <==> forall j: nat :: j < n ==> !variants[j].isControl
    ensures Controls(variants, n) == 1 <==> exists i: nat :: OnlyControl(variants[..n], i)
  {
    if n > 0 {
      var m := n - 1;
      ControlsCounted(variants, m);
      assert forall j: nat :: j < m ==> variants[..n][j] == variants[..m][j] == variants[j];
      if variants[m].isControl {
        if Controls(variants, m) == 0 {
          assert OnlyControl(variants[..n], m);
        } else {
          var k: nat :| k < m && variants[k].isControl;
          assert variants[..n][k].isControl && variants[..n][m].isControl;
        }
      } else {
        assert forall i: nat :: OnlyControl(variants[..n], i) <==> OnlyControl(variants[..m], i);
      }
    }
  }

  /** What validation asks: an audience of 1 to 100 percent, no blank name, weights that add up
      to the audience, and exactly one control. */
  lemma ValidExactly(audience: int, variants: seq<Variant>)
    ensures ValidConfig(audience, variants) <==>
      && 1 <= audience <= 100
      && (forall v :: v in variants ==> exists c :: c in v.name && !IsSpace(c))
      && TotalWeight(variants) == audience
      && exists i: nat :: OnlyControl(variants, i)
  {
    CumulativeIsTotal(variants, |variants|);
    ControlsCounted(variants, |variants|);
    assert variants[..|variants|] == variants;
  }

  /** Variant i is the first whose total weight, with those before it, exceeds the score. */
  ghost predicate FirstPast(variants: seq<Variant>, score: int, i: nat) {
    && i < |variants| && score < TotalWeight(variants[..i + 1])
    && forall j: nat :: j <= i ==> TotalWeight(variants[..j]) <= score
  }

  lemma AtMostOneFirst(variants: seq<Variant>, score: int, i: nat, j: nat)
    requires FirstPast(variants, score, i) && FirstPast(variants, score, j)
    ensures i == j
  {
  }

  // ---- The choice ----------------------------------------------------------

  lemma ChosenIsFirst(audience: int, variants: seq<Variant>, draw: nat, i: nat)
    requires ValidConfig(audience, variants) && draw < 10000
    ensures FirstPast(variants, draw * audience / 10000, i) <==>
      i < |variants| && ChosenIndex(variants, Score(draw, audience)) == i
  {
    var score := draw * audience / 10000;
    if i < |variants| {
      ChoiceExactly(audience, variants, draw, i);
      PastExactly(variants, score, i);
    }
  }

  lemma PastExactly(variants: seq<Variant>, score: int, i: nat)
    requires i < |variants|
    ensures FirstPast(variants, score, i) <==>
      ((forall j :: 0 <= j <= i ==> Cumulative(variants, j) <= score) && score < Cumulative(variants, i + 1))
  {
    forall j: nat | j <= i + 1 ensures Cumulative(variants, j) == TotalWeight(variants[..j]) {
      CumulativeIsTotal(variants, j);
    }
    hide Cumulative, TotalWeight;
    if FirstPast(variants, score, i) {
      forall j | 0 <= j <= i ensures Cumulative(variants, j) <= score {
        assert TotalWeight(variants[..j]) <= score;
      }
    } else if score < Cumulative(variants, i + 1) {
      var j: nat :| j <= i && TotalWeight(variants[..j]) > score;
      assert Cumulative(variants, j) > score;
    }
  }

  /** Every draw leads to one variant. */
  lemma EveryDrawChooses(audience: int, variants: seq<Variant>, draw: nat) returns (i: nat)
    requires ValidConfig(audience, variants) && draw < 10000
    ensures FirstPast(variants, draw * audience / 10000, i)
    ensures forall j: nat :: FirstPast(variants, draw * audience / 10000, j) ==> j == i
  {
    FallbackUnreachable(audience, variants, draw);
    i := ChosenIndex(variants, Score(draw, audience));
    ChosenIsFirst(audience, variants, draw, i);
    forall j: nat | FirstPast(variants, draw * audience / 10000, j) ensures j == i {
      AtMostOneFirst(variants, draw * audience / 10000, i, j);
    }
  }

  /** For a valid configuration a subject always gets a variant, and it is the first whose
      cumulative weight exceeds the subject's draw scaled to the audience. */
  lemma VariantExactly(cfg: Settings, e: Experiment, subjectID: string)
    requires ValidConfig(e.audiencePercent, e.variants)
    ensures VariantFor(cfg, e, subjectID).Some?
    ensures var score := VariantDraw(cfg, e, subjectID) * e.audiencePercent / 10000;
      forall v :: VariantFor(cfg, e, subjectID) == Some(v) <==>
        exists i: nat :: FirstPast(e.variants, score, i) && e.variants[i] == v
  {
    var draw := VariantDraw(cfg, e, subjectID);
    DrawIsResidue(cfg.hash, VariantKey(cfg, e, subjectID));
    var i := EveryDrawChooses(e.audiencePercent, e.variants, draw);
    ChosenIsFirst(e.audiencePercent, e.variants, draw, i);
    hide FirstPast, ChosenIndex, Draw;
  }

  // ---- Shares --------------------------------------------------------------

  /** The draws that lead to variant i. */
  ghost function DrawsFor(variants: seq<Variant>, audience: int, i: nat): set<int> {
    set draw | 0 <= draw < 10000 && FirstPast(variants, draw * audience / 10000, i)
  }

  /** With non-negative weights a variant of weight w in an audience of A has 10000·w/A of the
      draws, to within one. */
  lemma SharesOfDraws(audience: int, variants: seq<Variant>, i: nat)
    requires ValidConfig(audience, variants) && NonNegative(variants) && i < |variants|
    ensures var count := |DrawsFor(variants, audience, i)|;
      10000 * variants[i].weight - audience < count * audience < 10000 * variants[i].weight + audience
  {
    forall draw | 0 <= draw < 10000
      ensures draw in DrawsFor(variants, audience, i) <==> draw in ChosenResidues(variants, audience, i) {
      ChosenIsFirst(audience, variants, draw, i);
    }
    assert DrawsFor(variants, audience, i) == ChosenResidues(variants, audience, i);
    ProportionalShares(audience, variants, i);
  }
}
