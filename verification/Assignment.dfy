/** Deterministic assignment: the hash fraction, the audience test, the weighted choice of a
    variant and the choice of at most k experiments per subject.

    SHA-1 is an arbitrary function to digests; fractions are exact rationals, carried as
    residues out of 10000. */
module Assignment {
  import opened Common

  type Byte = b: int | 0 <= b < 256

  type Digest = d: seq<Byte> | |d| == 20 witness [0, 0, 0, 0, 0, 0, 0, 0, 0, 0, 0, 0, 0, 0, 0, 0, 0, 0, 0, 0]

  type Hash = string -> Digest

  const RESIDUES: int := 10000
  const TWO64: int := 0x1_0000_0000_0000_0000
  const HEX := "0123456789abcdef"

  // ---- Hash fraction -------------------------------------------------------

  function BigEndian(bytes: seq<Byte>): nat {
    if bytes == [] then 0 else BigEndian(bytes[..|bytes| - 1]) * 256 + bytes[|bytes| - 1]
  }

  /** `hex.EncodeToString`. */
  function HexEncode(bytes: seq<Byte>): (s: string)
    ensures |s| == 2 * |bytes|
  {
    if bytes == [] then ""
    else
      var b := bytes[|bytes| - 1];
      HexEncode(bytes[..|bytes| - 1]) + [HEX[b / 16], HEX[b % 16]]
  }

  /** `strings.IndexByte(HEX, c)`, −1 when absent. */
  function HexIndex(c: char): int {
    if '0' <= c <= '9' then c as int - '0' as int
    else if 'a' <= c <= 'f' then c as int - 'a' as int + 10
    else -1
  }

  function HexValue(s: string): int {
    if s == [] then 0 else HexValue(s[..|s| - 1]) * 16 + HexIndex(s[|s| - 1])
  }

  lemma HexDigits(v: nat)
    requires v < 16
    ensures HexIndex(HEX[v]) == v
  {
  }

  /** Decoding the hexadecimal form digit by digit gives back the big-endian number. */
  lemma {:induction false} HexRoundTrip(bytes: seq<Byte>)
    ensures HexValue(HexEncode(bytes)) == BigEndian(bytes)
  {
    if bytes != [] {
      var n := |bytes| - 1;
      var b := bytes[n];
      var before := HexEncode(bytes[..n]);
      HexRoundTrip(bytes[..n]);
      HexDigits(b / 16);
      HexDigits(b % 16);
      var s := HexEncode(bytes);
      assert s[..|s| - 1] == before + [HEX[b / 16]];
      assert s[..|s| - 1][..|s| - 2] == before;
    }
  }

  lemma {:induction false} HexCharacters(bytes: seq<Byte>)
    ensures forall c :: c in HexEncode(bytes) ==> 0 <= HexIndex(c) < 16
  {
    if bytes != [] {
      var b := bytes[|bytes| - 1];
      HexCharacters(bytes[..|bytes| - 1]);
      HexDigits(b / 16);
      HexDigits(b % 16);
    }
  }

  function Residue(hash: Hash, v: string): nat {
    BigEndian(hash(v)[..8]) % RESIDUES
  }

  function Power16(n: nat): nat {
    if n == 0 then 1 else 16 * Power16(n - 1)
  }

  lemma HexStep(s: string, i: nat)
    requires i < |s| && i < 16
    requires 0 <= HexIndex(s[i]) < 16 && 0 <= HexValue(s[..i]) < Power16(i)
    ensures HexValue(s[..i + 1]) == HexValue(s[..i]) * 16 + HexIndex(s[i])
    ensures 0 <= HexValue(s[..i + 1]) < Power16(i + 1) <= TWO64
  {
    assert s[..i + 1][..i] == s[..i];
    PowerBound(i + 1);
  }

  /** The decode loop with `uint64` arithmetic made explicit: nothing wraps. */
  method DecodeHex(hexStr: string) returns (n: nat)
    requires |hexStr| == 16 && forall c :: c in hexStr ==> 0 <= HexIndex(c) < 16
    ensures n == HexValue(hexStr)
  {
    n := 0;
    for i := 0 to |hexStr|
      invariant n == HexValue(hexStr[..i]) < Power16(i)
    {
      assert hexStr[i] in hexStr;
      HexStep(hexStr, i);
      n := (n * 16 + HexIndex(hexStr[i])) % TWO64;
    }
    assert hexStr[..|hexStr|] == hexStr;
  }

  /** The first eight digest bytes read as one number, modulo 10000. */
  method HashFraction(hash: Hash, v: string) returns (residue: nat)
    ensures residue == Residue(hash, v) < RESIDUES
  {
    var bytes := hash(v)[..8];
    HexCharacters(bytes);
    HexRoundTrip(bytes);
    var n := DecodeHex(HexEncode(bytes));
    residue := n % RESIDUES;
  }

  lemma PowerBound(n: nat)
    requires n <= 16
    ensures Power16(n) <= TWO64
  {
    PowerGrows(n, 16);
    assert Power16(8) == 0x1_0000_0000 by {
      assert Power16(4) == 0x1_0000;
    }
    assert Power16(12) == 0x1_0000_0000_0000;
  }

  lemma {:induction false} PowerGrows(m: nat, n: nat)
    requires m <= n
    ensures Power16(m) <= Power16(n)
    decreases n - m
  {
    if m < n {
      PowerGrows(m + 1, n);
    }
  }

  // ---- Variants ------------------------------------------------------------

  datatype Variant = Variant(name: string, value: Json, weight: int, isControl: bool)

  datatype ConfigError = AudienceRange | NoVariants | BlankName | WeightSum | ControlCount

  /** `unicode.IsSpace`. */
  predicate IsSpace(c: char) {
    var n := c as int;
    || 9 <= n <= 13 || n == 32 || n == 0x85 || n == 0xA0 || n == 0x1680 || 0x2000 <= n <= 0x200A
    || n == 0x2028 || n == 0x2029 || n == 0x202F || n == 0x205F || n == 0x3000
  }

  predicate Blank(s: string) {
    forall c :: c in s ==> IsSpace(c)
  }

  /** Total weight of the first `n` variants. */
  function Cumulative(variants: seq<Variant>, n: nat): int
    requires n <= |variants|
  {
    if n == 0 then 0 else Cumulative(variants, n - 1) + variants[n - 1].weight
  }

  function Controls(variants: seq<Variant>, n: nat): nat
    requires n <= |variants|
  {
    if n == 0 then 0 else Controls(variants, n - 1) + if variants[n - 1].isControl then 1 else 0
  }

  predicate ValidConfig(audience: int, variants: seq<Variant>) {
    && 0 < audience <= 100
    && variants != []
    && (forall i :: 0 <= i < |variants| ==> !Blank(variants[i].name))
    && Cumulative(variants, |variants|) == audience
    && Controls(variants, |variants|) == 1
  }

  /** Accepts exactly the valid configurations, and names the first requirement that fails. */
  method ValidateVariants(audience: int, variants: seq<Variant>) returns (problem: Option<ConfigError>)
    ensures problem.None? <==> ValidConfig(audience, variants)
    ensures problem == Some(AudienceRange) <==> !(0 < audience <= 100)
    ensures problem == Some(NoVariants) <==> 0 < audience <= 100 && variants == []
    ensures problem == Some(BlankName) <==>
      0 < audience <= 100 && exists i :: 0 <= i < |variants| && Blank(variants[i].name)
    ensures problem == Some(ControlCount) ==>
      Cumulative(variants, |variants|) == audience && Controls(variants, |variants|) != 1
  {
    if audience <= 0 || audience > 100 { return Some(AudienceRange); }
    if |variants| == 0 { return Some(NoVariants); }
    var sum, control := 0, 0;
    for i := 0 to |variants|
      invariant sum == Cumulative(variants, i) && control == Controls(variants, i)
      invariant forall j :: 0 <= j < i ==> !Blank(variants[j].name)
    {
      var v := variants[i];
      if Blank(v.name) { return Some(BlankName); }
      sum := sum + v.weight;
      if v.isControl { control := control + 1; }
    }
    if sum != audience { return Some(WeightSum); }
    if control != 1 { return Some(ControlCount); }
    return None;
  }

  /** ⌊fraction · scale⌋ for the fraction residue/10000. */
  function Score(residue: nat, scale: int): int {
    residue * scale / RESIDUES
  }

  predicate InAudience(hash: Hash, subjectID: string, audience: int, experimentID: string, salt: string) {
    Score(Residue(hash, subjectID + "|" + experimentID + "|audience|" + salt), 100) < audience
  }

  /** The first index whose cumulative weight exceeds the score. */
  function FirstBelow(variants: seq<Variant>, score: int, from: nat): (i: Option<nat>)
    requires from <= |variants|
    ensures i.Some? ==> from <= i.value < |variants|
    decreases |variants| - from
  {
    if from == |variants| then None
    else if score < Cumulative(variants, from + 1) then Some(from)
    else FirstBelow(variants, score, from + 1)
  }

  /** The index `chooseVariant` returns for a score. */
  function ChosenIndex(variants: seq<Variant>, score: int): nat
    requires variants != []
  {
    var first := FirstBelow(variants, score, 0);
    if first.Some? then first.value else |variants| - 1
  }

  method ChooseIndex(variants: seq<Variant>, score: int) returns (index: Option<nat>)
    ensures variants == [] ==> index.None?
    ensures variants != [] ==> index == Some(ChosenIndex(variants, score))
  {
    if |variants| == 0 { return None; }
    var cursor := 0;
    for i := 0 to |variants|
      invariant cursor == Cumulative(variants, i)
      invariant FirstBelow(variants, score, 0) == FirstBelow(variants, score, i)
    {
      cursor := cursor + variants[i].weight;
      if score < cursor { return Some(i); }
    }
    return Some(|variants| - 1);
  }

  lemma {:induction false} FirstInterval(variants: seq<Variant>, score: int, from: nat)
    requires from < |variants| && score < Cumulative(variants, |variants|)
    ensures var i := FirstBelow(variants, score, from);
      && i.Some? && score < Cumulative(variants, i.value + 1)
      && forall j :: from < j <= i.value ==> Cumulative(variants, j) <= score
    decreases |variants| - from
  {
    if !(score < Cumulative(variants, from + 1)) {
      FirstInterval(variants, score, from + 1);
    }
  }

  ghost predicate NonNegative(variants: seq<Variant>) {
    forall i :: 0 <= i < |variants| ==> variants[i].weight >= 0
  }

  lemma {:induction false} CumulativeMonotone(variants: seq<Variant>, m: nat, n: nat)
    requires NonNegative(variants) && m <= n <= |variants|
    ensures Cumulative(variants, m) <= Cumulative(variants, n)
    decreases n
  {
    if m < n {
      CumulativeMonotone(variants, m, n - 1);
    }
  }

  lemma Multiply(a: int, b: int, k: int)
    requires a <= b && k >= 0
    ensures a * k <= b * k
  {
  }

  lemma Cancel(a: int, b: int, k: int)
    requires k > 0 && a * k < b * k
    ensures a < b
  {
    if b <= a {
      Multiply(b, a, k);
    }
  }

  lemma ScoreBelowAudience(residue: nat, audience: int)
    requires residue < RESIDUES && 0 < audience
    ensures 0 <= Score(residue, audience) < audience
  {
    Multiply(residue, RESIDUES - 1, audience);
    assert (RESIDUES - 1) * audience < RESIDUES * audience;
  }

  /** For any validated configuration, whatever the signs of its weights, the loop returns:
      the fallback after it is dead. */
  lemma FallbackUnreachable(audience: int, variants: seq<Variant>, residue: nat)
    requires ValidConfig(audience, variants) && residue < RESIDUES
    ensures FirstBelow(variants, Score(residue, audience), 0).Some?
  {
    ScoreBelowAudience(residue, audience);
    FirstInterval(variants, Score(residue, audience), 0);
  }

  /** Whatever the signs of the weights, the choice is the first variant at which the
      cumulative weight exceeds the score; its own weight is positive. */
  lemma ChoiceExactly(audience: int, variants: seq<Variant>, residue: nat, i: nat)
    requires ValidConfig(audience, variants) && residue < RESIDUES && i < |variants|
    ensures var score := Score(residue, audience);
      ChosenIndex(variants, score) == i <==>
        ((forall j :: 0 <= j <= i ==> Cumulative(variants, j) <= score) && score < Cumulative(variants, i + 1))
    ensures ChosenIndex(variants, Score(residue, audience)) == i ==> variants[i].weight > 0
  {
    var score := Score(residue, audience);
    ScoreBelowAudience(residue, audience);
    FirstInterval(variants, score, 0);
    var c := ChosenIndex(variants, score);
    assert score < Cumulative(variants, c + 1);
    assert forall j :: 0 <= j <= c ==> Cumulative(variants, j) <= score;
    if c < i {
      assert 0 <= c + 1 <= i;
    }
  }

  /** With non-negative weights that is the one variant whose cumulative interval holds the
      score; a zero weight is never chosen. */
  lemma ChoiceIsInterval(audience: int, variants: seq<Variant>, residue: nat, i: nat)
    requires ValidConfig(audience, variants) && NonNegative(variants)
    requires residue < RESIDUES && i < |variants|
    ensures var score := Score(residue, audience);
      (ChosenIndex(variants, score) == i <==> Cumulative(variants, i) <= score < Cumulative(variants, i + 1))
    ensures ChosenIndex(variants, Score(residue, audience)) == i ==> variants[i].weight > 0
  {
    ChoiceExactly(audience, variants, residue, i);
    forall j: nat | j <= i ensures Cumulative(variants, j) <= Cumulative(variants, i) {
      CumulativeMonotone(variants, j, i);
    }
  }

  // ---- Shares of the hash space --------------------------------------------

  /** The integers lo .. hi-1. */
  ghost function Interval(lo: int, hi: int): (s: set<int>)
    requires lo <= hi
    ensures forall r :: r in s <==> lo <= r < hi
    ensures |s| == hi - lo
    decreases hi - lo
  {
    if lo == hi then {} else Interval(lo, hi - 1) + {hi - 1}
  }

  /** The least residue whose score reaches `s`. */
  function FirstResidue(s: int, audience: int): int
    requires audience > 0
  {
    (RESIDUES * s + audience - 1) / audience
  }

  lemma FirstResidueBounds(s: int, audience: int)
    requires audience > 0
    ensures var f := FirstResidue(s, audience);
      RESIDUES * s <= f * audience < RESIDUES * s + audience
  {
    var n := RESIDUES * s + audience - 1;
    assert n == n / audience * audience + n % audience;
  }

  lemma ScoreReaches(residue: nat, s: int, audience: int)
    requires audience > 0
    ensures s <= Score(residue, audience) <==> FirstResidue(s, audience) <= residue
  {
    FirstResidueBounds(s, audience);
    var p := residue * audience;
    assert s <= p / RESIDUES <==> RESIDUES * s <= p;
    var f := FirstResidue(s, audience);
    if f <= residue {
      Multiply(f, residue, audience);
    } else {
      Multiply(residue + 1, f, audience);
      assert (residue + 1) * audience == p + audience;
    }
  }

  ghost function ChosenResidues(variants: seq<Variant>, audience: int, i: nat): set<int>
    requires variants != []
  {
    set r | 0 <= r < RESIDUES && ChosenIndex(variants, Score(r, audience)) == i
  }

  lemma ShareEnds(lo: int, hi: int, audience: int)
    requires 0 <= lo <= hi <= audience && audience > 0
    ensures 0 <= FirstResidue(lo, audience) <= FirstResidue(hi, audience) <= RESIDUES
  {
    FirstResidueBounds(lo, audience);
    FirstResidueBounds(hi, audience);
    var a, b := FirstResidue(lo, audience), FirstResidue(hi, audience);
    assert (b + 1) * audience == b * audience + audience;
    assert (RESIDUES + 1) * audience == RESIDUES * audience + audience;
    Cancel(-1, a, audience);
    Cancel(a, b + 1, audience);
    Cancel(b, RESIDUES + 1, audience);
  }

  lemma ChosenShare(audience: int, variants: seq<Variant>, i: nat)
    requires ValidConfig(audience, variants) && NonNegative(variants) && i < |variants|
    ensures var a := FirstResidue(Cumulative(variants, i), audience);
      var b := FirstResidue(Cumulative(variants, i + 1), audience);
      a <= b && ChosenResidues(variants, audience, i) == Interval(a, b)
  {
    var lo, hi := Cumulative(variants, i), Cumulative(variants, i + 1);
    CumulativeMonotone(variants, 0, i);
    CumulativeMonotone(variants, i + 1, |variants|);
    ShareEnds(lo, hi, audience);
    var a, b := FirstResidue(lo, audience), FirstResidue(hi, audience);
    forall r | 0 <= r < RESIDUES
      ensures ChosenIndex(variants, Score(r, audience)) == i <==> a <= r < b {
      ChoiceIsInterval(audience, variants, r, i);
      ScoreReaches(r, lo, audience);
      ScoreReaches(r, hi, audience);
    }
  }

  /** Each variant owns its proportional share of the residues, to within one. */
  lemma ProportionalShares(audience: int, variants: seq<Variant>, i: nat)
    requires ValidConfig(audience, variants) && NonNegative(variants) && i < |variants|
    ensures var count := |ChosenResidues(variants, audience, i)|;
      RESIDUES * variants[i].weight - audience < count * audience < RESIDUES * variants[i].weight + audience
  {
    var lo, hi := Cumulative(variants, i), Cumulative(variants, i + 1);
    var a, b := FirstResidue(lo, audience), FirstResidue(hi, audience);
    ChosenShare(audience, variants, i);
    FirstResidueBounds(lo, audience);
    FirstResidueBounds(hi, audience);
    Spread(a, b, lo, hi, audience);
  }

  lemma Spread(a: int, b: int, lo: int, hi: int, k: int)
    requires RESIDUES * lo <= a * k < RESIDUES * lo + k
    requires RESIDUES * hi <= b * k < RESIDUES * hi + k
    ensures RESIDUES * (hi - lo) - k < (b - a) * k < RESIDUES * (hi - lo) + k
  {
    assert (b - a) * k == b * k - a * k;
  }

  ghost function AdmittedResidues(audience: int): set<int> {
    set r | 0 <= r < RESIDUES && Score(r, 100) < audience
  }

  /** The audience test admits exactly 100 residues per percent. */
  lemma AudienceShare(audience: int)
    requires 0 <= audience <= 100
    ensures |AdmittedResidues(audience)| == 100 * audience
  {
    assert forall r :: r in AdmittedResidues(audience) <==> r in Interval(0, 100 * audience);
    assert AdmittedResidues(audience) == Interval(0, 100 * audience);
  }
}
