/** Evidence fusion, in exact arithmetic rounded to four places, and the verdicts drawn from it. */
module CalendarFusion {
  import opened CommutativeFold

  datatype Kind = Supports | Corrects | Contradicts

  /** A score kept between zero and one by a table CHECK. */
  type Score = x: real | 0.0 <= x <= 1.0 witness 0.0

  datatype Evidence = Evidence(id: int, fingerprint: string, kind: Kind, confidence: Score, authority: Score)

  const SUPPORTING: set<Kind> := {Supports, Corrects}
  const CONTRADICTING: set<Kind> := {Contradicts}

  // ------------------------------------------------------------------ strength

  function Times(): (real, real) -> real {
    (x: real, y: real) => x * y
  }

  /** What doubt a row of one of these kinds leaves; other rows leave all of it. */
  function Doubt(kinds: set<Kind>): Evidence -> real {
    (e: Evidence) => if e.kind in kinds then 1.0 - e.confidence * (0.5 + 0.5 * e.authority) else 1.0
  }

  function Remaining(evidence: seq<Evidence>, kinds: set<Kind>): real {
    Fold(Times(), 1.0, Doubt(kinds), evidence)
  }

  /** Round half to even at four decimal places. */
  function HalfEven(y: real): int
    requires y >= 0.0
  {
    var f := y.Floor;
    if y - f as real < 0.5 then f
    else if y - f as real > 0.5 then f + 1
    else if f % 2 == 0 then f else f + 1
  }

  function Quantized(x: real): real
    requires x >= 0.0
  {
    HalfEven(x * 10000.0) as real / 10000.0
  }

  function Strength(evidence: seq<Evidence>, kinds: set<Kind>): (s: real)
    ensures 0.0 <= s <= 1.0
  {
    RemainingIsScore(evidence, kinds);
    QuantizedIsScore(1.0 - Remaining(evidence, kinds));
    Quantized(1.0 - Remaining(evidence, kinds))
  }

  lemma WeightIsScore(a: real, b: real)
    requires 0.0 <= a <= 1.0 && 0.0 <= b <= 1.0
    ensures 0.0 <= a * b <= 1.0 && a * b <= a
  {
    assert 0.0 <= a * b;
    assert a * b <= 1.0 * b;
    assert a * b <= a * 1.0;
  }

  lemma DoubtIsScore(kinds: set<Kind>, e: Evidence)
    ensures 0.0 <= Doubt(kinds)(e) <= 1.0
  {
    WeightIsScore(e.confidence, 0.5 + 0.5 * e.authority);
  }

  lemma {:induction false} RemainingIsScore(evidence: seq<Evidence>, kinds: set<Kind>)
    ensures 0.0 <= Remaining(evidence, kinds) <= 1.0
  {
    if evidence != [] {
      RemainingIsScore(evidence[..|evidence| - 1], kinds);
      DoubtIsScore(kinds, evidence[|evidence| - 1]);
      WeightIsScore(Remaining(evidence[..|evidence| - 1], kinds), Doubt(kinds)(evidence[|evidence| - 1]));
    }
  }

  lemma RoundingIsMonotone(x: real, y: real)
    requires 0.0 <= x <= y
    ensures HalfEven(x) <= HalfEven(y)
  {
    if x.Floor < y.Floor {
      assert HalfEven(x) <= x.Floor + 1 <= y.Floor <= HalfEven(y);
    }
  }

  lemma QuantizedIsScore(x: real)
    requires 0.0 <= x <= 1.0
    ensures 0.0 <= Quantized(x) <= 1.0
  {
    RoundingIsMonotone(0.0, x * 10000.0);
    RoundingIsMonotone(x * 10000.0, 10000.0);
  }

  /** The accumulator loop of `_fused_strength`, which `_evidence_strength` repeats. */
  method FuseStrength(evidence: seq<Evidence>, kinds: set<Kind>) returns (strength: real)
    ensures strength == Strength(evidence, kinds) && 0.0 <= strength <= 1.0
  {
    var remaining := 1.0;
    for i := 0 to |evidence|
      invariant remaining == Remaining(evidence[..i], kinds)
    {
      assert evidence[..i + 1][..i] == evidence[..i];
      if evidence[i].kind in kinds {
        var weight := evidence[i].confidence * (0.5 + 0.5 * evidence[i].authority);
        remaining := remaining * (1.0 - weight);
      }
    }
    assert evidence[..|evidence|] == evidence;
    RemainingIsScore(evidence, kinds);
    strength := Quantized(1.0 - remaining);
  }

  // ------------------------------------------------------------------ order does not matter

  lemma TimesIsMonoid()
    ensures CommutativeMonoid(Times(), 1.0)
  {
    forall x: real, y: real, z: real ensures Associates(Times(), x, y, z) {
      assert (x * y) * z == x * (y * z);
    }
  }

  /** The strength of evidence depends only on which rows there are, not on their order. */
  lemma OrderIsIrrelevant(a: seq<Evidence>, b: seq<Evidence>, kinds: set<Kind>)
    requires multiset(a) == multiset(b)
    ensures Strength(a, kinds) == Strength(b, kinds)
  {
    TimesIsMonoid();
    FoldPermutes(Times(), 1.0, Doubt(kinds), a, b);
  }

  /** More evidence never weakens a side. */
  lemma MoreEvidenceIsStronger(a: seq<Evidence>, b: seq<Evidence>, kinds: set<Kind>)
    ensures Strength(a, kinds) <= Strength(a + b, kinds)
  {
    RemainingIsScore(a, kinds);
    RemainingIsScore(a + b, kinds);
    MoreEvidenceLeavesLess(a, b, kinds);
    LessDoubtIsStronger(Remaining(a + b, kinds), Remaining(a, kinds));
  }

  lemma TimesShrinks(x: real, y: real)
    requires 0.0 <= x <= 1.0 && 0.0 <= y <= 1.0
    ensures Times()(x, y) <= x
  {
    WeightIsScore(x, y);
  }

  lemma {:induction false} RemainingOfBoth(a: seq<Evidence>, b: seq<Evidence>, kinds: set<Kind>)
    ensures Remaining(a + b, kinds) == Times()(Remaining(a, kinds), Remaining(b, kinds))
  {
    TimesIsMonoid();
    FoldConcat(Times(), 1.0, Doubt(kinds), a, b);
  }

  lemma MoreEvidenceLeavesLess(a: seq<Evidence>, b: seq<Evidence>, kinds: set<Kind>)
    ensures Remaining(a + b, kinds) <= Remaining(a, kinds)
  {
    RemainingIsScore(a, kinds);
    RemainingIsScore(b, kinds);
    TimesShrinks(Remaining(a, kinds), Remaining(b, kinds));
    RemainingOfBoth(a, b, kinds);
  }

  lemma LessDoubtIsStronger(x: real, y: real)
    requires 0.0 <= x <= y <= 1.0
    ensures Quantized(1.0 - y) <= Quantized(1.0 - x)
  {
    RoundingIsMonotone((1.0 - y) * 10000.0, (1.0 - x) * 10000.0);
  }

  // ------------------------------------------------------------------ what one row weighs

  lemma OneRowLeaves(e: Evidence, kinds: set<Kind>)
    ensures Remaining([e], kinds) == Doubt(kinds)(e)
  {
    var one, most := [e], [e][..0];
    assert most == [] && one[|one| - 1] == e;
    assert Remaining(most, kinds) == 1.0;
    assert Remaining(one, kinds) == Times()(Remaining(most, kinds), Doubt(kinds)(e));
  }

  lemma HalfWeighted(c: real, a: real)
    ensures 2.0 * (c * (0.5 + 0.5 * a)) == c + c * a
  {
    assert c * (0.5 + 0.5 * a) == c * 0.5 + c * (0.5 * a);
  }

  /** Stretches of evidence multiply the doubt they leave, starting from all of it. */
  lemma {:induction false} DoubtsMultiply(a: seq<Evidence>, b: seq<Evidence>, kinds: set<Kind>)
    ensures Remaining([], kinds) == 1.0
    ensures Remaining(a + b, kinds) == Remaining(a, kinds) * Remaining(b, kinds)
  {
    RemainingOfBoth(a, b, kinds);
  }

  /**
   One row of the kinds takes away its confidence, at half its weight for a worthless authority and at full weight for a
   perfect one; a row of another kind takes nothing away.
   */
  lemma OneRowWeighs(e: Evidence, kinds: set<Kind>)
    ensures e.kind !in kinds ==> Remaining([e], kinds) == 1.0
    ensures e.kind in kinds ==> 2.0 * (1.0 - Remaining([e], kinds)) == e.confidence + e.confidence * e.authority
  {
    OneRowLeaves(e, kinds);
    HalfWeighted(e.confidence, e.authority);
  }

  /** The strength is what the evidence takes away, to the nearest of four decimal places and to the even one in between. */
  lemma {:induction false} StrengthIsNearest(evidence: seq<Evidence>, kinds: set<Kind>) returns (n: int)
    ensures Strength(evidence, kinds) == n as real / 10000.0
    ensures var off := n as real - 10000.0 * (1.0 - Remaining(evidence, kinds));
      -0.5 <= off <= 0.5 && (off == 0.5 || off == -0.5 ==> n % 2 == 0)
  {
    RemainingIsScore(evidence, kinds);
    n := HalfEven((1.0 - Remaining(evidence, kinds)) * 10000.0);
  }
}
