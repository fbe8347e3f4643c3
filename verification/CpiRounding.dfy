/**
 The CPI rounding contract (backend/app/domain/rule_schema.py, rules.py): a stored CPI is
 rounded half-up to a tenth before it is compared, so a threshold moves by half a tenth.
 */
module CpiRounding {
  import opened RuleSchema
  import opened Rules

  function FloorToTenth(t: real): real {
    (t * 10.0).Floor as real / 10.0
  }

  function CeilToTenth(t: real): real {
    -((-t * 10.0).Floor as real / 10.0)
  }

  predicate IsTenth(t: real) {
    FloorToTenth(t) == t
  }

  lemma RoundingIsMonotone(x: real, y: real)
    requires x <= y
    ensures RoundToTenth(x) <= RoundToTenth(y)
  {
    if 0.0 <= x {
      FloorMonotone(x * 10.0 + 0.5, y * 10.0 + 0.5);
    } else if y < 0.0 {
      FloorMonotone(-y * 10.0 + 0.5, -x * 10.0 + 0.5);
    } else {
      FloorMonotone(0.5, -x * 10.0 + 0.5);
      FloorMonotone(0.5, y * 10.0 + 0.5);
    }
  }

  lemma FloorMonotone(a: real, b: real)
    requires a <= b
    ensures a.Floor <= b.Floor
  {
  }

  /** Never more than half a tenth away; a tie goes up, and only a tie is the full half tenth up. */
  lemma RoundingIsClose(x: real)
    requires x >= 0.0
    ensures x - 0.05 < RoundToTenth(x) <= x + 0.05
    ensures IsTenth(RoundToTenth(x))
    ensures RoundToTenth(RoundToTenth(x)) == RoundToTenth(x)
  {
    var k := (x * 10.0 + 0.5).Floor;
    var r := k as real / 10.0;
    assert r * 10.0 == k as real;
    assert (r * 10.0 + 0.5).Floor == k;
  }

  /** Below zero rounding mirrors itself: a tie goes away from zero on either side. */
  lemma RoundingIsSymmetric(x: real)
    ensures RoundToTenth(-x) == -RoundToTenth(x)
  {
  }

  predicate CpiIs(facts: Facts, raw: real) {
    Lookup(facts, ByField(Cpi)) == Single(Dec(raw))
  }

  function CpiTruth(op: ComparisonOp, value: Expected, facts: Facts, semantics: Semantics): Truth {
    FieldTruth(Leaf(Cpi, op, value), facts, semantics)
  }

  lemma AtLeastPasses(raw: real, t: real, facts: Facts, semantics: Semantics)
    requires raw >= 0.0 && CpiIs(facts, raw)
    ensures CpiTruth(Gte, One(Dec(t)), facts, semantics) == TruthOfBool(raw >= CeilToTenth(t) - 0.05)
  {
    var k := (raw * 10.0 + 0.5).Floor;
    var c := -(-t * 10.0).Floor;
    assert RoundToTenth(raw) >= t <==> k >= c;
  }

  lemma AtMostPasses(raw: real, t: real, facts: Facts, semantics: Semantics)
    requires raw >= 0.0 && CpiIs(facts, raw)
    ensures CpiTruth(Lte, One(Dec(t)), facts, semantics) == TruthOfBool(raw < FloorToTenth(t) + 0.05)
  {
    var k := (raw * 10.0 + 0.5).Floor;
    var f := (t * 10.0).Floor;
    assert RoundToTenth(raw) <= t <==> k <= f;
  }

  /** `between` is the two bounds together. */
  lemma BetweenPasses(raw: real, lower: real, upper: real, facts: Facts, semantics: Semantics)
    requires raw >= 0.0 && CpiIs(facts, raw)
    ensures CpiTruth(Between, Bounds(Dec(lower), Dec(upper)), facts, semantics)
         == TruthOfBool(CeilToTenth(lower) - 0.05 <= raw < FloorToTenth(upper) + 0.05)
  {
    AtLeastPasses(raw, lower, facts, semantics);
    AtMostPasses(raw, upper, facts, semantics);
  }

  /** `eq` passes on a half-open band of one tenth around a tenth, and never on anything else. */
  lemma EqualsPasses(raw: real, t: real, facts: Facts, semantics: Semantics)
    requires raw >= 0.0 && CpiIs(facts, raw)
    ensures CpiTruth(Eq, One(Dec(t)), facts, semantics) == TruthOfBool(IsTenth(t) && t - 0.05 <= raw < t + 0.05)
  {
    RoundingIsClose(raw);
    if IsTenth(t) && t - 0.05 <= raw < t + 0.05 {
      var f := (t * 10.0).Floor;
      assert (raw * 10.0 + 0.5).Floor == f;
    }
  }
}
