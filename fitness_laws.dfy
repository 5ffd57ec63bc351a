/**
 * Properties of the instantaneous fitness of scripts/tpc_functions_oo.py:
 * where the enzymatic curve and the fitness vanish and peak, their range,
 * the signs of the slopes, and the hand-assembled gradients checked against
 * the product rule.
 */
module FitnessLaws {
  import opened Numerics
  import opened ProductRule
  import opened Fitness

  /** Exactly one of the three regions applies; for B > 0 they are T <= Topt, Topt < T <= CTmax, T > CTmax. */
  lemma RegionsPartitionTemperature(ctmin: real, b: real, t: real)
    requires b > 0.0
    ensures RegionOf(ctmin, b, t) == Rising <==> t <= Topt(ctmin, b)
    ensures RegionOf(ctmin, b, t) == Falling <==> Topt(ctmin, b) < t <= CTmax(ctmin, b)
    ensures RegionOf(ctmin, b, t) == Flat <==> CTmax(ctmin, b) < t
    ensures Topt(ctmin, b) < CTmax(ctmin, b)
  {
  }

  /** The parabola is non-negative exactly up to CTmax (for B > 0). */
  lemma FallingBranchSign(ctmin: real, b: real, t: real)
    requires b > 0.0 && Topt(ctmin, b) < t
    ensures FallingBranch(ctmin, b, t) >= 0.0 <==> t <= CTmax(ctmin, b)
    ensures FallingBranch(ctmin, b, t) > 0.0 <==> t < CTmax(ctmin, b)
  {
    var d := t - ctmin - 2.0 / 3.0 * b;
    var w := 1.0 / 3.0 * b;
    DivPos(d, w);
    RatioBelowOne(d, w);
    SqBelowOne(d / w);
  }

  /**
   * For B > 0 the enzymatic curve is zero exactly at and above CTmax: the
   * Gaussian rise never reaches zero (not even below CTmin), and the clamp
   * only acts on the parabola beyond CTmax.
   */
  lemma EnzymaticZeroIffAtOrAboveCTmax(lib: Library, ctmin: real, b: real, t: real)
    requires ExpLaws(lib) && b > 0.0
    ensures WEnzymatic(lib, ctmin, b, t) == 0.0 <==> t >= CTmax(ctmin, b)
  {
    if t <= Topt(ctmin, b) {
      assert RisingBranch(lib, ctmin, b, t) > 0.0;
      assert t < CTmax(ctmin, b);
    } else {
      FallingBranchSign(ctmin, b, t);
    }
  }

  /** Topt is where the curve peaks: the value there is 1, the bound everywhere. */
  lemma EnzymaticPeaksAtTopt(lib: Library, ctmin: real, b: real, t: real)
    requires ExpLaws(lib) && b != 0.0
    ensures WEnzymatic(lib, ctmin, b, Topt(ctmin, b)) == 1.0
    ensures WEnzymatic(lib, ctmin, b, t) <= WEnzymatic(lib, ctmin, b, Topt(ctmin, b))
    ensures DwEnzymaticDB(lib, ctmin, b, Topt(ctmin, b)) == 0.0
    ensures DwEnzymaticDCTmin(lib, ctmin, b, Topt(ctmin, b)) == 0.0
  {
    var p := Topt(ctmin, b);
    assert 3.0 * p - 3.0 * ctmin - 2.0 * b == 0.0;
    assert RisingSlopeB(lib, 0.0, p - ctmin, b) == 0.0;
    assert RisingSlopeCTmin(lib, 0.0, b) == 0.0;
    assert 3.0 * (p - ctmin - 2.0 / 3.0 * b) / b == 0.0;
    assert RisingBranch(lib, ctmin, b, p) == lib.exp(0.0);
  }

  /** Fitness lies in [0, 1): the curve is in [0, 1] and each logistic factor in (0, 1). */
  lemma FitnessInUnitInterval(m: Tpc, lib: Library, ctmin: real, b: real, t: real)
    requires m.Valid() && b != 0.0 && ExpitLaws(lib) && ExpLaws(lib)
    ensures 0.0 <= WTpc(m, lib, ctmin, b, t) < 1.0
  {
    var e := WEnzymatic(lib, ctmin, b, t);
    var x := WB(m, lib, b);
    var y := WCTmin(m, lib, ctmin);
    var z := WCTmax(m, lib, CTmax(ctmin, b));
    MulNonneg(e, x);
    MulLeFactor(e, x);
    MulNonneg(e * x, y);
    MulLeFactor(y, e * x);
    assert e * x * y == y * (e * x);
    MulNonneg(e * x * y, z);
    MulLeFactor(z, e * x * y);
    assert e * x * y * z == z * (e * x * y);
  }

  /** For B > 0 fitness vanishes exactly at and above CTmax. */
  lemma FitnessZeroIffAtOrAboveCTmax(m: Tpc, lib: Library, ctmin: real, b: real, t: real)
    requires m.Valid() && b > 0.0 && ExpitLaws(lib) && ExpLaws(lib)
    ensures WTpc(m, lib, ctmin, b, t) == 0.0 <==> t >= CTmax(ctmin, b)
  {
    EnzymaticZeroIffAtOrAboveCTmax(lib, ctmin, b, t);
    var e := WEnzymatic(lib, ctmin, b, t);
    var x := WB(m, lib, b);
    var y := WCTmin(m, lib, ctmin);
    var z := WCTmax(m, lib, CTmax(ctmin, b));
    if e != 0.0 {
      MulPos(e, x);
      MulPos(e * x, y);
      MulPos(e * x * y, z);
    }
  }

  /**
   * Signs of the enzymatic slopes for B > 0: raising CTmin lowers the curve on
   * the rising side and raises it on the falling side; widening B raises it on
   * the falling side.
   */
  lemma EnzymaticSlopeSigns(lib: Library, ctmin: real, b: real, t: real)
    requires ExpLaws(lib) && b > 0.0
    ensures RegionOf(ctmin, b, t) == Rising ==> DwEnzymaticDCTmin(lib, ctmin, b, t) <= 0.0
    ensures RegionOf(ctmin, b, t) == Falling ==> DwEnzymaticDCTmin(lib, ctmin, b, t) > 0.0
    ensures RegionOf(ctmin, b, t) == Falling ==> DwEnzymaticDB(lib, ctmin, b, t) > 0.0
  {
    match RegionOf(ctmin, b, t)
    case Rising =>
      RisingSlopeCTminSign(lib, 3.0 * t - 3.0 * ctmin - 2.0 * b, b);
    case Falling =>
      FallingSlopeSigns(3.0 * t - 3.0 * ctmin - 2.0 * b, t - ctmin, b);
    case Flat =>
  }

  lemma RisingSlopeCTminSign(lib: Library, k: real, b: real)
    requires ExpLaws(lib) && k <= 0.0 && b != 0.0
    ensures RisingSlopeCTmin(lib, k, b) <= 0.0
  {
    var g := lib.exp(-Sq(k) / b / b);
    DivSquareSign(Sq(k), b);
    assert 6.0 * g * k <= 0.0 by {
      MulNonposNonneg(k, 6.0 * g);
      assert 6.0 * g * k == k * (6.0 * g);
    }
    DivSquareSign(6.0 * g * k, b);
  }

  lemma FallingSlopeSigns(k: real, c: real, b: real)
    requires 0.0 < k && 0.0 < c && 0.0 < b
    ensures FallingSlopeCTmin(k, b) > 0.0
    ensures FallingSlopeB(k, c, b) > 0.0
  {
    MulPos(6.0 * c, k);
    DivPos3(6.0 * k, b);
    DivPos3(6.0 * c * k, b);
  }

  /** w_TPC is the product of its four factors. */
  lemma FitnessIsProduct(m: Tpc, lib: Library, ctmin: real, b: real, t: real)
    requires m.Valid() && b != 0.0
    ensures WTpc(m, lib, ctmin, b, t) == Product(Factors(m, lib, ctmin, b, t))
  {
    var fs := Factors(m, lib, ctmin, b, t);
    FourFactors(fs[0], fs[1], fs[2], fs[3], 0.0, 0.0, 0.0, 0.0);
  }

  /** The four factors, in the order the fitness multiplies them. */
  lemma FactorsAt(m: Tpc, lib: Library, ctmin: real, b: real, t: real)
    requires m.Valid() && b != 0.0
    ensures var fs := Factors(m, lib, ctmin, b, t);
      && fs[0] == WEnzymatic(lib, ctmin, b, t) && fs[1] == WB(m, lib, b)
      && fs[2] == WCTmin(m, lib, ctmin) && fs[3] == WCTmax(m, lib, CTmax(ctmin, b))
  {
  }

  /**
   * The hand-assembled B-gradient is the product rule over the four factors,
   * one factor differentiated at a time; w_CTmin has zero B-slope.
   */
  lemma FitnessGradientDBIsProductRule(m: Tpc, lib: Library, ctmin: real, b: real, t: real)
    requires m.Valid() && b != 0.0
    ensures DwTpcDB(m, lib, ctmin, b, t) == ProductDerivative(
              Factors(m, lib, ctmin, b, t),
              [DwEnzymaticDB(lib, ctmin, b, t), DwBDB(m, lib, b), 0.0,
               DwCTmaxDB(m, lib, ctmin, b)])
  {
    FactorsAt(m, lib, ctmin, b, t);
    PullOutThirdFactor(DwTpcDB(m, lib, ctmin, b, t), Factors(m, lib, ctmin, b, t),
                          [DwEnzymaticDB(lib, ctmin, b, t), DwBDB(m, lib, b), 0.0, DwCTmaxDB(m, lib, ctmin, b)],
                          WEnzymatic(lib, ctmin, b, t), WB(m, lib, b), WCTmin(m, lib, ctmin),
                          WCTmax(m, lib, CTmax(ctmin, b)), DwEnzymaticDB(lib, ctmin, b, t),
                          DwBDB(m, lib, b), DwCTmaxDB(m, lib, ctmin, b));
  }

  /**
   * The hand-assembled CTmin-gradient is the product rule over the four
   * factors; w_B has zero CTmin-slope.
   */
  lemma FitnessGradientDCTminIsProductRule(m: Tpc, lib: Library, ctmin: real, b: real, t: real)
    requires m.Valid() && b != 0.0
    ensures DwTpcDCTmin(m, lib, ctmin, b, t) == ProductDerivative(
              Factors(m, lib, ctmin, b, t),
              [DwEnzymaticDCTmin(lib, ctmin, b, t), 0.0, DwCTminDCTmin(m, lib, ctmin),
               DwCTmaxDCTmin(m, lib, ctmin, b)])
  {
    FactorsAt(m, lib, ctmin, b, t);
    PullOutSecondFactor(DwTpcDCTmin(m, lib, ctmin, b, t), Factors(m, lib, ctmin, b, t),
                          [DwEnzymaticDCTmin(lib, ctmin, b, t), 0.0, DwCTminDCTmin(m, lib, ctmin),
                           DwCTmaxDCTmin(m, lib, ctmin, b)],
                          WEnzymatic(lib, ctmin, b, t), WB(m, lib, b), WCTmin(m, lib, ctmin),
                          WCTmax(m, lib, CTmax(ctmin, b)), DwEnzymaticDCTmin(lib, ctmin, b, t),
                          DwCTminDCTmin(m, lib, ctmin), DwCTmaxDCTmin(m, lib, ctmin, b));
  }

  /** Above CTmax fitness and both of its partial derivatives are zero. */
  lemma GradientVanishesAboveCTmax(m: Tpc, lib: Library, ctmin: real, b: real, t: real)
    requires m.Valid() && b > 0.0 && t > CTmax(ctmin, b)
    ensures WTpc(m, lib, ctmin, b, t) == 0.0
    ensures DwTpcDB(m, lib, ctmin, b, t) == 0.0
    ensures DwTpcDCTmin(m, lib, ctmin, b, t) == 0.0
  {
    FallingBranchSign(ctmin, b, t);
    assert WEnzymatic(lib, ctmin, b, t) == 0.0;
  }

  /** w_CTmax has the same slope in B as in CTmax-preserving trait pairs' CTmin. */
  lemma CTmaxSlopesAgree(m: Tpc, lib: Library, ctmin: real, b: real, ctmin': real, b': real)
    requires m.deltaCTmax != 0.0 && ctmin + b == ctmin' + b'
    ensures DwCTmaxDB(m, lib, ctmin, b) == DwCTmaxDCTmin(m, lib, ctmin', b')
  {
  }
}
