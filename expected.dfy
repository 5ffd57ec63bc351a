/**
 * Expected fitness over a normally distributed temperature (mean muT,
 * standard deviation sigmaT), with and without recovery from heat damage,
 * and the partial derivatives the gradient flow uses
 * (scripts/tpc_functions_oo.py). Every integral is the value part of the
 * library quadrature over the stated bounds.
 */
module Expected {
  import opened Numerics
  import opened Fitness
  import opened FitnessLaws
  import opened Survival

  /** Fitness at T weighted by the density of T. */
  function Integrand(m: Tpc, lib: Library, ctmin: real, b: real, muT: real, sigmaT: real): real -> real
    requires m.Valid() && b != 0.0
  {
    t => WTpc(m, lib, ctmin, b, t) * lib.normPdf(t, muT, sigmaT)
  }

  /** Recovery model: the integral of fitness times density from CTmin to CTmax. */
  function ExpectedRecovery(m: Tpc, lib: Library, ctmin: real, b: real, muT: real, sigmaT: real): real
    requires m.Valid() && b != 0.0
  {
    lib.quad(Integrand(m, lib, ctmin, b, muT, sigmaT), ctmin, CTmax(ctmin, b))
  }

  /** Probability that one day's temperature is at most CTmax. */
  function SafeDay(lib: Library, ctmin: real, b: real, muT: real, sigmaT: real): real
  {
    lib.normCdf(CTmax(ctmin, b), muT, sigmaT)
  }

  /** No-recovery model: the same integral scaled by the survival weight C. */
  function ExpectedNoRecovery(m: Tpc, lib: Library, ctmin: real, b: real, muT: real, sigmaT: real): real
    requires m.Valid() && b != 0.0 && m.numDaysPerGen >= 1 && 0.0 < lib.tiny
  {
    Weight(lib, SafeDay(lib, ctmin, b, muT, sigmaT), m.numDaysPerGen as nat)
      * ExpectedRecovery(m, lib, ctmin, b, muT, sigmaT)
  }

  /** The B-gradient of fitness at T weighted by the density of T. */
  function GradientIntegrandDB(m: Tpc, lib: Library, ctmin: real, b: real, muT: real, sigmaT: real): real -> real
    requires m.Valid() && b != 0.0
  {
    t => DwTpcDB(m, lib, ctmin, b, t) * lib.normPdf(t, muT, sigmaT)
  }

  /** The CTmin-gradient of fitness at T weighted by the density of T. */
  function GradientIntegrandDCTmin(m: Tpc, lib: Library, ctmin: real, b: real, muT: real, sigmaT: real): real -> real
    requires m.Valid() && b != 0.0
  {
    t => DwTpcDCTmin(m, lib, ctmin, b, t) * lib.normPdf(t, muT, sigmaT)
  }

  /** Partial derivative in B under recovery: the B-gradient of fitness integrated from muT - 5 sigmaT to CTmax. */
  function DExpectedRecoveryDB(m: Tpc, lib: Library, ctmin: real, b: real, muT: real, sigmaT: real): real
    requires m.Valid() && b != 0.0
  {
    lib.quad(GradientIntegrandDB(m, lib, ctmin, b, muT, sigmaT), muT - sigmaT * 5.0, CTmax(ctmin, b))
  }

  /** Partial derivative in CTmin under recovery, over the same bounds. */
  function DExpectedRecoveryDCTmin(m: Tpc, lib: Library, ctmin: real, b: real, muT: real, sigmaT: real): real
    requires m.Valid() && b != 0.0
  {
    lib.quad(GradientIntegrandDCTmin(m, lib, ctmin, b, muT, sigmaT), muT - sigmaT * 5.0, CTmax(ctmin, b))
  }

  /** The product rule d(C E) = dC E + C dE. */
  function ProductSlope(dc: real, e: real, c: real, de: real): real
  {
    dc * e + c * de
  }

  /** Partial derivative in B without recovery: dC * E + C * dE. */
  function DExpectedNoRecoveryDB(m: Tpc, lib: Library, ctmin: real, b: real, muT: real, sigmaT: real): real
    requires m.Valid() && b != 0.0 && m.numDaysPerGen >= 1 && 0.0 < lib.tiny
  {
    var r := SafeDay(lib, ctmin, b, muT, sigmaT);
    var nr := m.numDaysPerGen as nat;
    ProductSlope(WeightSlope(lib, r, nr, lib.normPdf(CTmax(ctmin, b), muT, sigmaT)),
                 ExpectedRecovery(m, lib, ctmin, b, muT, sigmaT),
                 Weight(lib, r, nr), DExpectedRecoveryDB(m, lib, ctmin, b, muT, sigmaT))
  }

  /** Partial derivative in CTmin without recovery: dC * E + C * dE. */
  function DExpectedNoRecoveryDCTmin(m: Tpc, lib: Library, ctmin: real, b: real, muT: real, sigmaT: real): real
    requires m.Valid() && b != 0.0 && m.numDaysPerGen >= 1 && 0.0 < lib.tiny
  {
    var r := SafeDay(lib, ctmin, b, muT, sigmaT);
    var nr := m.numDaysPerGen as nat;
    ProductSlope(WeightSlope(lib, r, nr, lib.normPdf(CTmax(ctmin, b), muT, sigmaT)),
                 ExpectedRecovery(m, lib, ctmin, b, muT, sigmaT),
                 Weight(lib, r, nr), DExpectedRecoveryDCTmin(m, lib, ctmin, b, muT, sigmaT))
  }

  // ---------------------------------------------------------------------
  // Grids: one cell per (B, CTmin) pair, rows indexed by B and columns by CTmin

  method ExpectedRecoveryGrid(m: Tpc, lib: Library, ctmins: seq<real>, bs: seq<real>,
                              muT: real, sigmaT: real)
    returns (output: array2<real>)
    requires m.Valid() && forall i :: 0 <= i < |bs| ==> bs[i] != 0.0
    ensures fresh(output)
    ensures output.Length0 == |bs| && output.Length1 == |ctmins|
    ensures forall i, j :: 0 <= i < |bs| && 0 <= j < |ctmins| ==>
              output[i, j] == ExpectedRecovery(m, lib, ctmins[j], bs[i], muT, sigmaT)
  {
    output := new real[|bs|, |ctmins|]((i, j) => 0.0);
    for i := 0 to |bs|
      invariant forall i', j :: 0 <= i' < i && 0 <= j < |ctmins| ==>
                  output[i', j] == ExpectedRecovery(m, lib, ctmins[j], bs[i'], muT, sigmaT)
    {
      for j := 0 to |ctmins|
        invariant forall i', j' :: 0 <= i' < i && 0 <= j' < |ctmins| ==>
                    output[i', j'] == ExpectedRecovery(m, lib, ctmins[j'], bs[i'], muT, sigmaT)
        invariant forall j' :: 0 <= j' < j ==>
                    output[i, j'] == ExpectedRecovery(m, lib, ctmins[j'], bs[i], muT, sigmaT)
      {
        output[i, j] := ExpectedRecovery(m, lib, ctmins[j], bs[i], muT, sigmaT);
      }
    }
  }

  method ExpectedNoRecoveryGrid(m: Tpc, lib: Library, ctmins: seq<real>, bs: seq<real>,
                                muT: real, sigmaT: real)
    returns (output: array2<real>)
    requires m.Valid() && m.numDaysPerGen >= 1 && 0.0 < lib.tiny
    requires forall i :: 0 <= i < |bs| ==> bs[i] != 0.0
    ensures fresh(output)
    ensures output.Length0 == |bs| && output.Length1 == |ctmins|
    ensures forall i, j :: 0 <= i < |bs| && 0 <= j < |ctmins| ==>
              output[i, j] == Weight(lib, SafeDay(lib, ctmins[j], bs[i], muT, sigmaT), m.numDaysPerGen as nat)
                              * ExpectedRecovery(m, lib, ctmins[j], bs[i], muT, sigmaT)
  {
    output := new real[|bs|, |ctmins|]((i, j) => 0.0);
    for i := 0 to |bs|
      invariant forall i', j :: 0 <= i' < i && 0 <= j < |ctmins| ==>
                  output[i', j] == ExpectedNoRecovery(m, lib, ctmins[j], bs[i'], muT, sigmaT)
    {
      for j := 0 to |ctmins|
        invariant forall i', j' :: 0 <= i' < i && 0 <= j' < |ctmins| ==>
                    output[i', j'] == ExpectedNoRecovery(m, lib, ctmins[j'], bs[i'], muT, sigmaT)
        invariant forall j' :: 0 <= j' < j ==>
                    output[i, j'] == ExpectedNoRecovery(m, lib, ctmins[j'], bs[i], muT, sigmaT)
      {
        output[i, j] := NoRecoveryCell(m, lib, ctmins[j], bs[i], muT, sigmaT);
      }
    }
  }

  /** One cell of the no-recovery grid: the survival weight C times the recovery integral. */
  method NoRecoveryCell(m: Tpc, lib: Library, ctmin: real, b: real, muT: real, sigmaT: real)
    returns (cell: real)
    requires m.Valid() && b != 0.0 && m.numDaysPerGen >= 1 && 0.0 < lib.tiny
    ensures cell == ExpectedNoRecovery(m, lib, ctmin, b, muT, sigmaT)
  {
    var nr := m.numDaysPerGen as nat;
    var integral := lib.quad(Integrand(m, lib, ctmin, b, muT, sigmaT), ctmin, CTmax(ctmin, b));
    var r := lib.normCdf(CTmax(ctmin, b), muT, sigmaT);
    var c: real;
    if 1.0 - r < lib.tiny {
      c := 1.0;
    } else {
      c := ClosedWeight(r, nr);
    }
    cell := c * integral;
  }

  // ---------------------------------------------------------------------
  // Properties

  /** With B > 0 the recovery expectation is non-negative: the integrand is, and CTmin <= CTmax. */
  lemma ExpectedRecoveryNonnegative(m: Tpc, lib: Library, ctmin: real, b: real, muT: real, sigmaT: real)
    requires m.Valid() && b > 0.0
    requires ExpitLaws(lib) && ExpLaws(lib) && PdfLaws(lib) && QuadLaws(lib)
    ensures 0.0 <= ExpectedRecovery(m, lib, ctmin, b, muT, sigmaT)
  {
    var f := Integrand(m, lib, ctmin, b, muT, sigmaT);
    forall t | ctmin <= t <= CTmax(ctmin, b)
      ensures 0.0 <= f(t)
    {
      FitnessInUnitInterval(m, lib, ctmin, b, t);
      MulNonneg(WTpc(m, lib, ctmin, b, t), lib.normPdf(t, muT, sigmaT));
    }
  }

  /**
   * Without recovery the expectation is the recovery expectation times the
   * mean survival at r, or at 1 when r is within tiny of 1.
   */
  lemma NoRecoveryIsMeanSurvivalTimesRecovery(m: Tpc, lib: Library, ctmin: real, b: real,
                                              muT: real, sigmaT: real)
    requires m.Valid() && b != 0.0 && m.numDaysPerGen >= 1 && 0.0 < lib.tiny
    ensures var r := SafeDay(lib, ctmin, b, muT, sigmaT);
            ExpectedNoRecovery(m, lib, ctmin, b, muT, sigmaT)
            == MeanSurvival(if AlmostSure(lib, r) then 1.0 else r, m.numDaysPerGen as nat)
               * ExpectedRecovery(m, lib, ctmin, b, muT, sigmaT)
  {
    WeightIsMeanSurvival(lib, SafeDay(lib, ctmin, b, muT, sigmaT), m.numDaysPerGen as nat, 0.0);
  }

  /**
   * Hence, for B > 0, losing the rest of the generation to a lethal day costs
   * at most a factor nr: the no-recovery expectation lies between 1 / nr of
   * the recovery expectation and the recovery expectation.
   */
  lemma NoRecoveryBetween(m: Tpc, lib: Library, ctmin: real, b: real, muT: real, sigmaT: real)
    requires m.Valid() && b > 0.0 && m.numDaysPerGen >= 1 && 0.0 < lib.tiny
    requires ExpitLaws(lib) && ExpLaws(lib) && PdfLaws(lib) && CdfLaws(lib) && QuadLaws(lib)
    ensures ExpectedRecovery(m, lib, ctmin, b, muT, sigmaT) / m.numDaysPerGen as real
            <= ExpectedNoRecovery(m, lib, ctmin, b, muT, sigmaT)
            <= ExpectedRecovery(m, lib, ctmin, b, muT, sigmaT)
  {
    var r := SafeDay(lib, ctmin, b, muT, sigmaT);
    var nr := m.numDaysPerGen as nat;
    assert 0.0 <= r <= 1.0;
    WeightBounds(lib, r, nr);
    ExpectedRecoveryNonnegative(m, lib, ctmin, b, muT, sigmaT);
    ScaleBetween(Weight(lib, r, nr), ExpectedRecovery(m, lib, ctmin, b, muT, sigmaT), nr as real);
  }

  lemma ScaleBetween(c: real, e: real, n: real)
    requires 1.0 <= n && 1.0 / n <= c <= 1.0 && 0.0 <= e
    ensures e / n <= c * e <= e
  {
    MulLeFactor(c, e);
    assert e / n == (1.0 / n) * e;
    assert (1.0 / n) * e <= c * e by {
      assert (c - 1.0 / n) * e >= 0.0;
    }
  }

  /** The point at which the code evaluates C and dC/dr: r, or 1 when r is within tiny of 1. */
  function SurvivalPoint(lib: Library, ctmin: real, b: real, muT: real, sigmaT: real): real
  {
    var r := SafeDay(lib, ctmin, b, muT, sigmaT);
    if AlmostSure(lib, r) then 1.0 else r
  }

  /**
   * Both no-recovery gradients are the product rule d(C E) = dC E + C dE,
   * with C and dC/dr the mean survival and its r-derivative taken at the
   * same point, and dr the density at CTmax (CTmax moves one for one with B
   * and with CTmin).
   */
  lemma NoRecoveryGradientDBFollowsSurvival(m: Tpc, lib: Library, ctmin: real, b: real, muT: real, sigmaT: real)
    requires m.Valid() && b != 0.0 && m.numDaysPerGen >= 1 && 0.0 < lib.tiny
    ensures DExpectedNoRecoveryDB(m, lib, ctmin, b, muT, sigmaT)
            == ProductSlope(MeanSurvivalSlope(SurvivalPoint(lib, ctmin, b, muT, sigmaT), m.numDaysPerGen as nat)
                              * lib.normPdf(CTmax(ctmin, b), muT, sigmaT),
                            ExpectedRecovery(m, lib, ctmin, b, muT, sigmaT),
                            MeanSurvival(SurvivalPoint(lib, ctmin, b, muT, sigmaT), m.numDaysPerGen as nat),
                            DExpectedRecoveryDB(m, lib, ctmin, b, muT, sigmaT))
  {
    var r, nr := SafeDay(lib, ctmin, b, muT, sigmaT), m.numDaysPerGen as nat;
    var dr := lib.normPdf(CTmax(ctmin, b), muT, sigmaT);
    assert DExpectedNoRecoveryDB(m, lib, ctmin, b, muT, sigmaT)
           == ProductSlope(WeightSlope(lib, r, nr, dr), ExpectedRecovery(m, lib, ctmin, b, muT, sigmaT),
                           Weight(lib, r, nr), DExpectedRecoveryDB(m, lib, ctmin, b, muT, sigmaT));
    WeightIsMeanSurvival(lib, r, nr, dr);
  }

  lemma NoRecoveryGradientDCTminFollowsSurvival(m: Tpc, lib: Library, ctmin: real, b: real, muT: real, sigmaT: real)
    requires m.Valid() && b != 0.0 && m.numDaysPerGen >= 1 && 0.0 < lib.tiny
    ensures DExpectedNoRecoveryDCTmin(m, lib, ctmin, b, muT, sigmaT)
            == ProductSlope(MeanSurvivalSlope(SurvivalPoint(lib, ctmin, b, muT, sigmaT), m.numDaysPerGen as nat)
                              * lib.normPdf(CTmax(ctmin, b), muT, sigmaT),
                            ExpectedRecovery(m, lib, ctmin, b, muT, sigmaT),
                            MeanSurvival(SurvivalPoint(lib, ctmin, b, muT, sigmaT), m.numDaysPerGen as nat),
                            DExpectedRecoveryDCTmin(m, lib, ctmin, b, muT, sigmaT))
  {
    var r, nr := SafeDay(lib, ctmin, b, muT, sigmaT), m.numDaysPerGen as nat;
    var dr := lib.normPdf(CTmax(ctmin, b), muT, sigmaT);
    assert DExpectedNoRecoveryDCTmin(m, lib, ctmin, b, muT, sigmaT)
           == ProductSlope(WeightSlope(lib, r, nr, dr), ExpectedRecovery(m, lib, ctmin, b, muT, sigmaT),
                           Weight(lib, r, nr), DExpectedRecoveryDCTmin(m, lib, ctmin, b, muT, sigmaT));
    WeightIsMeanSurvival(lib, r, nr, dr);
  }

  /**
   * Above CTmax the integrands of the expectation and of both recovery
   * gradients are zero, so the upper bound CTmax cuts off no mass.
   */
  lemma IntegrandsVanishAboveCTmax(m: Tpc, lib: Library, ctmin: real, b: real, muT: real, sigmaT: real, t: real)
    requires m.Valid() && b > 0.0 && t > CTmax(ctmin, b)
    ensures Integrand(m, lib, ctmin, b, muT, sigmaT)(t) == 0.0
    ensures GradientIntegrandDB(m, lib, ctmin, b, muT, sigmaT)(t) == 0.0
    ensures GradientIntegrandDCTmin(m, lib, ctmin, b, muT, sigmaT)(t) == 0.0
  {
    GradientVanishesAboveCTmax(m, lib, ctmin, b, t);
  }
}
