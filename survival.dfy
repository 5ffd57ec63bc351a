/**
 * The no-recovery survival weight C of expected_w_TPC_no_recovery and its
 * slope dC/dr used by dexpected_w_TPC_no_recovery_dB/_dCTmin
 * (scripts/tpc_functions_oo.py). A generation lasts nr days; r is the
 * probability that one day stays at or below CTmax (the normal distribution
 * function at CTmax). With no recovery, a day's reproduction counts only if
 * every earlier day was survived, so C is the mean over the nr days of
 * r ** (days already lived): C = (1 + r + ... + r ** (nr - 1)) / nr. The code
 * evaluates the closed form of that sum, and falls back to its value at r = 1
 * when 1 - r is below the smallest positive double.
 */
module Survival {
  import opened Numerics

  /** The fallback test: 1 - r is below the smallest positive normal double. */
  predicate AlmostSure(lib: Library, r: real)
  {
    1.0 - r < lib.tiny
  }

  // Division by a product, a / (b * c), is written a / b / c throughout.

  /** C in closed form, undefined at r = 1. */
  function ClosedWeight(r: real, nr: nat): real
    requires nr >= 1 && r != 1.0
  {
    WeightForm(r, nr as real, Pow(r, nr - 1), Pow(r, nr))
  }

  /** The closed form of C with n = nr, p = r ** (nr - 1) and q = r ** nr. */
  function WeightForm(r: real, n: real, p: real, q: real): real
    requires n != 0.0 && r != 1.0
  {
    (1.0 - n * p + (-1.0 + n) * q) / n / (1.0 - r) + p
  }

  /** dC/dr in closed form, undefined at r = 1. */
  function ClosedSlope(r: real, nr: nat): real
    requires nr >= 1 && r != 1.0
  {
    SlopeForm(r, nr as real, Pow(r, nr - 1), Pow(r, nr))
  }

  /** The closed form of dC/dr with n = nr, p = r ** (nr - 1) and q = r ** nr. */
  function SlopeForm(r: real, n: real, p: real, q: real): real
    requires n != 0.0 && r != 1.0
  {
    ((n - 1.0) * q - n * p + 1.0) / n / (1.0 - r) / (1.0 - r)
  }

  /** C as the code computes it: 1 when r is within tiny of 1, the closed form otherwise. */
  function Weight(lib: Library, r: real, nr: nat): real
    requires nr >= 1 && 0.0 < lib.tiny
  {
    if AlmostSure(lib, r) then 1.0 else ClosedWeight(r, nr)
  }

  /**
   * dC as the code computes it, for one trait: dC/dr times dr/dtrait, where
   * dr/dtrait is the normal density at CTmax (CTmax moves one for one with B
   * and with CTmin). The fallback is 1/2 (nr - 1) times the density.
   */
  function WeightSlope(lib: Library, r: real, nr: nat, density: real): real
    requires nr >= 1 && 0.0 < lib.tiny
  {
    if AlmostSure(lib, r) then 1.0 / 2.0 * (nr as real - 1.0) * density
    else ClosedSlope(r, nr) * density
  }

  // ---------------------------------------------------------------------
  // Reference definitions: the sums the closed forms come from

  /** 1 + r + ... + r ** (n - 1). */
  function Geom(r: real, n: nat): real
  {
    if n == 0 then 0.0 else Geom(r, n - 1) + Pow(r, n - 1)
  }

  /** Its term-by-term derivative in r: 1 + 2 r + ... + (n - 1) r ** (n - 2). */
  function DGeom(r: real, n: nat): real
  {
    if n <= 1 then 0.0 else DGeom(r, n - 1) + (n - 1) as real * Pow(r, n - 2)
  }

  /** Mean, over the nr days of a generation, of the probability of having survived the earlier days. */
  function MeanSurvival(r: real, nr: nat): real
    requires nr >= 1
  {
    Geom(r, nr) / nr as real
  }

  function MeanSurvivalSlope(r: real, nr: nat): real
    requires nr >= 1
  {
    DGeom(r, nr) / nr as real
  }

  // ---------------------------------------------------------------------
  // The closed forms are the sums

  lemma {:induction false} GeomClosed(r: real, n: nat)
    ensures (1.0 - r) * Geom(r, n) == 1.0 - Pow(r, n)
  {
    if n > 0 {
      GeomClosed(r, n - 1);
      var p := Pow(r, n - 1);
      var g := Geom(r, n - 1);
      assert Pow(r, n) == r * p;
      assert (1.0 - r) * (g + p) == (1.0 - r) * g + p - r * p;
    }
  }

  /** (1 - r) ** 2 * d == 1 - n * p + (n - 1) * q, the closed form of DGeom with p = r ** (n - 1), q = r ** n. */
  ghost predicate DGeomShape(r: real, d: real, n: real, p: real, q: real)
  {
    (1.0 - r) * (1.0 - r) * d == 1.0 - n * p + (n - 1.0) * q
  }

  ghost predicate DGeomClosedAt(r: real, n: nat)
    requires n >= 1
  {
    DGeomShape(r, DGeom(r, n), n as real, Pow(r, n - 1), Pow(r, n))
  }

  lemma DGeomStep(r: real, d: real, q: real, m: real, d': real, p1: real, p2: real)
    requires DGeomShape(r, d, m, q, p1)
    requires d' == d + m * q && p1 == r * q && p2 == r * p1
    ensures DGeomShape(r, d', m + 1.0, p1, p2)
  {
  }

  lemma DGeomClosedStep(r: real, n: nat)
    requires n > 1 && DGeomClosedAt(r, n - 1)
    ensures DGeomClosedAt(r, n)
  {
    var m := (n - 1) as real;
    assert m + 1.0 == n as real;
    DGeomStep(r, DGeom(r, n - 1), Pow(r, n - 2), m, DGeom(r, n), Pow(r, n - 1), Pow(r, n));
  }

  lemma {:induction false} DGeomClosed(r: real, n: nat)
    requires n >= 1
    ensures DGeomClosedAt(r, n)
  {
    if n > 1 {
      DGeomClosed(r, n - 1);
      DGeomClosedStep(r, n);
    }
  }

  lemma DivTwice(a: real, n: real, g: real)
    requires n != 0.0 && g != 0.0
    ensures a / n / g * g * n == a
  {
    assert a / n / g * g == a / n;
  }

  lemma WeightAlgebra(x: real, p: real, n: real, g: real, sum: real)
    requires n != 0.0 && g != 0.0 && x + p * (n * g) == g * sum
    ensures x / n / g + p == sum / n
  {
    var u := x / n / g;
    DivTwice(x, n, g);
    assert u * g * n == x;
    var v := sum / n;
    assert v * n == sum;
    assert (u + p) * (n * g) == v * (n * g);
    assert n * g != 0.0;
  }

  lemma WeightNumerator(r: real, p: real, n: real, sum: real)
    requires (1.0 - r) * sum == 1.0 - r * p
    ensures (1.0 - n * p + (-1.0 + n) * (r * p)) + p * (n * (1.0 - r)) == (1.0 - r) * sum
  {
  }

  lemma SlopeAlgebra(y: real, n: real, g: real, sum: real)
    requires n != 0.0 && g != 0.0 && y == g * g * sum
    ensures y / n / g / g == sum / n
  {
    var w := sum / n;
    var a := g * w;
    MulDivAssoc(g * g, sum, n);
    assert y / n == (g * g) * w;
    assert (g * g) * w == g * a;
    DivCancelLeft(g, a);
    assert y / n / g == a;
    DivCancelLeft(g, w);
  }

  /** The closed form of C is the mean survival, wherever it is defined. */
  lemma ClosedWeightIsMeanSurvival(r: real, nr: nat)
    requires nr >= 1 && r != 1.0
    ensures ClosedWeight(r, nr) == MeanSurvival(r, nr)
  {
    GeomClosed(r, nr);
    ClosedWeightAlgebra(r, Pow(r, nr - 1), Pow(r, nr), nr as real, Geom(r, nr));
  }

  lemma ClosedWeightAlgebra(r: real, p: real, q: real, n: real, sum: real)
    requires r != 1.0 && n != 0.0 && q == r * p && (1.0 - r) * sum == 1.0 - q
    ensures WeightForm(r, n, p, q) == sum / n
  {
    WeightNumerator(r, p, n, sum);
    WeightAlgebra(1.0 - n * p + (-1.0 + n) * q, p, n, 1.0 - r, sum);
  }

  /** The closed form of dC/dr is the derivative of the sum, divided by nr. */
  lemma ClosedSlopeIsMeanSurvivalSlope(r: real, nr: nat)
    requires nr >= 1 && r != 1.0
    ensures ClosedSlope(r, nr) == MeanSurvivalSlope(r, nr)
  {
    DGeomClosed(r, nr);
    ClosedSlopeAlgebra(r, nr as real, Pow(r, nr - 1), Pow(r, nr), DGeom(r, nr));
  }

  lemma ClosedSlopeAlgebra(r: real, n: real, p: real, q: real, d: real)
    requires r != 1.0 && n != 0.0 && DGeomShape(r, d, n, p, q)
    ensures SlopeForm(r, n, p, q) == d / n
  {
    SlopeAlgebra((n - 1.0) * q - n * p + 1.0, n, 1.0 - r, d);
  }

  // ---------------------------------------------------------------------
  // The fallback values are the sums at r = 1

  lemma {:induction false} GeomAtOne(n: nat)
    ensures Geom(1.0, n) == n as real
  {
    if n > 0 {
      GeomAtOne(n - 1);
      PowOne(n - 1);
    }
  }

  lemma {:induction false} DGeomAtOne(n: nat)
    ensures 2.0 * DGeom(1.0, n) == n as real * (n as real - 1.0)
  {
    if n > 1 {
      DGeomAtOne(n - 1);
      PowOne(n - 2);
      var m := (n - 1) as real;
      assert 2.0 * DGeom(1.0, n) == m * (m - 1.0) + 2.0 * m;
      assert m * (m - 1.0) + 2.0 * m == (m + 1.0) * m;
    }
  }

  /**
   * C = 1 and dC/dr = (nr - 1) / 2 are the values of the two sums at r = 1,
   * so the fallback agrees with the closed forms in the limit r -> 1.
   */
  lemma FallbackIsValueAtOne(nr: nat)
    requires nr >= 1
    ensures MeanSurvival(1.0, nr) == 1.0
    ensures MeanSurvivalSlope(1.0, nr) == 1.0 / 2.0 * (nr as real - 1.0)
  {
    var n := nr as real;
    GeomAtOne(nr);
    DGeomAtOne(nr);
    var d, h := DGeom(1.0, nr), (n - 1.0) / 2.0;
    MulDivAssoc(n, n - 1.0, 2.0);
    assert n * h == d;
    DivCancelLeft(n, h);
    assert d / n == h;
    assert MeanSurvivalSlope(1.0, nr) == h;
    assert Geom(1.0, nr) / n == 1.0;
  }

  /** At r = 1 every day is survived: the fallback is taken and C is 1. */
  lemma WeightAtOne(lib: Library, nr: nat)
    requires nr >= 1 && 0.0 < lib.tiny
    ensures AlmostSure(lib, 1.0)
    ensures Weight(lib, 1.0, nr) == 1.0
  {
    WeightIsMeanSurvival(lib, 1.0, nr, 0.0);
    FallbackIsValueAtOne(nr);
  }

  lemma {:induction false} GeomAtZero(n: nat)
    requires n >= 1
    ensures Geom(0.0, n) == 1.0
  {
    if n > 1 {
      GeomAtZero(n - 1);
    }
  }

  /**
   * When every day is lethal (r = 0) the closed form is used (tiny is the
   * smallest positive double, far below 1) and C is 1/nr: only the first
   * day of the generation is lived.
   */
  lemma WeightAtZero(lib: Library, nr: nat)
    requires nr >= 1 && 0.0 < lib.tiny <= 1.0
    ensures !AlmostSure(lib, 0.0)
    ensures Weight(lib, 0.0, nr) == 1.0 / nr as real
  {
    WeightIsMeanSurvival(lib, 0.0, nr, 0.0);
    GeomAtZero(nr);
  }

  // ---------------------------------------------------------------------
  // What the code computes

  /**
   * The code's C is the mean survival at r, or at 1 when r is within tiny of 1;
   * the value and its slope use the same test.
   */
  lemma WeightIsMeanSurvival(lib: Library, r: real, nr: nat, density: real)
    requires nr >= 1 && 0.0 < lib.tiny
    ensures Weight(lib, r, nr)
         == MeanSurvival(if AlmostSure(lib, r) then 1.0 else r, nr)
    ensures WeightSlope(lib, r, nr, density)
         == MeanSurvivalSlope(if AlmostSure(lib, r) then 1.0 else r, nr) * density
  {
    if AlmostSure(lib, r) {
      FallbackIsValueAtOne(nr);
    } else {
      ClosedWeightIsMeanSurvival(r, nr);
      ClosedSlopeIsMeanSurvivalSlope(r, nr);
    }
  }

  lemma {:induction false} GeomBounds(r: real, n: nat)
    requires 0.0 <= r <= 1.0 && n >= 1
    ensures 1.0 <= Geom(r, n) <= n as real
    ensures r < 1.0 && n >= 2 ==> Geom(r, n) < n as real
  {
    if n == 1 {
      assert Geom(r, 1) == Geom(r, 0) + Pow(r, 0);
    } else {
      GeomBounds(r, n - 1);
      PowUnitInterval(r, n - 1);
      if r < 1.0 {
        PowUnitInterval(r, n - 2);
        MulLeFactor(Pow(r, n - 2), r);
        assert Pow(r, n - 1) == r * Pow(r, n - 2);
        MulLeFactor(r, Pow(r, n - 2));
      }
    }
  }

  lemma MeanBounds(sum: real, n: real)
    requires 1.0 <= n && 1.0 <= sum <= n
    ensures 1.0 / n <= sum / n <= 1.0
    ensures sum < n ==> sum / n < 1.0
  {
  }

  /**
   * For a probability r, C lies between 1 / nr (every day but the first may
   * be lethal) and 1 (no day is); it is below 1 when the closed form is used
   * with more than one day per generation.
   */
  lemma WeightBounds(lib: Library, r: real, nr: nat)
    requires nr >= 1 && 0.0 < lib.tiny && 0.0 <= r <= 1.0
    ensures 1.0 / nr as real <= Weight(lib, r, nr) <= 1.0
    ensures !AlmostSure(lib, r) && nr >= 2 ==> Weight(lib, r, nr) < 1.0
  {
    WeightIsMeanSurvival(lib, r, nr, 0.0);
    var rho := if AlmostSure(lib, r) then 1.0 else r;
    GeomBounds(rho, nr);
    MeanBounds(Geom(rho, nr), nr as real);
  }

  lemma {:induction false} DGeomNonnegative(r: real, n: nat)
    requires 0.0 <= r
    ensures 0.0 <= DGeom(r, n)
  {
    if n > 1 {
      DGeomNonnegative(r, n - 1);
      PowNonnegative(r, n - 2);
      MulNonneg((n - 1) as real, Pow(r, n - 2));
    }
  }

  /** C never decreases as r grows: its slope times a non-negative density is non-negative. */
  lemma WeightSlopeNonnegative(lib: Library, r: real, nr: nat, density: real)
    requires nr >= 1 && 0.0 < lib.tiny && 0.0 <= r && 0.0 <= density
    ensures 0.0 <= WeightSlope(lib, r, nr, density)
  {
    WeightIsMeanSurvival(lib, r, nr, density);
    var rho := if AlmostSure(lib, r) then 1.0 else r;
    DGeomNonnegative(rho, nr);
    MulNonneg(DGeom(rho, nr) / nr as real, density);
  }
}
