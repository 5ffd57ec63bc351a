/**
 * The floating-point library routines the thermal-performance model calls
 * (scipy.special.expit, numpy.exp, scipy.stats.norm.pdf/cdf,
 * scipy.integrate.quad and numpy.finfo(float64).tiny). Their numerics are not
 * modelled: they are opaque function values bundled in `Library`, and the few
 * facts the proofs rely on are stated as the predicates below, which the
 * lemmas take as hypotheses.
 */
module Numerics {

  datatype Library = Library(
    expit: real -> real,                     // logistic sigmoid 1 / (1 + exp(-x))
    exp: real -> real,                       // natural exponential
    normPdf: (real, real, real) -> real,     // normal density at x with (loc, scale)
    normCdf: (real, real, real) -> real,     // normal distribution function at x with (loc, scale)
    quad: (real -> real, real, real) -> real, // value part of a 1-D quadrature of f over [a, b]
    tiny: real)                              // smallest positive normal double

  /** The logistic sigmoid lies strictly between 0 and 1 and is 1/2 at 0. */
  ghost predicate ExpitLaws(lib: Library)
  {
    && (forall x :: 0.0 < lib.expit(x) < 1.0)
    && lib.expit(0.0) == 0.5
  }

  /** exp is positive and at most 1 on the non-positive reals, and exp(0) = 1. */
  ghost predicate ExpLaws(lib: Library)
  {
    && (forall y :: y <= 0.0 ==> 0.0 < lib.exp(y) <= 1.0)
    && lib.exp(0.0) == 1.0
  }

  /** A distribution function takes values in [0, 1]. */
  ghost predicate CdfLaws(lib: Library)
  {
    forall x, mu, sigma :: 0.0 <= lib.normCdf(x, mu, sigma) <= 1.0
  }

  /** A density is never negative. */
  ghost predicate PdfLaws(lib: Library)
  {
    forall x, mu, sigma :: 0.0 <= lib.normPdf(x, mu, sigma)
  }

  /** The integral of a function that is non-negative on [a, b], a <= b, is non-negative. */
  ghost predicate QuadLaws(lib: Library)
  {
    forall f: real -> real, a, b ::
      a <= b && (forall x :: a <= x <= b ==> 0.0 <= f(x)) ==> 0.0 <= lib.quad(f, a, b)
  }

  /** x ** 2. */
  function Sq(x: real): (y: real)
    ensures 0.0 <= y
  {
    x * x
  }

  // Small facts of real arithmetic, stated over plain variables so that the
  // solver meets each one in isolation.

  lemma MulPos(x: real, y: real)
    requires 0.0 < x && 0.0 < y
    ensures 0.0 < x * y
  {
  }

  lemma MulNonneg(x: real, y: real)
    requires 0.0 <= x && 0.0 <= y
    ensures 0.0 <= x * y
  {
  }

  lemma MulNonposNonneg(x: real, y: real)
    requires x <= 0.0 <= y
    ensures x * y <= 0.0
  {
  }

  /** Multiplying a non-negative y by a factor in [0, 1] (resp. [0, 1)) does not increase it. */
  lemma MulLeFactor(x: real, y: real)
    requires 0.0 <= x <= 1.0 && 0.0 <= y
    ensures x * y <= y
  {
    assert (1.0 - x) * y >= 0.0;
  }

  lemma MulLtFactor(x: real, y: real)
    requires 0.0 <= x < 1.0 && 0.0 < y
    ensures x * y < y
  {
    assert (1.0 - x) * y > 0.0;
  }

  lemma DivPos(x: real, y: real)
    requires 0.0 < x && 0.0 < y
    ensures 0.0 < x / y
  {
  }

  /** Dividing twice by the same non-zero b keeps the sign. */
  lemma DivSquareSign(x: real, b: real)
    requires b != 0.0
    ensures x <= 0.0 ==> x / b / b <= 0.0
    ensures 0.0 <= x ==> 0.0 <= x / b / b
  {
    if b > 0.0 {
      assert x <= 0.0 ==> x / b <= 0.0;
      assert 0.0 <= x ==> 0.0 <= x / b;
    } else {
      assert x <= 0.0 ==> x / b >= 0.0;
      assert 0.0 <= x ==> 0.0 >= x / b;
    }
  }

  /** Dividing a non-negative (positive) x by a positive b once, twice or three times. */
  lemma DivPos3(x: real, b: real)
    requires 0.0 <= x && 0.0 < b
    ensures 0.0 <= x / b && 0.0 <= x / b / b && 0.0 <= x / b / b / b
    ensures 0.0 < x ==> 0.0 < x / b && 0.0 < x / b / b && 0.0 < x / b / b / b
  {
  }

  lemma MulDivAssoc(k: real, s: real, n: real)
    requires n != 0.0
    ensures (k * s) / n == k * (s / n)
  {
  }

  lemma DivCancelLeft(g: real, z: real)
    requires g != 0.0
    ensures (g * z) / g == z
  {
  }

  /** For non-negative u, u ** 2 is at most (below) 1 exactly when u is. */
  lemma SqBelowOne(u: real)
    requires 0.0 <= u
    ensures Sq(u) <= 1.0 <==> u <= 1.0
    ensures Sq(u) < 1.0 <==> u < 1.0
  {
    if u <= 1.0 { assert u * u <= u * 1.0; } else { assert u * u > u * 1.0; }
    if u < 1.0 { assert u * u <= u * 1.0; } else { assert u * u >= u * 1.0; }
  }

  /** For positive w, d / w is at most (below) 1 exactly when d is at most (below) w. */
  lemma RatioBelowOne(d: real, w: real)
    requires 0.0 < w
    ensures d / w <= 1.0 <==> d <= w
    ensures d / w < 1.0 <==> d < w
  {
    var u := d / w;
    assert u * w == d;
    if u <= 1.0 { assert u * w <= 1.0 * w; } else { assert u * w > 1.0 * w; }
    if u < 1.0 { assert u * w < 1.0 * w; } else { assert u * w >= 1.0 * w; }
  }

  /** x ** k for a natural exponent k, as Python evaluates it on a float base. */
  function Pow(x: real, k: nat): real
  {
    if k == 0 then 1.0 else x * Pow(x, k - 1)
  }

  lemma {:induction false} PowUnitInterval(x: real, k: nat)
    requires 0.0 <= x <= 1.0
    ensures 0.0 <= Pow(x, k) <= 1.0
  {
    if k > 0 {
      PowUnitInterval(x, k - 1);
      assert x * Pow(x, k - 1) <= Pow(x, k - 1) by {
        assert (1.0 - x) * Pow(x, k - 1) >= 0.0;
      }
    }
  }

  lemma {:induction false} PowNonnegative(x: real, k: nat)
    requires 0.0 <= x
    ensures 0.0 <= Pow(x, k)
  {
    if k > 0 {
      PowNonnegative(x, k - 1);
      MulNonneg(x, Pow(x, k - 1));
    }
  }

  lemma {:induction false} PowOne(k: nat)
    ensures Pow(1.0, k) == 1.0
  {
    if k > 0 {
      PowOne(k - 1);
    }
  }
}
