/**
 * Instantaneous fitness of a thermal-performance curve (class w_TPC in
 * scripts/tpc_functions_oo.py), for one trait pair (CTmin, B) and one
 * temperature T: three logistic constraint factors, the piecewise enzymatic
 * curve, their product, and the analytic partial derivatives with respect to
 * B and CTmin. CTmax is never stored: it is always CTmin + B.
 */
module Fitness {
  import opened Numerics
  import opened ProductRule

  /** The constraint parameters a w_TPC object is built with and never changes. */
  datatype Tpc = Tpc(
    bCritical: real, deltaB: real,
    ctminCritical: real, deltaCTmin: real,
    ctmaxCritical: real, deltaCTmax: real,
    numDaysPerGen: int)
  {
    /** Every logistic divides by its width. */
    predicate Valid()
    {
      deltaB != 0.0 && deltaCTmin != 0.0 && deltaCTmax != 0.0
    }
  }

  /** The constructor defaults. */
  function DefaultTpc(): (m: Tpc)
    ensures m.Valid() && m.deltaB > 0.0 && m.deltaCTmin > 0.0 && m.deltaCTmax > 0.0
    ensures m.numDaysPerGen == 10
  {
    Tpc(40.0, 2.0, 0.0, 2.0, 40.0, 0.2, 10)
  }

  function CTmax(ctmin: real, b: real): real
  {
    ctmin + b
  }

  /** Temperature of peak enzymatic performance. */
  function Topt(ctmin: real, b: real): real
  {
    ctmin + 2.0 / 3.0 * b
  }

  // ---------------------------------------------------------------------
  // Logistic constraint factors

  /** Penalises breadths above B_critical. */
  function WB(m: Tpc, lib: Library, b: real): (w: real)
    requires m.deltaB != 0.0
    ensures ExpitLaws(lib) ==> 0.0 < w < 1.0
    ensures ExpitLaws(lib) && b == m.bCritical ==> w == 0.5
  {
    lib.expit(-(b - m.bCritical) / m.deltaB)
  }

  /** Penalises lower limits below CTmin_critical. */
  function WCTmin(m: Tpc, lib: Library, ctmin: real): (w: real)
    requires m.deltaCTmin != 0.0
    ensures ExpitLaws(lib) ==> 0.0 < w < 1.0
    ensures ExpitLaws(lib) && ctmin == m.ctminCritical ==> w == 0.5
  {
    lib.expit(-(-ctmin + m.ctminCritical) / m.deltaCTmin)
  }

  /** Penalises upper limits above CTmax_critical. */
  function WCTmax(m: Tpc, lib: Library, ctmax: real): (w: real)
    requires m.deltaCTmax != 0.0
    ensures ExpitLaws(lib) ==> 0.0 < w < 1.0
    ensures ExpitLaws(lib) && ctmax == m.ctmaxCritical ==> w == 0.5
  {
    lib.expit(-(ctmax - m.ctmaxCritical) / m.deltaCTmax)
  }

  // ---------------------------------------------------------------------
  // Enzymatic curve

  /** Gaussian rise, used up to and including Topt. */
  function RisingBranch(lib: Library, ctmin: real, b: real, t: real): real
    requires b != 0.0
  {
    lib.exp(-Sq(3.0 * (t - ctmin - 2.0 / 3.0 * b) / b))
  }

  /** Parabolic fall, used above Topt. */
  function FallingBranch(ctmin: real, b: real, t: real): real
    requires b != 0.0
  {
    1.0 - Sq((t - ctmin - 2.0 / 3.0 * b) / (1.0 / 3.0 * b))
  }

  /**
   * The enzymatic component: the branch is chosen by comparing T with Topt,
   * and a negative value is then replaced by 0.
   */
  function WEnzymatic(lib: Library, ctmin: real, b: real, t: real): (w: real)
    requires b != 0.0
    ensures 0.0 <= w
    ensures ExpLaws(lib) ==> w <= 1.0
  {
    var raw := if t <= Topt(ctmin, b) then RisingBranch(lib, ctmin, b, t)
               else FallingBranch(ctmin, b, t);
    if raw >= 0.0 then raw else 0.0
  }

  /** Instantaneous fitness: the enzymatic curve times the three constraint factors. */
  function WTpc(m: Tpc, lib: Library, ctmin: real, b: real, t: real): real
    requires m.Valid() && b != 0.0
  {
    WEnzymatic(lib, ctmin, b, t) * WB(m, lib, b) * WCTmin(m, lib, ctmin)
      * WCTmax(m, lib, CTmax(ctmin, b))
  }

  // ---------------------------------------------------------------------
  // Partial derivatives of the constraint factors

  function DwBDB(m: Tpc, lib: Library, b: real): (d: real)
    requires m.deltaB != 0.0
    ensures ExpitLaws(lib) && m.deltaB > 0.0 ==> d < 0.0
    ensures ExpitLaws(lib) && b == m.bCritical ==> d == -1.0 / (4.0 * m.deltaB)
  {
    -1.0 / m.deltaB * WB(m, lib, b) * (1.0 - WB(m, lib, b))
  }

  function DwCTminDCTmin(m: Tpc, lib: Library, ctmin: real): (d: real)
    requires m.deltaCTmin != 0.0
    ensures ExpitLaws(lib) && m.deltaCTmin > 0.0 ==> d > 0.0
    ensures ExpitLaws(lib) && ctmin == m.ctminCritical ==> d == 1.0 / (4.0 * m.deltaCTmin)
  {
    1.0 / m.deltaCTmin * WCTmin(m, lib, ctmin) * (1.0 - WCTmin(m, lib, ctmin))
  }

  /** Slope of w_CTmax in its own argument; CTmax = CTmin + B has slope 1 in both traits. */
  function DwCTmaxDCTmax(m: Tpc, lib: Library, ctmax: real): (d: real)
    requires m.deltaCTmax != 0.0
    ensures ExpitLaws(lib) && m.deltaCTmax > 0.0 ==> d < 0.0
    ensures ExpitLaws(lib) && ctmax == m.ctmaxCritical ==> d == -1.0 / (4.0 * m.deltaCTmax)
  {
    -1.0 / m.deltaCTmax * WCTmax(m, lib, ctmax) * (1.0 - WCTmax(m, lib, ctmax))
  }

  function DwCTmaxDB(m: Tpc, lib: Library, ctmin: real, b: real): real
    requires m.deltaCTmax != 0.0
  {
    DwCTmaxDCTmax(m, lib, CTmax(ctmin, b))
  }

  function DwCTmaxDCTmin(m: Tpc, lib: Library, ctmin: real, b: real): real
    requires m.deltaCTmax != 0.0
  {
    DwCTmaxDCTmax(m, lib, CTmax(ctmin, b))
  }

  // ---------------------------------------------------------------------
  // Partial derivatives of the enzymatic curve, by temperature region

  datatype Region = Rising | Falling | Flat

  /** The three-way case split the enzymatic derivatives use. */
  function RegionOf(ctmin: real, b: real, t: real): Region
  {
    if t <= Topt(ctmin, b) then Rising
    else if t <= CTmax(ctmin, b) then Falling
    else Flat
  }

  // The branch formulas, written with k = 3 T - 3 CTmin - 2 B (three times the
  // distance above Topt) and c = T - CTmin; B ** n is written as n divisions by B.

  function RisingSlopeB(lib: Library, k: real, c: real, b: real): real
    requires b != 0.0
  {
    lib.exp(-Sq(k / b)) * 6.0 * k * c / b / b / b
  }

  function FallingSlopeB(k: real, c: real, b: real): real
    requires b != 0.0
  {
    6.0 * c * k / b / b / b
  }

  function RisingSlopeCTmin(lib: Library, k: real, b: real): real
    requires b != 0.0
  {
    6.0 * lib.exp(-Sq(k) / b / b) * k / b / b
  }

  function FallingSlopeCTmin(k: real, b: real): real
    requires b != 0.0
  {
    6.0 * k / b / b
  }

  function DwEnzymaticDB(lib: Library, ctmin: real, b: real, t: real): (d: real)
    requires b != 0.0
    ensures RegionOf(ctmin, b, t) == Flat ==> d == 0.0
  {
    match RegionOf(ctmin, b, t)
    case Rising => RisingSlopeB(lib, 3.0 * t - 3.0 * ctmin - 2.0 * b, t - ctmin, b)
    case Falling => FallingSlopeB(3.0 * t - 3.0 * ctmin - 2.0 * b, t - ctmin, b)
    case Flat => 0.0
  }

  function DwEnzymaticDCTmin(lib: Library, ctmin: real, b: real, t: real): (d: real)
    requires b != 0.0
    ensures RegionOf(ctmin, b, t) == Flat ==> d == 0.0
  {
    match RegionOf(ctmin, b, t)
    case Rising => RisingSlopeCTmin(lib, 3.0 * t - 3.0 * ctmin - 2.0 * b, b)
    case Falling => FallingSlopeCTmin(3.0 * t - 3.0 * ctmin - 2.0 * b, b)
    case Flat => 0.0
  }

  // ---------------------------------------------------------------------
  // Partial derivatives of the instantaneous fitness

  /** Product rule with w_CTmin, which does not depend on B, pulled out. */
  function DwTpcDB(m: Tpc, lib: Library, ctmin: real, b: real, t: real): real
    requires m.Valid() && b != 0.0
  {
    FixedFactorSlope(WEnzymatic(lib, ctmin, b, t), DwEnzymaticDB(lib, ctmin, b, t),
                     WB(m, lib, b), DwBDB(m, lib, b),
                     WCTmax(m, lib, CTmax(ctmin, b)), DwCTmaxDB(m, lib, ctmin, b),
                     WCTmin(m, lib, ctmin))
  }

  /** Product rule with w_B, which does not depend on CTmin, pulled out. */
  function DwTpcDCTmin(m: Tpc, lib: Library, ctmin: real, b: real, t: real): real
    requires m.Valid() && b != 0.0
  {
    FixedFactorSlope(WEnzymatic(lib, ctmin, b, t), DwEnzymaticDCTmin(lib, ctmin, b, t),
                     WCTmin(m, lib, ctmin), DwCTminDCTmin(m, lib, ctmin),
                     WCTmax(m, lib, CTmax(ctmin, b)), DwCTmaxDCTmin(m, lib, ctmin, b),
                     WB(m, lib, b))
  }

  /** The four factors of w_TPC, in the order enzymatic, B, CTmin, CTmax. */
  function Factors(m: Tpc, lib: Library, ctmin: real, b: real, t: real): (fs: seq<real>)
    requires m.Valid() && b != 0.0
    ensures |fs| == 4
  {
    [WEnzymatic(lib, ctmin, b, t), WB(m, lib, b), WCTmin(m, lib, ctmin),
     WCTmax(m, lib, CTmax(ctmin, b))]
  }
}
