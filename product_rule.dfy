/**
 * The product rule over a list of factors, used as the reference definition
 * the hand-assembled fitness gradients are checked against, and the
 * three-factor slope the code writes out.
 */
module ProductRule {

  /**
   * Slope of u * v * w * k when k stays fixed and u, v, w have slopes du, dv,
   * dw, as the code spells it out: the three-factor product rule times k.
   */
  function FixedFactorSlope(u: real, du: real, v: real, dv: real, w: real, dw: real, k: real): real
  {
    (du * v * w + u * dv * w + u * v * dw) * k
  }

  function Product(fs: seq<real>): real
  {
    if fs == [] then 1.0 else fs[0] * Product(fs[1..])
  }

  /**
   * Derivative of Product(fs) when factor i has derivative ds[i]: the sum,
   * over i, of the product with exactly factor i replaced by ds[i].
   */
  function ProductDerivative(fs: seq<real>, ds: seq<real>): real
    requires |fs| == |ds|
  {
    if fs == [] then 0.0
    else ds[0] * Product(fs[1..]) + fs[0] * ProductDerivative(fs[1..], ds[1..])
  }

  /** Product and product rule over four factors, written out. */
  lemma FourFactors(e: real, x: real, y: real, z: real, de: real, dx: real, dy: real, dz: real)
    ensures Product([e, x, y, z]) == e * x * y * z
    ensures ProductDerivative([e, x, y, z], [de, dx, dy, dz])
         == de * x * y * z + e * dx * y * z + e * x * dy * z + e * x * y * dz
  {
    var fs, ds := [e, x, y, z], [de, dx, dy, dz];
    assert fs[1..] == [x, y, z] && ds[1..] == [dx, dy, dz];
    assert fs[2..] == [y, z] && ds[2..] == [dy, dz];
    assert fs[3..] == [z] && ds[3..] == [dz];
    assert Product(fs[3..]) == z;
    assert ProductDerivative(fs[3..], ds[3..]) == dz;
    assert Product(fs[2..]) == y * z;
    assert ProductDerivative(fs[2..], ds[2..]) == dy * z + y * dz;
    assert Product(fs[1..]) == x * (y * z);
    assert ProductDerivative(fs[1..], ds[1..]) == dx * (y * z) + x * (dy * z + y * dz);
  }

  /** Pulling out w_CTmin, whose B-slope is zero, as the B-gradient does. */
  lemma PullOutThirdFactor(d: real, fs: seq<real>, ds: seq<real>,
                           e: real, x: real, y: real, z: real, de: real, dx: real, dz: real)
    requires |fs| == 4 && fs[0] == e && fs[1] == x && fs[2] == y && fs[3] == z
    requires |ds| == 4 && ds[0] == de && ds[1] == dx && ds[2] == 0.0 && ds[3] == dz
    requires d == FixedFactorSlope(e, de, x, dx, z, dz, y)
    ensures d == ProductDerivative(fs, ds)
  {
    assert fs == [e, x, y, z] && ds == [de, dx, 0.0, dz];
    FourFactors(e, x, y, z, de, dx, 0.0, dz);
    ThirdFixed(e, x, y, z, de, dx, dz);
  }

  lemma ThirdFixed(e: real, x: real, y: real, z: real, de: real, dx: real, dz: real)
    ensures FixedFactorSlope(e, de, x, dx, z, dz, y)
         == de * x * y * z + e * dx * y * z + e * x * 0.0 * z + e * x * y * dz
  {
    assert (de * x * z + e * dx * z + e * x * dz) * y == (de * x * z) * y + (e * dx * z) * y + (e * x * dz) * y;
    assert (de * x * z) * y == de * x * y * z;
    assert (e * dx * z) * y == e * dx * y * z;
    assert (e * x * dz) * y == e * x * y * dz;
  }

  /** Pulling out w_B, whose CTmin-slope is zero, as the CTmin-gradient does. */
  lemma PullOutSecondFactor(d: real, fs: seq<real>, ds: seq<real>,
                            e: real, x: real, y: real, z: real, de: real, dy: real, dz: real)
    requires |fs| == 4 && fs[0] == e && fs[1] == x && fs[2] == y && fs[3] == z
    requires |ds| == 4 && ds[0] == de && ds[1] == 0.0 && ds[2] == dy && ds[3] == dz
    requires d == FixedFactorSlope(e, de, y, dy, z, dz, x)
    ensures d == ProductDerivative(fs, ds)
  {
    assert fs == [e, x, y, z] && ds == [de, 0.0, dy, dz];
    FourFactors(e, x, y, z, de, 0.0, dy, dz);
    SecondFixed(e, x, y, z, de, dy, dz);
  }

  lemma SecondFixed(e: real, x: real, y: real, z: real, de: real, dy: real, dz: real)
    ensures FixedFactorSlope(e, de, y, dy, z, dz, x)
         == de * x * y * z + e * 0.0 * y * z + e * x * dy * z + e * x * y * dz
  {
    assert (de * y * z + e * dy * z + e * y * dz) * x == (de * y * z) * x + (e * dy * z) * x + (e * y * dz) * x;
    assert (de * y * z) * x == de * x * y * z;
    assert (e * dy * z) * x == e * x * dy * z;
    assert (e * y * dz) * x == e * x * y * dz;
  }
}
