/** The interpolants of the noise code, over exact reals. */
module Interpolation {
  function Lerp(a: real, b: real, t: real): real {
    a + t * (b - a)
  }

  function Hermite(t: real): real {
    t * t * (3.0 - 2.0 * t)
  }

  function Quintic(t: real): real {
    t * t * t * (t * (t * 6.0 - 15.0) + 10.0)
  }

  function CubicLerp(a: real, b: real, c: real, d: real, t: real): real {
    var p := (d - c) - (a - b);
    t * t * t * p + t * t * ((a - b) - p) + t * (c - a) + b
  }

  ghost predicate Unit(t: real) {
    0.0 <= t <= 1.0
  }

  ghost predicate Bounded(v: real, m: real) {
    -m <= v <= m
  }

  /** Interpolating stays between the ends. */
  lemma LerpWithin(a: real, b: real, t: real, lo: real, hi: real)
    requires Unit(t) && lo <= a <= hi && lo <= b <= hi
    ensures lo <= Lerp(a, b, t) <= hi
  {
    Product(t, b - lo);
    Product(1.0 - t, a - lo);
    Product(t, hi - b);
    Product(1.0 - t, hi - a);
  }

  lemma Product(a: real, b: real)
    requires a >= 0.0 && b >= 0.0
    ensures a * b >= 0.0
  {}

  lemma Square(a: real)
    ensures a * a >= 0.0
  {}

  lemma HermiteUnit(t: real)
    requires Unit(t)
    ensures Unit(Hermite(t)) && Hermite(0.0) == 0.0 && Hermite(1.0) == 1.0
  {
    Product(t, t);
    Product(t * t, 3.0 - 2.0 * t);
    var s := 1.0 - t;
    Product(s, s);
    Product(s * s, 3.0 - 2.0 * s);
    HermiteSymmetric(t);
  }

  lemma HermiteSymmetric(t: real)
    ensures Hermite(1.0 - t) == 1.0 - Hermite(t)
  {}

  lemma QuinticUnit(t: real)
    requires Unit(t)
    ensures Unit(Quintic(t)) && Quintic(0.0) == 0.0 && Quintic(1.0) == 1.0
  {
    QuinticNotNegative(t);
    QuinticNotNegative(1.0 - t);
    QuinticSymmetric(t);
  }

  lemma QuinticNotNegative(t: real)
    requires Unit(t)
    ensures Quintic(t) >= 0.0
  {
    Product(t, t);
    Product(t * t, t);
    Square(t - 1.25);
    var q := t * (t * 6.0 - 15.0) + 10.0;
    assert q == 6.0 * ((t - 1.25) * (t - 1.25)) + 0.625;
    Product(t * t * t, q);
  }

  lemma QuinticSymmetric(t: real)
    ensures Quintic(1.0 - t) == 1.0 - Quintic(t)
  {}

  /** The weights of a cubic: the outer two are never positive, the inner two never negative. */
  lemma CubicWeights(a: real, b: real, c: real, d: real, t: real)
    ensures var s := 1.0 - t;
      CubicLerp(a, b, c, d, t) == (s * (1.0 + t * s)) * b
        + (t * (1.0 + t * s)) * c - (t * (s * s)) * a - (s * (t * t)) * d
  {}

  /** Four values within m give one within 1.5 * m. */
  lemma CubicWithin(a: real, b: real, c: real, d: real, t: real, m: real)
    requires Unit(t) && Bounded(a, m) && Bounded(b, m) && Bounded(c, m) && Bounded(d, m)
    ensures Bounded(CubicLerp(a, b, c, d, t), 1.5 * m)
  {
    hide CubicLerp;
    var s := 1.0 - t;
    CubicWeights(a, b, c, d, t);
    Product(t, s);
    Product(s, 1.0 + t * s);
    Product(t, 1.0 + t * s);
    Product(s, s);
    Product(t, s * s);
    Product(t, t);
    Product(s, t * t);
    WeightSum(t);
    Weighed(t * (s * s), s * (1.0 + t * s), t * (1.0 + t * s), s * (t * t), a, b, c, d, m);
  }

  function Part(w: real, v: real): real {
    w * v
  }

  lemma Weighed(wa: real, wb: real, wc: real, wd: real, a: real, b: real, c: real, d: real, m: real)
    requires wa >= 0.0 && wb >= 0.0 && wc >= 0.0 && wd >= 0.0 && wa + wb + wc + wd <= 1.5
    requires Bounded(a, m) && Bounded(b, m) && Bounded(c, m) && Bounded(d, m)
    ensures Bounded(Part(wb, b) + Part(wc, c) - Part(wa, a) - Part(wd, d), 1.5 * m)
  {
    hide Part;
    PartBound(wa, a, m);
    PartBound(wb, b, m);
    PartBound(wc, c, m);
    PartBound(wd, d, m);
    SumOfBounds(wa, wb, wc, wd, m);
  }

  lemma SumOfBounds(wa: real, wb: real, wc: real, wd: real, m: real)
    requires wa + wb + wc + wd <= 1.5 && m >= 0.0
    ensures Part(wa, m) + Part(wb, m) + Part(wc, m) + Part(wd, m) <= 1.5 * m
  {
    Distributed(wa, wb, wc, wd, m);
    Product(1.5 - (wa + wb + wc + wd), m);
  }

  lemma Distributed(wa: real, wb: real, wc: real, wd: real, m: real)
    ensures (1.5 - (wa + wb + wc + wd)) * m == 1.5 * m - wa * m - wb * m - wc * m - wd * m
  {}

  lemma PartBound(w: real, v: real, m: real)
    requires w >= 0.0 && Bounded(v, m)
    ensures Bounded(Part(w, v), Part(w, m))
  {
    WeighedBound(w, v, m);
  }

  lemma WeighedBound(w: real, v: real, m: real)
    requires w >= 0.0 && Bounded(v, m)
    ensures Bounded(w * v, w * m)
  {}

  lemma WeightSum(t: real)
    ensures var s := 1.0 - t; (t * (s * s)) + (s * (1.0 + t * s)) + (t * (1.0 + t * s)) + (s * (t * t)) <= 1.5
  {}

  /** No smaller factor would do. */
  lemma CubicBoundIsLeast(m: real)
    ensures CubicLerp(-m, m, m, -m, 0.5) == 1.5 * m
  {}

  // ---------- what the interpolants reproduce ----------

  /** A polynomial of degree at most one in each of three coordinates. */
  datatype Poly = Poly(c: real, x: real, y: real, z: real, xy: real, xz: real, yz: real, xyz: real)

  function ValueAt(p: Poly, x: real, y: real, z: real): real {
    p.c + p.x * x + p.y * y + p.z * z + p.xy * x * y + p.xz * x * z + p.yz * y * z + p.xyz * x * y * z
  }

  /** n steps of s from x on. */
  function Along(x: real, s: real, n: real): real {
    x + s * n
  }

  lemma LerpX(p: Poly, x: real, y: real, z: real, s: real, t: real)
    ensures Lerp(ValueAt(p, x, y, z), ValueAt(p, x + s, y, z), t) == ValueAt(p, Along(x, s, t), y, z)
  {}

  lemma LerpY(p: Poly, x: real, y: real, z: real, s: real, t: real)
    ensures Lerp(ValueAt(p, x, y, z), ValueAt(p, x, y + s, z), t) == ValueAt(p, x, Along(y, s, t), z)
  {}

  lemma LerpZ(p: Poly, x: real, y: real, z: real, s: real, t: real)
    ensures Lerp(ValueAt(p, x, y, z), ValueAt(p, x, y, z + s), t) == ValueAt(p, x, y, Along(z, s, t))
  {}

  /** Three nested interpolations between the corners of a cube of side s, along
      x, then y, then z. */
  lemma LerpThrice(p: Poly, x: real, y: real, z: real, s: real, xt: real, yt: real, zt: real)
    ensures var x1, y1, z1 := x + s, y + s, z + s;
      var z0 := Lerp(Lerp(ValueAt(p, x, y, z), ValueAt(p, x1, y, z), xt),
                     Lerp(ValueAt(p, x, y1, z), ValueAt(p, x1, y1, z), xt), yt);
      var z2 := Lerp(Lerp(ValueAt(p, x, y, z1), ValueAt(p, x1, y, z1), xt),
                     Lerp(ValueAt(p, x, y1, z1), ValueAt(p, x1, y1, z1), xt), yt);
      Lerp(z0, z2, zt) == ValueAt(p, Along(x, s, xt), Along(y, s, yt), Along(z, s, zt))
  {
    hide Lerp, ValueAt, Along;
    LerpX(p, x, y, z, s, xt);
    LerpX(p, x, y + s, z, s, xt);
    LerpX(p, x, y, z + s, s, xt);
    LerpX(p, x, y + s, z + s, s, xt);
    LerpY(p, Along(x, s, xt), y, z, s, yt);
    LerpY(p, Along(x, s, xt), y, z + s, s, yt);
    LerpZ(p, Along(x, s, xt), Along(y, s, yt), z, s, zt);
  }

  /** Every eight values at the corners of the unit cube are those of a polynomial. */
  lemma Through(v: (int, int, int) -> real) returns (p: Poly)
    ensures ValueAt(p, 0.0, 0.0, 0.0) == v(0, 0, 0) && ValueAt(p, 1.0, 0.0, 0.0) == v(1, 0, 0)
    ensures ValueAt(p, 0.0, 1.0, 0.0) == v(0, 1, 0) && ValueAt(p, 1.0, 1.0, 0.0) == v(1, 1, 0)
    ensures ValueAt(p, 0.0, 0.0, 1.0) == v(0, 0, 1) && ValueAt(p, 1.0, 0.0, 1.0) == v(1, 0, 1)
    ensures ValueAt(p, 0.0, 1.0, 1.0) == v(0, 1, 1) && ValueAt(p, 1.0, 1.0, 1.0) == v(1, 1, 1)
  {
    var c := v(0, 0, 0);
    var x, y, z := v(1, 0, 0) - c, v(0, 1, 0) - c, v(0, 0, 1) - c;
    var xy, xz, yz := v(1, 1, 0) - c - x - y, v(1, 0, 1) - c - x - z, v(0, 1, 1) - c - y - z;
    p := Poly(c, x, y, z, xy, xz, yz, v(1, 1, 1) - c - x - y - z - xy - xz - yz);
  }

  // ---------- how the interpolants rise ----------

  /** Near 0 a Hermite weight is of the order of t^2. */
  lemma HermiteNearZero(t: real)
    requires 0.0 <= t <= 0.5
    ensures 2.0 * (t * t) <= Hermite(t) <= 3.0 * (t * t)
  {
    Product(t, t);
    Product(t * t, 1.0 - 2.0 * t);
    Product(t * t, 2.0 * t);
    assert Hermite(t) - 2.0 * (t * t) == t * t * (1.0 - 2.0 * t);
    assert 3.0 * (t * t) - Hermite(t) == t * t * (2.0 * t);
  }

  /** At every t it rises by 6t(1 - t). */
  lemma HermiteSlope(t: real, u: real)
    requires Unit(t) && Unit(u)
    ensures Bounded(Hermite(u) - Hermite(t) - 6.0 * t * (1.0 - t) * (u - t), 3.0 * ((u - t) * (u - t)))
  {
    var d, r := u - t, 3.0 - 2.0 * u - 4.0 * t;
    assert Hermite(u) - Hermite(t) - 6.0 * t * (1.0 - t) * d == d * d * r;
    Square(d);
    WeighedBound(d * d, r, 3.0);
  }

  /** Near 0 a quintic weight is of the order of t^3. */
  lemma QuinticNearZero(t: real)
    requires 0.0 <= t <= 0.5
    ensures 4.0 * (t * t * t) <= Quintic(t) <= 10.0 * (t * t * t)
  {
    Product(t, t);
    Product(t * t, t);
    Product(0.5 - t, 2.0 - t);
    Product(t, 15.0 - 6.0 * t);
    Product(t * t * t, (0.5 - t) * (2.0 - t));
    Product(t * t * t, t * (15.0 - 6.0 * t));
    assert Quintic(t) - 4.0 * (t * t * t) == 6.0 * (t * t * t * ((0.5 - t) * (2.0 - t)));
    assert 10.0 * (t * t * t) - Quintic(t) == t * t * t * (t * (15.0 - 6.0 * t));
  }

  /** At every t it rises by 30t^2(1 - t)^2. */
  lemma QuinticSlope(t: real, u: real)
    requires Unit(t) && Unit(u)
    ensures Bounded(Quintic(u) - Quintic(t) - 30.0 * (t * t) * ((1.0 - t) * (1.0 - t)) * (u - t),
                    90.0 * ((u - t) * (u - t)))
  {
    QuinticStep(t, u);
    RestBounded(t, u);
    Square(u - t);
    hide *;
    ScaledBound(Quintic(u) - Quintic(t) - 30.0 * (t * t) * ((1.0 - t) * (1.0 - t)) * (u - t),
                (u - t) * (u - t), QuinticRest(t, u), 90.0);
  }

  function QuinticRest(t: real, u: real): real {
    6.0 * (u * u * u + 2.0 * (u * u * t) + 3.0 * (u * t * t) + 4.0 * (t * t * t))
    - 15.0 * (u * u + 2.0 * (u * t) + 3.0 * (t * t)) + 10.0 * (u + 2.0 * t)
  }

  lemma QuinticStep(t: real, u: real)
    ensures Quintic(u) - Quintic(t) - 30.0 * (t * t) * ((1.0 - t) * (1.0 - t)) * (u - t)
      == (u - t) * (u - t) * QuinticRest(t, u)
  {}

  lemma UnitProduct(a: real, b: real) returns (p: real)
    requires Unit(a) && Unit(b)
    ensures p == a * b && Unit(p)
  {
    p := a * b;
    Product(a, b);
    Product(a, 1.0 - b);
  }

  lemma RestBounded(t: real, u: real)
    requires Unit(t) && Unit(u)
    ensures Bounded(QuinticRest(t, u), 90.0)
  {
    var uu := UnitProduct(u, u);
    var ut := UnitProduct(u, t);
    var tt := UnitProduct(t, t);
    RestParts(t, u, uu, ut, tt);
  }

  lemma RestParts(t: real, u: real, uu: real, ut: real, tt: real)
    requires Unit(t) && Unit(u) && Unit(uu) && Unit(ut) && Unit(tt) && uu == u * u && ut == u * t && tt == t * t
    ensures Bounded(QuinticRest(t, u), 90.0)
  {
    var uuu := UnitProduct(uu, u);
    var uut := UnitProduct(uu, t);
    var utt := UnitProduct(ut, t);
    var ttt := UnitProduct(tt, t);
    assert QuinticRest(t, u)
      == 6.0 * (uuu + 2.0 * uut + 3.0 * utt + 4.0 * ttt) - 15.0 * (uu + 2.0 * ut + 3.0 * tt) + 10.0 * (u + 2.0 * t);
  }

  lemma ScaledBound(v: real, w: real, r: real, m: real)
    requires v == w * r && w >= 0.0 && Bounded(r, m)
    ensures Bounded(v, m * w)
  {
    WeighedBound(w, r, m);
  }

  /** A cubic passes through its two inner values, and takes its slope at each
      from the values on both sides. */
  lemma CubicEnds(a: real, b: real, c: real, d: real, t: real, m: real)
    requires Unit(t) && Bounded(a, m) && Bounded(b, m) && Bounded(c, m) && Bounded(d, m)
    ensures CubicLerp(a, b, c, d, 0.0) == b && CubicLerp(a, b, c, d, 1.0) == c
    ensures Bounded(CubicLerp(a, b, c, d, t) - b - t * (c - a), 10.0 * m * (t * t))
    ensures Bounded(CubicLerp(a, b, c, d, 1.0 - t) - c + t * (d - b), 10.0 * m * (t * t))
  {
    CubicStart(a, b, c, d, t, m);
    CubicStart(d, c, b, a, t, m);
    CubicSymmetric(a, b, c, d, t);
  }

  /** Read from the other end, a cubic is the same. */
  lemma CubicSymmetric(a: real, b: real, c: real, d: real, t: real)
    ensures CubicLerp(a, b, c, d, 1.0 - t) == CubicLerp(d, c, b, a, t)
  {}

  lemma CubicStart(a: real, b: real, c: real, d: real, t: real, m: real)
    requires Unit(t) && Bounded(a, m) && Bounded(b, m) && Bounded(c, m) && Bounded(d, m)
    ensures Bounded(CubicLerp(a, b, c, d, t) - b - t * (c - a), 10.0 * m * (t * t))
  {
    hide CubicLerp, Bend;
    CubicStep(a, b, c, d, t);
    BendBounded(a, b, c, d, t, m);
    Square(t);
    ScaledBound(CubicLerp(a, b, c, d, t) - b - t * (c - a), t * t, Bend(a, b, c, d, t), 10.0 * m);
  }

  function Bend(a: real, b: real, c: real, d: real, t: real): real {
    var p := (d - c) - (a - b);
    Lerp((a - b) - p, a - b, t)
  }

  lemma BendBounded(a: real, b: real, c: real, d: real, t: real, m: real)
    requires Unit(t) && Bounded(a, m) && Bounded(b, m) && Bounded(c, m) && Bounded(d, m)
    ensures Bounded(Bend(a, b, c, d, t), 10.0 * m)
  {
    hide Lerp;
    var p := (d - c) - (a - b);
    LerpWithin((a - b) - p, a - b, t, -10.0 * m, 10.0 * m);
  }

  lemma CubicStep(a: real, b: real, c: real, d: real, t: real)
    ensures CubicLerp(a, b, c, d, t) - b - t * (c - a) == t * t * Bend(a, b, c, d, t)
  {}

  /** A common factor of the four values comes out. */
  lemma CubicScaled(s: real, a: real, b: real, c: real, d: real, t: real)
    ensures CubicLerp(Part(s, a), Part(s, b), Part(s, c), Part(s, d), t) == Part(s, CubicLerp(a, b, c, d, t))
  {}
}
