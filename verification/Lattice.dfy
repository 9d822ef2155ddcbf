/** Noise interpolated between the values of a lattice of points. */
module Lattice {
  import opened Interpolation

  type Values = (int, int, int) -> real

  datatype Interp = LinearInterp | HermiteInterp | QuinticInterp

  /** The conversion to int: toward zero. */
  function Truncate(f: real): int {
    if f >= 0.0 then f.Floor else -(-f).Floor
  }

  function FastFloor(f: real): int {
    if f >= 0.0 then Truncate(f) else Truncate(f) - 1
  }

  /** The floor, except one low at the negative integers, and always a cell that touches f. */
  lemma FastFloorIsFloor(f: real)
    ensures FastFloor(f) == if f < 0.0 && f == f.Floor as real then f.Floor - 1 else f.Floor
    ensures Unit(f - FastFloor(f) as real) && Unit(f - f.Floor as real)
  {}

  function Smooth(interp: Interp, t: real): real {
    match interp
    case LinearInterp => t
    case HermiteInterp => Hermite(t)
    case QuinticInterp => Quintic(t)
  }

  lemma SmoothUnit(interp: Interp, t: real)
    requires Unit(t)
    ensures Unit(Smooth(interp, t)) && Smooth(interp, 0.0) == 0.0 && Smooth(interp, 1.0) == 1.0
  {
    hide Hermite, Quintic;
    HermiteUnit(t);
    QuinticUnit(t);
  }

  /** Value noise at (x, y, z), reckoned from the lattice cell at (x0, y0, z0). */
  function ValueFrom(v: Values, interp: Interp, x0: int, y0: int, z0: int, x: real, y: real, z: real): real {
    var x1, y1, z1 := x0 + 1, y0 + 1, z0 + 1;
    var xs := Smooth(interp, x - x0 as real);
    var ys := Smooth(interp, y - y0 as real);
    var zs := Smooth(interp, z - z0 as real);
    var xf00 := Lerp(v(x0, y0, z0), v(x1, y0, z0), xs);
    var xf10 := Lerp(v(x0, y1, z0), v(x1, y1, z0), xs);
    var xf01 := Lerp(v(x0, y0, z1), v(x1, y0, z1), xs);
    var xf11 := Lerp(v(x0, y1, z1), v(x1, y1, z1), xs);
    Lerp(Lerp(xf00, xf10, ys), Lerp(xf01, xf11, ys), zs)
  }

  ghost predicate AllBounded(v: Values, m: real) {
    forall i, j, k :: Bounded(v(i, j, k), m)
  }

  lemma LerpBounded(a: real, b: real, t: real, m: real)
    requires Unit(t) && Bounded(a, m) && Bounded(b, m)
    ensures Bounded(Lerp(a, b, t), m)
  {
    LerpWithin(a, b, t, -m, m);
  }

  lemma ValueBounded(v: Values, interp: Interp, x0: int, y0: int, z0: int, x: real, y: real, z: real, m: real)
    requires AllBounded(v, m) && Unit(x - x0 as real) && Unit(y - y0 as real) && Unit(z - z0 as real)
    ensures Bounded(ValueFrom(v, interp, x0, y0, z0, x, y, z), m)
  {
    hide Lerp, Bounded, Unit, Smooth;
    var x1, y1, z1 := x0 + 1, y0 + 1, z0 + 1;
    var xs := Smooth(interp, x - x0 as real);
    var ys := Smooth(interp, y - y0 as real);
    var zs := Smooth(interp, z - z0 as real);
    SmoothUnit(interp, x - x0 as real);
    SmoothUnit(interp, y - y0 as real);
    SmoothUnit(interp, z - z0 as real);
    LerpBounded(v(x0, y0, z0), v(x1, y0, z0), xs, m);
    LerpBounded(v(x0, y1, z0), v(x1, y1, z0), xs, m);
    LerpBounded(v(x0, y0, z1), v(x1, y0, z1), xs, m);
    LerpBounded(v(x0, y1, z1), v(x1, y1, z1), xs, m);
    var xf00 := Lerp(v(x0, y0, z0), v(x1, y0, z0), xs);
    var xf10 := Lerp(v(x0, y1, z0), v(x1, y1, z0), xs);
    var xf01 := Lerp(v(x0, y0, z1), v(x1, y0, z1), xs);
    var xf11 := Lerp(v(x0, y1, z1), v(x1, y1, z1), xs);
    LerpBounded(xf00, xf10, ys, m);
    LerpBounded(xf01, xf11, ys, m);
    LerpBounded(Lerp(xf00, xf10, ys), Lerp(xf01, xf11, ys), zs, m);
  }

  /** Two cells that f may be reckoned from: the same one, or two that meet at f. */
  ghost predicate Meet(a: int, b: int, f: real) {
    a == b || (b == a + 1 && f == b as real)
  }

  /** Where two cells meet, both give the same noise. */
  lemma ValueFromEither(v: Values, interp: Interp, a: (int, int, int), b: (int, int, int), x: real, y: real, z: real)
    requires Meet(a.0, b.0, x) && Meet(a.1, b.1, y) && Meet(a.2, b.2, z)
    ensures ValueFrom(v, interp, a.0, a.1, a.2, x, y, z) == ValueFrom(v, interp, b.0, b.1, b.2, x, y, z)
  {
    SwitchX(v, interp, a.0, b.0, a.1, a.2, x, y, z);
    SwitchY(v, interp, b.0, a.1, b.1, a.2, x, y, z);
    SwitchZ(v, interp, b.0, b.1, a.2, b.2, x, y, z);
  }

  /** At the meeting point the far end of one cell is the near end of the next. */
  lemma LineMeets(a: int, b: int, f: real, interp: Interp, v0: real, v1: real, v2: real)
    requires b == a + 1 && f == b as real
    ensures Lerp(v0, v1, Smooth(interp, f - a as real)) == v1
    ensures Lerp(v1, v2, Smooth(interp, f - b as real)) == v1
  {}

  lemma SwitchX(v: Values, interp: Interp, a: int, b: int, y0: int, z0: int, x: real, y: real, z: real)
    requires Meet(a, b, x)
    ensures ValueFrom(v, interp, a, y0, z0, x, y, z) == ValueFrom(v, interp, b, y0, z0, x, y, z)
  {}

  lemma SwitchY(v: Values, interp: Interp, x0: int, a: int, b: int, z0: int, x: real, y: real, z: real)
    requires Meet(a, b, y)
    ensures ValueFrom(v, interp, x0, a, z0, x, y, z) == ValueFrom(v, interp, x0, b, z0, x, y, z)
  {
    hide Lerp, Smooth;
    if a != b {
      var xs := Smooth(interp, x - x0 as real);
      LineMeets(a, b, y, interp, Lerp(v(x0, a, z0), v(x0 + 1, a, z0), xs), Lerp(v(x0, b, z0), v(x0 + 1, b, z0), xs),
                Lerp(v(x0, b + 1, z0), v(x0 + 1, b + 1, z0), xs));
      LineMeets(a, b, y, interp, Lerp(v(x0, a, z0 + 1), v(x0 + 1, a, z0 + 1), xs),
                Lerp(v(x0, b, z0 + 1), v(x0 + 1, b, z0 + 1), xs),
                Lerp(v(x0, b + 1, z0 + 1), v(x0 + 1, b + 1, z0 + 1), xs));
    }
  }

  lemma SwitchZ(v: Values, interp: Interp, x0: int, y0: int, a: int, b: int, x: real, y: real, z: real)
    requires Meet(a, b, z)
    ensures ValueFrom(v, interp, x0, y0, a, x, y, z) == ValueFrom(v, interp, x0, y0, b, x, y, z)
  {}

  const CUBIC_2D_BOUNDING := 1.0 / (1.5 * 1.5)
  const CUBIC_3D_BOUNDING := 1.0 / (1.5 * 1.5 * 1.5)

  /** Four lattice points along x, from the one before x1. */
  function CubicLine(v: Values, x1: int, y: int, z: int, xs: real): real {
    CubicLerp(v(x1 - 1, y, z), v(x1, y, z), v(x1 + 1, y, z), v(x1 + 2, y, z), xs)
  }

  function CubicPlane(v: Values, x1: int, y1: int, z: int, xs: real, ys: real): real {
    CubicLerp(CubicLine(v, x1, y1 - 1, z, xs), CubicLine(v, x1, y1, z, xs), CubicLine(v, x1, y1 + 1, z, xs),
              CubicLine(v, x1, y1 + 2, z, xs), ys)
  }

  function CubicVolume(v: Values, x1: int, y1: int, z1: int, xs: real, ys: real, zs: real): real {
    CubicLerp(CubicPlane(v, x1, y1, z1 - 1, xs, ys), CubicPlane(v, x1, y1, z1, xs, ys),
              CubicPlane(v, x1, y1, z1 + 1, xs, ys), CubicPlane(v, x1, y1, z1 + 2, xs, ys), zs)
  }

  lemma CubicLineWithin(v: Values, x1: int, y: int, z: int, xs: real, m: real)
    requires AllBounded(v, m) && Unit(xs)
    ensures Bounded(CubicLine(v, x1, y, z, xs), 1.5 * m)
  {
    hide CubicLerp, Bounded;
    CubicWithin(v(x1 - 1, y, z), v(x1, y, z), v(x1 + 1, y, z), v(x1 + 2, y, z), xs, m);
  }

  lemma CubicPlaneWithin(v: Values, x1: int, y1: int, z: int, xs: real, ys: real, m: real)
    requires AllBounded(v, m) && Unit(xs) && Unit(ys)
    ensures Bounded(CubicPlane(v, x1, y1, z, xs, ys), 1.5 * (1.5 * m))
  {
    hide CubicLerp, CubicLine, Bounded, AllBounded;
    CubicLineWithin(v, x1, y1 - 1, z, xs, m);
    CubicLineWithin(v, x1, y1, z, xs, m);
    CubicLineWithin(v, x1, y1 + 1, z, xs, m);
    CubicLineWithin(v, x1, y1 + 2, z, xs, m);
    CubicWithin(CubicLine(v, x1, y1 - 1, z, xs), CubicLine(v, x1, y1, z, xs), CubicLine(v, x1, y1 + 1, z, xs),
                CubicLine(v, x1, y1 + 2, z, xs), ys, 1.5 * m);
  }

  lemma CubicVolumeWithin(v: Values, x1: int, y1: int, z1: int, xs: real, ys: real, zs: real, m: real)
    requires AllBounded(v, m) && Unit(xs) && Unit(ys) && Unit(zs)
    ensures Bounded(CubicVolume(v, x1, y1, z1, xs, ys, zs), 1.5 * (1.5 * (1.5 * m)))
  {
    hide CubicLerp, CubicPlane, Bounded, AllBounded;
    CubicPlaneWithin(v, x1, y1, z1 - 1, xs, ys, m);
    CubicPlaneWithin(v, x1, y1, z1, xs, ys, m);
    CubicPlaneWithin(v, x1, y1, z1 + 1, xs, ys, m);
    CubicPlaneWithin(v, x1, y1, z1 + 2, xs, ys, m);
    CubicWithin(CubicPlane(v, x1, y1, z1 - 1, xs, ys), CubicPlane(v, x1, y1, z1, xs, ys),
                CubicPlane(v, x1, y1, z1 + 1, xs, ys), CubicPlane(v, x1, y1, z1 + 2, xs, ys), zs, 1.5 * (1.5 * m));
  }

  // ---------- what value noise is ----------

  /** At the eight points around a cell, v takes the values of a polynomial. */
  ghost predicate Surrounds(v: Values, x0: int, y0: int, z0: int, p: Poly) {
    var x, y, z := x0 as real, y0 as real, z0 as real;
    && v(x0, y0, z0) == ValueAt(p, x, y, z) && v(x0 + 1, y0, z0) == ValueAt(p, x + 1.0, y, z)
    && v(x0, y0 + 1, z0) == ValueAt(p, x, y + 1.0, z) && v(x0 + 1, y0 + 1, z0) == ValueAt(p, x + 1.0, y + 1.0, z)
    && v(x0, y0, z0 + 1) == ValueAt(p, x, y, z + 1.0) && v(x0 + 1, y0, z0 + 1) == ValueAt(p, x + 1.0, y, z + 1.0)
    && v(x0, y0 + 1, z0 + 1) == ValueAt(p, x, y + 1.0, z + 1.0)
    && v(x0 + 1, y0 + 1, z0 + 1) == ValueAt(p, x + 1.0, y + 1.0, z + 1.0)
  }

  /** Value noise is that polynomial, each coordinate moved in its cell by the
      interpolant. */
  lemma ValueReproduces(v: Values, interp: Interp, x0: int, y0: int, z0: int, x: real, y: real, z: real, p: Poly)
    requires Surrounds(v, x0, y0, z0, p)
    ensures ValueFrom(v, interp, x0, y0, z0, x, y, z)
      == ValueAt(p, x0 as real + Smooth(interp, x - x0 as real), y0 as real + Smooth(interp, y - y0 as real),
                 z0 as real + Smooth(interp, z - z0 as real))
  {
    hide Lerp, ValueAt, Smooth, Along;
    var xs, ys, zs := Smooth(interp, x - x0 as real), Smooth(interp, y - y0 as real), Smooth(interp, z - z0 as real);
    LerpThrice(p, x0 as real, y0 as real, z0 as real, 1.0, xs, ys, zs);
    OneStep(x0 as real, xs);
    OneStep(y0 as real, ys);
    OneStep(z0 as real, zs);
  }

  /** On a line through lattice points value noise is interpolated between two of them. */
  lemma ValueOnLines(v: Values, interp: Interp, i: int, j: int, k: int, t: real)
    ensures var x, y, z, s := i as real, j as real, k as real, Smooth(interp, t);
      && ValueFrom(v, interp, i, j, k, x + t, y, z) == Lerp(v(i, j, k), v(i + 1, j, k), s)
      && ValueFrom(v, interp, i, j, k, x, y + t, z) == Lerp(v(i, j, k), v(i, j + 1, k), s)
      && ValueFrom(v, interp, i, j, k, x, y, z + t) == Lerp(v(i, j, k), v(i, j, k + 1), s)
  {
    hide Smooth;
    SmoothUnit(interp, 0.0);
  }

  lemma OneStep(x: real, t: real)
    ensures Along(x, 1.0, t) == x + t
  {}

  /** How far the interpolant has risen at t: with t itself, or like a multiple
      of t^2 or t^3 at both ends. */
  ghost predicate Risen(interp: Interp, t: real, s: real) {
    match interp
    case LinearInterp => s == t
    case HermiteInterp =>
      if t <= 0.5 then 2.0 * (t * t) <= s <= 3.0 * (t * t)
      else 2.0 * ((1.0 - t) * (1.0 - t)) <= 1.0 - s <= 3.0 * ((1.0 - t) * (1.0 - t))
    case QuinticInterp =>
      if t <= 0.5 then 4.0 * (t * t * t) <= s <= 10.0 * (t * t * t)
      else 4.0 * ((1.0 - t) * (1.0 - t) * (1.0 - t)) <= 1.0 - s <= 10.0 * ((1.0 - t) * (1.0 - t) * (1.0 - t))
  }

  lemma SmoothRises(interp: Interp, t: real)
    requires Unit(t)
    ensures Risen(interp, t, Smooth(interp, t))
  {
    hide Hermite, Quintic;
    HermiteSymmetric(t);
    QuinticSymmetric(t);
    if t <= 0.5 {
      HermiteNearZero(t);
      QuinticNearZero(t);
    } else {
      HermiteNearZero(1.0 - t);
      QuinticNearZero(1.0 - t);
    }
  }

  // ---------- what cubic noise is ----------

  /** Cubic noise at (x, y, z), before the bounding factor, reckoned from the cell at (x0, y0, z0). */
  function CubicFrom(v: Values, x0: int, y0: int, z0: int, x: real, y: real, z: real): real {
    CubicVolume(v, x0, y0, z0, x - x0 as real, y - y0 as real, z - z0 as real)
  }

  /** Where two cells meet, both give the same noise. */
  lemma CubicFromEither(v: Values, a: (int, int, int), b: (int, int, int), x: real, y: real, z: real)
    requires Meet(a.0, b.0, x) && Meet(a.1, b.1, y) && Meet(a.2, b.2, z)
    ensures CubicFrom(v, a.0, a.1, a.2, x, y, z) == CubicFrom(v, b.0, b.1, b.2, x, y, z)
  {
    CubicSwitchX(v, a.0, b.0, a.1, a.2, x, y, z);
    CubicSwitchY(v, b.0, a.1, b.1, a.2, x, y, z);
    CubicSwitchZ(v, b.0, b.1, a.2, b.2, x, y, z);
  }

  /** The cells that FastFloor finds, and those of the true floor. */
  lemma CubicFloors(v: Values, x: real, y: real, z: real)
    ensures CubicFrom(v, FastFloor(x), FastFloor(y), FastFloor(z), x, y, z)
      == CubicFrom(v, x.Floor, y.Floor, z.Floor, x, y, z)
  {
    FastFloorIsFloor(x);
    FastFloorIsFloor(y);
    FastFloorIsFloor(z);
    CubicFromEither(v, (FastFloor(x), FastFloor(y), FastFloor(z)), (x.Floor, y.Floor, z.Floor), x, y, z);
  }

  lemma CubicLineEnds(v: Values, x1: int, y: int, z: int)
    ensures CubicLine(v, x1, y, z, 0.0) == v(x1, y, z) && CubicLine(v, x1, y, z, 1.0) == v(x1 + 1, y, z)
  {}

  lemma CubicPlaneEnds(v: Values, x1: int, y1: int, z: int, xs: real)
    ensures CubicPlane(v, x1, y1, z, xs, 0.0) == CubicLine(v, x1, y1, z, xs)
    ensures CubicPlane(v, x1, y1, z, xs, 1.0) == CubicLine(v, x1, y1 + 1, z, xs)
  {
    hide CubicLine;
  }

  lemma CubicVolumeEnds(v: Values, x1: int, y1: int, z1: int, xs: real, ys: real)
    ensures CubicVolume(v, x1, y1, z1, xs, ys, 0.0) == CubicPlane(v, x1, y1, z1, xs, ys)
    ensures CubicVolume(v, x1, y1, z1, xs, ys, 1.0) == CubicPlane(v, x1, y1, z1 + 1, xs, ys)
  {
    hide CubicPlane;
  }

  lemma CubicSwitchX(v: Values, a: int, b: int, y0: int, z0: int, x: real, y: real, z: real)
    requires Meet(a, b, x)
    ensures CubicFrom(v, a, y0, z0, x, y, z) == CubicFrom(v, b, y0, z0, x, y, z)
  {
    hide CubicLerp, CubicLine;
    if a != b {
      assert x - a as real == 1.0 && x - b as real == 0.0;
      forall j, k ensures CubicLine(v, a, j, k, 1.0) == CubicLine(v, b, j, k, 0.0) {
        CubicLineEnds(v, a, j, k);
        CubicLineEnds(v, b, j, k);
      }
    }
  }

  lemma CubicSwitchY(v: Values, x0: int, a: int, b: int, z0: int, x: real, y: real, z: real)
    requires Meet(a, b, y)
    ensures CubicFrom(v, x0, a, z0, x, y, z) == CubicFrom(v, x0, b, z0, x, y, z)
  {
    hide CubicLerp, CubicPlane;
    if a != b {
      assert y - a as real == 1.0 && y - b as real == 0.0;
      var xs := x - x0 as real;
      forall k ensures CubicPlane(v, x0, a, k, xs, 1.0) == CubicPlane(v, x0, b, k, xs, 0.0) {
        CubicPlaneEnds(v, x0, a, k, xs);
        CubicPlaneEnds(v, x0, b, k, xs);
      }
    }
  }

  lemma CubicSwitchZ(v: Values, x0: int, y0: int, a: int, b: int, x: real, y: real, z: real)
    requires Meet(a, b, z)
    ensures CubicFrom(v, x0, y0, a, x, y, z) == CubicFrom(v, x0, y0, b, x, y, z)
  {
    hide CubicVolume;
    if a != b {
      CubicVolumeEnds(v, x0, y0, a, x - x0 as real, y - y0 as real);
      CubicVolumeEnds(v, x0, y0, b, x - x0 as real, y - y0 as real);
    }
  }

  /** On a line through lattice points only the four points around count. */
  lemma CubicOnLines(v: Values, i: int, j: int, k: int, t: real)
    ensures CubicVolume(v, i, j, k, t, 0.0, 0.0)
      == CubicLerp(v(i - 1, j, k), v(i, j, k), v(i + 1, j, k), v(i + 2, j, k), t)
    ensures CubicVolume(v, i, j, k, 0.0, t, 0.0)
      == CubicLerp(v(i, j - 1, k), v(i, j, k), v(i, j + 1, k), v(i, j + 2, k), t)
    ensures CubicVolume(v, i, j, k, 0.0, 0.0, t)
      == CubicLerp(v(i, j, k - 1), v(i, j, k), v(i, j, k + 1), v(i, j, k + 2), t)
  {
    CubicVolumeEnds(v, i, j, k, t, 0.0);
    CubicPlaneEnds(v, i, j, k, t);
    CubicVolumeEnds(v, i, j, k, 0.0, t);
    OnLineY(v, i, j, k, t);
    OnLineZ(v, i, j, k, t);
  }

  lemma OnLineY(v: Values, i: int, j: int, k: int, t: real)
    ensures CubicPlane(v, i, j, k, 0.0, t) == CubicLerp(v(i, j - 1, k), v(i, j, k), v(i, j + 1, k), v(i, j + 2, k), t)
  {
    hide CubicLerp, CubicLine;
    forall y ensures CubicLine(v, i, y, k, 0.0) == v(i, y, k) { CubicLineEnds(v, i, y, k); }
  }

  lemma OnLineZ(v: Values, i: int, j: int, k: int, t: real)
    ensures CubicVolume(v, i, j, k, 0.0, 0.0, t)
      == CubicLerp(v(i, j, k - 1), v(i, j, k), v(i, j, k + 1), v(i, j, k + 2), t)
  {
    hide CubicLerp, CubicLine, CubicPlane;
    forall z ensures CubicPlane(v, i, j, z, 0.0, 0.0) == v(i, j, z) {
      CubicPlaneEnds(v, i, j, z, 0.0);
      CubicLineEnds(v, i, j, z);
    }
  }

  /** Values that are a product of one factor for each axis. */
  ghost predicate Separable(v: Values, f: int -> real, g: int -> real, h: int -> real) {
    forall i, j, k :: v(i, j, k) == f(i) * g(j) * h(k)
  }

  function CubicAxis(f: int -> real, i: int, t: real): real {
    CubicLerp(f(i - 1), f(i), f(i + 1), f(i + 2), t)
  }

  /** The cubic of a product is the product of the cubics along the axes. */
  lemma CubicOfProduct(v: Values, f: int -> real, g: int -> real, h: int -> real, x1: int, y1: int, z1: int, xs: real,
                       ys: real, zs: real)
    requires Separable(v, f, g, h)
    ensures CubicVolume(v, x1, y1, z1, xs, ys, zs) == CubicAxis(f, x1, xs) * CubicAxis(g, y1, ys) * CubicAxis(h, z1, zs)
  {
    hide CubicLerp, CubicPlane, Separable, Part;
    var s := Part(CubicAxis(f, x1, xs), CubicAxis(g, y1, ys));
    forall k ensures CubicPlane(v, x1, y1, k, xs, ys) == Part(s, h(k)) {
      PlaneOfProduct(v, f, g, h, x1, y1, k, xs, ys);
    }
    CubicScaled(s, h(z1 - 1), h(z1), h(z1 + 1), h(z1 + 2), zs);
    PartOfPart(CubicAxis(f, x1, xs), CubicAxis(g, y1, ys), CubicAxis(h, z1, zs));
  }

  lemma PartOfPart(a: real, b: real, c: real)
    ensures Part(Part(a, b), c) == a * b * c
  {}

  lemma PlaneOfProduct(v: Values, f: int -> real, g: int -> real, h: int -> real, x1: int, y1: int, z: int, xs: real,
                       ys: real)
    requires Separable(v, f, g, h)
    ensures CubicPlane(v, x1, y1, z, xs, ys) == Part(Part(CubicAxis(f, x1, xs), CubicAxis(g, y1, ys)), h(z))
  {
    hide CubicLerp, CubicLine, Separable, Part;
    var s := Part(CubicAxis(f, x1, xs), h(z));
    forall j ensures CubicLine(v, x1, j, z, xs) == Part(s, g(j)) { LineOfProduct(v, f, g, h, x1, j, z, xs); }
    CubicScaled(s, g(y1 - 1), g(y1), g(y1 + 1), g(y1 + 2), ys);
    Rotated(CubicAxis(f, x1, xs), h(z), CubicAxis(g, y1, ys));
  }

  lemma LineOfProduct(v: Values, f: int -> real, g: int -> real, h: int -> real, x1: int, y: int, z: int, xs: real)
    requires Separable(v, f, g, h)
    ensures CubicLine(v, x1, y, z, xs) == Part(Part(CubicAxis(f, x1, xs), h(z)), g(y))
  {
    hide CubicLerp, Part, Separable;
    var s := Part(g(y), h(z));
    forall i ensures v(i, y, z) == Part(s, f(i)) { PointOfProduct(v, f, g, h, i, y, z); }
    CubicScaled(s, f(x1 - 1), f(x1), f(x1 + 1), f(x1 + 2), xs);
    Rotated(g(y), h(z), CubicAxis(f, x1, xs));
  }

  lemma PointOfProduct(v: Values, f: int -> real, g: int -> real, h: int -> real, i: int, j: int, k: int)
    requires Separable(v, f, g, h)
    ensures v(i, j, k) == Part(Part(g(j), h(k)), f(i))
  {
    assert v(i, j, k) == f(i) * g(j) * h(k);
    Product3(f(i), g(j), h(k));
  }

  lemma Product3(a: real, b: real, c: real)
    ensures a * b * c == b * c * a
  {}

  lemma Rotated(b: real, c: real, a: real)
    ensures Part(Part(b, c), a) == Part(Part(a, c), b) == Part(Part(b, a), c)
  {}

  // ---------- the two cubic noises ----------

  /** Cubic noise in three dimensions, in the cell that FastFloor finds. */
  function Cubic3D(v: Values, x: real, y: real, z: real): real {
    var x1, y1, z1 := FastFloor(x), FastFloor(y), FastFloor(z);
    CubicVolume(v, x1, y1, z1, x - x1 as real, y - y1 as real, z - z1 as real) * CUBIC_3D_BOUNDING
  }

  /** The same in two, v being the same on every z. */
  function Cubic2D(v: Values, x: real, y: real): real {
    var x1, y1 := FastFloor(x), FastFloor(y);
    CubicPlane(v, x1, y1, 0, x - x1 as real, y - y1 as real) * CUBIC_2D_BOUNDING
  }

  lemma CubicNoiseBounded(v: Values, x: real, y: real, z: real)
    requires AllBounded(v, 1.0)
    ensures Bounded(Cubic3D(v, x, y, z), 1.0) && Bounded(Cubic2D(v, x, y), 1.0)
  {
    hide CubicVolume, CubicPlane, AllBounded, FastFloor;
    FastFloorIsFloor(x);
    FastFloorIsFloor(y);
    FastFloorIsFloor(z);
    var xs, ys, zs := x - FastFloor(x) as real, y - FastFloor(y) as real, z - FastFloor(z) as real;
    CubicVolumeWithin(v, FastFloor(x), FastFloor(y), FastFloor(z), xs, ys, zs, 1.0);
    CubicPlaneWithin(v, FastFloor(x), FastFloor(y), 0, xs, ys, 1.0);
  }

  /** Both are what the true floor would give. */
  lemma CubicNoiseFloors(v: Values, x: real, y: real, z: real)
    ensures Cubic3D(v, x, y, z) * 27.0 / 8.0 == CubicFrom(v, x.Floor, y.Floor, z.Floor, x, y, z)
    ensures Cubic2D(v, x, y) * 9.0 / 4.0 == CubicFrom(v, x.Floor, y.Floor, 0, x, y, 0.0)
  {
    hide CubicVolume, CubicPlane;
    CubicFloors(v, x, y, z);
    CubicFloors(v, x, y, 0.0);
    CubicVolumeEnds(v, FastFloor(x), FastFloor(y), 0, x - FastFloor(x) as real, y - FastFloor(y) as real);
  }

  lemma FloorOf(i: int, t: real)
    requires 0.0 <= t < 1.0
    ensures (i as real + t).Floor == i && i as real + t - i as real == t && (i as real).Floor == i
  {}

  /** r times s is near b and near c as the slopes between their neighbours say. */
  ghost predicate Sloped(r: real, s: real, a: real, b: real, c: real, d: real, t: real) {
    var u := 1.0 - t;
    && Bounded(r * s - b - t * (c - a), 10.0 * (t * t))
    && Bounded(r * s - c + u * (d - b), 10.0 * (u * u))
  }

  lemma CubicSloped(r: real, s: real, a: real, b: real, c: real, d: real, t: real)
    requires r * s == CubicLerp(a, b, c, d, t)
    requires Unit(t) && Bounded(a, 1.0) && Bounded(b, 1.0) && Bounded(c, 1.0) && Bounded(d, 1.0)
    ensures Sloped(r, s, a, b, c, d, t)
  {
    hide CubicLerp;
    CubicEnds(a, b, c, d, t, 1.0);
    CubicEnds(a, b, c, d, 1.0 - t, 1.0);
    assert 1.0 - (1.0 - t) == t;
  }

  lemma CubicNoiseAtPoint(v: Values, i: int, j: int, k: int)
    ensures Cubic3D(v, i as real, j as real, k as real) * 27.0 / 8.0 == v(i, j, k)
    ensures k == 0 ==> Cubic2D(v, i as real, j as real) * 9.0 / 4.0 == v(i, j, k)
  {
    hide Cubic3D, Cubic2D, CubicVolume, CubicPlane, CubicLine;
    CubicNoiseFloors(v, i as real, j as real, k as real);
    CubicVolumeEnds(v, i, j, k, 0.0, 0.0);
    CubicPlaneEnds(v, i, j, k, 0.0);
    CubicLineEnds(v, i, j, k);
  }

  lemma CubicNoiseAlongX(v: Values, i: int, j: int, k: int, t: real)
    requires AllBounded(v, 1.0) && 0.0 <= t < 1.0
    ensures Sloped(Cubic3D(v, i as real + t, j as real, k as real), 27.0 / 8.0,
                   v(i - 1, j, k), v(i, j, k), v(i + 1, j, k), v(i + 2, j, k), t)
    ensures k == 0 ==> Sloped(Cubic2D(v, i as real + t, j as real), 9.0 / 4.0,
                              v(i - 1, j, k), v(i, j, k), v(i + 1, j, k), v(i + 2, j, k), t)
  {
    hide Cubic3D, Cubic2D, CubicVolume, CubicLerp, Sloped;
    FloorOf(i, t);
    CubicNoiseFloors(v, i as real + t, j as real, k as real);
    CubicOnLines(v, i, j, k, t);
    CubicSloped(Cubic3D(v, i as real + t, j as real, k as real), 27.0 / 8.0,
                v(i - 1, j, k), v(i, j, k), v(i + 1, j, k), v(i + 2, j, k), t);
    if k == 0 {
      CubicSloped(Cubic2D(v, i as real + t, j as real), 9.0 / 4.0,
                  v(i - 1, j, k), v(i, j, k), v(i + 1, j, k), v(i + 2, j, k), t);
    }
  }

  lemma CubicNoiseAlongY(v: Values, i: int, j: int, k: int, t: real)
    requires AllBounded(v, 1.0) && 0.0 <= t < 1.0
    ensures Sloped(Cubic3D(v, i as real, j as real + t, k as real), 27.0 / 8.0,
                   v(i, j - 1, k), v(i, j, k), v(i, j + 1, k), v(i, j + 2, k), t)
    ensures k == 0 ==> Sloped(Cubic2D(v, i as real, j as real + t), 9.0 / 4.0,
                              v(i, j - 1, k), v(i, j, k), v(i, j + 1, k), v(i, j + 2, k), t)
  {
    hide Cubic3D, Cubic2D, CubicVolume, CubicLerp, Sloped;
    FloorOf(j, t);
    CubicNoiseFloors(v, i as real, j as real + t, k as real);
    CubicOnLines(v, i, j, k, t);
    CubicSloped(Cubic3D(v, i as real, j as real + t, k as real), 27.0 / 8.0,
                v(i, j - 1, k), v(i, j, k), v(i, j + 1, k), v(i, j + 2, k), t);
    if k == 0 {
      CubicSloped(Cubic2D(v, i as real, j as real + t), 9.0 / 4.0,
                  v(i, j - 1, k), v(i, j, k), v(i, j + 1, k), v(i, j + 2, k), t);
    }
  }

  lemma CubicNoiseAlongZ(v: Values, i: int, j: int, k: int, t: real)
    requires AllBounded(v, 1.0) && 0.0 <= t < 1.0
    ensures Sloped(Cubic3D(v, i as real, j as real, k as real + t), 27.0 / 8.0,
                   v(i, j, k - 1), v(i, j, k), v(i, j, k + 1), v(i, j, k + 2), t)
  {
    hide Cubic3D, CubicVolume, CubicLerp, Sloped;
    FloorOf(k, t);
    CubicNoiseFloors(v, i as real, j as real, k as real + t);
    CubicOnLines(v, i, j, k, t);
    CubicSloped(Cubic3D(v, i as real, j as real, k as real + t), 27.0 / 8.0,
                v(i, j, k - 1), v(i, j, k), v(i, j, k + 1), v(i, j, k + 2), t);
  }
}
