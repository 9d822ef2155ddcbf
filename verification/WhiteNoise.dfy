/** The white noise fill. Its row path never multiplies: it adds the prime of an
    axis at every step, in 32-bit lanes. */
module WhiteNoise {
  import opened Arithmetic
  import opened Bits
  import opened Grid
  import opened GridFill

  const X_PRIME := 1619
  const Y_PRIME := 31337
  const Z_PRIME := 6971

  /** The value a signed 32-bit lane keeps of a. */
  function Wrap(a: int): int {
    (a + 0x8000_0000) % 0x1_0000_0000 - 0x8000_0000
  }

  /** p is a signed 32-bit number and differs from a by a multiple of 2^32. */
  ghost predicate Lane(p: int, a: int) {
    -0x8000_0000 <= p < 0x8000_0000 && (p - a) % 0x1_0000_0000 == 0
  }

  /** The wrapped value is such a number, and there is no other. */
  lemma WrapIsLane(a: int)
    ensures Lane(Wrap(a), a) && forall p | Lane(p, a) :: p == Wrap(a)
  {
    forall p | Lane(p, a) ensures p == Wrap(a) {
      OnlyLane(p, Wrap(a), a);
    }
  }

  lemma OnlyLane(p: int, q: int, a: int)
    requires Lane(p, a) && Lane(q, a)
    ensures p == q
  {
    assert (p - q) % 0x1_0000_0000 == 0;
  }

  lemma WrapSum(a: int, b: int)
    ensures Wrap(Wrap(a) + Wrap(b)) == Wrap(a + b)
    ensures Wrap(Wrap(a) + b) == Wrap(a + b)
  {}

  function AddWrapped(a: Lanes, b: Lanes): (s: Lanes)
    requires |a| == |b|
    ensures |s| == |a| && forall l :: 0 <= l < |a| ==> s[l] == Wrap(a[l] + b[l])
  {
    seq(|a|, l requires 0 <= l < |a| => Wrap(a[l] + b[l]))
  }

  function MulWrapped(a: Lanes, b: Lanes): (s: Lanes)
    requires |a| == |b|
    ensures |s| == |a| && forall l :: 0 <= l < |a| ==> s[l] == Wrap(a[l] * b[l])
  {
    seq(|a|, l requires 0 <= l < |a| => Wrap(a[l] * b[l]))
  }

  /** A coordinate hash, the seed already given. */
  type Hash<T> = (int, int, int) -> T

  /** Every cell's noise: the hash of its coordinates times the primes. */
  function Noise<T>(h: Hash<T>): Cell -> T {
    (c: Cell) => h(Wrap(c.x * X_PRIME), Wrap(c.y * Y_PRIME), Wrap(c.z * Z_PRIME))
  }

  function Hashes<T>(h: Hash<T>, x: Lanes, y: Lanes, z: Lanes): (r: seq<T>)
    requires |x| == |y| == |z|
    ensures |r| == |x| && forall l :: 0 <= l < |x| ==> r[l] == h(x[l], y[l], z[l])
  {
    seq(|x|, l requires 0 <= l < |x| => h(x[l], y[l], z[l]))
  }

  /** Every position holds the hash of the only signed 32-bit numbers that its
      cell's coordinates times the primes are, modulo 2^32. */
  ghost predicate Hashed<T>(a: seq<T>, g: Grid, h: Hash<T>)
    requires Proper(g) && |a| >= Count(g)
  {
    forall n, x, y, z :: 0 <= n < Count(g) && LanesFor(CellAt(g, n), x, y, z) ==> a[n] == h(x, y, z)
  }

  ghost predicate LanesFor(c: Cell, x: int, y: int, z: int) {
    Lane(x, c.x * X_PRIME) && Lane(y, c.y * Y_PRIME) && Lane(z, c.z * Z_PRIME)
  }

  lemma NoiseIsHashed<T>(a: seq<T>, g: Grid, h: Hash<T>)
    requires Proper(g) && Filled(a, g, Noise(h), Count(g))
    ensures Hashed(a, g, h)
  {
    hide Count, CellAt, Wrap, Lane;
    forall n, x, y, z | 0 <= n < Count(g) && LanesFor(CellAt(g, n), x, y, z) ensures a[n] == h(x, y, z)
    {
      WrapIsLane(CellAt(g, n).x * X_PRIME);
      WrapIsLane(CellAt(g, n).y * Y_PRIME);
      WrapIsLane(CellAt(g, n).z * Z_PRIME);
    }
  }

  /** The lanes s hold the coordinates c times a prime. */
  ghost predicate Multiples(s: Lanes, c: Lanes, prime: int) {
    |s| == |c| && forall l :: 0 <= l < |s| ==> s[l] == Wrap(c[l] * prime)
  }

  /** Adding d times the prime moves every lane d coordinates on. */
  lemma MultiplesStep(s: Lanes, c: Lanes, prime: int, t: Lanes, d: int)
    requires Multiples(s, c, prime) && |t| == |s| && forall l :: 0 <= l < |t| ==> t[l] == Wrap(d * prime)
    ensures Multiples(AddWrapped(s, t), Add(c, Set1(|c|, d)), prime)
  {
    hide Wrap;
    forall l | 0 <= l < |s| ensures AddWrapped(s, t)[l] == Wrap((c[l] + d) * prime) {
      WrapSum(c[l] * prime, d * prime);
      assert c[l] * prime + d * prime == (c[l] + d) * prime;
    }
  }

  /** A step by the prime itself is a step by one coordinate. */
  lemma PrimeStep(s: Lanes, c: Lanes, prime: int)
    requires Multiples(s, c, prime)
    ensures Multiples(AddWrapped(s, Set1(|s|, prime)), Add(c, Set1(|c|, 1)), prime)
  {
    hide Wrap;
    forall l | 0 <= l < |s| ensures AddWrapped(s, Set1(|s|, prime))[l] == Wrap((c[l] + 1) * prime) {
      WrapSum(c[l] * prime, prime);
      assert c[l] * prime + prime == (c[l] + 1) * prime;
    }
  }

  lemma HashesAreResults<T>(h: Hash<T>, x: Lanes, y: Lanes, z: Lanes, cx: Lanes, cy: Lanes, cz: Lanes)
    requires Multiples(x, cx, X_PRIME) && Multiples(y, cy, Y_PRIME) && Multiples(z, cz, Z_PRIME) && |x| == |y| == |z|
    ensures Hashes(h, x, y, z) == Results(Noise(h), cx, cy, cz)
  {}

  /** One row of whole vectors. Returns the position of the last vector. */
  method FillRow<T>(noiseSet: array<T>, g: Grid, k: nat, h: Hash<T>, start: nat, x: Lanes, y: Lanes, zBase: Lanes,
                    zStep: Lanes, ghost ix: nat, ghost iy: nat, ghost cx: Lanes, ghost cy: Lanes)
    returns (index: nat)
    requires Proper(g) && g.zSize % Pow2(k) == 0 && noiseSet.Length >= Count(g) && ix < g.xSize && iy < g.ySize
    requires cx == Set1(Pow2(k), g.xStart + ix) && cy == Set1(Pow2(k), g.yStart + iy)
    requires Multiples(x, cx, X_PRIME) && Multiples(y, cy, Y_PRIME)
    requires Multiples(zBase, Add(Incremental(Pow2(k)), Set1(Pow2(k), g.zStart)), Z_PRIME)
    requires zStep == MulWrapped(Set1(Pow2(k), Pow2(k)), Set1(Pow2(k), Z_PRIME))
    requires start == RowStart(g, ix, iy) && Filled(noiseSet[..], g, Noise(h), start)
    modifies noiseSet
    ensures index + Pow2(k) == start + g.zSize && Filled(noiseSet[..], g, Noise(h), index + Pow2(k))
    ensures forall n :: Count(g) <= n < noiseSet.Length ==> noiseSet[n] == old(noiseSet[n])
  {
    hide Wrap, Noise, Multiples, Flat, CellAt, Count, Filled, Aligned, RowStart, Results;
    var v := Pow2(k);
    index := start;
    var z := zBase;
    ghost var cz := Add(Incremental(v), Set1(v, g.zStart));
    MultiplesSizes(x, cx, X_PRIME);
    MultiplesSizes(y, cy, Y_PRIME);
    MultiplesSizes(z, cz, Z_PRIME);
    NextMultiple(0, g.zSize, v);
    RowLanes(g, v, ix, iy, 0, cx, cy, cz);
    HashesAreResults(h, x, y, z, cx, cy, cz);
    StoreStep(noiseSet, g, Noise(h), index, v, v, Hashes(h, x, y, z), cx, cy, cz);
    var iz := v;
    Quotient(1, v, 0, v);
    while iz < g.zSize
      invariant iz % v == 0 && v <= iz <= g.zSize
      invariant |z| == |cz| == v && Multiples(z, cz, Z_PRIME)
      invariant forall l :: 0 <= l < v ==> cz[l] == g.zStart + iz - v + l
      invariant index == start + iz - v && Filled(noiseSet[..], g, Noise(h), index + v)
      invariant forall n :: Count(g) <= n < noiseSet.Length ==> noiseSet[n] == old(noiseSet[n])
    {
      NextMultiple(iz, g.zSize, v);
      NextIndex(iz, v);
      MultiplesStep(z, cz, Z_PRIME, zStep, v);
      z := AddWrapped(z, zStep);
      cz := Add(cz, Set1(v, v));
      index := index + v;
      iz := iz + v;
      RowLanes(g, v, ix, iy, iz - v, cx, cy, cz);
      HashesAreResults(h, x, y, z, cx, cy, cz);
      StoreStep(noiseSet, g, Noise(h), index, v, v, Hashes(h, x, y, z), cx, cy, cz);
    }
  }

  lemma MultiplesSizes(s: Lanes, c: Lanes, prime: int)
    requires Multiples(s, c, prime)
    ensures |s| == |c|
  {}

  lemma FirstMultiples(v: nat, c: Lanes, prime: int)
    requires |c| == v
    ensures Multiples(MulWrapped(c, Set1(v, prime)), c, prime)
  {}

  /** The additive path, for rows of whole vectors. */
  method RowFill<T>(noiseSet: array<T>, g: Grid, k: nat, h: Hash<T>)
    requires Proper(g) && g.zSize % Pow2(k) == 0 && noiseSet.Length >= Count(g)
    modifies noiseSet
    ensures Filled(noiseSet[..], g, Noise(h), Count(g)) && Hashed(noiseSet[..], g, h)
    ensures forall n :: Count(g) <= n < noiseSet.Length ==> noiseSet[n] == old(noiseSet[n])
  {
    hide Wrap, Noise, Multiples, Flat, CellAt, Count, Filled, Aligned, RowStart, Results, Hashed;
    var v := Pow2(k);
    var x := MulWrapped(Set1(v, g.xStart), Set1(v, X_PRIME));
    var yBase := MulWrapped(Set1(v, g.yStart), Set1(v, Y_PRIME));
    var zBase := MulWrapped(Add(Incremental(v), Set1(v, g.zStart)), Set1(v, Z_PRIME));
    var zStep := MulWrapped(Set1(v, v), Set1(v, Z_PRIME));
    ghost var cx := Set1(v, g.xStart);
    FirstMultiples(v, cx, X_PRIME);
    FirstMultiples(v, Set1(v, g.yStart), Y_PRIME);
    FirstMultiples(v, Add(Incremental(v), Set1(v, g.zStart)), Z_PRIME);
    var index := 0;
    RowSteps(g, 0, 0);
    ZeroFilled(noiseSet[..], g, Noise(h));
    for ix := 0 to g.xSize
      invariant |x| == v && cx == Set1(v, g.xStart + ix) && Multiples(x, cx, X_PRIME)
      invariant index == RowStart(g, ix, 0) && Filled(noiseSet[..], g, Noise(h), index)
      invariant forall n :: Count(g) <= n < noiseSet.Length ==> noiseSet[n] == old(noiseSet[n])
    {
      var y := yBase;
      ghost var cy := Set1(v, g.yStart);
      for iy := 0 to g.ySize
        invariant |y| == v && cy == Set1(v, g.yStart + iy) && Multiples(y, cy, Y_PRIME)
        invariant index == RowStart(g, ix, iy) && Filled(noiseSet[..], g, Noise(h), index)
        invariant forall n :: Count(g) <= n < noiseSet.Length ==> noiseSet[n] == old(noiseSet[n])
      {
        index := FillRow(noiseSet, g, k, h, index, x, y, zBase, zStep, ix, iy, cx, cy);
        index := index + v;
        PrimeStep(y, cy, Y_PRIME);
        y := AddWrapped(y, Set1(v, Y_PRIME));
        cy := Add(cy, Set1(v, 1));
        RowSteps(g, ix, iy);
      }
      RowSteps(g, ix, 0);
      PrimeStep(x, cx, X_PRIME);
      x := AddWrapped(x, Set1(v, X_PRIME));
      cx := Add(cx, Set1(v, 1));
    }
    NoiseIsHashed(noiseSet[..], g, h);
  }

  /** FillWhiteNoiseSet. The multiplying path is the odometer applied to the
      hash of the multiplied coordinates. */
  method FillWhiteNoiseSet<T>(noiseSet: array<T>, g: Grid, k: nat, aligned: bool, h: Hash<T>)
    requires Proper(g) && noiseSet.Length >= Extent(g, k, aligned)
    modifies noiseSet
    ensures Filled(noiseSet[..], g, Noise(h), Count(g)) && Hashed(noiseSet[..], g, h)
    ensures forall n :: 0 <= n < noiseSet.Length && n >= Extent(g, k, aligned) ==> noiseSet[n] == old(noiseSet[n])
  {
    hide Count, AlignedSize, Filled, Noise, Hashed;
    AndMask(g.zSize, k);
    AlignedSizeIsLeastMultiple(Count(g), k, 0);
    if And(g.zSize, Pow2(k) - 1) == 0 {
      RowFill(noiseSet, g, k, h);
    } else {
      OdometerFill(noiseSet, g, k, aligned, Noise(h));
    }
    NoiseIsHashed(noiseSet[..], g, h);
  }
}
