/** The noise object: table lookups, value and cubic noise, fractal sums. */
module FastNoise {
  import opened Arithmetic
  import opened Bits
  import opened Interpolation
  import opened Lattice
  import opened Octaves
  import opened Options
  import opened Seeding
  import opened ValueTable

  /** FN_CELLULAR_INDEX_MAX. */
  const INDEX_MAX := 3

  class FastNoise {
    const valLut: seq<real>
    const perm: seq<nat>
    const perm12: seq<nat>
    var interp: Interp
    var octaves: int
    var lacunarity: real
    var gain: real
    /** None stands for the infinity that a division by zero gives. */
    var fractalBounding: Option<real>
    var cellularDistanceIndex0: int
    var cellularDistanceIndex1: int

    /** 256 values within 1, and two rounds of byte-sized entries. */
    ghost predicate Tables() {
      && |valLut| == 256 && (forall i :: 0 <= i < 256 ==> Bounded(valLut[i], 1.0))
      && |perm| == 512 && (forall i :: 0 <= i < 512 ==> perm[i] < 256)
    }

    /** How many octaves a fractal sum really has. */
    function OctaveCount(): nat
      reads `octaves
    {
      Max(octaves, 1)
    }

    /** The bounding constant belongs to the present gain and octaves. */
    ghost predicate BoundingCurrent()
      reads `gain, `octaves, `fractalBounding
    {
      fractalBounding == Inverse(Amplitudes(gain, OctaveCount()))
    }

    ghost predicate IndicesOrdered()
      reads `cellularDistanceIndex0, `cellularDistanceIndex1
    {
      0 <= cellularDistanceIndex0 <= cellularDistanceIndex1 <= INDEX_MAX
    }

    /** The draws are those of the random generator, u the byte that entry 256 of
        the table holds before it is written. */
    constructor (draws: seq<nat>, u: nat)
      requires Draws(draws) && u < 256
      ensures valLut == ValLut() && Tables() && BoundingCurrent() && IndicesOrdered()
      ensures perm[..257] == Turns(u, draws, 256) && forall j :: 1 <= j < 256 ==> perm[j + 256] == perm[j]
      ensures |perm12| == 512 && forall j :: 0 <= j < 256 ==> perm12[j] == perm12[j + 256] == perm[j] % 12
      ensures interp == QuinticInterp && octaves == 3 && lacunarity == 2.0 && gain == 0.5
    {
      hide Turns, Turn, Numbers, ValLut, Value;
      var table := new nat[512](_ => u);
      var table12 := new nat[512];
      Shuffle(table, table12, draws);
      TurnsBytes(u, draws, 256);
      Rounds(table[..], Turns(u, draws, 256));
      LutBounded();
      valLut, perm, perm12 := ValLut(), table[..], table12[..];
      interp, octaves, lacunarity, gain := QuinticInterp, 3, 2.0, 0.5;
      cellularDistanceIndex0, cellularDistanceIndex1 := 0, 1;
      new;
      CalculateFractalBounding();
    }

    static lemma Rounds(table: seq<nat>, w: seq<nat>)
      requires |table| == 512 && table[..257] == w && (forall i :: 0 <= i < 257 ==> w[i] < 256)
      requires forall j :: 1 <= j < 256 ==> table[j + 256] == table[j]
      ensures forall i :: 0 <= i < 512 ==> table[i] < 256
    {
      forall i | 0 <= i < 512 ensures table[i] < 256 {
        if i < 257 { assert table[i] == w[i]; } else { assert table[i - 256 + 256] == table[i - 256] == w[i - 256]; }
      }
    }

    static lemma LutBounded()
      ensures forall i :: 0 <= i < 256 ==> Bounded(ValLut()[i], 1.0)
    {
      hide Value;
      forall i | 0 <= i < 256 ensures Bounded(ValLut()[i], 1.0) { ValuesWithin(i); }
    }

    /** One over the sum of the amplitudes, unless they cancel out. */
    method CalculateFractalBounding()
      modifies `fractalBounding
      ensures BoundingCurrent()
    {
      OneAmplitude(gain);
      FirstPower(gain);
      var amp := gain;
      var ampFractal := 1.0;
      var i := 1;
      while i < octaves
        invariant 1 <= i <= OctaveCount() && amp == Power(gain, i) && ampFractal == Amplitudes(gain, i)
      {
        ampFractal := ampFractal + amp;
        amp := amp * gain;
        i := i + 1;
      }
      fractalBounding := Inverse(ampFractal);
    }

    method SetFractalOctaves(newOctaves: int)
      modifies `octaves, `fractalBounding
      ensures octaves == newOctaves && BoundingCurrent()
    {
      octaves := newOctaves;
      CalculateFractalBounding();
    }

    method SetFractalLacunarity(newLacunarity: real)
      modifies `lacunarity
      ensures lacunarity == newLacunarity
    {
      lacunarity := newLacunarity;
    }

    method SetFractalGain(newGain: real)
      modifies `gain, `fractalBounding
      ensures gain == newGain && BoundingCurrent()
    {
      gain := newGain;
      CalculateFractalBounding();
    }

    /** Both indices are cut to 0..3 and put in order. */
    method SetCellularDistance2Indices(index0: int, index1: int)
      modifies `cellularDistanceIndex0, `cellularDistanceIndex1
      ensures IndicesOrdered()
      ensures 0 <= index0 <= index1 <= INDEX_MAX ==>
        cellularDistanceIndex0 == index0 && cellularDistanceIndex1 == index1
      ensures 0 <= index1 <= index0 <= INDEX_MAX ==>
        cellularDistanceIndex0 == index1 && cellularDistanceIndex1 == index0
      ensures CutTo(Min(index0, index1), cellularDistanceIndex0) && CutTo(Max(index0, index1), cellularDistanceIndex1)
    {
      cellularDistanceIndex0 := Min(index0, index1);
      cellularDistanceIndex1 := Max(index0, index1);
      cellularDistanceIndex0 := Min(Max(cellularDistanceIndex0, 0), INDEX_MAX);
      cellularDistanceIndex1 := Min(Max(cellularDistanceIndex1, 0), INDEX_MAX);
    }

    function Index2D(offset: nat, x: int, y: int): (i: nat)
      requires Tables() && offset < 256
      ensures i < 256
    {
      ByteIndex(x);
      ByteIndex(y);
      perm[And(x, 0xff) + perm[And(y, 0xff) + offset]]
    }

    function Index3D(offset: nat, x: int, y: int, z: int): (i: nat)
      requires Tables() && offset < 256
      ensures i < 256
    {
      ByteIndex(x);
      ByteIndex(y);
      ByteIndex(z);
      perm[And(x, 0xff) + perm[And(y, 0xff) + perm[And(z, 0xff) + offset]]]
    }

    /** ValCoord3DFast. */
    function Values3D(offset: nat): (v: Values)
      requires Tables() && offset < 256
      ensures AllBounded(v, 1.0)
    {
      (x, y, z) => valLut[Index3D(offset, x, y, z)]
    }

    /** ValCoord2DFast, the same on every z. */
    function Values2D(offset: nat): (v: Values)
      requires Tables() && offset < 256
      ensures AllBounded(v, 1.0)
    {
      (x, y, z) => valLut[Index2D(offset, x, y)]
    }

    /** Value noise never leaves [-1, 1], and is what the true floor would give. */
    function SingleValue(offset: nat, x: real, y: real, z: real): (r: real)
      requires Tables() && offset < 256
      reads `interp
      ensures Bounded(r, 1.0)
      ensures r == ValueFrom(Values3D(offset), interp, x.Floor, y.Floor, z.Floor, x, y, z)
    {
      FastFloorIsFloor(x);
      FastFloorIsFloor(y);
      FastFloorIsFloor(z);
      ValueBounded(Values3D(offset), interp, FastFloor(x), FastFloor(y), FastFloor(z), x, y, z, 1.0);
      ValueFromEither(Values3D(offset), interp, (FastFloor(x), FastFloor(y), FastFloor(z)),
                      (x.Floor, y.Floor, z.Floor), x, y, z);
      ValueFrom(Values3D(offset), interp, FastFloor(x), FastFloor(y), FastFloor(z), x, y, z)
    }

    /** Cubic noise in three dimensions. */
    function SingleCubic3D(offset: nat, x: real, y: real, z: real): (r: real)
      requires Tables() && offset < 256
    {
      Cubic3D(Values3D(offset), x, y, z)
    }

    /** Cubic noise in two dimensions. */
    function SingleCubic2D(offset: nat, x: real, y: real): (r: real)
      requires Tables() && offset < 256
    {
      Cubic2D(Values2D(offset), x, y)
    }

    /** Cubic noise never leaves [-1, 1]. */
    lemma SingleCubicBounded(offset: nat, x: real, y: real, z: real)
      requires Tables() && offset < 256
      ensures Bounded(SingleCubic3D(offset, x, y, z), 1.0) && Bounded(SingleCubic2D(offset, x, y), 1.0)
    {
      hide Cubic3D, Cubic2D, Values3D, Values2D, AllBounded;
      CubicNoiseBounded(Values3D(offset), x, y, z);
      CubicNoiseBounded(Values2D(offset), x, y, 0.0);
    }

    /** Octave i of a fractal sum at (x, y, z). */
    function Octave(i: nat, x: real, y: real, z: real): (r: real)
      requires Tables() && i < 512
      reads `interp, `lacunarity
      ensures Bounded(r, 1.0)
    {
      SingleValue(perm[i], x * Power(lacunarity, i), y * Power(lacunarity, i), z * Power(lacunarity, i))
    }

    function OctaveValues(n: nat, x: real, y: real, z: real): (v: seq<real>)
      requires Tables() && n <= 512
      reads `interp, `lacunarity
      ensures |v| == n && AllWithin(v, 1.0)
    {
      if n == 0 then [] else OctaveValues(n - 1, x, y, z) + [Octave(n - 1, x, y, z)]
    }

    /** Octave i is the noise at the point stretched by the frequency of i steps. */
    lemma OctaveAfterSteps(i: nat, x: real, y: real, z: real, frequency: seq<real>)
      requires Tables() && i < 512 && Frequencies(frequency, lacunarity) && i < |frequency|
      ensures Octave(i, x, y, z)
        == SingleValue(perm[i], x * frequency[i], y * frequency[i], z * frequency[i])
    {
      hide SingleValue, Power, Tables;
      FrequencyIsPower(frequency, lacunarity, i);
      TablesShape();
      var x', y', z' := x * frequency[i], y * frequency[i], z * frequency[i];
      hide *;
      PointOfOctave(x', y', z', x, y, z, frequency[i], lacunarity, i);
      ThisOctave(i, x', y', z', x, y, z);
    }

    lemma CountIs()
      ensures OctaveCount() == if octaves < 1 then 1 else octaves
    {}

    lemma MoreValues(n: nat, x: real, y: real, z: real)
      requires Tables() && n < 512
      ensures OctaveValues(n + 1, x, y, z) == OctaveValues(n, x, y, z) + [Octave(n, x, y, z)]
    {}

    lemma TablesShape()
      requires Tables()
      ensures |perm| == 512 && forall i :: 0 <= i < 512 ==> perm[i] < 256
    {}

    lemma BoundingIs(sum: real)
      requires BoundingCurrent()
      ensures Times(sum, fractalBounding) == Normalized(sum, Amplitudes(gain, OctaveCount()))
    {}

    lemma FirstOctave(x: real, y: real, z: real)
      requires Tables()
      ensures OctaveValues(1, x, y, z) == [SingleValue(perm[0], x, y, z)]
      ensures Weighted([SingleValue(perm[0], x, y, z)], gain) == SingleValue(perm[0], x, y, z)
      ensures AtOctave(x, y, z, x, y, z, lacunarity, 0)
    {}

    lemma ThisOctave(i: nat, x: real, y: real, z: real, x0: real, y0: real, z0: real)
      requires Tables() && i < 512
      requires AtOctave(x, y, z, x0, y0, z0, lacunarity, i)
      ensures SingleValue(perm[i], x, y, z) == Octave(i, x0, y0, z0)
    {}

    /** The point and the amplitude of the next octave. */
    method Advance(x: real, y: real, z: real, amp: real, ghost x0: real, ghost y0: real, ghost z0: real, ghost i: nat)
      returns (x': real, y': real, z': real, amp': real)
      requires i >= 1 && AtOctave(x, y, z, x0, y0, z0, lacunarity, i - 1) && amp == Power(gain, i - 1)
      ensures AtOctave(x', y', z', x0, y0, z0, lacunarity, i) && amp' == Power(gain, i)
    {
      x', y', z', amp' := x * lacunarity, y * lacunarity, z * lacunarity, amp * gain;
      NextOctave(x, y, z, x', y', z', x0, y0, z0, lacunarity, i);
    }

    /** The octave loop: a growing frequency and a falling amplitude. */
    method SumOctaves(x0: real, y0: real, z0: real) returns (sum: real)
      requires Tables() && octaves <= 512
      ensures sum == Weighted(OctaveValues(OctaveCount(), x0, y0, z0), gain)
    {
      hide *;
      var x, y, z := x0, y0, z0;
      FirstPower(gain);
      FirstOctave(x0, y0, z0);
      CountIs();
      TablesShape();
      sum := SingleValue(perm[0], x, y, z);
      ghost var v := [sum];
      var amp := 1.0;
      var i := 1;
      while i < octaves
        invariant 1 <= i <= OctaveCount()
        invariant amp == Power(gain, i - 1)
        invariant AtOctave(x, y, z, x0, y0, z0, lacunarity, i - 1)
        invariant v == OctaveValues(i, x0, y0, z0) && sum == Weighted(v, gain)
      {
        x, y, z, amp := Advance(x, y, z, amp, x0, y0, z0, i);
        var value := SingleValue(perm[i], x, y, z);
        ThisOctave(i, x, y, z, x0, y0, z0);
        MoreValues(i, x0, y0, z0);
        sum := Accumulate(sum, value, amp, gain, v);
        v := v + [value];
        i := i + 1;
      }
    }

    /** The fractal sum is the weighed octaves times the bounding constant. It
        stays within [-1, 1] when the gain is not negative or there is one octave. */
    method SingleValueFractalFBM(x: real, y: real, z: real) returns (r: Option<real>)
      requires Tables() && octaves <= 512 && BoundingCurrent()
      ensures r == Normalized(Weighted(OctaveValues(OctaveCount(), x, y, z), gain), Amplitudes(gain, OctaveCount()))
      ensures gain >= 0.0 || octaves <= 1 ==> InRange(r)
    {
      hide Bounded, AllWithin, Weighted, Amplitudes, Normalized, OctaveValues, Times;
      var sum := SumOctaves(x, y, z);
      BoundingIs(sum);
      r := Times(sum, fractalBounding);
      if gain >= 0.0 || octaves <= 1 {
        BoundingSufficesExactly(gain, OctaveCount());
        SufficesFor(OctaveValues(OctaveCount(), x, y, z), gain);
      }
    }

    // ---------- what the noise is at and between lattice points ----------

    /** The table value of lattice point (i, j, k). */
    function Point3D(offset: nat, i: int, j: int, k: int): (v: real)
      requires Tables() && offset < 256
      ensures Bounded(v, 1.0)
    {
      valLut[Index3D(offset, i, j, k)]
    }

    function Point2D(offset: nat, i: int, j: int): (v: real)
      requires Tables() && offset < 256
      ensures Bounded(v, 1.0)
    {
      valLut[Index2D(offset, i, j)]
    }

    /** Value noise is the polynomial through the eight points around, each
        coordinate moved in its cell by the interpolant. */
    lemma ValueBetween(offset: nat, x: real, y: real, z: real, p: Poly)
      requires Tables() && offset < 256 && Surrounds(Values3D(offset), x.Floor, y.Floor, z.Floor, p)
      ensures SingleValue(offset, x, y, z)
        == ValueAt(p, x.Floor as real + Smooth(interp, x - x.Floor as real),
                   y.Floor as real + Smooth(interp, y - y.Floor as real),
                   z.Floor as real + Smooth(interp, z - z.Floor as real))
    {
      hide Surrounds, ValueAt, Smooth, ValueFrom;
      ValueReproduces(Values3D(offset), interp, x.Floor, y.Floor, z.Floor, x, y, z, p);
    }

    /** Value noise at a lattice point is the value of that point. */
    lemma ValueAtPoint(offset: nat, i: int, j: int, k: int)
      requires Tables() && offset < 256
      ensures SingleValue(offset, i as real, j as real, k as real) == Point3D(offset, i, j, k)
    {
      hide Smooth;
      SmoothUnit(interp, 0.0);
      ValueOnLines(Values3D(offset), interp, i, j, k, 0.0);
    }

    /** On a line between two lattice points value noise goes from one value to
        the other as the interpolant rises. */
    lemma ValueOnAxes(offset: nat, i: int, j: int, k: int, t: real) returns (s: real)
      requires Tables() && offset < 256 && 0.0 <= t < 1.0
      ensures Risen(interp, t, s)
      ensures SingleValue(offset, i as real + t, j as real, k as real)
        == Lerp(Point3D(offset, i, j, k), Point3D(offset, i + 1, j, k), s)
      ensures SingleValue(offset, i as real, j as real + t, k as real)
        == Lerp(Point3D(offset, i, j, k), Point3D(offset, i, j + 1, k), s)
      ensures SingleValue(offset, i as real, j as real, k as real + t)
        == Lerp(Point3D(offset, i, j, k), Point3D(offset, i, j, k + 1), s)
    {
      hide Smooth, Risen, ValueFrom, Lerp;
      s := Smooth(interp, t);
      SmoothRises(interp, t);
      FloorOf(i, t);
      FloorOf(j, t);
      FloorOf(k, t);
      ValueOnLines(Values3D(offset), interp, i, j, k, t);
    }

    /** Each lookup starts from its own coordinate modulo 256 and what the next
        coordinates gave. */
    lemma IndexChain(offset: nat, x: int, y: int, z: int)
      requires Tables() && offset < 256
      ensures Index3D(offset, x, y, z) == perm[x % 256 + Index2D(offset, y, z)]
      ensures Index2D(offset, y, z) == perm[y % 256 + perm[z % 256 + offset]]
    {
      hide And;
      LowByte(x);
      LowByte(y);
      LowByte(z);
    }

    /** A permutation of the bytes, twice over. */
    ghost predicate TwiceOver() {
      Tables() && (forall i :: 0 <= i < 256 ==> perm[i + 256] == perm[i]) && Distinct(perm[..256])
    }

    lemma SameEntry(i: nat, j: nat)
      requires TwiceOver() && i < 512 && j < 512
      ensures perm[i] == perm[j] <==> (i - j) % 256 == 0
    {
      var a, b := if i < 256 then i else i - 256, if j < 256 then j else j - 256;
      assert perm[i] == perm[..256][a] && perm[j] == perm[..256][b];
      assert (i - j) % 256 == 0 <==> a == b;
    }

    lemma LookupDiffers(x: int, d: int, c: nat)
      requires TwiceOver() && c < 256
      ensures perm[(x + d) % 256 + c] == perm[x % 256 + c] <==> d % 256 == 0
    {
      hide TwiceOver, Tables;
      BytesHere();
      SameEntry((x + d) % 256 + c, x % 256 + c);
      StepApart(x, d, c);
    }

    lemma BaseDiffers(x: int, b: nat, c: nat)
      requires TwiceOver() && b < 256 && c < 256
      ensures perm[x % 256 + b] == perm[x % 256 + c] <==> b == c
    {
      hide TwiceOver, Tables;
      BytesHere();
      SameEntry(x % 256 + b, x % 256 + c);
    }

    /** With such a table, points that differ on one axis get the same entry
        exactly when they are a multiple of 256 apart. */
    lemma IndexDiffers(offset: nat, x: int, y: int, z: int, d: int)
      requires TwiceOver() && offset < 256
      ensures Index3D(offset, x + d, y, z) == Index3D(offset, x, y, z) <==> d % 256 == 0
      ensures Index3D(offset, x, y + d, z) == Index3D(offset, x, y, z) <==> d % 256 == 0
      ensures Index3D(offset, x, y, z + d) == Index3D(offset, x, y, z) <==> d % 256 == 0
    {
      hide And, Index3D, TwiceOver, Tables;
      BytesHere();
      IndexChain(offset, x, y, z);
      IndexChain(offset, x + d, y, z);
      IndexChain(offset, x, y + d, z);
      IndexChain(offset, x, y, z + d);
      hide *;
      var p, p' := perm[z % 256 + offset], perm[(z + d) % 256 + offset];
      LookupDiffers(x, d, perm[y % 256 + p]);
      LookupDiffers(y, d, p);
      LookupDiffers(z, d, offset);
      BaseDiffers(x, perm[(y + d) % 256 + p], perm[y % 256 + p]);
      BaseDiffers(y, p', p);
      BaseDiffers(x, perm[y % 256 + p'], perm[y % 256 + p]);
    }

    lemma BytesHere()
      requires TwiceOver()
      ensures Tables() && |perm| == 512 && forall i :: 0 <= i < 512 ==> perm[i] < 256
    {}

    /** Cubic noise at a lattice point is a fixed part of the value of that point. */
    lemma CubicAtPoint(offset: nat, i: int, j: int, k: int)
      requires Tables() && offset < 256
      ensures SingleCubic3D(offset, i as real, j as real, k as real) * 27.0 / 8.0 == Point3D(offset, i, j, k)
      ensures SingleCubic2D(offset, i as real, j as real) * 9.0 / 4.0 == Point2D(offset, i, j)
    {
      hide Cubic3D, Cubic2D;
      CubicNoiseAtPoint(Values3D(offset), i, j, k);
      CubicNoiseAtPoint(Values2D(offset), i, j, 0);
    }

    /** On a line through lattice points cubic noise leaves each point, and reaches
        the next, with the slope between the neighbours of that point. */
    lemma CubicAlongX(offset: nat, i: int, j: int, k: int, t: real)
      requires Tables() && offset < 256 && 0.0 <= t < 1.0
      ensures Sloped(SingleCubic3D(offset, i as real + t, j as real, k as real), 27.0 / 8.0,
                     Point3D(offset, i - 1, j, k), Point3D(offset, i, j, k), Point3D(offset, i + 1, j, k),
                     Point3D(offset, i + 2, j, k), t)
      ensures Sloped(SingleCubic2D(offset, i as real + t, j as real), 9.0 / 4.0, Point2D(offset, i - 1, j),
                     Point2D(offset, i, j), Point2D(offset, i + 1, j), Point2D(offset, i + 2, j), t)
    {
      hide Cubic3D, Cubic2D, Sloped;
      CubicNoiseAlongX(Values3D(offset), i, j, k, t);
      CubicNoiseAlongX(Values2D(offset), i, j, 0, t);
    }

    lemma CubicAlongY(offset: nat, i: int, j: int, k: int, t: real)
      requires Tables() && offset < 256 && 0.0 <= t < 1.0
      ensures Sloped(SingleCubic3D(offset, i as real, j as real + t, k as real), 27.0 / 8.0,
                     Point3D(offset, i, j - 1, k), Point3D(offset, i, j, k), Point3D(offset, i, j + 1, k),
                     Point3D(offset, i, j + 2, k), t)
      ensures Sloped(SingleCubic2D(offset, i as real, j as real + t), 9.0 / 4.0, Point2D(offset, i, j - 1),
                     Point2D(offset, i, j), Point2D(offset, i, j + 1), Point2D(offset, i, j + 2), t)
    {
      hide Cubic3D, Cubic2D, Sloped;
      CubicNoiseAlongY(Values3D(offset), i, j, k, t);
      CubicNoiseAlongY(Values2D(offset), i, j, 0, t);
    }

    lemma CubicAlongZ(offset: nat, i: int, j: int, k: int, t: real)
      requires Tables() && offset < 256 && 0.0 <= t < 1.0
      ensures Sloped(SingleCubic3D(offset, i as real, j as real, k as real + t), 27.0 / 8.0,
                     Point3D(offset, i, j, k - 1), Point3D(offset, i, j, k), Point3D(offset, i, j, k + 1),
                     Point3D(offset, i, j, k + 2), t)
    {
      hide Cubic3D, Sloped;
      CubicNoiseAlongZ(Values3D(offset), i, j, k, t);
    }
  }

  lemma StepApart(x: int, d: int, c: int)
    ensures ((x + d) % 256 + c - (x % 256 + c)) % 256 == 0 <==> d % 256 == 0
  {}

  lemma LowByte(x: int)
    ensures And(x, 0xff) == x % 256
  {
    hide And;
    assert Pow2(4) == 16;
    assert Pow2(8) == 256;
    AndMask(x, 8);
  }

  // ---------- where the bounding constant is not enough ----------

  /** i, or the end of 0..3 that it is beyond. */
  ghost predicate CutTo(i: int, cut: int) {
    (i < 0 ==> cut == 0) && (0 <= i <= INDEX_MAX ==> cut == i) && (i > INDEX_MAX ==> cut == INDEX_MAX)
  }

  /** An object whose permutation table is the order in which the signs of the
      value table alternate, and which takes all octaves at the same point. */
  ghost predicate Sorted(n: FastNoise)
    reads n
  {
    && n.Tables() && n.valLut == ValLut() && n.lacunarity == 1.0
    && forall i :: 0 <= i < 512 ==> n.perm[i] == Sort(i % 256)
  }

  function Orders(): (s: seq<nat>)
    ensures |s| == 256 && forall i :: 0 <= i < 256 ==> s[i] == Sort(i)
  {
    seq(256, i requires 0 <= i < 256 => Sort(i))
  }

  lemma {:induction false} CountDistinct(s: seq<nat>, x: nat)
    requires Distinct(s)
    ensures multiset(s)[x] == if x in s then 1 else 0
  {
    if s == [] {
    } else {
      var t, y := s[..|s| - 1], s[|s| - 1];
      assert s == t + [y];
      CountDistinct(t, x);
      assert y !in t;
    }
  }

  /** The order has every byte once, as three steps lead back. */
  lemma OrdersPermute()
    ensures Permutation(Orders())
  {
    hide Sort;
    var s := Orders();
    forall i | 0 <= i < 256 ensures Sort(i) < 256 && Sort(Sort(i)) < 256 && Sort(Sort(Sort(i))) == i {
      SortedBytes(i);
      SortedBytes(Sort(i));
      SortThrice(i);
    }
    forall a, b | 0 <= a < b < 256 ensures s[a] != s[b] {
      assert Sort(Sort(s[a])) == a && Sort(Sort(s[b])) == b;
    }
    forall x: nat ensures multiset(s)[x] == multiset(Numbers())[x] {
      CountDistinct(s, x);
      CountDistinct(Numbers(), x);
      if x < 256 { assert s[Sort(Sort(x))] == x && Numbers()[x] == x; }
    }
  }

  /** Octave i at point x of the axis is entry x + i in that order. */
  lemma OctaveInOrder(n: FastNoise, i: nat, x: nat)
    requires Sorted(n) && i < 512 && x < 256
    ensures n.Octave(i, x as real, 0.0, 0.0) == Entry(x, i)
  {
    hide Power, Sort, Value;
    PowerOfOne(i);
    n.ValueAtPoint(n.perm[i], x, 0, 0);
    IndexInOrder(n, i, x);
  }

  lemma {:induction false} PowerOfOne(n: nat)
    ensures Power(1.0, n) == 1.0
  {
    if n == 0 {
    } else {
      PowerOfOne(n - 1);
    }
  }

  lemma IndexInOrder(n: FastNoise, i: nat, x: nat)
    requires Sorted(n) && i < 512 && x < 256
    ensures n.Index3D(n.perm[i], x, 0, 0) == Sort((x + i) % 256)
  {
    hide And, Sort, Sorted;
    SortedIs(n);
    LowBits(x);
    LowBits(0);
    var c := i % 256;
    SortedBytes(c);
    SortedBytes(Sort(c));
    SortThrice(c);
    InRound(n, i);
    InRound(n, Sort(c));
    InRound(n, Sort(Sort(c)));
    InRound(n, x + c);
    RoundSum(x, i);
  }

  lemma InRound(n: FastNoise, i: nat)
    requires Sorted(n) && i < 512
    ensures n.perm[i] == Sort(i % 256) && (i < 256 ==> n.perm[i] == Sort(i))
  {
    hide Sort;
  }

  lemma RoundSum(x: nat, i: nat)
    requires x < 256 && i < 512
    ensures (x + i % 256) % 256 == (x + i) % 256
  {
    assert i % 256 == if i < 256 then i else i - 256;
  }

  lemma LowBits(x: nat)
    requires x < 256
    ensures And(x, 0xff) == x
  {
    hide And;
    assert Pow2(4) == 16;
    assert Pow2(8) == 256;
    AndMask(x, 8);
  }

  /** Entry i of the order, counted from x. */
  function Entry(x: nat, i: nat): real {
    Value(Sort((x + i) % 256))
  }

  ghost predicate InOrder(v: seq<real>, x: nat) {
    forall i :: 0 <= i < |v| ==> v[i] == Entry(x, i)
  }

  lemma {:induction false} OctavesInOrder(n: FastNoise, m: nat, x: nat)
    requires Sorted(n) && m <= 512 && x < 256
    ensures InOrder(n.OctaveValues(m, x as real, 0.0, 0.0), x)
  {
    hide Entry, Sorted, Power;
    SortedIs(n);
    if m == 0 {
      assert n.OctaveValues(0, x as real, 0.0, 0.0) == [];
    } else {
      OctavesInOrder(n, m - 1, x);
      OctaveInOrder(n, m - 1, x);
      n.MoreValues(m - 1, x as real, 0.0, 0.0);
      OneMoreInOrder(n.OctaveValues(m - 1, x as real, 0.0, 0.0), x);
    }
  }

  lemma OneMoreInOrder(v: seq<real>, x: nat)
    requires InOrder(v, x)
    ensures InOrder(v + [Entry(x, |v|)], x)
  {}

  lemma SortedIs(n: FastNoise)
    requires Sorted(n)
    ensures n.Tables()
  {}

  /** The point from which the octaves with the largest amplitudes are 1 and -1. */
  function StartOf(gain: real, octaves: nat): (x: nat)
    ensures x < 256
  {
    if gain >= -1.0 then 60 else (62 - octaves) % 256
  }

  lemma EntrySign(x: nat, i: nat)
    ensures if (i % 2 == 0) == (x % 2 == 0) then Entry(x, i) >= 0.0 else Entry(x, i) <= 0.0
  {
    hide Sort, Value;
    var c := (x + i) % 256;
    SignsAlternate(c);
    assert c % 2 == (x + i) % 2;
  }

  lemma EntryExtreme(x: nat, i: nat)
    requires (x + i) % 256 == 60
    ensures Entry(x, i) == 1.0 && Entry(x, i + 1) == -1.0
  {
    hide Sort, Value;
    Extremes();
    assert (x + (i + 1)) % 256 == 61;
  }

  lemma OctavesAreExtreme(v: seq<real>, gain: real, x: nat)
    requires |v| >= 2 && x == StartOf(gain, |v|) && InOrder(v, x)
    ensures InTurn(v, x % 2 == 0) && Extreme(v, gain)
    ensures gain >= -1.0 ==> v[0] == 1.0 && v[1] == -1.0
  {
    hide Entry;
    EntryExtreme(x, if gain >= -1.0 then 0 else |v| - 2);
    forall i | 0 <= i < |v| ensures if (i % 2 == 0) == (x % 2 == 0) then v[i] >= 0.0 else v[i] <= 0.0 {
      EntrySign(x, i);
    }
  }

  /** A table in that order, its second round like its first. */
  lemma InOrderTwice(perm: seq<nat>, w: seq<nat>)
    requires |perm| == 512 && perm[..257] == w && w[..256] == Orders() && w[256] == w[0]
    requires forall j :: 1 <= j < 256 ==> perm[j + 256] == perm[j]
    ensures forall i :: 0 <= i < 512 ==> perm[i] == Sort(i % 256)
  {
    hide Sort;
    forall i | 0 <= i < 512 ensures perm[i] == Sort(i % 256) {
      var c := i % 256;
      assert perm[c] == w[c] == w[..256][c];
      if i == 256 { assert perm[i] == w[256]; }
      if i > 256 { assert perm[c + 256] == perm[c]; }
    }
  }

  /** The object whose table is shuffled into that order. */
  method SortedNoise(gain: real, octaves: int) returns (n: FastNoise)
    requires 2 <= octaves <= 512
    ensures Sorted(n) && n.BoundingCurrent() && n.gain == gain
    ensures n.octaves == octaves == n.OctaveCount()
  {
    hide Amplitudes, Sort, Value, Turns, Turn, Permutation, Draws, DrawsFor, Orders;
    OrdersPermute();
    AnyPermutation(0, Orders());
    var draws := DrawsFor(0, Orders());
    TurnsPermute(0, draws);
    n := new FastNoise(draws, 0);
    InOrderTwice(n.perm, Turns(0, draws, 256));
    n.SetFractalOctaves(octaves);
    n.SetFractalLacunarity(1.0);
    n.SetFractalGain(gain);
  }

  /** For every other gain and number of octaves there is a noise object whose
      fractal sum leaves [-1, 1], or is divided by zero. */
  method NegativeGainExceeds(gain: real, octaves: int) returns (r: Option<real>)
    requires gain < 0.0 && 2 <= octaves <= 512
    ensures !InRange(r)
    ensures gain == -0.5 && octaves == 2 ==> r == Some(3.0)
  {
    hide *;
    var n := SortedNoise(gain, octaves);
    var x := StartOf(gain, octaves);
    SortedIs(n);
    r := n.SingleValueFractalFBM(x as real, 0.0, 0.0);
    OctavesInOrder(n, octaves, x);
    ghost var v := n.OctaveValues(octaves, x as real, 0.0, 0.0);
    OctavesAreExtreme(v, gain, x);
    InTurnExceeds(v, gain, x % 2 == 0);
    if gain == -0.5 && octaves == 2 { ThreeAtHalf(v); }
  }

  lemma ThreeAtHalf(v: seq<real>)
    requires |v| == 2 && v[0] == 1.0 && v[1] == -1.0
    ensures Normalized(Weighted(v, -0.5), Amplitudes(-0.5, 2)) == Some(3.0)
  {
    TwoOctaves(-0.5);
    assert v[..1] == [1.0] && v[..1][..0] == [];
    assert Weighted(v[..1], -0.5) == 1.0 && Power(-0.5, 1) == -0.5;
  }

  /** Each frequency is that of the octave before, times the lacunarity. */
  ghost predicate Frequencies(frequency: seq<real>, lacunarity: real) {
    && (frequency != [] ==> frequency[0] == 1.0)
    && forall j :: 0 < j < |frequency| ==> frequency[j] == frequency[j - 1] * lacunarity
  }

  lemma {:induction false} FrequencyIsPower(frequency: seq<real>, lacunarity: real, i: nat)
    requires Frequencies(frequency, lacunarity) && i < |frequency|
    ensures frequency[i] == Power(lacunarity, i)
  {
    if i == 0 {
    } else {
      FrequencyIsPower(frequency, lacunarity, i - 1);
    }
  }

  lemma PointOfOctave(x': real, y': real, z': real, x: real, y: real, z: real, q: real, lacunarity: real, i: nat)
    requires q == Power(lacunarity, i) && x' == x * q && y' == y * q && z' == z * q
    ensures AtOctave(x', y', z', x, y, z, lacunarity, i)
  {}

  lemma ByteIndex(x: int)
    ensures And(x, 0xff) < 256
  {
    assert Pow2(8) == 256;
    AndMask(x, 8);
  }

  lemma FirstPower(b: real)
    ensures Power(b, 0) == 1.0 && Power(b, 1) == b
  {}

  method Accumulate(sum: real, value: real, amp: real, gain: real, ghost v: seq<real>) returns (more: real)
    requires sum == Weighted(v, gain) && amp == Power(gain, |v|)
    ensures more == Weighted(v + [value], gain)
  {
    ghost var w := v + [value];
    assert w[..|w| - 1] == v;
    more := sum + value * amp;
  }

  ghost predicate AtOctave(x: real, y: real, z: real, x0: real, y0: real, z0: real, lacunarity: real, i: nat) {
    var p := Power(lacunarity, i);
    x == x0 * p && y == y0 * p && z == z0 * p
  }

  lemma NextOctave(x: real, y: real, z: real, x': real, y': real, z': real, x0: real, y0: real, z0: real,
                   lacunarity: real, i: nat)
    requires i >= 1 && AtOctave(x, y, z, x0, y0, z0, lacunarity, i - 1)
    requires x' == x * lacunarity && y' == y * lacunarity && z' == z * lacunarity
    ensures AtOctave(x', y', z', x0, y0, z0, lacunarity, i)
  {}
}
