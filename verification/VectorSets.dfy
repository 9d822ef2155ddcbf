/** Sets of coordinates, kept in three arrays of whole vectors. */
module VectorSets {
  import opened Arithmetic
  import opened Bits
  import opened Grid
  import opened GridFill

  /** Position n holds the coordinates of cell n of g, `step` apart. */
  ghost predicate Coordinates(x: seq<int>, y: seq<int>, z: seq<int>, g: Grid, step: int)
    requires Proper(g)
  {
    |x| == |y| == |z| >= Count(g) && forall n :: 0 <= n < Count(g) ==>
      Cell(x[n], y[n], z[n]) == Stretched(CellAt(g, n), step)
  }

  function Stretched(c: Cell, step: int): Cell {
    Cell(c.x * step, c.y * step, c.z * step)
  }

  /** How many samples an axis needs. */
  function SampleCount(size: nat, scale: nat): int {
    ShiftRight(AlignedSize(size, scale), scale) + 1
  }

  lemma SamplesCover(size: nat, scale: nat, x: nat)
    ensures SampleCount(size, scale) >= 1
    ensures x < size ==> 0 <= x / Pow2(scale) < SampleCount(size, scale) - 1
  {
    var p := Pow2(scale);
    AlignedSizeIsLeastMultiple(size, scale, 0);
    var a := AlignedSize(size, scale);
    Divided(a, p);
    Divided(x, p);
    if x < size && x / p >= a / p { Monotone(a / p, x / p, p); }
  }

  /** One sample fewer would not cover the last cell. */
  lemma SamplesNeeded(size: nat, scale: nat)
    requires size > 0
    ensures (size - 1) / Pow2(scale) == SampleCount(size, scale) - 2
  {
    hide AlignedSize, Pow2;
    var p, a := Pow2(scale), AlignedSize(size, scale);
    AlignedSizeIsLeastMultiple(size, scale, 0);
    AlignedBelow(size, scale);
    Divided(a, p);
    var q := a / p;
    Sum(q, p);
    Quotient(q - 1, p, size - 1 - (q - 1) * p, size - 1);
  }

  lemma Sum(q: int, p: int)
    ensures (q - 1) * p == q * p - p
  {}

  lemma AlignedBelow(size: nat, k: nat)
    ensures AlignedSize(size, k) < size + Pow2(k)
  {
    hide And, Pow2;
    AndMask(size, k);
    Divided(size, Pow2(k));
  }

  /** The samples of a grid of these sizes. */
  function SampleGrid(xSize: nat, ySize: nat, zSize: nat, scale: nat): (g: Grid)
    ensures Proper(g) && g.xStart == g.yStart == g.zStart == 0
  {
    SamplesCover(xSize, scale, 0);
    SamplesCover(ySize, scale, 0);
    SamplesCover(zSize, scale, 0);
    Grid(0, 0, 0, SampleCount(xSize, scale), SampleCount(ySize, scale), SampleCount(zSize, scale))
  }

  /** The triple loop over a grid that starts at 0. */
  method FillCoordinates(xSet: array<int>, ySet: array<int>, zSet: array<int>, g: Grid, step: int)
    requires Proper(g) && g.xStart == g.yStart == g.zStart == 0
    requires xSet.Length == ySet.Length == zSet.Length >= Count(g)
    requires xSet != ySet && ySet != zSet && xSet != zSet
    modifies xSet, ySet, zSet
    ensures Coordinates(xSet[..], ySet[..], zSet[..], g, step)
  {
    hide Flat, CellAt, Count, RowStart, Stretched;
    var index := 0;
    RowSteps(g, 0, 0);
    for ix := 0 to g.xSize
      invariant index == RowStart(g, ix, 0) <= Count(g)
      invariant forall n :: 0 <= n < index ==> Cell(xSet[n], ySet[n], zSet[n]) == Stretched(CellAt(g, n), step)
    {
      for iy := 0 to g.ySize
        invariant index == RowStart(g, ix, iy) <= Count(g)
        invariant forall n :: 0 <= n < index ==> Cell(xSet[n], ySet[n], zSet[n]) == Stretched(CellAt(g, n), step)
      {
        RowBound(g, ix, iy);
        for iz := 0 to g.zSize
          invariant index == RowStart(g, ix, iy) + iz
          invariant forall n :: 0 <= n < index ==> Cell(xSet[n], ySet[n], zSet[n]) == Stretched(CellAt(g, n), step)
        {
          CellInRow(g, ix, iy, iz, step);
          xSet[index] := ix * step;
          ySet[index] := iy * step;
          zSet[index] := iz * step;
          index := index + 1;
        }
        RowSteps(g, ix, iy);
      }
      RowSteps(g, ix, 0);
    }
  }

  lemma CellInRow(g: Grid, ix: nat, iy: nat, iz: nat, step: int)
    requires Proper(g) && ix < g.xSize && iy < g.ySize && iz < g.zSize && g.xStart == g.yStart == g.zStart == 0
    ensures Stretched(CellAt(g, RowStart(g, ix, iy) + iz), step) == Cell(ix * step, iy * step, iz * step)
  {
    hide CellAt, Count, Flat, RowStart;
    FlatInside(g, Cell(ix, iy, iz));
    RowIsFlat(g, ix, iy, iz);
  }

  lemma RowIsFlat(g: Grid, ix: nat, iy: nat, iz: nat)
    requires g.xStart == g.yStart == g.zStart == 0
    ensures RowStart(g, ix, iy) + iz == Flat(g, Cell(ix, iy, iz))
  {}

  class VectorSet {
    var size: nat
    var xSet: array<int>
    var ySet: array<int>
    var zSet: array<int>
    var sampleScale: int
    var sampleSizeX: nat
    var sampleSizeY: nat
    var sampleSizeZ: nat

    /** Three separate stretches of whole vectors. */
    ghost predicate Valid(k: nat, aligned: bool)
      reads this
    {
      && xSet != ySet && ySet != zSet && xSet != zSet
      && xSet.Length == ySet.Length == zSet.Length == Padded(size, k, aligned)
    }

    constructor (k: nat, aligned: bool)
      ensures Valid(k, aligned) && size == 0 && fresh(xSet) && fresh(ySet) && fresh(zSet)
    {
      size, sampleScale, sampleSizeX, sampleSizeY, sampleSizeZ := 0, 0, 0, 0, 0;
      xSet, ySet, zSet := new int[0], new int[0], new int[0];
      new;
      AndMask(0, k);
    }

    method SetSize(newSize: nat, k: nat, aligned: bool)
      modifies `size, `xSet, `ySet, `zSet
      ensures Valid(k, aligned) && size == newSize && fresh(xSet) && fresh(ySet) && fresh(zSet)
    {
      size := newSize;
      AlignedSizeIsLeastMultiple(size, k, 0);
      var alignedSize := Padded(size, k, aligned);
      xSet := new int[alignedSize];
      ySet := new int[alignedSize];
      zSet := new int[alignedSize];
    }

    /** The coordinates of a whole grid. */
    method FillVectorSet(xSize: nat, ySize: nat, zSize: nat, k: nat, aligned: bool)
      requires xSize > 0 && ySize > 0 && zSize > 0
      modifies this
      ensures Valid(k, aligned) && sampleScale == 0 && fresh(xSet) && fresh(ySet) && fresh(zSet)
      ensures size == Count(Grid(0, 0, 0, xSize, ySize, zSize))
      ensures Coordinates(xSet[..], ySet[..], zSet[..], Grid(0, 0, 0, xSize, ySize, zSize), 1)
    {
      hide Coordinates, AlignedSize;
      var g := Grid(0, 0, 0, xSize, ySize, zSize);
      NotNegative(xSize, ySize);
      NotNegative(xSize * ySize, zSize);
      SetSize(xSize * ySize * zSize, k, aligned);
      sampleScale := 0;
      AlignedSizeIsLeastMultiple(size, k, 0);
      FillCoordinates(xSet, ySet, zSet, g, 1);
    }

    /** The coordinates of the samples of a grid, 2^sampleScale apart. */
    method FillSamplingVectorSet(scale: int, xSize: nat, ySize: nat, zSize: nat, k: nat, aligned: bool)
      requires xSize > 0 && ySize > 0 && zSize > 0
      modifies this
      ensures Valid(k, aligned) && sampleScale == (if scale <= 0 then 0 else scale)
      ensures fresh(xSet) && fresh(ySet) && fresh(zSet)
      ensures scale <= 0 ==> size == Count(Grid(0, 0, 0, xSize, ySize, zSize))
      ensures scale <= 0 ==> Coordinates(xSet[..], ySet[..], zSet[..], Grid(0, 0, 0, xSize, ySize, zSize), 1)
      ensures scale > 0 ==> sampleSizeX == xSize && sampleSizeY == ySize && sampleSizeZ == zSize && Samples(k, aligned)
    {
      hide Coordinates, AlignedSize, SampleCount, Count;
      if scale <= 0 {
        FillVectorSet(xSize, ySize, zSize, k, aligned);
        return;
      }
      sampleSizeX, sampleSizeY, sampleSizeZ := xSize, ySize, zSize;
      var g := SampleGrid(xSize, ySize, zSize, scale);
      CountIs(g);
      SetSize(Count(g), k, aligned);
      sampleScale := scale;
      AlignedSizeIsLeastMultiple(size, k, 0);
      FillCoordinates(xSet, ySet, zSet, g, Pow2(scale));
    }

    /** A set made for sampling: it holds the coordinates of every sample. */
    ghost predicate Samples(k: nat, aligned: bool)
      reads this, xSet, ySet, zSet
    {
      && sampleScale > 0 && Valid(k, aligned)
      && (var g := SampleGrid(sampleSizeX, sampleSizeY, sampleSizeZ, sampleScale);
          size == Count(g) && Coordinates(xSet[..], ySet[..], zSet[..], g, Pow2(sampleScale)))
    }
  }

  /** The vector loads of one step. */
  function Load(a: seq<int>, index: nat, v: nat): (s: Lanes)
    requires index + v <= |a|
    ensures |s| == v && forall l :: 0 <= l < v ==> s[l] == a[index + l]
  {
    a[index..index + v]
  }

  /** What is found in memory behind the coordinates of a set. */
  datatype Behind = Behind(x: Lanes, y: Lanes, z: Lanes)

  ghost predicate Whole(behind: Behind, v: nat) {
    |behind.x| == |behind.y| == |behind.z| == v
  }

  /** Where the loop over whole vectors ends. */
  function LoopEnd(size: nat, k: nat, aligned: bool): int {
    if aligned then size else AndNot(size, Pow2(k) - 1)
  }

  lemma LoopEndIs(size: nat, k: nat, aligned: bool)
    ensures var e := LoopEnd(size, k, aligned);
      if aligned then e == size <= AlignedSize(size, k)
      else 0 <= e <= size && e % Pow2(k) == 0 && size - e == size % Pow2(k) < Pow2(k)
  {
    hide And, AlignedSize, Pow2;
    AlignedSizeIsLeastMultiple(size, k, 0);
    AndMask(size, k);
    RoundedDown(size, Pow2(k));
  }

  lemma RoundedDown(size: nat, v: nat)
    requires v > 0
    ensures var e := size - size % v; 0 <= e <= size && e % v == 0 && size % v < v
  {
    var q := size / v;
    Divided(size, v);
    Quotient(q, v, 0, q * v);
  }

  /** A vector begun before the end of the loop is inside the set. */
  lemma VectorInside(size: nat, k: nat, aligned: bool, index: int)
    requires index % Pow2(k) == 0 && index < LoopEnd(size, k, aligned)
    ensures index + Pow2(k) <= if aligned then AlignedSize(size, k) else LoopEnd(size, k, aligned)
    ensures index + Pow2(k) <= Padded(size, k, aligned)
  {
    LoopEndIs(size, k, aligned);
    AlignedSizeIsLeastMultiple(size, k, index);
    if !aligned { NextMultiple(index, LoopEnd(size, k, aligned), Pow2(k)); }
  }

  /** FillNoiseSet on a vector set: f at every coordinate of the set. Without
      aligned sets the last load also reads what lies behind them. */
  method FillNoiseSet(noiseSet: array<real>, s: VectorSet, k: nat, aligned: bool, behind: Behind, f: Cell -> real)
    requires s.Valid(k, aligned) && noiseSet.Length >= Padded(s.size, k, aligned) && Whole(behind, Pow2(k))
    modifies noiseSet
    ensures forall n :: 0 <= n < s.size <= s.xSet.Length ==> noiseSet[n] == f(Cell(s.xSet[n], s.ySet[n], s.zSet[n]))
    ensures forall n :: 0 <= n < noiseSet.Length && n >= Padded(s.size, k, aligned) ==>
      noiseSet[n] == old(noiseSet[n])
  {
    var v := Pow2(k);
    var index := 0;
    var loopMax := LoopEnd(s.size, k, aligned);
    LoopEndIs(s.size, k, aligned);
    while index < loopMax
      invariant index % v == 0 && index <= if aligned then AlignedSize(s.size, k) else loopMax
      invariant forall n :: 0 <= n < index ==> noiseSet[n] == f(Cell(s.xSet[n], s.ySet[n], s.zSet[n]))
      invariant forall n :: 0 <= n < noiseSet.Length && n >= Padded(s.size, k, aligned) ==>
        noiseSet[n] == old(noiseSet[n])
    {
      hide AlignedSize, Load, LoopEnd;
      VectorInside(s.size, k, aligned, index);
      var x, y, z := Load(s.xSet[..], index, v), Load(s.ySet[..], index, v), Load(s.zSet[..], index, v);
      Store(noiseSet, index, Results(f, x, y, z), v);
      NextIndex(index, v);
      index := index + v;
    }
    if loopMax != s.size {
      hide AlignedSize, Load, LoopEnd;
      var x := Load(s.xSet[..] + behind.x, index, v);
      var y := Load(s.ySet[..] + behind.y, index, v);
      var z := Load(s.zSet[..] + behind.z, index, v);
      Store(noiseSet, index, Results(f, x, y, z), s.size - loopMax);
    }
  }
}
