/** The two ways of filling a grid with vectors of 2^k lanes: row by row, and
    with an odometer that steps all lanes over the end of a row. */
module GridFill {
  import opened Arithmetic
  import opened Bits
  import opened Grid

  type Lanes = seq<int>

  function Set1(v: nat, a: int): (s: Lanes)
    ensures |s| == v && forall l :: 0 <= l < v ==> s[l] == a
  {
    seq(v, _ => a)
  }

  /** 0, 1, 2, ... */
  function Incremental(v: nat): (s: Lanes)
    ensures |s| == v && forall l :: 0 <= l < v ==> s[l] == l
  {
    seq(v, l => l)
  }

  function Add(a: Lanes, b: Lanes): (s: Lanes)
    requires |a| == |b|
    ensures |s| == |a| && forall l :: 0 <= l < |a| ==> s[l] == a[l] + b[l]
  {
    seq(|a|, l requires 0 <= l < |a| => a[l] + b[l])
  }

  function GreaterThan(a: Lanes, b: Lanes): (m: seq<bool>)
    requires |a| == |b|
    ensures |m| == |a| && forall l :: 0 <= l < |a| ==> m[l] == (a[l] > b[l])
  {
    seq(|a|, l requires 0 <= l < |a| => a[l] > b[l])
  }

  function MaskAdd(m: seq<bool>, a: Lanes, b: Lanes): (s: Lanes)
    requires |m| == |a| == |b|
    ensures |s| == |a| && forall l :: 0 <= l < |a| ==> s[l] == if m[l] then a[l] + b[l] else a[l]
  {
    seq(|a|, l requires 0 <= l < |a| => if m[l] then a[l] + b[l] else a[l])
  }

  function MaskSub(m: seq<bool>, a: Lanes, b: Lanes): (s: Lanes)
    requires |m| == |a| == |b|
    ensures |s| == |a| && forall l :: 0 <= l < |a| ==> s[l] == if m[l] then a[l] - b[l] else a[l]
  {
    seq(|a|, l requires 0 <= l < |a| => if m[l] then a[l] - b[l] else a[l])
  }

  /** The size rounded up to whole vectors. */
  function AlignedSize(size: nat, k: nat): (a: int)
  {
    if And(size, Pow2(k) - 1) != 0 then AndNot(size, Pow2(k) - 1) + Pow2(k) else size
  }

  lemma AlignedSizeIsLeastMultiple(size: nat, k: nat, index: int)
    ensures AlignedSize(size, k) >= size && AlignedSize(size, k) % Pow2(k) == 0
    ensures index % Pow2(k) == 0 && index < size ==> index + Pow2(k) <= AlignedSize(size, k)
  {
    var v := Pow2(k);
    AndMask(size, k);
    Divided(size, v);
    if size % v != 0 {
      OneMore(size, v);
    }
    if index % v == 0 && index < size {
      NextMultiple(index, AlignedSize(size, k), v);
    }
  }

  /** Writes n lanes from index on. */
  method Store<T>(a: array<T>, index: nat, lanes: seq<T>, n: nat)
    requires n <= |lanes| && index + n <= a.Length
    modifies a
    ensures forall k :: 0 <= k < a.Length ==> a[k] == if index <= k < index + n then lanes[k - index] else old(a[k])
  {
    for l := 0 to n
      invariant forall k :: 0 <= k < a.Length ==> a[k] == if index <= k < index + l then lanes[k - index] else old(a[k])
    {
      a[index + l] := lanes[l];
    }
  }

  function Results<T>(f: Cell -> T, x: Lanes, y: Lanes, z: Lanes): (r: seq<T>)
    requires |x| == |y| == |z|
    ensures |r| == |x| && forall l :: 0 <= l < |x| ==> r[l] == f(Cell(x[l], y[l], z[l]))
  {
    seq(|x|, l requires 0 <= l < |x| => f(Cell(x[l], y[l], z[l])))
  }

  /** Lane l stands at position index + l, with y and z in range. */
  ghost predicate Aligned(g: Grid, index: int, x: Lanes, y: Lanes, z: Lanes) {
    |x| == |y| == |z| && forall l :: 0 <= l < |x| ==> LaneOk(g, index + l, Cell(x[l], y[l], z[l]))
  }

  ghost predicate LaneOk(g: Grid, n: int, c: Cell) {
    c.x >= g.xStart && InRow(g, c) && Flat(g, c) == n
  }

  /** Lane l stands at position index + l, with z at most `slack` beyond its row. */
  ghost predicate Overrun(g: Grid, index: int, slack: int, x: Lanes, y: Lanes, z: Lanes) {
    |x| == |y| == |z| && forall l :: 0 <= l < |x| ==> LaneOver(g, index + l, slack, Cell(x[l], y[l], z[l]))
  }

  ghost predicate LaneOver(g: Grid, n: int, slack: int, c: Cell) {
    && c.x >= g.xStart && g.yStart <= c.y < g.yStart + g.ySize
    && g.zStart <= c.z && (c.z < g.zStart + g.zSize || c.z < g.zStart + g.zSize + slack) && Flat(g, c) == n
  }

  /** One lane of one pass: a full row carries into y, a full plane into x. */
  function ResetLane(g: Grid, c: Cell): Cell {
    var d := if c.z > g.zStart + g.zSize - 1 then Cell(c.x, c.y + 1, c.z - g.zSize) else c;
    if d.y > g.yStart + g.ySize - 1 then Cell(d.x + 1, d.y - g.ySize, d.z) else d
  }

  lemma ResetKeepsPosition(g: Grid, n: int, slack: int, c: Cell)
    requires Proper(g) && LaneOver(g, n, slack, c)
    ensures LaneOver(g, n, slack - g.zSize, ResetLane(g, c))
  {}

  /** Carries every lane that ran over the end of its row, as often as a
      vector can span rows. */
  method AxisReset(g: Grid, v: nat, start: nat, ghost index: int, x0: Lanes, y0: Lanes, z0: Lanes)
    returns (x: Lanes, y: Lanes, z: Lanes)
    requires Proper(g) && |x0| == v
    requires Overrun(g, index, v - g.zSize * start, x0, y0, z0)
    ensures |x| == |y| == |z| == v && Aligned(g, index, x, y, z)
  {
    hide Flat;
    x, y, z := x0, y0, z0;
    var zEnd, yEnd := Set1(v, g.zStart + g.zSize - 1), Set1(v, g.yStart + g.ySize - 1);
    var i := g.zSize * start;
    while i < v
      invariant |x| == v && Overrun(g, index, v - i, x, y, z)
    {
      ghost var x1, y1, z1 := x, y, z;
      var zReset := GreaterThan(z, zEnd);
      y := MaskAdd(zReset, y, Set1(v, 1));
      z := MaskSub(zReset, z, Set1(v, g.zSize));
      var yReset := GreaterThan(y, yEnd);
      x := MaskAdd(yReset, x, Set1(v, 1));
      y := MaskSub(yReset, y, Set1(v, g.ySize));
      forall l | 0 <= l < v ensures LaneOver(g, index + l, v - i - g.zSize, Cell(x[l], y[l], z[l])) {
        ResetKeepsPosition(g, index + l, v - i, Cell(x1[l], y1[l], z1[l]));
      }
      i := i + g.zSize;
    }
  }

  /** Cell n holds f of its coordinates. */
  ghost predicate Filled<T>(a: seq<T>, g: Grid, f: Cell -> T, n: nat)
    requires Proper(g)
  {
    n <= |a| && forall k :: 0 <= k < n ==> a[k] == f(CellAt(g, k))
  }

  /** Aligned lanes hold the cells that division and remainder give for their positions. */
  lemma LanesDecoded(g: Grid, index: nat, x: Lanes, y: Lanes, z: Lanes, l: nat)
    requires Proper(g) && Aligned(g, index, x, y, z) && l < |x|
    ensures Cell(x[l], y[l], z[l]) == CellAt(g, index + l)
  {
    assert LaneOk(g, index + l, Cell(x[l], y[l], z[l]));
    CellAtFlat(g, Cell(x[l], y[l], z[l]));
  }

  lemma FillMore<T>(a: seq<T>, b: seq<T>, g: Grid, f: Cell -> T, index: nat, n: nat, stored: nat, x: Lanes, y: Lanes,
                    z: Lanes)
    requires Proper(g) && Filled(a, g, f, index) && Aligned(g, index, x, y, z) && n <= stored <= |x|
    requires index + stored <= |b| == |a|
    requires forall k :: 0 <= k < |a| ==>
      b[k] == if index <= k < index + stored then Results(f, x, y, z)[k - index] else a[k]
    ensures Filled(b, g, f, index + n)
  {
    forall k | 0 <= k < index + n ensures b[k] == f(CellAt(g, k)) {
      if index <= k { LanesDecoded(g, index, x, y, z, k - index); }
    }
  }

  /** Stepping z by a vector moves every lane that many positions on. */
  lemma StepLanes(g: Grid, index: int, v: nat, x: Lanes, y: Lanes, z: Lanes, z': Lanes)
    requires Aligned(g, index, x, y, z) && |x| == |z'| == v && forall l :: 0 <= l < v ==> z'[l] == z[l] + v
    ensures Overrun(g, index + v, v, x, y, z')
  {}

  lemma FirstLanes(g: Grid, v: nat, x: Lanes, y: Lanes, z: Lanes)
    requires Proper(g) && x == Set1(v, g.xStart) && y == Set1(v, g.yStart)
    requires z == Add(Set1(v, g.zStart), Incremental(v))
    ensures Overrun(g, 0, v - g.zSize, x, y, z)
  {}

  /** Stores the lanes of one step. */
  method StoreStep<T>(noiseSet: array<T>, ghost g: Grid, ghost f: Cell -> T, index: nat, ghost n: nat, stored: nat,
                      lanes: seq<T>, ghost x: Lanes, ghost y: Lanes, ghost z: Lanes)
    requires Proper(g) && |x| == |y| == |z| && lanes == Results(f, x, y, z) && Filled(noiseSet[..], g, f, index)
    requires Aligned(g, index, x, y, z)
    requires n <= stored <= |x| == |y| == |z| && index + stored <= noiseSet.Length
    modifies noiseSet
    ensures Filled(noiseSet[..], g, f, index + n)
    ensures forall k :: index + stored <= k < noiseSet.Length ==> noiseSet[k] == old(noiseSet[k])
  {
    hide Filled, Aligned;
    ghost var before := noiseSet[..];
    Store(noiseSet, index, lanes, stored);
    FillMore(before, noiseSet[..], g, f, index, n, stored, x, y, z);
  }

  /** The elements of a set: with aligned sets, whole vectors. */
  function Padded(size: nat, k: nat, aligned: bool): int {
    if aligned then AlignedSize(size, k) else size
  }

  /** The number of elements a fill may write. */
  function Extent(g: Grid, k: nat, aligned: bool): int {
    Padded(Count(g), k, aligned)
  }

  /** The odometer path. */
  method OdometerFill<T>(noiseSet: array<T>, g: Grid, k: nat, aligned: bool, f: Cell -> T)
    requires Proper(g) && noiseSet.Length >= Extent(g, k, aligned)
    modifies noiseSet
    ensures Filled(noiseSet[..], g, f, Count(g))
    ensures forall n :: 0 <= n < noiseSet.Length && n >= Extent(g, k, aligned) ==> noiseSet[n] == old(noiseSet[n])
  {
    hide Flat, CellAt, Count, AlignedSize, Filled, Overrun, Aligned;
    var v := Pow2(k);
    var x, y, z := Set1(v, g.xStart), Set1(v, g.yStart), Add(Set1(v, g.zStart), Incremental(v));
    FirstLanes(g, v, x, y, z);
    x, y, z := AxisReset(g, v, 1, 0, x, y, z);

    var index := 0;
    var maxIndex := g.xSize * g.ySize * g.zSize;
    CountIs(g);
    ZeroFilled(noiseSet[..], g, f);
    AlignedSizeIsLeastMultiple(maxIndex, k, index);
    while index < maxIndex - v
      invariant |x| == |y| == |z| == v && Aligned(g, index, x, y, z)
      invariant index % v == 0 && 0 <= index < maxIndex
      invariant Filled(noiseSet[..], g, f, index)
      invariant forall n :: maxIndex <= n < noiseSet.Length ==> noiseSet[n] == old(noiseSet[n])
    {
      StoreStep(noiseSet, g, f, index, v, v, Results(f, x, y, z), x, y, z);
      StepLanes(g, index, v, x, y, z, Add(z, Set1(v, v)));
      z := Add(z, Set1(v, v));
      x, y, z := AxisReset(g, v, 0, index + v, x, y, z);
      NextIndex(index, v);
      index := index + v;
    }
    AlignedSizeIsLeastMultiple(maxIndex, k, index);
    StoreStep(noiseSet, g, f, index, maxIndex - index, if aligned then v else maxIndex - index, Results(f, x, y, z),
              x, y, z);
  }

  lemma NextIndex(index: int, v: nat)
    requires v > 0 && index % v == 0
    ensures (index + v) % v == 0
  {
    OneMore(index, v);
  }

  lemma CountIs(g: Grid)
    ensures Count(g) == g.xSize * g.ySize * g.zSize
    ensures Proper(g) ==> Count(g) > 0
  {}

  lemma ZeroFilled<T>(a: seq<T>, g: Grid, f: Cell -> T)
    requires Proper(g)
    ensures Filled(a, g, f, 0)
  {}

  /** The position where row (ix, iy) begins. */
  function RowStart(g: Grid, ix: nat, iy: nat): nat {
    (ix * g.ySize + iy) * g.zSize
  }

  lemma RowSteps(g: Grid, ix: nat, iy: nat)
    ensures RowStart(g, 0, 0) == 0 && RowStart(g, g.xSize, 0) == Count(g)
    ensures RowStart(g, ix, iy) + g.zSize == RowStart(g, ix, iy + 1)
    ensures RowStart(g, ix, g.ySize) == RowStart(g, ix + 1, 0)
  {}

  /** A vector inside a row stands at its positions. */
  lemma RowLanes(g: Grid, v: nat, ix: nat, iy: nat, o: nat, x: Lanes, y: Lanes, z: Lanes)
    requires Proper(g) && ix < g.xSize && iy < g.ySize && o + v <= g.zSize && |x| == |y| == |z| == v
    requires forall l :: 0 <= l < v ==> x[l] == g.xStart + ix && y[l] == g.yStart + iy && z[l] == g.zStart + o + l
    ensures Aligned(g, RowStart(g, ix, iy) + o, x, y, z)
    ensures RowStart(g, ix, iy) + o + v <= Count(g)
  {
    if v > 0 { FlatInside(g, Cell(g.xStart + ix, g.yStart + iy, g.zStart + o + v - 1)); }
    else { FlatInside(g, Cell(g.xStart + ix, g.yStart + iy, g.zStart)); Monotone(o, g.zSize, 1); RowBound(g, ix, iy); }
  }

  lemma RowBound(g: Grid, ix: nat, iy: nat)
    requires Proper(g) && ix < g.xSize && iy < g.ySize
    ensures RowStart(g, ix, iy) + g.zSize <= Count(g)
  {
    FlatInside(g, Cell(g.xStart + ix, g.yStart + iy, g.zStart + g.zSize - 1));
  }

  /** One row of whole vectors. Returns the position of the last vector. */
  method FillRow<T>(noiseSet: array<T>, g: Grid, k: nat, f: Cell -> T, start: nat, x: Lanes, y: Lanes, zBase: Lanes,
                    ghost ix: nat, ghost iy: nat)
    returns (index: nat)
    requires Proper(g) && g.zSize % Pow2(k) == 0 && noiseSet.Length >= Count(g) && ix < g.xSize && iy < g.ySize
    requires x == Set1(Pow2(k), g.xStart + ix) && y == Set1(Pow2(k), g.yStart + iy)
    requires zBase == Add(Incremental(Pow2(k)), Set1(Pow2(k), g.zStart))
    requires start == RowStart(g, ix, iy) && Filled(noiseSet[..], g, f, start)
    modifies noiseSet
    ensures index + Pow2(k) == start + g.zSize && Filled(noiseSet[..], g, f, index + Pow2(k))
    ensures forall n :: Count(g) <= n < noiseSet.Length ==> noiseSet[n] == old(noiseSet[n])
  {
    hide Flat, CellAt, Count, Filled, Aligned, RowStart, Results;
    var v := Pow2(k);
    index := start;
    var z := zBase;
    NextMultiple(0, g.zSize, v);
    RowLanes(g, v, ix, iy, 0, x, y, z);
    StoreStep(noiseSet, g, f, index, v, v, Results(f, x, y, z), x, y, z);
    var iz := v;
    Quotient(1, v, 0, v);
    while iz < g.zSize
      invariant iz % v == 0 && v <= iz <= g.zSize
      invariant |z| == v && forall l :: 0 <= l < v ==> z[l] == g.zStart + iz - v + l
      invariant index == start + iz - v && Filled(noiseSet[..], g, f, index + v)
      invariant forall n :: Count(g) <= n < noiseSet.Length ==> noiseSet[n] == old(noiseSet[n])
    {
      NextMultiple(iz, g.zSize, v);
      NextIndex(iz, v);
      z := Add(z, Set1(v, v));
      index := index + v;
      iz := iz + v;
      RowLanes(g, v, ix, iy, iz - v, x, y, z);
      StoreStep(noiseSet, g, f, index, v, v, Results(f, x, y, z), x, y, z);
    }
  }

  /** The path for rows of whole vectors. */
  method RowFill<T>(noiseSet: array<T>, g: Grid, k: nat, f: Cell -> T)
    requires Proper(g) && g.zSize % Pow2(k) == 0 && noiseSet.Length >= Count(g)
    modifies noiseSet
    ensures Filled(noiseSet[..], g, f, Count(g))
    ensures forall n :: Count(g) <= n < noiseSet.Length ==> noiseSet[n] == old(noiseSet[n])
  {
    hide Flat, CellAt, Count, Filled, Aligned, RowStart, Results;
    var v := Pow2(k);
    var yBase, zBase := Set1(v, g.yStart), Add(Incremental(v), Set1(v, g.zStart));
    var x := Set1(v, g.xStart);
    var index := 0;
    RowSteps(g, 0, 0);
    ZeroFilled(noiseSet[..], g, f);
    for ix := 0 to g.xSize
      invariant x == Set1(v, g.xStart + ix)
      invariant index == RowStart(g, ix, 0) && Filled(noiseSet[..], g, f, index)
      invariant forall n :: Count(g) <= n < noiseSet.Length ==> noiseSet[n] == old(noiseSet[n])
    {
      var y := yBase;
      for iy := 0 to g.ySize
        invariant y == Set1(v, g.yStart + iy)
        invariant index == RowStart(g, ix, iy) && Filled(noiseSet[..], g, f, index)
        invariant forall n :: Count(g) <= n < noiseSet.Length ==> noiseSet[n] == old(noiseSet[n])
      {
        index := FillRow(noiseSet, g, k, f, index, x, y, zBase, ix, iy);
        index := index + v;
        y := Add(y, Set1(v, 1));
        RowSteps(g, ix, iy);
      }
      RowSteps(g, ix, 0);
      x := Add(x, Set1(v, 1));
    }
  }

  /** SET_BUILDER: f of every cell, by whichever path suits the row length. */
  method SetBuilder<T>(noiseSet: array<T>, g: Grid, k: nat, aligned: bool, f: Cell -> T)
    requires Proper(g) && noiseSet.Length >= Extent(g, k, aligned)
    modifies noiseSet
    ensures Filled(noiseSet[..], g, f, Count(g))
    ensures forall n :: 0 <= n < noiseSet.Length && n >= Extent(g, k, aligned) ==> noiseSet[n] == old(noiseSet[n])
  {
    hide Count, AlignedSize, Filled;
    AndMask(g.zSize, k);
    AlignedSizeIsLeastMultiple(Count(g), k, 0);
    if And(g.zSize, Pow2(k) - 1) == 0 {
      RowFill(noiseSet, g, k, f);
    } else {
      OdometerFill(noiseSet, g, k, aligned, f);
    }
  }
}
