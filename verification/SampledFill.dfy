/** The block up-sampler: noise on a coarse grid, interpolated in between. */
module SampledFill {
  import opened Arithmetic
  import opened Bits
  import opened Grid
  import opened GridFill
  import opened VectorSets
  import I = Interpolation

  /** The samples at the corners of a block. */
  datatype Corners = Corners(c000: real, c001: real, c010: real, c011: real, c100: real, c101: real, c110: real,
                             c111: real)

  function CornersOf(corner: Cell -> real, b: Cell): Corners {
    Corners(corner(b), corner(Cell(b.x, b.y, b.z + 1)), corner(Cell(b.x, b.y + 1, b.z)),
            corner(Cell(b.x, b.y + 1, b.z + 1)),
            corner(Cell(b.x + 1, b.y, b.z)), corner(Cell(b.x + 1, b.y, b.z + 1)), corner(Cell(b.x + 1, b.y + 1, b.z)),
            corner(Cell(b.x + 1, b.y + 1, b.z + 1)))
  }

  function Trilinear(c: Corners, l: Cell, size: nat): real
    requires size > 0
  {
    var xf, yf, zf := Fraction(l.x, size), Fraction(l.y, size), Fraction(l.z, size);
    var z0 := I.Lerp(I.Lerp(c.c000, c.c100, xf), I.Lerp(c.c010, c.c110, xf), yf);
    var z1 := I.Lerp(I.Lerp(c.c001, c.c101, xf), I.Lerp(c.c011, c.c111, xf), yf);
    I.Lerp(z0, z1, zf)
  }

  /** Where the middle of local cell l lies between two samples. */
  function Fraction(l: int, size: nat): real
    requires size > 0
  {
    var axisScale := 1.0 / size as real;
    l as real * axisScale + axisScale * 0.5
  }

  function Block(c: Cell, off: Cell, size: nat): Cell
    requires size > 0
  {
    Cell((c.x + off.x) / size, (c.y + off.y) / size, (c.z + off.z) / size)
  }

  function Local(c: Cell, off: Cell, size: nat): Cell
    requires size > 0
  {
    Cell((c.x + off.x) % size, (c.y + off.y) % size, (c.z + off.z) % size)
  }

  /** What every output cell should hold. */
  function Upsampled(corner: Cell -> real, off: Cell, size: nat): Cell -> real
    requires size > 0
  {
    (c: Cell) => Trilinear(CornersOf(corner, Block(c, off, size)), Local(c, off, size), size)
  }

  /** The distance from a start to the next multiple of the sample size. */
  function Offset(start: int, scale: nat): nat {
    var sampleMask := Pow2(scale) - 1;
    And(Pow2(scale) - And(start, sampleMask), sampleMask)
  }

  lemma OffsetReachesMultiple(start: int, scale: nat)
    ensures Offset(start, scale) < Pow2(scale) && (start + Offset(start, scale)) % Pow2(scale) == 0
  {
    hide *;
    OffsetIs(start, scale);
    NextMultipleAfter(start, Pow2(scale), Offset(start, scale));
  }

  lemma OffsetIs(start: int, scale: nat)
    ensures Offset(start, scale) == (Pow2(scale) - start % Pow2(scale)) % Pow2(scale)
  {
    hide Pow2, And;
    AndMask(start, scale);
    AndMask(Pow2(scale) - start % Pow2(scale), scale);
  }

  lemma NextMultipleAfter(a: int, p: nat, off: nat)
    requires p > 0 && off == (p - a % p) % p
    ensures off < p && (a + off) % p == 0
  {
    Divided(a, p);
    if a % p == 0 {
      Quotient(1, p, 0, p);
    } else {
      Quotient(0, p, p - a % p, p - a % p);
      Quotient(a / p + 1, p, 0, a + p - a % p);
    }
  }

  /** Local cell number n of a block of size * size * size. */
  function LocalIndex(l: Cell, size: nat): int {
    (l.x * size + l.y) * size + l.z
  }

  ghost predicate IsLocal(l: Cell, size: nat) {
    0 <= l.x < size && 0 <= l.y < size && 0 <= l.z < size
  }

  /** The packed counter, taken apart by shifts and masks. */
  function Unpack(n: int, scale: nat): Cell {
    var axisMask := Pow2(scale) - 1;
    Cell(And(ShiftRight(n, scale * 2), axisMask), And(ShiftRight(n, scale), axisMask), And(n, axisMask))
  }

  lemma {:induction false} Pow2Sum(a: nat, b: nat)
    ensures Pow2(a + b) == Pow2(a) * Pow2(b)
    decreases a
  {
    if a == 0 {
    } else {
      Pow2Sum(a - 1, b);
      Associate(2, Pow2(a - 1), Pow2(b));
    }
  }

  lemma Associate(a: int, b: int, c: int)
    ensures a * b * c == a * (b * c)
  {}

  lemma UnpackIsLocal(n: int, scale: nat)
    ensures IsLocal(Unpack(n, scale), Pow2(scale))
  {
    AndMask(ShiftRight(n, scale * 2), scale);
    AndMask(ShiftRight(n, scale), scale);
    AndMask(n, scale);
  }

  /** Every local cell is met at its number. */
  lemma UnpackLocalIndex(l: Cell, scale: nat)
    requires IsLocal(l, Pow2(scale))
    ensures 0 <= LocalIndex(l, Pow2(scale)) < Pow2(scale * 3)
    ensures Unpack(LocalIndex(l, Pow2(scale)), scale) == l
  {
    var p := Pow2(scale);
    var n := LocalIndex(l, p);
    CubeOf(scale);
    Pow2Sum(scale, scale);
    UnpackDivides(n, scale);
    LocalIndexParts(l, p);
    NestedQuotient(l, p);
  }

  lemma UnpackDivides(n: int, scale: nat)
    ensures var p := Pow2(scale); Unpack(n, scale) == Cell(n / Pow2(scale * 2) % p, n / p % p, n % p)
  {
    AndMask(ShiftRight(n, scale * 2), scale);
    AndMask(ShiftRight(n, scale), scale);
    AndMask(n, scale);
  }

  lemma LocalIndexParts(l: Cell, p: nat)
    requires IsLocal(l, p)
    ensures var n := LocalIndex(l, p); 0 <= n < p * p * p && n % p == l.z && n / p % p == l.y && l.x % p == l.x
  {
    var g := Grid(0, 0, 0, p, p, p);
    FlatInside(g, l);
    Quotient(0, p, l.x, l.x);
  }

  lemma CubeOf(scale: nat)
    ensures Pow2(scale * 3) == Pow2(scale) * Pow2(scale) * Pow2(scale)
  {
    Pow2Sum(scale, scale);
    Pow2Sum(scale + scale, scale);
  }

  lemma NestedQuotient(l: Cell, p: nat)
    requires IsLocal(l, p)
    ensures p * p > 0 && LocalIndex(l, p) / (p * p) == l.x
  {
    RestBound(l.y, l.z, p);
    Regrouped(l.x, l.y, l.z, p);
    Quotient(l.x, p * p, l.y * p + l.z, LocalIndex(l, p));
  }

  lemma Regrouped(a: int, b: int, c: int, p: int)
    ensures (a * p + b) * p + c == a * (p * p) + (b * p + c)
  {}

  lemma RestBound(b: int, c: int, p: int)
    requires 0 <= b < p && 0 <= c < p
    ensures 0 <= b * p + c < p * p
  {
    Monotone(b + 1, p, p);
    NotNegative(b, p);
  }

  /** Cell c holds what it should. */
  ghost predicate HoldsAt(a: seq<real>, g: Grid, want: Cell -> real, c: Cell) {
    0 <= Flat(g, c) < |a| && a[Flat(g, c)] == want(c)
  }

  /** Between a and b, elements changed only to what their cells should hold. */
  ghost predicate Improves(a: seq<real>, b: seq<real>, g: Grid, want: Cell -> real)
    requires Proper(g)
  {
    |a| == |b| && forall n :: 0 <= n < |a| ==> b[n] == a[n] || (n < Count(g) && b[n] == want(CellAt(g, n)))
  }

  lemma KeepsHolding(a: seq<real>, b: seq<real>, g: Grid, want: Cell -> real, c: Cell)
    requires Proper(g) && Improves(a, b, g, want) && Inside(g, c) && HoldsAt(a, g, want, c)
    ensures HoldsAt(b, g, want, c)
  {
    FlatInside(g, c);
  }

  lemma ImprovesOn(a: seq<real>, b: seq<real>, c: seq<real>, g: Grid, want: Cell -> real)
    requires Proper(g) && Improves(a, b, g, want) && Improves(b, c, g, want)
    ensures Improves(a, c, g, want)
  {}

  ghost predicate LaneStored(a: seq<real>, g: Grid, want: Cell -> real, c: Cell) {
    Inside(g, c) ==> HoldsAt(a, g, want, c)
  }

  /** A lane inside the grid carries the right value; without the lower guard it is never below 0. */
  ghost predicate LaneReady(g: Grid, want: Cell -> real, c: Cell, result: real, lower: bool) {
    (Inside(g, c) ==> result == want(c)) && (lower || (c.x >= 0 && c.y >= 0 && c.z >= 0))
  }

  ghost predicate LanesReady(g: Grid, want: Cell -> real, x: Lanes, y: Lanes, z: Lanes, results: seq<real>,
                             lower: bool) {
    |x| == |y| == |z| == |results| && forall l :: 0 <= l < |x| ==>
      LaneReady(g, want, Cell(x[l], y[l], z[l]), results[l], lower)
  }

  ghost predicate FromZero(g: Grid) {
    Proper(g) && g.xStart == 0 && g.yStart == 0 && g.zStart == 0
  }

  /** SET_INDEX and SAMPLE_INDEX. */
  function SetIndex(x: int, y: int, z: int, yzSize: int, zSize: int): int {
    x * yzSize + y * zSize + z
  }

  lemma SetIndexIsFlat(g: Grid, c: Cell)
    requires FromZero(g)
    ensures SetIndex(c.x, c.y, c.z, g.ySize * g.zSize, g.zSize) == Flat(g, c)
  {}

  lemma StoreOne(a: seq<real>, g: Grid, want: Cell -> real, c: Cell)
    requires FromZero(g) && Inside(g, c) && |a| >= Count(g)
    ensures var i := SetIndex(c.x, c.y, c.z, g.ySize * g.zSize, g.zSize);
      0 <= i < |a| && Improves(a, a[i := want(c)], g, want) && HoldsAt(a[i := want(c)], g, want, c)
  {
    SetIndexIsFlat(g, c);
    FlatInside(g, c);
  }

  /** Stores the lanes that fall inside the grid. */
  method StoreLanes(noiseSet: array<real>, g: Grid, x: Lanes, y: Lanes, z: Lanes, results: seq<real>, lower: bool,
                    ghost want: Cell -> real)
    requires FromZero(g) && noiseSet.Length >= Count(g) && LanesReady(g, want, x, y, z, results, lower)
    modifies noiseSet
    ensures Improves(old(noiseSet[..]), noiseSet[..], g, want)
    ensures forall l :: 0 <= l < |x| ==> LaneStored(noiseSet[..], g, want, Cell(x[l], y[l], z[l]))
  {
    hide Improves, HoldsAt, SetIndex, Count;
    ghost var before := noiseSet[..];
    ImprovesItself(before, g, want);
    for i := 0 to |x|
      invariant Improves(before, noiseSet[..], g, want)
      invariant forall l :: 0 <= l < i ==> LaneStored(noiseSet[..], g, want, Cell(x[l], y[l], z[l]))
    {
      ghost var now := noiseSet[..];
      ghost var c := Cell(x[i], y[i], z[i]);
      assert LaneReady(g, want, c, results[i], lower);
      if && (!lower || x[i] >= 0) && x[i] < g.xSize
         && (!lower || y[i] >= 0) && y[i] < g.ySize
         && (!lower || z[i] >= 0) && z[i] < g.zSize {
        StoreOne(now, g, want, c);
        var index := SetIndex(x[i], y[i], z[i], g.ySize * g.zSize, g.zSize);
        noiseSet[index] := results[i];
        assert noiseSet[..] == now[index := want(c)];
        ImprovesOn(before, now, noiseSet[..], g, want);
        LanesStay(now, noiseSet[..], g, want, x, y, z, i);
      }
    }
  }

  lemma ImprovesItself(a: seq<real>, g: Grid, want: Cell -> real)
    requires Proper(g)
    ensures Improves(a, a, g, want)
  {}

  lemma LanesStay(a: seq<real>, b: seq<real>, g: Grid, want: Cell -> real, x: Lanes, y: Lanes, z: Lanes, n: nat)
    requires Proper(g) && Improves(a, b, g, want) && n <= |x| == |y| == |z|
    requires forall l :: 0 <= l < n ==> LaneStored(a, g, want, Cell(x[l], y[l], z[l]))
    ensures forall l :: 0 <= l < n ==> LaneStored(b, g, want, Cell(x[l], y[l], z[l]))
  {
    hide Improves, HoldsAt, Inside;
    forall l | 0 <= l < n ensures LaneStored(b, g, want, Cell(x[l], y[l], z[l])) {
      var c := Cell(x[l], y[l], z[l]);
      assert LaneStored(a, g, want, c);
      if Inside(g, c) { KeepsHolding(a, b, g, want, c); }
    }
  }

  /** The block of c comes before b, or is b with a local number below n. */
  ghost predicate Before(b: Cell, n: int, c: Cell, off: Cell, size: nat)
    requires size > 0
  {
    var d := Block(c, off, size);
    var inside := LocalIndex(Local(c, off, size), size) < n;
    d.x < b.x || (d.x == b.x && (d.y < b.y || (d.y == b.y && (d.z < b.z || (d.z == b.z && inside)))))
  }

  ghost predicate Covered(a: seq<real>, g: Grid, want: Cell -> real, b: Cell, n: int, off: Cell, size: nat)
    requires size > 0
  {
    forall c | Inside(g, c) && Before(b, n, c, off, size) :: HoldsAt(a, g, want, c)
  }

  /** Where the lanes of a block stand in the output. */
  ghost predicate LanesOf(b: Cell, n: int, off: Cell, scale: nat, x: Lanes, y: Lanes, z: Lanes) {
    |x| == |y| == |z| && forall l :: 0 <= l < |x| ==>
      Cell(x[l], y[l], z[l]) == Place(b, Unpack(n + l, scale), off, Pow2(scale))
  }

  /** The output cell of local cell l of block b. */
  function Place(b: Cell, l: Cell, off: Cell, size: nat): Cell {
    Cell(l.x + (b.x * size - off.x), l.y + (b.y * size - off.y), l.z + (b.z * size - off.z))
  }

  lemma PlaceBlockLocal(b: Cell, l: Cell, off: Cell, size: nat)
    requires size > 0 && IsLocal(l, size)
    ensures Block(Place(b, l, off, size), off, size) == b && Local(Place(b, l, off, size), off, size) == l
  {
    Quotient(b.x, size, l.x, b.x * size + l.x);
    Quotient(b.y, size, l.y, b.y * size + l.y);
    Quotient(b.z, size, l.z, b.z * size + l.z);
  }

  lemma BlockLocalPlace(c: Cell, off: Cell, size: nat)
    requires size > 0
    ensures Place(Block(c, off, size), Local(c, off, size), off, size) == c && IsLocal(Local(c, off, size), size)
  {}

  lemma VectorCovers(a: seq<real>, b: seq<real>, g: Grid, want: Cell -> real, block: Cell, n: int, off: Cell,
                     scale: nat, x: Lanes, y: Lanes, z: Lanes)
    requires Proper(g) && Improves(a, b, g, want) && Covered(a, g, want, block, n, off, Pow2(scale))
    requires LanesOf(block, n, off, scale, x, y, z)
    requires forall l :: 0 <= l < |x| ==> LaneStored(b, g, want, Cell(x[l], y[l], z[l]))
    ensures Covered(b, g, want, block, n + |x|, off, Pow2(scale))
  {
    hide Improves, HoldsAt, Inside, Block, Local, LocalIndex, Unpack, Place, Pow2, IsLocal;
    var size := Pow2(scale);
    forall c | Inside(g, c) && Before(block, n + |x|, c, off, size) ensures HoldsAt(b, g, want, c) {
      if Before(block, n, c, off, size) {
        KeepsHolding(a, b, g, want, c);
      } else {
        BlockLocalPlace(c, off, size);
        UnpackLocalIndex(Local(c, off, size), scale);
        var l := LocalIndex(Local(c, off, size), size) - n;
        assert LaneStored(b, g, want, Cell(x[l], y[l], z[l]));
      }
    }
  }

  function ShiftLanes(a: Lanes, n: nat): (s: Lanes)
    ensures |s| == |a| && forall l :: 0 <= l < |a| ==> s[l] == ShiftRight(a[l], n)
  {
    seq(|a|, l requires 0 <= l < |a| => ShiftRight(a[l], n))
  }

  function AndLanes(a: Lanes, mask: nat): (s: Lanes)
    ensures |s| == |a| && forall l :: 0 <= l < |a| ==> s[l] == And(a[l], mask)
  {
    seq(|a|, l requires 0 <= l < |a| => And(a[l], mask))
  }

  function LerpLanes(c: Corners, xi: Lanes, yi: Lanes, zi: Lanes, size: nat): (r: seq<real>)
    requires |xi| == |yi| == |zi| && size > 0
    ensures |r| == |xi| && forall l :: 0 <= l < |xi| ==> r[l] == Trilinear(c, Cell(xi[l], yi[l], zi[l]), size)
  {
    seq(|xi|, l requires 0 <= l < |xi| => Trilinear(c, Cell(xi[l], yi[l], zi[l]), size))
  }

  /** The corners of b weighed for local cell l are what the cell at that place should hold. */
  lemma PlaceHoldsBlend(corner: Cell -> real, b: Cell, l: Cell, off: Cell, size: nat)
    requires size > 0 && IsLocal(l, size)
    ensures Upsampled(corner, off, size)(Place(b, l, off, size)) == Trilinear(CornersOf(corner, b), l, size)
  {
    hide Place, Trilinear, CornersOf;
    PlaceBlockLocal(b, l, off, size);
  }

  /** No lower guard is needed when the offset is zero and blocks are not negative. */
  ghost predicate GuardFits(lower: bool, off: Cell, b: Cell) {
    lower || (off == Cell(0, 0, 0) && b.x >= 0 && b.y >= 0 && b.z >= 0)
  }

  lemma PlaceNotNegative(b: Cell, l: Cell, off: Cell, size: nat, lower: bool)
    requires IsLocal(l, size) && GuardFits(lower, off, b)
    ensures lower || (var p := Place(b, l, off, size); p.x >= 0 && p.y >= 0 && p.z >= 0)
  {}

  /** All local cells of one block. */
  method FillBlock(noiseSet: array<real>, g: Grid, ghost off: Cell, scale: nat, k: nat, ghost b: Cell, xSIMD: Lanes,
                   ySIMD: Lanes, zSIMD: Lanes, c: Corners, lower: bool, ghost corner: Cell -> real)
    requires FromZero(g) && noiseSet.Length >= Count(g) && c == CornersOf(corner, b) && GuardFits(lower, off, b)
    requires xSIMD == Set1(Pow2(k), b.x * Pow2(scale) - off.x) && ySIMD == Set1(Pow2(k), b.y * Pow2(scale) - off.y)
    requires zSIMD == Set1(Pow2(k), b.z * Pow2(scale) - off.z)
    requires Covered(noiseSet[..], g, Upsampled(corner, off, Pow2(scale)), b, 0, off, Pow2(scale))
    modifies noiseSet
    ensures Improves(old(noiseSet[..]), noiseSet[..], g, Upsampled(corner, off, Pow2(scale)))
    ensures Covered(noiseSet[..], g, Upsampled(corner, off, Pow2(scale)), Cell(b.x, b.y, b.z + 1), 0, off, Pow2(scale))
  {
    hide Covered, Improves, LanesReady, LaneReady, LaneStored, Upsampled, Trilinear, CornersOf, Count;
    var v, size := Pow2(k), Pow2(scale);
    ghost var want := Upsampled(corner, off, size);
    ghost var before := noiseSet[..];
    ImprovesItself(before, g, want);
    var localCountSIMD := Incremental(v);
    var localCount := 0;
    while localCount < Pow2(scale * 3)
      invariant |localCountSIMD| == v && forall l :: 0 <= l < v ==> localCountSIMD[l] == localCount + l
      invariant Improves(before, noiseSet[..], g, want)
      invariant Covered(noiseSet[..], g, want, b, localCount, off, size)
    {
      ghost var now := noiseSet[..];
      var xi := AndLanes(ShiftLanes(localCountSIMD, scale * 2), size - 1);
      var yi := AndLanes(ShiftLanes(localCountSIMD, scale), size - 1);
      var zi := AndLanes(localCountSIMD, size - 1);
      var sampledResults := LerpLanes(c, xi, yi, zi, size);
      LanesPlaced(g, localCount, b, off, scale, v, localCountSIMD, xi, yi, zi, xSIMD, ySIMD, zSIMD, sampledResults, c,
                  lower, corner);
      xi := Add(xi, xSIMD);
      yi := Add(yi, ySIMD);
      zi := Add(zi, zSIMD);
      StoreLanes(noiseSet, g, xi, yi, zi, sampledResults, lower, want);
      ImprovesOn(before, now, noiseSet[..], g, want);
      VectorCovers(now, noiseSet[..], g, want, b, localCount, off, scale, xi, yi, zi);
      localCount := localCount + v;
      localCountSIMD := Add(localCountSIMD, Set1(v, v));
    }
    BlockCovered(noiseSet[..], g, want, b, localCount, off, scale);
  }

  lemma LanesPlaced(g: Grid, n: int, b: Cell, off: Cell, scale: nat, v: nat, count: Lanes, xi: Lanes, yi: Lanes,
                    zi: Lanes, xSIMD: Lanes, ySIMD: Lanes, zSIMD: Lanes, results: seq<real>, c: Corners, lower: bool,
                    corner: Cell -> real)
    requires |count| == v && (forall l :: 0 <= l < v ==> count[l] == n + l)
    requires GuardFits(lower, off, b) && c == CornersOf(corner, b)
    requires xi == AndLanes(ShiftLanes(count, scale * 2), Pow2(scale) - 1)
    requires yi == AndLanes(ShiftLanes(count, scale), Pow2(scale) - 1)
    requires zi == AndLanes(count, Pow2(scale) - 1)
    requires xSIMD == Set1(v, b.x * Pow2(scale) - off.x) && ySIMD == Set1(v, b.y * Pow2(scale) - off.y)
    requires zSIMD == Set1(v, b.z * Pow2(scale) - off.z)
    requires results == LerpLanes(c, xi, yi, zi, Pow2(scale))
    ensures LanesOf(b, n, off, scale, Add(xi, xSIMD), Add(yi, ySIMD), Add(zi, zSIMD))
    ensures LanesReady(g, Upsampled(corner, off, Pow2(scale)), Add(xi, xSIMD), Add(yi, ySIMD), Add(zi, zSIMD),
                       results, lower)
  {
    hide Trilinear, CornersOf, Upsampled, And, ShiftRight, IsLocal, GuardFits;
    var x, y, z := Add(xi, xSIMD), Add(yi, ySIMD), Add(zi, zSIMD);
    var size := Pow2(scale);
    forall l | 0 <= l < v
      ensures Cell(x[l], y[l], z[l]) == Place(b, Unpack(n + l, scale), off, size)
      ensures LaneReady(g, Upsampled(corner, off, size), Cell(x[l], y[l], z[l]), results[l], lower)
    {
      UnpackIsLocal(n + l, scale);
      PlaceHoldsBlend(corner, b, Unpack(n + l, scale), off, size);
      PlaceNotNegative(b, Unpack(n + l, scale), off, size, lower);
    }
  }

  /** Once every local number is passed, the block is done. */
  lemma BlockCovered(a: seq<real>, g: Grid, want: Cell -> real, b: Cell, n: int, off: Cell, scale: nat)
    requires Covered(a, g, want, b, n, off, Pow2(scale)) && n >= Pow2(scale * 3)
    ensures Covered(a, g, want, Cell(b.x, b.y, b.z + 1), 0, off, Pow2(scale))
  {
    hide HoldsAt, Inside, Block, Local, LocalIndex, Pow2, IsLocal;
    var size := Pow2(scale);
    forall c | Inside(g, c) && Before(Cell(b.x, b.y, b.z + 1), 0, c, off, size) ensures HoldsAt(a, g, want, c) {
      BlockLocalPlace(c, off, size);
      UnpackLocalIndex(Local(c, off, size), scale);
      assert Before(b, n, c, off, size);
    }
  }

  /** The samples are corner's values on the grid gs. */
  ghost predicate Sampled(sample: seq<real>, gs: Grid, corner: Cell -> real) {
    FromZero(gs) && Filled(sample, gs, corner, Count(gs))
  }

  lemma SampleAt(sample: seq<real>, gs: Grid, corner: Cell -> real, b: Cell)
    requires Sampled(sample, gs, corner) && Inside(gs, b)
    ensures var i := SetIndex(b.x, b.y, b.z, gs.ySize * gs.zSize, gs.zSize); 0 <= i < |sample| && sample[i] == corner(b)
  {
    SetIndexIsFlat(gs, b);
    FlatInside(gs, b);
  }

  /** Every output cell lies in a block that has a sample on both sides. */
  ghost predicate BlocksFit(g: Grid, off: Cell, size: nat, gs: Grid)
    requires size > 0
  {
    forall c | Inside(g, c) :: BlockFits(Block(c, off, size), gs)
  }

  ghost predicate BlockFits(b: Cell, gs: Grid) {
    0 <= b.x < gs.xSize - 1 && 0 <= b.y < gs.ySize - 1 && 0 <= b.z < gs.zSize - 1
  }

  lemma StepBase(i: int, size: nat, off: int)
    ensures (i + 1) * size - off == i * size - off + size
    ensures 0 * size - off == -off
  {}

  /** One line of blocks along z. */
  method FillLine(noiseSet: array<real>, g: Grid, ghost off: Cell, scale: nat, k: nat, sample: array<real>, gs: Grid,
                  x: nat, y: nat, xSIMD: Lanes, ySIMD: Lanes, zBase: Lanes, lower: bool, ghost corner: Cell -> real)
    requires FromZero(g) && noiseSet.Length >= Count(g) && sample != noiseSet && Sampled(sample[..], gs, corner)
    requires x < gs.xSize - 1 && y < gs.ySize - 1 && BlocksFit(g, off, Pow2(scale), gs)
    requires GuardFits(lower, off, Cell(0, 0, 0))
    requires xSIMD == Set1(Pow2(k), x * Pow2(scale) - off.x) && ySIMD == Set1(Pow2(k), y * Pow2(scale) - off.y)
    requires zBase == Set1(Pow2(k), -off.z)
    requires Covered(noiseSet[..], g, Upsampled(corner, off, Pow2(scale)), Cell(x, y, 0), 0, off, Pow2(scale))
    modifies noiseSet
    ensures Improves(old(noiseSet[..]), noiseSet[..], g, Upsampled(corner, off, Pow2(scale)))
    ensures Covered(noiseSet[..], g, Upsampled(corner, off, Pow2(scale)), Cell(x, y + 1, 0), 0, off, Pow2(scale))
  {
    hide Covered, Improves, Upsampled, Count, Sampled, BlocksFit, SetIndex, Pow2;
    var v, size := Pow2(k), Pow2(scale);
    ghost var want := Upsampled(corner, off, size);
    ghost var before := noiseSet[..];
    ImprovesItself(before, g, want);
    SampledFromZero(sample[..], gs, corner);
    var yzSizeSample := gs.ySize * gs.zSize;
    var zSIMD := zBase;
    SamplesAround(sample[..], gs, corner, x, y, 0);
    var c001 := sample[SetIndex(x, y, 0, yzSizeSample, gs.zSize)];
    var c101 := sample[SetIndex(x + 1, y, 0, yzSizeSample, gs.zSize)];
    var c011 := sample[SetIndex(x, y + 1, 0, yzSizeSample, gs.zSize)];
    var c111 := sample[SetIndex(x + 1, y + 1, 0, yzSizeSample, gs.zSize)];
    StepBase(0, size, off.z);
    for z := 0 to gs.zSize - 1
      invariant zSIMD == Set1(v, z * size - off.z)
      invariant c001 == corner(Cell(x, y, z)) && c101 == corner(Cell(x + 1, y, z))
      invariant c011 == corner(Cell(x, y + 1, z)) && c111 == corner(Cell(x + 1, y + 1, z))
      invariant sample[..] == old(sample[..])
      invariant Improves(before, noiseSet[..], g, want)
      invariant Covered(noiseSet[..], g, want, Cell(x, y, z), 0, off, size)
    {
      ghost var now := noiseSet[..];
      var c000, c100, c010, c110 := c001, c101, c011, c111;
      SamplesAround(sample[..], gs, corner, x, y, z + 1);
      c001 := sample[SetIndex(x, y, z + 1, yzSizeSample, gs.zSize)];
      c101 := sample[SetIndex(x + 1, y, z + 1, yzSizeSample, gs.zSize)];
      c011 := sample[SetIndex(x, y + 1, z + 1, yzSizeSample, gs.zSize)];
      c111 := sample[SetIndex(x + 1, y + 1, z + 1, yzSizeSample, gs.zSize)];
      FillBlock(noiseSet, g, off, scale, k, Cell(x, y, z), xSIMD, ySIMD, zSIMD,
                Corners(c000, c001, c010, c011, c100, c101, c110, c111), lower, corner);
      ImprovesOn(before, now, noiseSet[..], g, want);
      StepBase(z, size, off.z);
      zSIMD := Add(zSIMD, Set1(v, size));
    }
    LineCovered(noiseSet[..], g, want, x, y, gs, off, size);
  }

  lemma SampledFromZero(sample: seq<real>, gs: Grid, corner: Cell -> real)
    requires Sampled(sample, gs, corner)
    ensures FromZero(gs)
  {}

  /** The four samples of a block at height z are in the array. */
  lemma SamplesAround(sample: seq<real>, gs: Grid, corner: Cell -> real, x: nat, y: nat, z: nat)
    requires Sampled(sample, gs, corner) && x < gs.xSize - 1 && y < gs.ySize - 1 && z < gs.zSize
    ensures Reads(sample, gs, corner, Cell(x, y, z)) && Reads(sample, gs, corner, Cell(x + 1, y, z))
    ensures Reads(sample, gs, corner, Cell(x, y + 1, z)) && Reads(sample, gs, corner, Cell(x + 1, y + 1, z))
  {
    hide Sampled, SetIndex;
    SampledFromZero(sample, gs, corner);
    SampleAt(sample, gs, corner, Cell(x, y, z));
    SampleAt(sample, gs, corner, Cell(x + 1, y, z));
    SampleAt(sample, gs, corner, Cell(x, y + 1, z));
    SampleAt(sample, gs, corner, Cell(x + 1, y + 1, z));
  }

  ghost predicate Reads(sample: seq<real>, gs: Grid, corner: Cell -> real, b: Cell) {
    var i := SetIndex(b.x, b.y, b.z, gs.ySize * gs.zSize, gs.zSize);
    0 <= i < |sample| && sample[i] == corner(b)
  }

  lemma LineCovered(a: seq<real>, g: Grid, want: Cell -> real, x: int, y: int, gs: Grid, off: Cell, size: nat)
    requires size > 0 && BlocksFit(g, off, size, gs) && gs.zSize > 0
    requires Covered(a, g, want, Cell(x, y, gs.zSize - 1), 0, off, size)
    ensures Covered(a, g, want, Cell(x, y + 1, 0), 0, off, size)
  {}

  lemma PlaneCovered(a: seq<real>, g: Grid, want: Cell -> real, x: int, gs: Grid, off: Cell, size: nat)
    requires size > 0 && BlocksFit(g, off, size, gs) && gs.ySize > 0
    requires Covered(a, g, want, Cell(x, gs.ySize - 1, 0), 0, off, size)
    ensures Covered(a, g, want, Cell(x + 1, 0, 0), 0, off, size)
  {}

  lemma LocalNumbered(c: Cell, off: Cell, size: nat)
    requires size > 0
    ensures LocalIndex(Local(c, off, size), size) >= 0
  {}

  /** Nothing lies before the first block. */
  lemma NothingCovered(a: seq<real>, g: Grid, want: Cell -> real, gs: Grid, off: Cell, size: nat)
    requires size > 0 && BlocksFit(g, off, size, gs)
    ensures Covered(a, g, want, Cell(0, 0, 0), 0, off, size)
  {
    hide HoldsAt, Inside, Block, Local, LocalIndex;
    forall c | Inside(g, c) ensures !Before(Cell(0, 0, 0), 0, c, off, size) {
      LocalNumbered(c, off, size);
      assert BlockFits(Block(c, off, size), gs);
    }
  }

  lemma AllCovered(a: seq<real>, g: Grid, want: Cell -> real, gs: Grid, off: Cell, size: nat)
    requires size > 0 && BlocksFit(g, off, size, gs) && gs.xSize > 0
    requires Covered(a, g, want, Cell(gs.xSize - 1, 0, 0), 0, off, size)
    requires Proper(g) && Count(g) <= |a|
    ensures Filled(a, g, want, Count(g))
  {
    forall n | 0 <= n < Count(g) ensures a[n] == want(CellAt(g, n)) {
      FlatCellAt(g, n);
      var c := CellAt(g, n);
      assert BlockFits(Block(c, off, size), gs) && Before(Cell(gs.xSize - 1, 0, 0), 0, c, off, size);
      assert HoldsAt(a, g, want, c);
    }
  }

  lemma ImprovedOutside(a: seq<real>, b: seq<real>, g: Grid, want: Cell -> real)
    requires Proper(g) && Improves(a, b, g, want)
    ensures |a| == |b| && forall n :: Count(g) <= n < |a| ==> b[n] == a[n]
  {}

  /** Every cell of the grid holds what it should; the rest of the array is as before. */
  ghost predicate FilledOnly(before: seq<real>, a: seq<real>, g: Grid, want: Cell -> real) {
    && Proper(g) && Filled(a, g, want, Count(g))
    && |a| == |before| && forall n :: Count(g) <= n < |a| ==> a[n] == before[n]
  }

  /** One plane of blocks. */
  method FillPlane(noiseSet: array<real>, g: Grid, ghost off: Cell, scale: nat, k: nat, sample: array<real>, gs: Grid,
                   x: nat, xSIMD: Lanes, yBase: Lanes, zBase: Lanes, lower: bool, ghost corner: Cell -> real)
    requires FromZero(g) && noiseSet.Length >= Count(g) && sample != noiseSet && Sampled(sample[..], gs, corner)
    requires x < gs.xSize - 1 && BlocksFit(g, off, Pow2(scale), gs) && GuardFits(lower, off, Cell(0, 0, 0))
    requires xSIMD == Set1(Pow2(k), x * Pow2(scale) - off.x) && yBase == Set1(Pow2(k), -off.y)
    requires zBase == Set1(Pow2(k), -off.z)
    requires Covered(noiseSet[..], g, Upsampled(corner, off, Pow2(scale)), Cell(x, 0, 0), 0, off, Pow2(scale))
    modifies noiseSet
    ensures Improves(old(noiseSet[..]), noiseSet[..], g, Upsampled(corner, off, Pow2(scale)))
    ensures Covered(noiseSet[..], g, Upsampled(corner, off, Pow2(scale)), Cell(x + 1, 0, 0), 0, off, Pow2(scale))
  {
    hide Covered, Improves, Upsampled, Count, Sampled, BlocksFit, Pow2;
    var v, size := Pow2(k), Pow2(scale);
    ghost var want := Upsampled(corner, off, size);
    ghost var before := noiseSet[..];
    ImprovesItself(before, g, want);
    SampledFromZero(sample[..], gs, corner);
    var ySIMD := yBase;
    StepBase(0, size, off.y);
    for y := 0 to gs.ySize - 1
      invariant ySIMD == Set1(v, y * size - off.y) && sample[..] == old(sample[..])
      invariant Improves(before, noiseSet[..], g, want)
      invariant Covered(noiseSet[..], g, want, Cell(x, y, 0), 0, off, size)
    {
      ghost var now := noiseSet[..];
      FillLine(noiseSet, g, off, scale, k, sample, gs, x, y, xSIMD, ySIMD, zBase, lower, corner);
      ImprovesOn(before, now, noiseSet[..], g, want);
      StepBase(y, size, off.y);
      ySIMD := Add(ySIMD, Set1(v, size));
    }
    PlaneCovered(noiseSet[..], g, want, x, gs, off, size);
  }

  /** The interpolation loops: every output cell is written from its own block
      and local cell, and nothing outside the grid is written. */
  method Upsample(noiseSet: array<real>, g: Grid, off: Cell, scale: nat, k: nat, sample: array<real>, gs: Grid,
                  lower: bool, ghost corner: Cell -> real)
    requires FromZero(g) && noiseSet.Length >= Count(g) && sample != noiseSet && Sampled(sample[..], gs, corner)
    requires BlocksFit(g, off, Pow2(scale), gs) && GuardFits(lower, off, Cell(0, 0, 0))
    modifies noiseSet
    ensures FilledOnly(old(noiseSet[..]), noiseSet[..], g, Upsampled(corner, off, Pow2(scale)))
  {
    hide Covered, Improves, Upsampled, Count, Sampled, BlocksFit, Filled, Pow2;
    var v, size := Pow2(k), Pow2(scale);
    ghost var want := Upsampled(corner, off, size);
    ghost var before := noiseSet[..];
    ImprovesItself(before, g, want);
    SampledFromZero(sample[..], gs, corner);
    NothingCovered(before, g, want, gs, off, size);
    var xSIMD := Set1(v, -off.x);
    StepBase(0, size, off.x);
    for x := 0 to gs.xSize - 1
      invariant xSIMD == Set1(v, x * size - off.x) && sample[..] == old(sample[..])
      invariant Improves(before, noiseSet[..], g, want)
      invariant Covered(noiseSet[..], g, want, Cell(x, 0, 0), 0, off, size)
    {
      ghost var now := noiseSet[..];
      FillPlane(noiseSet, g, off, scale, k, sample, gs, x, xSIMD, Set1(v, -off.y), Set1(v, -off.z), lower, corner);
      ImprovesOn(before, now, noiseSet[..], g, want);
      StepBase(x, size, off.x);
      xSIMD := Add(xSIMD, Set1(v, size));
    }
    AllCovered(noiseSet[..], g, want, gs, off, size);
    ImprovedOutside(before, noiseSet[..], g, want);
  }

  function Shifted(f: Cell -> real, from: Cell): Cell -> real {
    (c: Cell) => f(Cell(c.x + from.x, c.y + from.y, c.z + from.z))
  }

  function AtStep(f: Cell -> real, step: int): Cell -> real {
    (c: Cell) => f(Stretched(c, step))
  }

  /** A grid filled from a start holds the shifted function from 0. */
  lemma ShiftedFilled(a: seq<real>, gs: Grid, from: Cell, f: Cell -> real)
    requires FromZero(gs)
    requires var g := Grid(from.x, from.y, from.z, gs.xSize, gs.ySize, gs.zSize); Filled(a, g, f, Count(g))
    ensures Sampled(a, gs, Shifted(f, from))
  {}

  lemma BlocksFitSamples(xSize: nat, ySize: nat, zSize: nat, off: Cell, scale: nat)
    requires off.x >= 0 && off.y >= 0 && off.z >= 0
    ensures BlocksFit(Grid(0, 0, 0, xSize, ySize, zSize), off, Pow2(scale),
                      SampleGrid(xSize + off.x, ySize + off.y, zSize + off.z, scale))
  {
    hide SampleCount;
    var g := Grid(0, 0, 0, xSize, ySize, zSize);
    forall c | Inside(g, c)
      ensures BlockFits(Block(c, off, Pow2(scale)), SampleGrid(xSize + off.x, ySize + off.y, zSize + off.z, scale))
    {
      SamplesCover(xSize + off.x, scale, c.x + off.x);
      SamplesCover(ySize + off.y, scale, c.y + off.y);
      SamplesCover(zSize + off.z, scale, c.z + off.z);
    }
  }

  function Offsets(start: Cell, scale: nat): Cell {
    Cell(Offset(start.x, scale), Offset(start.y, scale), Offset(start.z, scale))
  }

  function SampleStart(start: Cell, scale: nat): Cell {
    Cell(ShiftRight(start.x, scale), ShiftRight(start.y, scale), ShiftRight(start.z, scale))
  }

  /** FillSampledNoiseSet on a grid. noise(m, c) is the noise of cell c at scale modifier m. */
  method FillSampledNoiseSet(noiseSet: array<real>, start: Cell, xSize: nat, ySize: nat, zSize: nat, sampleScale: int,
                             k: nat, aligned: bool, noise: int -> Cell -> real)
    requires xSize > 0 && ySize > 0 && zSize > 0
    requires noiseSet.Length >= Extent(Grid(start.x, start.y, start.z, xSize, ySize, zSize), k,
                                       aligned && sampleScale <= 0)
    modifies noiseSet
    ensures sampleScale <= 0 ==>
      PlainFill(old(noiseSet[..]), noiseSet[..], Grid(start.x, start.y, start.z, xSize, ySize, zSize), k, aligned,
                noise(1))
    ensures sampleScale > 0 ==> FilledOnly(old(noiseSet[..]), noiseSet[..], Grid(0, 0, 0, xSize, ySize, zSize),
      Upsampled(Shifted(noise(Pow2(sampleScale)), SampleStart(start, sampleScale)), Offsets(start, sampleScale),
                Pow2(sampleScale)))
    ensures sampleScale > 0 ==>
      Reproduces(noiseSet[..], Grid(0, 0, 0, xSize, ySize, zSize), start, Pow2(sampleScale), noise(Pow2(sampleScale)))
  {
    hide Count, AlignedSize, Filled, FilledOnly, Upsampled, Sampled, BlocksFit, Shifted, Offset, SampleGrid,
         ShiftRight, Pow2, Reproduces;
    var grid := Grid(start.x, start.y, start.z, xSize, ySize, zSize);
    if sampleScale <= 0 {
      SetBuilder(noiseSet, grid, k, aligned, noise(1));
      return;
    }
    var sampleSize := Pow2(sampleScale);
    var off := Offsets(start, sampleScale);
    var gs := SampleGrid(xSize + off.x, ySize + off.y, zSize + off.z, sampleScale);
    var from := SampleStart(start, sampleScale);
    var samples := Grid(from.x, from.y, from.z, gs.xSize, gs.ySize, gs.zSize);
    AlignedSizeIsLeastMultiple(Count(samples), k, 0);
    var noiseSetSample := new real[Extent(samples, k, aligned)];
    SetBuilder(noiseSetSample, samples, k, aligned, noise(sampleSize));
    ShiftedFilled(noiseSetSample[..], gs, from, noise(sampleSize));
    BlocksFitSamples(xSize, ySize, zSize, off, sampleScale);
    SameCount(grid, Grid(0, 0, 0, xSize, ySize, zSize));
    Upsample(noiseSet, Grid(0, 0, 0, xSize, ySize, zSize), off, sampleScale, k, noiseSetSample, gs, true,
             Shifted(noise(sampleSize), from));
    SampledReproduces(old(noiseSet[..]), noiseSet[..], Grid(0, 0, 0, xSize, ySize, zSize), start, sampleScale,
                      noise(sampleSize));
  }

  /** What SET_BUILDER leaves. */
  ghost predicate PlainFill(before: seq<real>, a: seq<real>, g: Grid, k: nat, aligned: bool, f: Cell -> real) {
    && Proper(g) && Filled(a, g, f, Count(g))
    && |a| == |before| && forall n :: 0 <= n < |a| && n >= Extent(g, k, aligned) ==> a[n] == before[n]
  }

  lemma SameCount(g: Grid, h: Grid)
    requires g.xSize == h.xSize && g.ySize == h.ySize && g.zSize == h.zSize
    ensures Count(g) == Count(h)
  {}

  /** FillSampledNoiseSet on a vector set made for sampling. noise(d, c) is the
      noise of coordinates c moved by d on every axis. */
  method FillSampledVectorSet(noiseSet: array<real>, s: VectorSet, k: nat, aligned: bool, behind: Behind,
                              noise: real -> Cell -> real)
    requires Whole(behind, Pow2(k))
    requires s.sampleScale <= 0 ==> s.Valid(k, aligned) && noiseSet.Length >= Padded(s.size, k, aligned)
    requires s.sampleScale > 0 ==> s.Samples(k, aligned) && s.sampleSizeX > 0 && s.sampleSizeY > 0 && s.sampleSizeZ > 0
    requires s.sampleScale > 0 ==> noiseSet.Length >= Count(Grid(0, 0, 0, s.sampleSizeX, s.sampleSizeY, s.sampleSizeZ))
    modifies noiseSet
    ensures s.sampleScale <= 0 ==> forall n :: 0 <= n < s.size <= s.xSet.Length ==>
      noiseSet[n] == noise(0.0)(Cell(s.xSet[n], s.ySet[n], s.zSet[n]))
    ensures s.sampleScale <= 0 ==> forall n :: 0 <= n < noiseSet.Length && n >= Padded(s.size, k, aligned) ==>
      noiseSet[n] == old(noiseSet[n])
    ensures s.sampleScale > 0 ==>
      FilledOnly(old(noiseSet[..]), noiseSet[..], Grid(0, 0, 0, s.sampleSizeX, s.sampleSizeY, s.sampleSizeZ),
      Upsampled(AtStep(noise(-0.5), Pow2(s.sampleScale)), Cell(0, 0, 0), Pow2(s.sampleScale)))
    ensures s.sampleScale > 0 ==>
      GivesBack(noiseSet[..], Grid(0, 0, 0, s.sampleSizeX, s.sampleSizeY, s.sampleSizeZ), noise(-0.5))
  {
    hide Count, AlignedSize, Filled, FilledOnly, Upsampled, Sampled, BlocksFit, AtStep, SampleGrid, Pow2, Coordinates,
         GivesBack;
    var sampleScale := s.sampleScale;
    if sampleScale <= 0 {
      FillNoiseSet(noiseSet, s, k, aligned, behind, noise(0.0));
      return;
    }
    var xSize, ySize, zSize := s.sampleSizeX, s.sampleSizeY, s.sampleSizeZ;
    var gs := SampleGrid(xSize, ySize, zSize, sampleScale);
    AlignedSizeIsLeastMultiple(s.size, k, 0);
    var noiseSetSample := new real[Padded(s.size, k, aligned)];
    FillNoiseSet(noiseSetSample, s, k, aligned, behind, noise(-0.5));
    SamplesFilled(noiseSetSample[..], s, k, aligned, noise(-0.5));
    BlocksFitSamples(xSize, ySize, zSize, Cell(0, 0, 0), sampleScale);
    Upsample(noiseSet, Grid(0, 0, 0, xSize, ySize, zSize), Cell(0, 0, 0), sampleScale, k, noiseSetSample, gs, false,
             AtStep(noise(-0.5), Pow2(sampleScale)));
    SampledGivesBack(old(noiseSet[..]), noiseSet[..], Grid(0, 0, 0, xSize, ySize, zSize), sampleScale, noise(-0.5));
  }

  lemma SamplesFilled(a: seq<real>, s: VectorSet, k: nat, aligned: bool, f: Cell -> real)
    requires s.Samples(k, aligned) && s.size <= |a| && s.size <= s.xSet.Length
    requires forall n :: 0 <= n < s.size ==> a[n] == f(Cell(s.xSet[n], s.ySet[n], s.zSet[n]))
    ensures Sampled(a, SampleGrid(s.sampleSizeX, s.sampleSizeY, s.sampleSizeZ, s.sampleScale),
                    AtStep(f, Pow2(s.sampleScale)))
  {}

  lemma FractionInside(l: int, size: nat)
    requires 0 <= l < size
    ensures I.Unit(Fraction(l, size))
  {}

  /** Interpolated noise stays within the range of the samples. */
  lemma UpsampledWithin(corner: Cell -> real, off: Cell, size: nat, c: Cell, lo: real, hi: real)
    requires size > 0 && forall b :: lo <= corner(b) <= hi
    ensures lo <= Upsampled(corner, off, size)(c) <= hi
  {
    hide *;
    UpsampledIs(corner, off, size, c);
    BlockLocalPlace(c, off, size);
    CornersOfWithin(corner, Block(c, off, size), lo, hi);
    TrilinearWithin(CornersOf(corner, Block(c, off, size)), Local(c, off, size), size, lo, hi);
  }

  lemma UpsampledIs(corner: Cell -> real, off: Cell, size: nat, c: Cell)
    requires size > 0
    ensures Upsampled(corner, off, size)(c)
      == Trilinear(CornersOf(corner, Block(c, off, size)), Local(c, off, size), size)
  {}

  lemma CornersOfWithin(corner: Cell -> real, b: Cell, lo: real, hi: real)
    requires forall b :: lo <= corner(b) <= hi
    ensures CornersWithin(CornersOf(corner, b), lo, hi)
  {}

  ghost predicate CornersWithin(k: Corners, lo: real, hi: real) {
    && lo <= k.c000 <= hi && lo <= k.c001 <= hi && lo <= k.c010 <= hi && lo <= k.c011 <= hi
    && lo <= k.c100 <= hi && lo <= k.c101 <= hi && lo <= k.c110 <= hi && lo <= k.c111 <= hi
  }

  lemma TrilinearWithin(k: Corners, l: Cell, size: nat, lo: real, hi: real)
    requires IsLocal(l, size) && CornersWithin(k, lo, hi)
    ensures lo <= Trilinear(k, l, size) <= hi
  {
    hide I.Lerp, I.Unit, Fraction;
    FractionInside(l.x, size);
    FractionInside(l.y, size);
    FractionInside(l.z, size);
    var xf, yf, zf := Fraction(l.x, size), Fraction(l.y, size), Fraction(l.z, size);
    I.LerpWithin(k.c000, k.c100, xf, lo, hi);
    I.LerpWithin(k.c010, k.c110, xf, lo, hi);
    I.LerpWithin(k.c001, k.c101, xf, lo, hi);
    I.LerpWithin(k.c011, k.c111, xf, lo, hi);
    var z0 := I.Lerp(I.Lerp(k.c000, k.c100, xf), I.Lerp(k.c010, k.c110, xf), yf);
    var z1 := I.Lerp(I.Lerp(k.c001, k.c101, xf), I.Lerp(k.c011, k.c111, xf), yf);
    I.LerpWithin(I.Lerp(k.c000, k.c100, xf), I.Lerp(k.c010, k.c110, xf), yf, lo, hi);
    I.LerpWithin(I.Lerp(k.c001, k.c101, xf), I.Lerp(k.c011, k.c111, xf), yf, lo, hi);
    I.LerpWithin(z0, z1, zf, lo, hi);
  }

  // ---------- what up-sampling reproduces ----------

  /** At every sample, corner is the value of the polynomial p at a point that
      starts at (x, y, z) and moves by s with each sample. */
  ghost predicate FollowsFrom(corner: Cell -> real, p: I.Poly, x: real, y: real, z: real, s: real) {
    forall b: Cell :: corner(b) == PolyAt(p, b, x, y, z, s)
  }

  function PolyAt(p: I.Poly, b: Cell, x: real, y: real, z: real, s: real): real {
    I.ValueAt(p, I.Along(x, s, b.x as real), I.Along(y, s, b.y as real), I.Along(z, s, b.z as real))
  }

  /** The middle of cell n, in samples. */
  function Middle(n: int, size: nat): real
    requires size > 0
  {
    (n as real + 0.5) / size as real
  }

  lemma MiddleOf(n: int, size: nat)
    requires size > 0
    ensures (n / size) as real + Fraction(n % size, size) == Middle(n, size)
  {
    var b, l, r := (n / size) as real, (n % size) as real, size as real;
    Divided(n, size);
    assert n as real == b * r + l;
    assert (b * r + l + 0.5) / r == b + (l + 0.5) / r;
  }

  /** Interpolating the samples of a polynomial gives the polynomial in between. */
  lemma UpsampledReproduces(corner: Cell -> real, off: Cell, size: nat, c: Cell, p: I.Poly, x: real, y: real, z: real,
                            s: real)
    requires size > 0 && FollowsFrom(corner, p, x, y, z, s)
    ensures Upsampled(corner, off, size)(c) == I.ValueAt(p, I.Along(x, s, Middle(c.x + off.x, size)),
                                                         I.Along(y, s, Middle(c.y + off.y, size)),
                                                         I.Along(z, s, Middle(c.z + off.z, size)))
  {
    hide I.ValueAt, I.Along, Fraction, Middle, FollowsFrom, CornersOf, PolyCorners, Trilinear, Upsampled;
    var b, l := Block(c, off, size), Local(c, off, size);
    UpsampledIs(corner, off, size, c);
    CornersFollow(corner, b, p, x, y, z, s);
    TrilinearReproduces(l, size, p, I.Along(x, s, b.x as real), I.Along(y, s, b.y as real),
                        I.Along(z, s, b.z as real), s);
    MiddleFrom(c.x + off.x, size, x, s);
    MiddleFrom(c.y + off.y, size, y, s);
    MiddleFrom(c.z + off.z, size, z, s);
  }

  lemma TrilinearReproduces(l: Cell, size: nat, p: I.Poly, x: real, y: real, z: real, s: real)
    requires size > 0
    ensures Trilinear(PolyCorners(p, x, y, z, s), l, size)
      == I.ValueAt(p, I.Along(x, s, Fraction(l.x, size)), I.Along(y, s, Fraction(l.y, size)),
                   I.Along(z, s, Fraction(l.z, size)))
  {
    hide I.ValueAt, I.Lerp, I.Along, Fraction;
    I.LerpThrice(p, x, y, z, s, Fraction(l.x, size), Fraction(l.y, size), Fraction(l.z, size));
  }

  /** The values of p at the corners of a cube of side s. */
  function PolyCorners(p: I.Poly, x: real, y: real, z: real, s: real): Corners {
    var x1, y1, z1 := x + s, y + s, z + s;
    Corners(I.ValueAt(p, x, y, z), I.ValueAt(p, x, y, z1), I.ValueAt(p, x, y1, z), I.ValueAt(p, x, y1, z1),
            I.ValueAt(p, x1, y, z), I.ValueAt(p, x1, y, z1), I.ValueAt(p, x1, y1, z), I.ValueAt(p, x1, y1, z1))
  }

  lemma MiddleFrom(n: int, size: nat, x: real, s: real)
    requires size > 0
    ensures I.Along(I.Along(x, s, (n / size) as real), s, Fraction(n % size, size)) == I.Along(x, s, Middle(n, size))
  {
    hide Fraction, Middle;
    var b, f := (n / size) as real, Fraction(n % size, size);
    MiddleOf(n, size);
    assert s * b + s * f == s * (b + f);
  }

  lemma CornersFollow(corner: Cell -> real, b: Cell, p: I.Poly, x: real, y: real, z: real, s: real)
    requires FollowsFrom(corner, p, x, y, z, s)
    ensures CornersOf(corner, b)
      == PolyCorners(p, I.Along(x, s, b.x as real), I.Along(y, s, b.y as real), I.Along(z, s, b.z as real), s)
  {
    hide I.ValueAt, I.Along;
    NextSample(x, s, b.x);
    NextSample(y, s, b.y);
    NextSample(z, s, b.z);
  }

  lemma NextSample(x: real, s: real, b: int)
    ensures I.Along(x, s, (b + 1) as real) == I.Along(x, s, b as real) + s
  {
    assert (b + 1) as real == b as real + 1.0;
  }

  /** f takes the values of p at every cell, moved by d on every axis. */
  ghost predicate Follows(f: Cell -> real, p: I.Poly, d: real) {
    FollowsFrom(f, p, d, d, d, 1.0)
  }

  /** The place that cell 0 is given in the noise: the start itself on a multiple
      of the sample size, else as far behind the next multiple as the start is
      behind the last. */
  function GivenPlace(start: int, size: nat): int
    requires size > 0
  {
    if start % size == 0 then start else start + size - 2 * (start % size)
  }

  lemma PlaceGiven(start: int, scale: nat, x: int)
    ensures var size := Pow2(scale);
      I.Along(ShiftRight(start, scale) as real, 1.0, Middle(x + Offset(start, scale), size))
        == Middle(GivenPlace(start, size) + x, size)
  {
    hide Pow2, Offset;
    var size := Pow2(scale);
    var q, r := start / size, start % size;
    Divided(start, size);
    OffsetIs(start, scale);
    if r == 0 { Quotient(1, size, 0, size); } else { Quotient(0, size, size - r, size - r); }
    var n := x + Offset(start, scale);
    assert q * size + n == GivenPlace(start, size) + x;
    AddedToMiddle(q, n, size);
  }

  lemma AddedToMiddle(q: int, n: int, size: nat)
    requires size > 0
    ensures q as real + Middle(n, size) == Middle(q * size + n, size)
  {
    var a, b, r := q as real, n as real, size as real;
    assert (q * size + n) as real == a * r + b;
    assert (a * r + b + 0.5) / r == a + (b + 0.5) / r;
  }

  /** Every cell holds the value of p at its middle, for every polynomial that
      the noise at this scale follows. */
  ghost predicate Reproduces(a: seq<real>, g: Grid, start: Cell, size: nat, f: Cell -> real)
    requires Proper(g) && size > 0 && |a| >= Count(g)
  {
    forall p, n :: Follows(f, p, 0.0) && 0 <= n < Count(g) ==>
      var c := CellAt(g, n);
      a[n] == I.ValueAt(p, Middle(GivenPlace(start.x, size) + c.x, size),
                        Middle(GivenPlace(start.y, size) + c.y, size),
                        Middle(GivenPlace(start.z, size) + c.z, size))
  }

  lemma SampledReproduces(before: seq<real>, a: seq<real>, g: Grid, start: Cell, scale: nat, f: Cell -> real)
    requires FilledOnly(before, a, g,
                        Upsampled(Shifted(f, SampleStart(start, scale)), Offsets(start, scale), Pow2(scale)))
    ensures Reproduces(a, g, start, Pow2(scale), f)
  {
    hide Count, CellAt, Upsampled, Shifted, Offset, Pow2, ShiftRight, I.ValueAt, Middle, Follows, GivenPlace;
    var size := Pow2(scale);
    forall p, n | Follows(f, p, 0.0) && 0 <= n < Count(g)
      ensures var c := CellAt(g, n);
        a[n] == I.ValueAt(p, Middle(GivenPlace(start.x, size) + c.x, size),
                          Middle(GivenPlace(start.y, size) + c.y, size),
                          Middle(GivenPlace(start.z, size) + c.z, size))
    {
      CellReproduces(f, start, scale, CellAt(g, n), p);
    }
  }

  lemma CellReproduces(f: Cell -> real, start: Cell, scale: nat, c: Cell, p: I.Poly)
    requires Follows(f, p, 0.0)
    ensures var size := Pow2(scale);
      Upsampled(Shifted(f, SampleStart(start, scale)), Offsets(start, scale), size)(c)
        == I.ValueAt(p, Middle(GivenPlace(start.x, size) + c.x, size),
                     Middle(GivenPlace(start.y, size) + c.y, size),
                     Middle(GivenPlace(start.z, size) + c.z, size))
  {
    hide Offset, Pow2, ShiftRight, I.ValueAt, I.Along, Middle, Upsampled, GivenPlace, Follows, FollowsFrom;
    var from, size := SampleStart(start, scale), Pow2(scale);
    ShiftedFollows(f, from, p);
    UpsampledReproduces(Shifted(f, from), Offsets(start, scale), size, c, p, from.x as real, from.y as real,
                        from.z as real, 1.0);
    PlaceGiven(start.x, scale, c.x);
    PlaceGiven(start.y, scale, c.y);
    PlaceGiven(start.z, scale, c.z);
  }

  lemma ShiftedFollows(f: Cell -> real, from: Cell, p: I.Poly)
    requires Follows(f, p, 0.0)
    ensures FollowsFrom(Shifted(f, from), p, from.x as real, from.y as real, from.z as real, 1.0)
  {
    forall b: Cell
      ensures Shifted(f, from)(b) == PolyAt(p, b, from.x as real, from.y as real, from.z as real, 1.0)
    {
      var c := Cell(b.x + from.x, b.y + from.y, b.z + from.z);
      assert f(c) == PolyAt(p, c, 0.0, 0.0, 0.0, 1.0);
      hide I.ValueAt;
      assert I.Along(0.0, 1.0, c.x as real) == I.Along(from.x as real, 1.0, b.x as real);
      assert I.Along(0.0, 1.0, c.y as real) == I.Along(from.y as real, 1.0, b.y as real);
      assert I.Along(0.0, 1.0, c.z as real) == I.Along(from.z as real, 1.0, b.z as real);
    }
  }

  /** With coordinates half a cell back, up-sampling gives back what the plain
      fill would: every cell holds the value of p at its own coordinates. */
  ghost predicate GivesBack(a: seq<real>, g: Grid, f: Cell -> real)
    requires Proper(g) && |a| >= Count(g)
  {
    forall p, n :: Follows(f, p, -0.5) && 0 <= n < Count(g) ==>
      var c := CellAt(g, n); a[n] == I.ValueAt(p, c.x as real, c.y as real, c.z as real)
  }

  lemma SampledGivesBack(before: seq<real>, a: seq<real>, g: Grid, scale: nat, f: Cell -> real)
    requires FilledOnly(before, a, g, Upsampled(AtStep(f, Pow2(scale)), Cell(0, 0, 0), Pow2(scale)))
    ensures GivesBack(a, g, f)
  {
    hide Count, CellAt, Upsampled, AtStep, Pow2, I.ValueAt, Follows;
    forall p, n | Follows(f, p, -0.5) && 0 <= n < Count(g)
      ensures var c := CellAt(g, n); a[n] == I.ValueAt(p, c.x as real, c.y as real, c.z as real)
    {
      CellGivenBack(f, scale, CellAt(g, n), p);
    }
  }

  lemma CellGivenBack(f: Cell -> real, scale: nat, c: Cell, p: I.Poly)
    requires Follows(f, p, -0.5)
    ensures Upsampled(AtStep(f, Pow2(scale)), Cell(0, 0, 0), Pow2(scale))(c)
      == I.ValueAt(p, c.x as real, c.y as real, c.z as real)
  {
    hide Pow2, I.ValueAt, I.Along, Middle, Upsampled, Follows, FollowsFrom;
    var size := Pow2(scale);
    AtStepFollows(f, size, p);
    UpsampledReproduces(AtStep(f, size), Cell(0, 0, 0), size, c, p, -0.5, -0.5, -0.5, size as real);
    MiddleBack(c.x, size);
    MiddleBack(c.y, size);
    MiddleBack(c.z, size);
  }

  lemma MiddleBack(n: int, size: nat)
    requires size > 0
    ensures I.Along(-0.5, size as real, Middle(n, size)) == n as real
  {}

  lemma AtStepFollows(f: Cell -> real, size: nat, p: I.Poly)
    requires Follows(f, p, -0.5)
    ensures FollowsFrom(AtStep(f, size), p, -0.5, -0.5, -0.5, size as real)
  {
    forall b: Cell ensures AtStep(f, size)(b) == PolyAt(p, b, -0.5, -0.5, -0.5, size as real) {
      var c := Stretched(b, size);
      assert f(c) == PolyAt(p, c, -0.5, -0.5, -0.5, 1.0);
      hide I.ValueAt, I.Along;
      StretchedStep(b.x, size);
      StretchedStep(b.y, size);
      StretchedStep(b.z, size);
    }
  }

  lemma StretchedStep(b: int, size: nat)
    ensures I.Along(-0.5, 1.0, (b * size) as real) == I.Along(-0.5, size as real, b as real)
  {}

  /** Along one axis: cell x of the output takes the block and the local cell
      that its world coordinate start + x has. */
  ghost predicate WorldAligned(start: int, scale: nat, x: int) {
    var p := Pow2(scale);
    var shifted := x + Offset(start, scale);
    ShiftRight(start, scale) + shifted / p == (start + x) / p && shifted % p == (start + x) % p
  }

  /** The offset is right for every cell, or for none: only a start on a
      multiple of the sample size, or half way between two, is aligned. */
  lemma WorldAlignedExactly(start: int, scale: nat, x: int)
    ensures WorldAligned(start, scale, x) <==> start * 2 % Pow2(scale) == 0
  {
    var p := Pow2(scale);
    var r, off := start % p, Offset(start, scale);
    hide Offset, Pow2;
    OffsetIs(start, scale);
    Divided(start, p);
    SplitStart(start, x, p);
    SameDivision(x + off, x + r, p);
    HalfWay(start, p);
  }

  lemma SplitStart(start: int, x: int, p: nat)
    requires p > 0
    ensures (start + x) / p == start / p + (x + start % p) / p && (start + x) % p == (x + start % p) % p
  {
    var y := x + start % p;
    Divided(start, p);
    Divided(y, p);
    Sum(start / p, y / p, p);
    Quotient(start / p + y / p, p, y % p, start + x);
  }

  lemma Sum(a: int, b: int, p: int)
    ensures (a + b) * p == a * p + b * p
  {}

  /** Quotient and remainder together determine a number. */
  lemma SameDivision(a: int, b: int, p: nat)
    requires p > 0
    ensures a == b <==> a / p == b / p && a % p == b % p
  {}

  lemma HalfWay(start: int, p: nat)
    requires p > 0
    ensures (p - start % p) % p == start % p <==> start * 2 % p == 0
  {
    var r := start % p;
    Divided(start, p);
    Twice(start / p, p);
    if r == 0 {
      Quotient(1, p, 0, p);
      Quotient(2 * (start / p), p, 0, start * 2);
    } else {
      Quotient(0, p, p - r, p - r);
      if 2 * r < p {
        Quotient(2 * (start / p), p, 2 * r, start * 2);
      } else {
        Sum(2 * (start / p), 1, p);
        Quotient(2 * (start / p) + 1, p, 2 * r - p, start * 2);
      }
    }
  }

  lemma Twice(a: int, p: int)
    ensures 2 * a * p == 2 * (a * p)
  {}
}
