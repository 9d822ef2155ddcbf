/** The running list of nearest distances of cellular noise. */
module Cellular {
  import opened Lattice
  import opened Options
  import F = FastNoise
  import I = Interpolation

  function Fmin(a: real, b: real): real { if a <= b then a else b }

  function Fmax(a: real, b: real): real { if a >= b then a else b }

  /** The list after one more distance, every element from the old list. */
  function Network(a: seq<real>, x: real): (b: seq<real>)
    ensures |b| == |a|
  {
    seq(|a|, i requires 0 <= i < |a| => if i == 0 then Fmin(a[0], x) else Fmax(Fmin(a[i], x), a[i - 1]))
  }

  ghost predicate Sorted(a: seq<real>) {
    forall i, j :: 0 <= i <= j < |a| ==> a[i] <= a[j]
  }

  /** a lists the |a| smallest of all, in order. */
  ghost predicate Smallest(a: seq<real>, all: multiset<real>) {
    Sorted(a) && multiset(a) <= all && forall x | x in all - multiset(a) :: a != [] ==> x >= a[|a| - 1]
  }

  /** There is only one such list of a given length. */
  lemma SmallestIsUnique(a: seq<real>, b: seq<real>, all: multiset<real>)
    requires |a| == |b| && Smallest(a, all) && Smallest(b, all)
    ensures a == b
  {
    hide Smallest;
    EqualUpTo(a, b, all, |a|);
  }

  lemma {:induction false} EqualUpTo(a: seq<real>, b: seq<real>, all: multiset<real>, n: nat)
    requires n <= |a| == |b| && Smallest(a, all) && Smallest(b, all)
    ensures a[..n] == b[..n]
  {
    hide Smallest;
    if n == 0 {
    } else {
      EqualUpTo(a, b, all, n - 1);
      NotBelow(a, b, all, n - 1);
      NotBelow(b, a, all, n - 1);
    }
  }

  lemma NotBelow(a: seq<real>, b: seq<real>, all: multiset<real>, i: nat)
    requires i < |a| == |b| && a[..i] == b[..i] && Smallest(a, all) && Smallest(b, all)
    ensures a[i] >= b[i]
  {
    if a[i] < b[i] {
      HasMore(a, b, i);
      LeftOver(b, all, a[i]);
      assert false;
    }
  }

  lemma HasMore(a: seq<real>, b: seq<real>, i: nat)
    requires i < |a| == |b| && a[..i] == b[..i] && forall j :: i <= j < |b| ==> b[j] != a[i]
    ensures multiset(a)[a[i]] > multiset(b)[a[i]]
  {
    assert a == a[..i] + [a[i]] + a[i + 1..];
    assert b == b[..i] + b[i..];
    assert a[i] !in b[i..];
  }

  /** What the list lacks is not below its last. */
  lemma LeftOver(b: seq<real>, all: multiset<real>, v: real)
    requires b != [] && Smallest(b, all) && multiset(b)[v] < all[v]
    ensures b[|b| - 1] <= v
  {
    assert v in all - multiset(b);
  }

  /** The position where x goes into the sorted list a. */
  function Position(a: seq<real>, x: real): (p: nat)
    ensures p <= |a| && (forall i :: 0 <= i < p ==> a[i] <= x) && (p < |a| ==> a[p] > x)
  {
    if a == [] || a[0] > x then 0 else 1 + Position(a[1..], x)
  }

  /** x put in its place, the last dropped. */
  function Inserted(a: seq<real>, x: real): (b: seq<real>)
    ensures |b| == |a|
  {
    var p := Position(a, x);
    if p == |a| then a else a[..p] + [x] + a[p..|a| - 1]
  }

  lemma InsertedAt(a: seq<real>, x: real, i: nat)
    requires i < |a|
    ensures var p := Position(a, x); Inserted(a, x)[i] == if i < p then a[i] else if i == p then x else a[i - 1]
  {}

  lemma NetworkAt(a: seq<real>, x: real, i: nat)
    requires Sorted(a) && i < |a|
    ensures var p := Position(a, x); Network(a, x)[i] == if i < p then a[i] else if i == p then x else a[i - 1]
  {
    var p := Position(a, x);
    if i < p {
    } else if i == p {
      if 0 < i { assert a[i - 1] <= x < a[i]; }
    } else {
      assert x < a[p] <= a[i - 1] <= a[i];
    }
  }

  /** The network puts x in its place and drops the last. */
  lemma NetworkInserts(a: seq<real>, x: real)
    requires Sorted(a)
    ensures Network(a, x) == Inserted(a, x)
  {
    hide Network, Inserted, Position;
    forall i | 0 <= i < |a| ensures Network(a, x)[i] == Inserted(a, x)[i] {
      NetworkAt(a, x, i);
      InsertedAt(a, x, i);
    }
  }

  /** One step keeps the list that of the smallest. */
  lemma NetworkKeepsSmallest(a: seq<real>, all: multiset<real>, x: real)
    requires Smallest(a, all)
    ensures Smallest(Network(a, x), all + multiset{x})
  {
    hide Network, Position, Sorted;
    NetworkInserts(a, x);
    var p := Position(a, x);
    if p == |a| {
      DropNewest(a, all, x);
    } else {
      DropLast(a, all, x, p, Network(a, x));
    }
  }

  lemma DropNewest(a: seq<real>, all: multiset<real>, x: real)
    requires Smallest(a, all) && forall i :: 0 <= i < |a| ==> a[i] <= x
    ensures Smallest(a, all + multiset{x})
  {
    assert all + multiset{x} - multiset(a) == all - multiset(a) + multiset{x};
  }

  lemma DropLast(a: seq<real>, all: multiset<real>, x: real, p: nat, b: seq<real>)
    requires Smallest(a, all) && p < |a| && b == a[..p] + [x] + a[p..|a| - 1]
    requires (forall i :: 0 <= i < p ==> a[i] <= x) && a[p] > x
    ensures Smallest(b, all + multiset{x})
  {
    var last := a[|a| - 1];
    InsertedSorted(a, x, p, b);
    InsertedElements(a, x, p, b);
    Exchange(all, multiset(a), multiset(b), x, last);
  }

  lemma InsertedSorted(a: seq<real>, x: real, p: nat, b: seq<real>)
    requires Sorted(a) && p < |a| && b == a[..p] + [x] + a[p..|a| - 1]
    requires (forall i :: 0 <= i < p ==> a[i] <= x) && a[p] > x
    ensures Sorted(b) && b[|b| - 1] <= a[|a| - 1]
  {}

  lemma InsertedElements(a: seq<real>, x: real, p: nat, b: seq<real>)
    requires p < |a| && b == a[..p] + [x] + a[p..|a| - 1]
    ensures multiset(b) == multiset(a) - multiset{a[|a| - 1]} + multiset{x}
  {
    var last := a[|a| - 1];
    assert a == a[..p] + a[p..|a| - 1] + [last];
  }

  /** What is left over after exchanging last for x. */
  lemma Exchange(all: multiset<real>, a: multiset<real>, b: multiset<real>, x: real, last: real)
    requires a <= all && last in a && b == a - multiset{last} + multiset{x}
    ensures b <= all + multiset{x} && all + multiset{x} - b == all - a + multiset{last}
  {}

  const SENTINEL := 999999.0

  /** The list after the distances ds, kept n long. */
  function Nearest(n: nat, ds: seq<real>): (a: seq<real>)
    ensures |a| == n
  {
    if ds == [] then seq(n, _ => SENTINEL) else Network(Nearest(n, ds[..|ds| - 1]), ds[|ds| - 1])
  }

  function Sentinels(n: nat): (s: seq<real>)
    ensures |s| == n && forall i :: 0 <= i < n ==> s[i] == SENTINEL
  {
    seq(n, _ => SENTINEL)
  }

  /** After any distances, the list is that of the n smallest among them and
      the initial sentinels. */
  lemma {:induction false} NearestIsSmallest(n: nat, ds: seq<real>)
    ensures Smallest(Nearest(n, ds), multiset(Sentinels(n)) + multiset(ds))
  {
    hide Smallest, Network;
    if ds == [] {
      SentinelsSmallest(n);
    } else {
      var rest, last := ds[..|ds| - 1], ds[|ds| - 1];
      NearestIsSmallest(n, rest);
      NetworkKeepsSmallest(Nearest(n, rest), multiset(Sentinels(n)) + multiset(rest), last);
      LastElement(ds, multiset(Sentinels(n)));
    }
  }

  lemma SentinelsSmallest(n: nat)
    ensures Nearest(n, []) == Sentinels(n) && Smallest(Sentinels(n), multiset(Sentinels(n)) + multiset([]))
  {}

  lemma LastElement(ds: seq<real>, m: multiset<real>)
    requires ds != []
    ensures m + multiset(ds[..|ds| - 1]) + multiset{ds[|ds| - 1]} == m + multiset(ds)
  {
    assert ds == ds[..|ds| - 1] + [ds[|ds| - 1]];
  }

  /** Steps the first n entries in place, from the far end. */
  method Step(distance: array<real>, n: nat, newDistance: real)
    requires 0 < n <= distance.Length
    modifies distance
    ensures distance[..n] == Network(old(distance[..n]), newDistance)
    ensures distance[n..] == old(distance[n..])
  {
    ghost var before := distance[..];
    var i := n - 1;
    while i > 0
      invariant 0 <= i < n
      invariant forall j :: 0 <= j <= i || n <= j < distance.Length ==> distance[j] == before[j]
      invariant forall j :: i < j < n ==> distance[j] == Fmax(Fmin(before[j], newDistance), before[j - 1])
    {
      distance[i] := Fmax(Fmin(distance[i], newDistance), distance[i - 1]);
      i := i - 1;
    }
    distance[0] := Fmin(distance[0], newDistance);
  }

  datatype DistanceFunction = Euclidean | Manhattan | Natural

  datatype ReturnType = Distance2 | Distance2Add | Distance2Sub | Distance2Mul | Distance2Div

  function Abs(a: real): real { if a < 0.0 then -a else a }

  function Distance(kind: DistanceFunction, x: real, y: real, z: real): real {
    match kind
    case Euclidean => x * x + y * y + z * z
    case Manhattan => Abs(x) + Abs(y) + Abs(z)
    case Natural => Abs(x) + Abs(y) + Abs(z) + (x * x + y * y + z * z)
  }

  function FastRound(f: real): int {
    if f >= 0.0 then Truncate(f + 0.5) else Truncate(f - 0.5)
  }

  /** The jitter directions, CELL_3D_X, CELL_3D_Y and CELL_3D_Z. */
  datatype Jitter = Jitter(x: seq<real>, y: seq<real>, z: seq<real>, amount: real)

  ghost predicate JitterTables(c: Jitter) {
    |c.x| == |c.y| == |c.z| == 256
  }

  /** From (x, y, z) to the jittered point of lattice cell (xi, yi, zi). */
  function ToPoint(n: F.FastNoise, c: Jitter, x: real, y: real, z: real, xi: int, yi: int, zi: int): (real, real, real)
    requires n.Tables() && JitterTables(c)
  {
    var lutPos := n.Index3D(0, xi, yi, zi);
    (xi as real - x + c.x[lutPos] * c.amount, yi as real - y + c.y[lutPos] * c.amount,
     zi as real - z + c.z[lutPos] * c.amount)
  }

  function PointDistance(n: F.FastNoise, c: Jitter, kind: DistanceFunction, x: real, y: real, z: real, xi: int,
                         yi: int, zi: int): real
    requires n.Tables() && JitterTables(c)
  {
    var v := ToPoint(n, c, x, y, z, xi, yi, zi);
    Distance(kind, v.0, v.1, v.2)
  }

  /** The distances to the first m of the 27 cells around, z running fastest. */
  function Around(n: F.FastNoise, c: Jitter, kind: DistanceFunction, x: real, y: real, z: real, m: nat): (ds: seq<real>)
    requires n.Tables() && JitterTables(c)
    ensures |ds| == m
  {
    if m == 0 then [] else
      var k := m - 1;
      Around(n, c, kind, x, y, z, k)
      + [PointDistance(n, c, kind, x, y, z, FastRound(x) - 1 + k / 9, FastRound(y) - 1 + k / 3 % 3,
                       FastRound(z) - 1 + k % 3)]
  }

  /** Dividing by a zero distance gives no number. */
  function Combined(kind: ReturnType, d0: real, d1: real): Option<real> {
    match kind
    case Distance2 => Some(d1)
    case Distance2Add => Some(d1 + d0)
    case Distance2Sub => Some(d1 - d0)
    case Distance2Mul => Some(d1 * d0)
    case Distance2Div => if d1 == 0.0 then None else Some(d0 / d1)
  }

  /** Entry i of the list of nearest points around (x, y, z). */
  function NearestAround(n: F.FastNoise, c: Jitter, kind: DistanceFunction, x: real, y: real, z: real, i: nat): real
    requires n.Tables() && JitterTables(c) && i <= n.cellularDistanceIndex1
    reads n
  {
    Nearest(n.cellularDistanceIndex1 + 1, Around(n, c, kind, x, y, z, 27))[i]
  }

  lemma FirstNearest(n: F.FastNoise, c: Jitter, kind: DistanceFunction, x: real, y: real, z: real, count: nat)
    requires n.Tables() && JitterTables(c)
    ensures Nearest(count, Around(n, c, kind, x, y, z, 0)) == Sentinels(count)
  {}

  /** The loops over the 27 cells around. */
  method FindNearest(n: F.FastNoise, c: Jitter, kind: DistanceFunction, x: real, y: real, z: real)
    returns (distance: array<real>)
    requires n.Tables() && JitterTables(c) && n.IndicesOrdered()
    ensures distance.Length == F.INDEX_MAX + 1
    ensures distance[..n.cellularDistanceIndex1 + 1]
      == Nearest(n.cellularDistanceIndex1 + 1, Around(n, c, kind, x, y, z, 27))
  {
    hide PointDistance, Network, FastRound, Around, Nearest;
    var xr, yr, zr := FastRound(x), FastRound(y), FastRound(z);
    var count := n.cellularDistanceIndex1 + 1;
    distance := new real[F.INDEX_MAX + 1](_ => SENTINEL);
    FirstNearest(n, c, kind, x, y, z, count);
    assert distance[..count] == Sentinels(count);
    for xi := 0 to 3
      invariant distance[..count] == Nearest(count, Around(n, c, kind, x, y, z, xi * 9))
    {
      for yi := 0 to 3
        invariant distance[..count] == Nearest(count, Around(n, c, kind, x, y, z, xi * 9 + yi * 3))
      {
        for zi := 0 to 3
          invariant distance[..count] == Nearest(count, Around(n, c, kind, x, y, z, xi * 9 + yi * 3 + zi))
        {
          var newDistance := PointDistance(n, c, kind, x, y, z, xr - 1 + xi, yr - 1 + yi, zr - 1 + zi);
          OneMoreAround(n, c, kind, x, y, z, xi, yi, zi, count);
          Step(distance, count, newDistance);
        }
      }
    }
  }

  /** The result combines two entries of the list of nearest points. */
  method SingleCellular2Edge(n: F.FastNoise, c: Jitter, kind: DistanceFunction, result: ReturnType, x: real, y: real,
                             z: real)
    returns (r: Option<real>)
    requires n.Tables() && JitterTables(c) && n.IndicesOrdered()
    ensures r == Combined(result, NearestAround(n, c, kind, x, y, z, n.cellularDistanceIndex0),
                          NearestAround(n, c, kind, x, y, z, n.cellularDistanceIndex1))
    ensures forall a | Listed(a, n.cellularDistanceIndex1 + 1, Around(n, c, kind, x, y, z, 27)) ::
      Answers(result, a[n.cellularDistanceIndex0], a[n.cellularDistanceIndex1], r)
    ensures c.amount == 0.0 && kind == Euclidean && result == Distance2 && n.cellularDistanceIndex1 == 0 ==>
      r.Some? && LeastSquare(x, y, z, r.value)
  {
    hide Around, Nearest, Combined, LeastSquare, Answers, Listed;
    var count := n.cellularDistanceIndex1 + 1;
    var distance := FindNearest(n, c, kind, x, y, z);
    r := Combined(result, distance[n.cellularDistanceIndex0], distance[n.cellularDistanceIndex1]);
    OnlyOneList(count, Around(n, c, kind, x, y, z, 27));
    CombinedAnswers(result, distance[n.cellularDistanceIndex0], distance[n.cellularDistanceIndex1]);
    if c.amount == 0.0 && kind == Euclidean && n.cellularDistanceIndex1 == 0 { LeastUnjittered(n, c, x, y, z); }
  }

  /** a is the sorted list of the smallest, among these distances and the sentinels. */
  ghost predicate Listed(a: seq<real>, count: nat, ds: seq<real>) {
    |a| == count && Smallest(a, multiset(Sentinels(count)) + multiset(ds))
  }

  lemma OnlyOneList(count: nat, ds: seq<real>)
    ensures Listed(Nearest(count, ds), count, ds) && forall a | Listed(a, count, ds) :: a == Nearest(count, ds)
  {
    hide Nearest, Smallest;
    NearestIsSmallest(count, ds);
    forall a | Listed(a, count, ds) ensures a == Nearest(count, ds) {
      SmallestIsUnique(a, Nearest(count, ds), multiset(Sentinels(count)) + multiset(ds));
    }
  }

  /** r is what the return type asks for, near and far being the entries at the two indices. */
  ghost predicate Answers(kind: ReturnType, near: real, far: real, r: Option<real>) {
    match kind
    case Distance2 => r == Some(far)
    case Distance2Add => r == Some(near + far)
    case Distance2Sub => r.Some? && near + r.value == far
    case Distance2Mul => r == Some(near * far)
    case Distance2Div => if r.None? then far == 0.0 else r.value * far == near
  }

  lemma CombinedAnswers(kind: ReturnType, d0: real, d1: real)
    ensures Answers(kind, d0, d1, Combined(kind, d0, d1))
  {}

  /** The return types at one point hang together. */
  lemma ReturnTypesAgree(d0: real, d1: real)
    ensures var two, add := Combined(Distance2, d0, d1), Combined(Distance2Add, d0, d1);
      var sub := Combined(Distance2Sub, d0, d1);
      var mul, div := Combined(Distance2Mul, d0, d1), Combined(Distance2Div, d0, d1);
      && add.value + sub.value == 2.0 * two.value && add.value - sub.value == 2.0 * d0
      && (div.Some? ==> mul.value == div.value * (two.value * two.value))
      && (d0 == d1 ==> sub.value == 0.0 && mul.value == two.value * two.value)
  {
    if d1 != 0.0 {
      var q := d0 / d1;
      assert q * d1 == d0;
      assert q * (d1 * d1) == q * d1 * d1;
    }
  }

  // ---------- the points and their distances ----------

  /** The list goes through each of the 27 cells around the rounded point. */
  lemma {:induction false} AroundHas(n: F.FastNoise, c: Jitter, kind: DistanceFunction, x: real, y: real, z: real,
                                     m: nat, k: nat)
    requires n.Tables() && JitterTables(c) && k < m
    ensures Around(n, c, kind, x, y, z, m)[k]
      == PointDistance(n, c, kind, x, y, z, FastRound(x) - 1 + k / 9, FastRound(y) - 1 + k / 3 % 3,
                       FastRound(z) - 1 + k % 3)
  {
    hide *;
    AroundNext(n, c, kind, x, y, z, m - 1);
    if k == m - 1 {
    } else {
      AroundHas(n, c, kind, x, y, z, m - 1, k);
    }
  }

  lemma AroundCovers(n: F.FastNoise, c: Jitter, kind: DistanceFunction, x: real, y: real, z: real, dx: int, dy: int,
                     dz: int)
    requires n.Tables() && JitterTables(c) && -1 <= dx <= 1 && -1 <= dy <= 1 && -1 <= dz <= 1
    ensures Around(n, c, kind, x, y, z, 27)[(dx + 1) * 9 + (dy + 1) * 3 + dz + 1]
      == PointDistance(n, c, kind, x, y, z, FastRound(x) + dx, FastRound(y) + dy, FastRound(z) + dz)
  {
    hide *;
    NumberParts(dx + 1, dy + 1, dz + 1);
    AroundHas(n, c, kind, x, y, z, 27, (dx + 1) * 9 + (dy + 1) * 3 + dz + 1);
  }

  /** The jittered point of a cell is off the cell's own by the table entries
      on each axis, times the amount. */
  lemma JitterMoves(n: F.FastNoise, c: Jitter, x: real, y: real, z: real, xi: int, yi: int, zi: int)
    requires n.Tables() && JitterTables(c)
    ensures var still := ToPoint(n, c.(amount := 0.0), x, y, z, xi, yi, zi);
      still == (xi as real - x, yi as real - y, zi as real - z)
    ensures var p, lut := ToPoint(n, c, x, y, z, xi, yi, zi), n.Index3D(0, xi, yi, zi);
      && p.0 - (xi as real - x) == c.amount * c.x[lut] && p.1 - (yi as real - y) == c.amount * c.y[lut]
      && p.2 - (zi as real - z) == c.amount * c.z[lut]
  {
    hide F.FastNoise.Index3D;
    var lut := n.Index3D(0, xi, yi, zi);
    OffBy(xi as real - x, c.x[lut], c.amount);
    OffBy(yi as real - y, c.y[lut], c.amount);
    OffBy(zi as real - z, c.z[lut], c.amount);
  }

  lemma OffBy(a: real, t: real, m: real)
    ensures a + t * m - a == m * t && a + t * 0.0 == a
  {}

  /** How the distance functions hang together. */
  lemma DistancesAgree(x: real, y: real, z: real)
    ensures Distance(Natural, x, y, z) == Distance(Manhattan, x, y, z) + Distance(Euclidean, x, y, z)
    ensures Distance(Manhattan, x, y, z) * Distance(Manhattan, x, y, z) >= Distance(Euclidean, x, y, z)
    ensures Distance(Manhattan, x, 0.0, 0.0) == Abs(x) && Distance(Euclidean, x, 0.0, 0.0) == x * x
    ensures forall kind: DistanceFunction ::
      Distance(kind, x, y, z) == Distance(kind, y, x, z) == Distance(kind, x, z, y) == Distance(kind, -x, y, z)
  {
    var a, b, c := Abs(x), Abs(y), Abs(z);
    assert a * a == x * x && b * b == y * y && c * c == z * z;
    assert a * b >= 0.0 && a * c >= 0.0 && b * c >= 0.0;
    assert (a + b + c) * (a + b + c) == a * a + b * b + c * c + 2.0 * (a * b + a * c + b * c);
  }

  function SquareTo(x: real, y: real, z: real, i: int, j: int, k: int): real {
    (i as real - x) * (i as real - x) + (j as real - y) * (j as real - y) + (k as real - z) * (k as real - z)
  }

  /** d is the least squared distance from (x, y, z) to a lattice point. */
  ghost predicate LeastSquare(x: real, y: real, z: real, d: real) {
    && (exists i, j, k :: d == SquareTo(x, y, z, i, j, k))
    && forall i, j, k :: d <= SquareTo(x, y, z, i, j, k)
  }

  /** No integer is nearer than the rounded one. */
  lemma RoundIsNearest(x: real, i: int)
    ensures var r := FastRound(x) as real - x;
      -0.5 <= r <= 0.5 && r * r <= 0.25 && r * r <= (i as real - x) * (i as real - x)
  {
    var r := FastRound(x) as real - x;
    var d := i - FastRound(x);
    assert i as real - x == d as real + r;
    RoundOff(x);
    hide *;
    FartherOff(r, d as real, i as real - x);
  }

  lemma RoundOff(x: real)
    ensures -0.5 <= FastRound(x) as real - x <= 0.5
  {}

  lemma FartherOff(r: real, d: real, s: real)
    requires -0.5 <= r <= 0.5 && (d == 0.0 || d >= 1.0 || d <= -1.0) && s == d + r
    ensures r * r <= 0.25 && r * r <= s * s
  {
    I.Product(0.5 - r, 0.5 + r);
    assert (0.5 - r) * (0.5 + r) == 0.25 - r * r;
    if d >= 1.0 { I.Product(d, d + 2.0 * r); }
    if d <= -1.0 { I.Product(-d, -d - 2.0 * r); }
    assert s * s == r * r + d * (d + 2.0 * r);
  }

  lemma RoundedIsLeast(x: real, y: real, z: real, i: int, j: int, k: int)
    ensures SquareTo(x, y, z, FastRound(x), FastRound(y), FastRound(z)) <= SquareTo(x, y, z, i, j, k)
    ensures SquareTo(x, y, z, FastRound(x), FastRound(y), FastRound(z)) <= 0.75
  {
    hide FastRound;
    RoundIsNearest(x, i);
    RoundIsNearest(y, j);
    RoundIsNearest(z, k);
  }

  lemma Unjittered(n: F.FastNoise, c: Jitter, x: real, y: real, z: real, i: int, j: int, k: int)
    requires n.Tables() && JitterTables(c) && c.amount == 0.0
    ensures PointDistance(n, c, Euclidean, x, y, z, i, j, k) == SquareTo(x, y, z, i, j, k)
  {
    hide Distance, SquareTo, ToPoint, F.FastNoise.Index3D;
    JitterMoves(n, c, x, y, z, i, j, k);
    assert c.(amount := 0.0) == c;
    EuclideanTo(x, y, z, i, j, k);
  }

  lemma EuclideanTo(x: real, y: real, z: real, i: int, j: int, k: int)
    ensures Distance(Euclidean, i as real - x, j as real - y, k as real - z) == SquareTo(x, y, z, i, j, k)
  {}

  /** Without jitter the nearest point is the nearest lattice point. */
  lemma LeastUnjittered(n: F.FastNoise, c: Jitter, x: real, y: real, z: real)
    requires n.Tables() && JitterTables(c) && c.amount == 0.0 && n.cellularDistanceIndex1 == 0
    ensures LeastSquare(x, y, z, NearestAround(n, c, Euclidean, x, y, z, 0))
  {
    hide Around, Nearest, FastRound, PointDistance, SquareTo, F.FastNoise.Tables;
    var ds := Around(n, c, Euclidean, x, y, z, 27);
    var least := SquareTo(x, y, z, FastRound(x), FastRound(y), FastRound(z));
    AroundCovers(n, c, Euclidean, x, y, z, 0, 0, 0);
    Unjittered(n, c, x, y, z, FastRound(x), FastRound(y), FastRound(z));
    forall k | 0 <= k < 27 ensures ds[k] >= least {
      var i, j, l := FastRound(x) - 1 + k / 9, FastRound(y) - 1 + k / 3 % 3, FastRound(z) - 1 + k % 3;
      AroundHas(n, c, Euclidean, x, y, z, 27, k);
      Unjittered(n, c, x, y, z, i, j, l);
      RoundedIsLeast(x, y, z, i, j, l);
    }
    RoundedIsLeast(x, y, z, 0, 0, 0);
    FirstIsLeast(ds, 13, least);
    forall i, j, k ensures least <= SquareTo(x, y, z, i, j, k) { RoundedIsLeast(x, y, z, i, j, k); }
  }

  /** A list of one holds the least of the distances. */
  lemma FirstIsLeast(ds: seq<real>, at: nat, least: real)
    requires at < |ds| && ds[at] == least < SENTINEL && forall k :: 0 <= k < |ds| ==> ds[k] >= least
    ensures Nearest(1, ds)[0] == least
  {
    NearestIsSmallest(1, ds);
    var a := Nearest(1, ds);
    var all := multiset(Sentinels(1)) + multiset(ds);
    assert a[0] in multiset(a) && multiset(a) <= all;
    assert a[0] in Sentinels(1) || a[0] in ds;
    assert a[0] >= least;
    assert ds[at] in all;
    assert a == [a[0]];
    assert least == a[0] || least in all - multiset(a);
  }

  lemma OneMoreAround(n: F.FastNoise, c: Jitter, kind: DistanceFunction, x: real, y: real, z: real, xi: nat, yi: nat,
                      zi: nat, count: nat)
    requires n.Tables() && JitterTables(c) && xi < 3 && yi < 3 && zi < 3
    ensures var m := xi * 9 + yi * 3 + zi;
      Nearest(count, Around(n, c, kind, x, y, z, m + 1))
        == Network(Nearest(count, Around(n, c, kind, x, y, z, m)),
                   PointDistance(n, c, kind, x, y, z, FastRound(x) - 1 + xi, FastRound(y) - 1 + yi,
                                 FastRound(z) - 1 + zi))
  {
    hide *;
    NumberParts(xi, yi, zi);
    AroundNext(n, c, kind, x, y, z, xi * 9 + yi * 3 + zi);
    NearestNext(count, Around(n, c, kind, x, y, z, xi * 9 + yi * 3 + zi),
                PointDistance(n, c, kind, x, y, z, FastRound(x) - 1 + xi, FastRound(y) - 1 + yi,
                              FastRound(z) - 1 + zi));
  }

  lemma NumberParts(xi: nat, yi: nat, zi: nat)
    requires yi < 3 && zi < 3
    ensures var m := xi * 9 + yi * 3 + zi; m / 9 == xi && m / 3 % 3 == yi && m % 3 == zi
  {}

  lemma AroundNext(n: F.FastNoise, c: Jitter, kind: DistanceFunction, x: real, y: real, z: real, m: nat)
    requires n.Tables() && JitterTables(c)
    ensures Around(n, c, kind, x, y, z, m + 1) == Around(n, c, kind, x, y, z, m)
      + [PointDistance(n, c, kind, x, y, z, FastRound(x) - 1 + m / 9, FastRound(y) - 1 + m / 3 % 3,
                       FastRound(z) - 1 + m % 3)]
  {}

  lemma NearestNext(n: nat, ds: seq<real>, d: real)
    ensures Nearest(n, ds + [d]) == Network(Nearest(n, ds), d)
  {}

  /** The difference is not negative, and the quotient, missing only for a zero distance, is in [0, 1]. */
  ghost predicate SignsKept(d0: real, d1: real) {
    && Combined(Distance2Sub, d0, d1).value >= 0.0
    && match Combined(Distance2Div, d0, d1)
       case None => d1 == 0.0
       case Some(q) => 0.0 <= q <= 1.0
  }

  lemma CombinedSign(n: nat, ds: seq<real>, i: nat, j: nat)
    requires i <= j < n && forall k :: 0 <= k < |ds| ==> ds[k] >= 0.0
    ensures SignsKept(Nearest(n, ds)[i], Nearest(n, ds)[j])
  {
    NearestIsSmallest(n, ds);
    var a := Nearest(n, ds);
    assert a[i] <= a[j];
    assert a[i] in multiset(a) && multiset(a) <= multiset(Sentinels(n)) + multiset(ds);
    assert a[i] in Sentinels(n) || a[i] in ds;
    if a[j] > 0.0 { QuotientUnit(a[i], a[j]); }
  }

  lemma QuotientUnit(a: real, b: real)
    requires 0.0 <= a <= b && b > 0.0
    ensures 0.0 <= a / b <= 1.0
  {}

  /** No distance function is ever negative. */
  lemma DistanceNotNegative(kind: DistanceFunction, x: real, y: real, z: real)
    ensures Distance(kind, x, y, z) >= 0.0
  {}

  lemma {:induction false} AroundNotNegative(n: F.FastNoise, c: Jitter, kind: DistanceFunction, x: real, y: real,
                                             z: real, m: nat)
    requires n.Tables() && JitterTables(c)
    ensures forall k :: 0 <= k < m ==> Around(n, c, kind, x, y, z, m)[k] >= 0.0
  {
    hide *;
    if m == 0 {
    } else {
      var k := m - 1;
      var xi, yi, zi := FastRound(x) - 1 + k / 9, FastRound(y) - 1 + k / 3 % 3, FastRound(z) - 1 + k % 3;
      AroundNotNegative(n, c, kind, x, y, z, k);
      AroundNext(n, c, kind, x, y, z, k);
      PointNotNegative(n, c, kind, x, y, z, xi, yi, zi);
    }
  }

  lemma PointNotNegative(n: F.FastNoise, c: Jitter, kind: DistanceFunction, x: real, y: real, z: real, xi: int,
                         yi: int, zi: int)
    requires n.Tables() && JitterTables(c)
    ensures PointDistance(n, c, kind, x, y, z, xi, yi, zi) >= 0.0
  {
    hide Distance, ToPoint;
    var v := ToPoint(n, c, x, y, z, xi, yi, zi);
    DistanceNotNegative(kind, v.0, v.1, v.2);
  }

  /** At every point the difference of the two entries is not negative, and
      their quotient, where there is one, is in [0, 1]. */
  lemma EdgeSign(n: F.FastNoise, c: Jitter, kind: DistanceFunction, x: real, y: real, z: real)
    requires n.Tables() && JitterTables(c) && n.IndicesOrdered()
    ensures SignsKept(NearestAround(n, c, kind, x, y, z, n.cellularDistanceIndex0),
                      NearestAround(n, c, kind, x, y, z, n.cellularDistanceIndex1))
  {
    hide Around, Nearest, Combined;
    AroundNotNegative(n, c, kind, x, y, z, 27);
    CombinedSign(n.cellularDistanceIndex1 + 1, Around(n, c, kind, x, y, z, 27), n.cellularDistanceIndex0,
                 n.cellularDistanceIndex1);
  }
}
