/** The cells of a three-dimensional grid and their flat order. */
module Grid {
  import opened Arithmetic

  datatype Grid = Grid(xStart: int, yStart: int, zStart: int, xSize: nat, ySize: nat, zSize: nat)

  datatype Cell = Cell(x: int, y: int, z: int)

  ghost predicate Proper(g: Grid) {
    g.xSize > 0 && g.ySize > 0 && g.zSize > 0
  }

  function Count(g: Grid): nat {
    g.xSize * g.ySize * g.zSize
  }

  /** The position of a cell, z running fastest. */
  function Flat(g: Grid, c: Cell): int {
    ((c.x - g.xStart) * g.ySize + (c.y - g.yStart)) * g.zSize + (c.z - g.zStart)
  }

  /** The cell at position n, by division and remainder. */
  function CellAt(g: Grid, n: nat): Cell
    requires Proper(g)
  {
    Cell(g.xStart + n / g.zSize / g.ySize, g.yStart + n / g.zSize % g.ySize, g.zStart + n % g.zSize)
  }

  ghost predicate InRow(g: Grid, c: Cell) {
    g.yStart <= c.y < g.yStart + g.ySize && g.zStart <= c.z < g.zStart + g.zSize
  }

  ghost predicate Inside(g: Grid, c: Cell) {
    g.xStart <= c.x < g.xStart + g.xSize && InRow(g, c)
  }

  /** A cell whose y and z are in range is the one at its position. */
  lemma CellAtFlat(g: Grid, c: Cell)
    requires Proper(g) && InRow(g, c) && c.x >= g.xStart
    ensures Flat(g, c) >= 0 && CellAt(g, Flat(g, c)) == c
  {
    var x, y, z := c.x - g.xStart, c.y - g.yStart, c.z - g.zStart;
    NotNegative(x, g.ySize);
    NotNegative(x * g.ySize + y, g.zSize);
    Quotient(x * g.ySize + y, g.zSize, z, Flat(g, c));
    Quotient(x, g.ySize, y, x * g.ySize + y);
  }

  /** Positions and cells of the grid correspond. */
  lemma FlatCellAt(g: Grid, n: nat)
    requires Proper(g) && n < Count(g)
    ensures Inside(g, CellAt(g, n)) && Flat(g, CellAt(g, n)) == n
  {
    var q := n / g.zSize;
    Divided(n, g.zSize);
    Divided(q, g.ySize);
    if q / g.ySize >= g.xSize {
      Monotone(g.xSize, q / g.ySize, g.ySize);
      Monotone(g.xSize * g.ySize, q, g.zSize);
    }
  }

  lemma FlatInside(g: Grid, c: Cell)
    requires Proper(g) && Inside(g, c)
    ensures 0 <= Flat(g, c) < Count(g) && CellAt(g, Flat(g, c)) == c
  {
    hide CellAt;
    CellAtFlat(g, c);
    var x, y, z := c.x - g.xStart, c.y - g.yStart, c.z - g.zStart;
    RowBelow(x, y, g.xSize, g.ySize);
    RowBelow(x * g.ySize + y, z, g.xSize * g.ySize, g.zSize);
  }

  /** The next cell on an axis is one position on, one row, or one plane. */
  lemma FlatSteps(g: Grid, c: Cell)
    ensures Flat(g, Cell(g.xStart, g.yStart, g.zStart)) == 0
    ensures Flat(g, c.(z := c.z + 1)) == Flat(g, c) + 1
    ensures Flat(g, c.(y := c.y + 1)) == Flat(g, c) + g.zSize
    ensures Flat(g, c.(x := c.x + 1)) == Flat(g, c) + g.ySize * g.zSize
  {
    var x, y := c.x - g.xStart, c.y - g.yStart;
    assert (x + 1) * g.ySize == x * g.ySize + g.ySize;
    NextRow(x * g.ySize + y, 1, g.zSize);
    NextRow(x * g.ySize + y, g.ySize, g.zSize);
  }

  lemma NextRow(a: int, b: int, n: int)
    ensures (a + b) * n == a * n + b * n
  {}

  lemma RowBelow(a: int, b: int, m: int, n: int)
    requires a < m && b < n && n >= 0
    ensures a * n + b < m * n
  {
    Monotone(a + 1, m, n);
    assert (a + 1) * n == a * n + n;
  }
}
