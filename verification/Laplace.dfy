/** The determinant by Laplace expansion, over exact reals, and the laws that
    Gaussian elimination and the adjoint formula rest on.

    A square matrix is given by its row vectors and by the list of the columns
    that are still in play, so a minor is a shorter list of rows and a shorter
    list of columns. */
module Laplace {
  type Row = seq<real>

  /** Products are written through Mul, so that a proof that only needs a ring
      law can hide the multiplication itself. */
  function Mul(a: real, b: real): real {
    a * b
  }

  function At(r: Row, c: nat): real {
    if c < |r| then r[c] else 0.0
  }

  function Without<T>(s: seq<T>, k: nat): (t: seq<T>)
    requires k < |s|
    ensures |t| == |s| - 1
    ensures forall i :: 0 <= i < |t| ==> t[i] == s[if i < k then i else i + 1]
  {
    s[..k] + s[k + 1..]
  }

  function Swap<T>(s: seq<T>, j: nat, k: nat): (t: seq<T>)
    requires j < |s| && k < |s|
  {
    s[j := s[k]][k := s[j]]
  }

  function Sign(k: nat): real {
    if k % 2 == 0 then 1.0 else -1.0
  }

  ghost function Det(rows: seq<Row>, cols: seq<nat>): real
    decreases |rows|, |cols| + 1
  {
    if rows == [] then 1.0 else Expand(rows[0], rows[1..], [], cols)
  }

  /** The alternating sum over the columns in `cs` of `row` times the minor
      below it. Columns in `pre` have been passed by: they stay in the minors. */
  ghost function Expand(row: Row, rest: seq<Row>, pre: seq<nat>, cs: seq<nat>): real
    decreases |rest| + 1, |cs|
  {
    if cs == [] then 0.0
    else Mul(At(row, cs[0]), Det(rest, pre + cs[1..])) - Expand(row, rest, pre + [cs[0]], cs[1..])
  }

  lemma ExpandCons(row: Row, rest: seq<Row>, pre: seq<nat>, c: nat, cs: seq<nat>)
    ensures Expand(row, rest, pre, [c] + cs) == Mul(At(row, c), Det(rest, pre + cs)) - Expand(row, rest, pre + [c], cs)
  {}

  lemma DetCons(row: Row, rest: seq<Row>, cols: seq<nat>)
    ensures Det([row] + rest, cols) == Expand(row, rest, [], cols)
  {}

  // ---------- ring laws ----------

  lemma MulZero(a: real)
    ensures Mul(a, 0.0) == 0.0 == Mul(0.0, a)
  {}

  lemma Interchange(a: real, b: real, x: real, y: real, z: real, w: real)
    ensures Mul(a, Mul(b, x) - y) - (Mul(b, z) - w) == Mul(b, Mul(a, x) - z) - (Mul(a, y) - w)
  {}

  lemma MulScaled(a: real, k: real, d: real, e: real)
    ensures Mul(a, Mul(k, d)) - Mul(k, e) == Mul(k, Mul(a, d) - e)
  {}

  /** A combined factor, or a combined minor, splits. */
  lemma MulCombined(a: real, f: real, b: real, d: real, e: real, p: real, q: real)
    ensures Mul(Mul(f, b) + a, d) - (p + Mul(f, q)) == (Mul(a, d) - p) + Mul(f, Mul(b, d) - q)
    ensures Mul(a, d + Mul(f, e)) - (p + Mul(f, q)) == (Mul(a, d) - p) + Mul(f, Mul(a, e) - q)
  {}

  // ---------- exchanging rows ----------

  /** The double expansion along a then b, where a takes its column from `cs`
      and b takes its column from `mid` and what a left of `cs`. */
  ghost function Expand2(a: Row, b: Row, rest: seq<Row>, pre: seq<nat>, mid: seq<nat>, cs: seq<nat>): real
    decreases |cs|
  {
    if cs == [] then 0.0
    else Mul(At(a, cs[0]), Expand(b, rest, pre, mid + cs[1..])) - Expand2(a, b, rest, pre, mid + [cs[0]], cs[1..])
  }

  lemma {:induction false} Expand2IsExpand(a: Row, b: Row, rest: seq<Row>, mid: seq<nat>, cs: seq<nat>)
    ensures Expand(a, [b] + rest, mid, cs) == Expand2(a, b, rest, [], mid, cs)
    decreases |cs|
  {
    hide Mul;
    if cs == [] {
    } else {
      DetCons(b, rest, mid + cs[1..]);
      Expand2IsExpand(a, b, rest, mid + [cs[0]], cs[1..]);
    }
  }

  lemma {:induction false} Expand2Split(a: Row, b: Row, rest: seq<Row>, pre: seq<nat>, c: nat, mid: seq<nat>,
                                        cs: seq<nat>)
    ensures Expand2(a, b, rest, pre, [c] + mid, cs)
         == Mul(At(b, c), Expand(a, rest, pre + mid, cs)) - Expand2(a, b, rest, pre + [c], mid, cs)
    decreases |cs|
  {
    hide Mul;
    MulZero(At(b, c));
    if cs == [] {
    } else {
      var d, ds := cs[0], cs[1..];
      assert [c] + mid + ds == [c] + (mid + ds) && pre + mid + ds == pre + (mid + ds);
      assert [c] + mid + [d] == [c] + (mid + [d]) && pre + mid + [d] == pre + (mid + [d]);
      ExpandCons(b, rest, pre, c, mid + ds);
      Expand2Split(a, b, rest, pre, c, mid + [d], ds);
      Interchange(At(a, d), At(b, c), Det(rest, pre + mid + ds), Expand(b, rest, pre + [c], mid + ds),
                  Expand(a, rest, pre + mid + [d], ds), Expand2(a, b, rest, pre + [c], mid + [d], ds));
    }
  }

  lemma {:induction false} Expand2Antisymmetric(a: Row, b: Row, rest: seq<Row>, pre: seq<nat>, cs: seq<nat>)
    ensures Expand2(a, b, rest, pre, [], cs) == -Expand2(b, a, rest, pre, [], cs)
    decreases |cs|
  {
    hide Mul;
    if cs == [] {
    } else {
      var c, ds := cs[0], cs[1..];
      assert [] + ds == ds && [] + [c] == [c] + [] && pre + [] == pre;
      Expand2Split(a, b, rest, pre, c, [], ds);
      Expand2Split(b, a, rest, pre, c, [], ds);
      Expand2Antisymmetric(a, b, rest, pre + [c], ds);
    }
  }

  lemma SwapFirstTwo(a: Row, b: Row, rest: seq<Row>, cols: seq<nat>)
    ensures Det([a, b] + rest, cols) == -Det([b, a] + rest, cols)
  {
    hide Mul;
    assert [a, b] + rest == [a] + ([b] + rest) && [b, a] + rest == [b] + ([a] + rest);
    DetCons(a, [b] + rest, cols);
    DetCons(b, [a] + rest, cols);
    Expand2IsExpand(a, b, rest, [], cols);
    Expand2IsExpand(b, a, rest, [], cols);
    Expand2Antisymmetric(a, b, rest, [], cols);
  }

  /** What scales every minor scales the expansion. */
  lemma {:induction false} ExpandScaled(row: Row, r1: seq<Row>, r2: seq<Row>, k: real, pre: seq<nat>, cs: seq<nat>)
    requires forall x :: Det(r1, x) == Mul(k, Det(r2, x))
    ensures Expand(row, r1, pre, cs) == Mul(k, Expand(row, r2, pre, cs))
    decreases |cs|
  {
    hide Mul;
    MulZero(k);
    if cs == [] {
    } else {
      ExpandScaled(row, r1, r2, k, pre + [cs[0]], cs[1..]);
      MulScaled(At(row, cs[0]), k, Det(r2, pre + cs[1..]), Expand(row, r2, pre + [cs[0]], cs[1..]));
    }
  }

  lemma FirstTwo(rows: seq<Row>)
    requires |rows| >= 2
    ensures rows == [rows[0], rows[1]] + rows[2..] && Swap(rows, 0, 1) == [rows[1], rows[0]] + rows[2..]
  {}

  lemma {:induction false} SwapAdjacent(rows: seq<Row>, k: nat, cols: seq<nat>)
    requires k + 1 < |rows|
    ensures Det(Swap(rows, k, k + 1), cols) == -Det(rows, cols)
    decreases k
  {
    if k == 0 {
      FirstTwo(rows);
      SwapFirstTwo(rows[0], rows[1], rows[2..], cols);
    } else {
      var rest, rest' := rows[1..], Swap(rows, k, k + 1)[1..];
      assert rest' == Swap(rest, k - 1, k);
      forall x ensures Det(rest', x) == Mul(-1.0, Det(rest, x)) {
        SwapAdjacent(rest, k - 1, x);
      }
      ExpandScaled(rows[0], rest', rest, -1.0, [], cols);
    }
  }

  lemma {:induction false} SwapRows(rows: seq<Row>, j: nat, k: nat, cols: seq<nat>)
    requires j < k < |rows|
    ensures Det(Swap(rows, j, k), cols) == -Det(rows, cols)
    decreases k - j
  {
    hide Mul;
    SwapAdjacent(rows, j, cols);
    if j + 1 == k {
    } else {
      var once := Swap(rows, j, j + 1);
      SwapRows(once, j + 1, k, cols);
      SwapAdjacent(Swap(once, j + 1, k), j, cols);
      assert Swap(Swap(once, j + 1, k), j, j + 1) == Swap(rows, j, k);
    }
  }

  lemma EqualRows(rows: seq<Row>, j: nat, k: nat, cols: seq<nat>)
    requires j < |rows| && k < |rows| && j != k && rows[j] == rows[k]
    ensures Det(rows, cols) == 0.0
  {
    hide Mul;
    assert Swap(rows, j, k) == rows == Swap(rows, k, j);
    if j < k { SwapRows(rows, j, k, cols); } else { SwapRows(rows, k, j, cols); }
  }

  // ---------- adding a multiple of a row ----------

  function AddScaled(x: Row, f: real, y: Row): (z: Row)
    requires |x| == |y|
    ensures |z| == |x| && forall c: nat :: At(z, c) == Mul(f, At(y, c)) + At(x, c)
  {
    seq(|x|, i requires 0 <= i < |x| => f * y[i] + x[i])
  }

  lemma {:induction false} ExpandLinear(x: Row, f: real, y: Row, rest: seq<Row>, pre: seq<nat>, cs: seq<nat>)
    requires |x| == |y|
    ensures Expand(AddScaled(x, f, y), rest, pre, cs) == Expand(x, rest, pre, cs) + Mul(f, Expand(y, rest, pre, cs))
    decreases |cs|
  {
    hide Mul;
    MulZero(f);
    if cs == [] {
    } else {
      var c, ds := cs[0], cs[1..];
      ExpandLinear(x, f, y, rest, pre + [c], ds);
      MulCombined(At(x, c), f, At(y, c), Det(rest, pre + ds), 0.0, Expand(x, rest, pre + [c], ds),
                  Expand(y, rest, pre + [c], ds));
    }
  }

  /** Expansion of a fixed row when the minors are a combination. */
  lemma {:induction false} ExpandCombined(row: Row, r: seq<Row>, r1: seq<Row>, f: real, r2: seq<Row>, pre: seq<nat>,
                                          cs: seq<nat>)
    requires forall x :: Det(r, x) == Det(r1, x) + Mul(f, Det(r2, x))
    ensures Expand(row, r, pre, cs) == Expand(row, r1, pre, cs) + Mul(f, Expand(row, r2, pre, cs))
    decreases |cs|
  {
    hide Mul;
    MulZero(f);
    if cs == [] {
    } else {
      var c, ds := cs[0], cs[1..];
      ExpandCombined(row, r, r1, f, r2, pre + [c], ds);
      MulCombined(At(row, c), f, 0.0, Det(r1, pre + ds), Det(r2, pre + ds), Expand(row, r1, pre + [c], ds),
                  Expand(row, r2, pre + [c], ds));
    }
  }

  lemma {:induction false} DetLinear(rows: seq<Row>, k: nat, f: real, y: Row, cols: seq<nat>)
    requires k < |rows| && |rows[k]| == |y|
    ensures Det(rows[k := AddScaled(rows[k], f, y)], cols) == Det(rows, cols) + Mul(f, Det(rows[k := y], cols))
    decreases k
  {
    hide Mul;
    var sum := AddScaled(rows[k], f, y);
    if k == 0 {
      ExpandLinear(rows[0], f, y, rows[1..], [], cols);
      assert rows[0 := sum][1..] == rows[1..] == rows[0 := y][1..];
    } else {
      var rest := rows[1..];
      assert rows[k := sum][1..] == rest[k - 1 := sum] && rows[k := y][1..] == rest[k - 1 := y];
      forall x ensures Det(rest[k - 1 := sum], x) == Det(rest, x) + Mul(f, Det(rest[k - 1 := y], x)) {
        DetLinear(rest, k - 1, f, y, x);
      }
      ExpandCombined(rows[0], rest[k - 1 := sum], rest, f, rest[k - 1 := y], [], cols);
    }
  }

  lemma AddRowMultiple(rows: seq<Row>, j: nat, k: nat, f: real, cols: seq<nat>)
    requires j < |rows| && k < |rows| && j != k && |rows[j]| == |rows[k]|
    ensures Det(rows[k := AddScaled(rows[k], f, rows[j])], cols) == Det(rows, cols)
  {
    hide Mul;
    DetLinear(rows, k, f, rows[j], cols);
    EqualRows(rows[k := rows[j]], j, k, cols);
    MulZero(f);
  }

  // ---------- triangular and singular shapes ----------

  function Cols(n: nat): (s: seq<nat>)
    ensures |s| == n && forall i :: 0 <= i < n ==> s[i] == i
  {
    seq(n, i => i)
  }

  ghost predicate ZeroColumn(rows: seq<Row>, c: nat) {
    forall r :: 0 <= r < |rows| ==> At(rows[r], c) == 0.0
  }

  lemma {:induction false} ZeroFirstColumn(rows: seq<Row>, c: nat, cs: seq<nat>)
    requires |rows| == |cs| + 1 && ZeroColumn(rows, c)
    ensures Det(rows, [c] + cs) == 0.0
    decreases |rows|, 0
  {
    hide Mul;
    assert [] + [c] == [c] + [];
    ExpandCons(rows[0], rows[1..], [], c, cs);
    ExpandPastZero(rows[0], rows[1..], c, [], cs);
    MulZero(Det(rows[1..], [] + cs));
  }

  lemma {:induction false} ExpandPastZero(row: Row, rest: seq<Row>, c: nat, pre: seq<nat>, cs: seq<nat>)
    requires |rest| == |pre| + |cs| && ZeroColumn(rest, c)
    ensures Expand(row, rest, [c] + pre, cs) == 0.0
    decreases |rest|, |cs| + 1
  {
    hide Mul;
    if cs == [] {
    } else {
      assert [c] + pre + cs[1..] == [c] + (pre + cs[1..]) && [c] + pre + [cs[0]] == [c] + (pre + [cs[0]]);
      ZeroFirstColumn(rest, c, pre + cs[1..]);
      ExpandPastZero(row, rest, c, pre + [cs[0]], cs[1..]);
      MulZero(At(row, cs[0]));
    }
  }

  /** Below the first row the first column is zero: only one minor is left. */
  lemma PeelFirstColumn(rows: seq<Row>, cols: seq<nat>)
    requires |rows| == |cols| > 0 && ZeroColumn(rows[1..], cols[0])
    ensures Det(rows, cols) == Mul(At(rows[0], cols[0]), Det(rows[1..], cols[1..]))
  {
    hide Mul;
    var c, cs := cols[0], cols[1..];
    assert cols == [c] + cs && [] + [c] == [c] + [] && [] + cs == cs;
    ExpandCons(rows[0], rows[1..], [], c, cs);
    ExpandPastZero(rows[0], rows[1..], c, [], cs);
  }

  ghost predicate UpperTriangular(rows: seq<Row>, cols: seq<nat>)
    requires |rows| == |cols|
  {
    forall c, r :: 0 <= c < r < |rows| ==> At(rows[r], cols[c]) == 0.0
  }

  ghost function DiagonalProduct(rows: seq<Row>, cols: seq<nat>): real
    requires |rows| == |cols|
  {
    if rows == [] then 1.0 else Mul(At(rows[0], cols[0]), DiagonalProduct(rows[1..], cols[1..]))
  }

  lemma {:induction false} TriangularDet(rows: seq<Row>, cols: seq<nat>)
    requires |rows| == |cols| && UpperTriangular(rows, cols)
    ensures Det(rows, cols) == DiagonalProduct(rows, cols)
    decreases |rows|
  {
    hide Mul;
    if rows == [] {
    } else {
      PeelFirstColumn(rows, cols);
      TriangularDet(rows[1..], cols[1..]);
    }
  }

  /** Columns before k are cleared below the diagonal and column k has no
      pivot left: the matrix is singular. */
  lemma {:induction false} NoPivotDet(rows: seq<Row>, cols: seq<nat>, k: nat)
    requires |rows| == |cols| && k < |rows|
    requires forall c, r :: 0 <= c < k && c < r < |rows| ==> At(rows[r], cols[c]) == 0.0
    requires forall r :: k <= r < |rows| ==> At(rows[r], cols[k]) == 0.0
    ensures Det(rows, cols) == 0.0
    decreases k
  {
    hide Mul;
    if k == 0 {
      assert cols == [cols[0]] + cols[1..];
      ZeroFirstColumn(rows, cols[0], cols[1..]);
    } else {
      PeelFirstColumn(rows, cols);
      NoPivotDet(rows[1..], cols[1..], k - 1);
      MulZero(At(rows[0], cols[0]));
    }
  }

  // ---------- cofactors along a row ----------

  /** The first n terms of the cofactor expansion of `row` over the minors of `rest`. */
  ghost function CofactorSum(row: Row, rest: seq<Row>, cols: seq<nat>, n: nat): real
    requires n <= |cols|
  {
    if n == 0 then 0.0
    else
      CofactorSum(row, rest, cols, n - 1)
      + Mul(At(row, cols[n - 1]), Mul(Sign(n - 1), Det(rest, Without(cols, n - 1))))
  }

  lemma SignStep(n: nat, a: real, d: real, e: real)
    ensures Mul(Sign(n), Mul(a, d) - e) == Mul(a, Mul(Sign(n), d)) + Mul(Sign(n + 1), e)
  {}

  lemma {:induction false} ExpandIsCofactorSum(row: Row, rest: seq<Row>, cols: seq<nat>, n: nat)
    requires n <= |cols|
    ensures Expand(row, rest, [], cols)
      == CofactorSum(row, rest, cols, n) + Mul(Sign(n), Expand(row, rest, cols[..n], cols[n..]))
  {
    if n == 0 {
      assert cols[..0] == [] && cols[0..] == cols;
    } else {
      hide Mul;
      ExpandIsCofactorSum(row, rest, cols, n - 1);
      assert cols[n - 1..] == [cols[n - 1]] + cols[n..];
      assert cols[..n - 1] + [cols[n - 1]] == cols[..n];
      ExpandCons(row, rest, cols[..n - 1], cols[n - 1], cols[n..]);
      SignStep(n - 1, At(row, cols[n - 1]), Det(rest, Without(cols, n - 1)), Expand(row, rest, cols[..n], cols[n..]));
    }
  }

  lemma {:induction false} MoveRowToFront(rows: seq<Row>, k: nat, cols: seq<nat>)
    requires k < |rows|
    ensures Det([rows[k]] + Without(rows, k), cols) == Mul(Sign(k), Det(rows, cols))
    decreases k
  {
    if k == 0 {
      assert [rows[0]] + Without(rows, 0) == rows;
    } else {
      hide Mul;
      var up := Swap(rows, k - 1, k);
      assert up[k - 1] == rows[k] && Without(up, k - 1) == Without(rows, k);
      MoveRowToFront(up, k - 1, cols);
      SwapAdjacent(rows, k - 1, cols);
      MulZero(0.0);
      SignStep(k - 1, 0.0, 0.0, Det(rows, cols));
      assert 0.0 - Det(rows, cols) == -Det(rows, cols);
      MulZero(Sign(k - 1));
    }
  }

  /** Laplace expansion along row k. */
  lemma RowExpansion(rows: seq<Row>, k: nat, cols: seq<nat>)
    requires k < |rows|
    ensures CofactorSum(rows[k], Without(rows, k), cols, |cols|) == Mul(Sign(k), Det(rows, cols))
  {
    hide Mul;
    MoveRowToFront(rows, k, cols);
    DetCons(rows[k], Without(rows, k), cols);
    ExpandIsCofactorSum(rows[k], Without(rows, k), cols, |cols|);
    MulZero(Sign(|cols|));
  }

  /** Another row against the cofactors of row k gives nothing. */
  lemma AlienExpansion(rows: seq<Row>, i: nat, k: nat, cols: seq<nat>)
    requires i < |rows| && k < |rows| && i != k
    ensures CofactorSum(rows[i], Without(rows, k), cols, |cols|) == 0.0
  {
    hide Mul;
    var twice := rows[k := rows[i]];
    assert Without(twice, k) == Without(rows, k);
    EqualRows(twice, i, k, cols);
    RowExpansion(twice, k, cols);
    MulZero(Sign(k));
  }

  // ---------- columns ----------

  /** The alternating sum over `rows` of column c times the minor without that row. */
  ghost function ColExpand(pre: seq<Row>, rows: seq<Row>, c: nat, cs: seq<nat>): real
    decreases |rows|
  {
    if rows == [] then 0.0
    else Mul(At(rows[0], c), Det(pre + rows[1..], cs)) - ColExpand(pre + [rows[0]], rows[1..], c, cs)
  }

  /** Column c over `rows`, then row r over `cs`. */
  ghost function ColThenRow(r: Row, rpre: seq<Row>, rows: seq<Row>, c: nat, cpre: seq<nat>, cs: seq<nat>): real
    decreases |rows|
  {
    if rows == [] then 0.0
    else
      Mul(At(rows[0], c), Expand(r, rpre + rows[1..], cpre, cs))
      - ColThenRow(r, rpre + [rows[0]], rows[1..], c, cpre, cs)
  }

  lemma {:induction false} ColThenRowUnroll(r: Row, rpre: seq<Row>, rows: seq<Row>, c: nat, cpre: seq<nat>,
                                            cs: seq<nat>)
    requires cs != []
    ensures ColThenRow(r, rpre, rows, c, cpre, cs)
         == Mul(At(r, cs[0]), ColExpand(rpre, rows, c, cpre + cs[1..]))
           - ColThenRow(r, rpre, rows, c, cpre + [cs[0]], cs[1..])
    decreases |rows|
  {
    hide Mul;
    MulZero(At(r, cs[0]));
    if rows == [] {
    } else {
      var q, qs := rows[0], rows[1..];
      ColThenRowUnroll(r, rpre + [q], qs, c, cpre, cs);
      Interchange(At(q, c), At(r, cs[0]), Det(rpre + qs, cpre + cs[1..]), Expand(r, rpre + qs, cpre + [cs[0]], cs[1..]),
                  ColExpand(rpre + [q], qs, c, cpre + cs[1..]),
                  ColThenRow(r, rpre + [q], qs, c, cpre + [cs[0]], cs[1..]));
    }
  }

  lemma {:induction false} ColThenRowNil(r: Row, rpre: seq<Row>, rows: seq<Row>, c: nat, cpre: seq<nat>)
    ensures ColThenRow(r, rpre, rows, c, cpre, []) == 0.0
    decreases |rows|
  {
    hide Mul;
    if rows == [] {
    } else {
      ColThenRowNil(r, rpre + [rows[0]], rows[1..], c, cpre);
      MulZero(At(rows[0], c));
    }
  }

  lemma {:induction false} ColExpandIsColThenRow(r: Row, rpre: seq<Row>, rows: seq<Row>, c: nat, cs: seq<nat>)
    ensures ColExpand([r] + rpre, rows, c, cs) == ColThenRow(r, rpre, rows, c, [], cs)
    decreases |rows|
  {
    hide Mul;
    if rows == [] {
    } else {
      assert [r] + rpre + rows[1..] == [r] + (rpre + rows[1..]) && [r] + rpre + [rows[0]] == [r] + (rpre + [rows[0]]);
      DetCons(r, rpre + rows[1..], cs);
      ColExpandIsColThenRow(r, rpre + [rows[0]], rows[1..], c, cs);
    }
  }

  lemma {:induction false} ExpandIsColThenRow(r: Row, rows: seq<Row>, c: nat, cpre: seq<nat>, cs: seq<nat>)
    requires |rows| == |cpre| + |cs|
    ensures Expand(r, rows, [c] + cpre, cs) == ColThenRow(r, [], rows, c, cpre, cs)
    decreases |rows|, |cs| + 1
  {
    hide Mul;
    if cs == [] {
      ColThenRowNil(r, [], rows, c, cpre);
    } else {
      assert [c] + cpre + cs[1..] == [c] + (cpre + cs[1..]) && [c] + cpre + [cs[0]] == [c] + (cpre + [cs[0]]);
      ColumnExpansion(rows, c, cpre + cs[1..]);
      ExpandIsColThenRow(r, rows, c, cpre + [cs[0]], cs[1..]);
      ColThenRowUnroll(r, [], rows, c, cpre, cs);
    }
  }

  /** Laplace expansion along the first column gives the same number. */
  lemma {:induction false} ColumnExpansion(rows: seq<Row>, c: nat, cs: seq<nat>)
    requires |rows| == |cs| + 1
    ensures Det(rows, [c] + cs) == ColExpand([], rows, c, cs)
    decreases |rows|, 0
  {
    hide Mul;
    var r, rest := rows[0], rows[1..];
    ExpandCons(r, rest, [], c, cs);
    ExpandIsColThenRow(r, rest, c, [], cs);
    ColExpandIsColThenRow(r, [], rest, c, cs);
    assert [] + rest == rest && [r] + [] == [r] == [] + [r] && [] + [c] == [c] + [] && [] + cs == cs;
  }

  ghost predicate Below(idx: seq<nat>, n: nat) {
    forall i :: 0 <= i < |idx| ==> idx[i] < n
  }

  ghost function Pick(m: seq<Row>, idx: seq<nat>): (rows: seq<Row>)
    requires Below(idx, |m|)
    ensures |rows| == |idx| && forall i :: 0 <= i < |idx| ==> rows[i] == m[idx[i]]
  {
    seq(|idx|, i requires 0 <= i < |idx| => m[idx[i]])
  }

  ghost predicate Transposed(m: seq<Row>, t: seq<Row>) {
    forall r, c :: 0 <= r < |m| && 0 <= c < |t| ==> At(m[r], c) == At(t[c], r)
  }

  /** A minor of a matrix is the mirrored minor of its transpose. */
  lemma {:induction false} DetTransposed(m: seq<Row>, t: seq<Row>, rs: seq<nat>, cs: seq<nat>)
    requires Transposed(m, t) && |rs| == |cs| && Below(rs, |m|) && Below(cs, |t|)
    ensures Det(Pick(m, rs), cs) == Det(Pick(t, cs), rs)
    decreases |rs|, |cs| + 1
  {
    hide Mul;
    if rs == [] {
    } else {
      var r, rest := rs[0], rs[1..];
      assert Pick(m, rs)[1..] == Pick(m, rest);
      assert rs == [r] + rest;
      ColumnExpansion(Pick(t, cs), r, rest);
      ExpandTransposed(m, t, r, rest, [], cs);
      assert Pick(t, []) == [];
    }
  }

  lemma {:induction false} ExpandTransposed(m: seq<Row>, t: seq<Row>, r: nat, rest: seq<nat>, pre: seq<nat>,
                                            cs: seq<nat>)
    requires Transposed(m, t) && r < |m| && |rest| + 1 == |pre| + |cs|
    requires Below(rest, |m|) && Below(pre, |t|) && Below(cs, |t|)
    ensures Expand(m[r], Pick(m, rest), pre, cs) == ColExpand(Pick(t, pre), Pick(t, cs), r, rest)
    decreases |rest| + 1, |cs|
  {
    hide Mul;
    if cs == [] {
    } else {
      DetTransposed(m, t, rest, pre + cs[1..]);
      ExpandTransposed(m, t, r, rest, pre + [cs[0]], cs[1..]);
      assert Pick(t, cs)[1..] == Pick(t, cs[1..]);
      assert Pick(t, pre) + Pick(t, cs[1..]) == Pick(t, pre + cs[1..]);
      assert Pick(t, pre) + [t[cs[0]]] == Pick(t, pre + [cs[0]]);
    }
  }

  // ---------- reading a minor through other indices ----------

  ghost predicate SameEntries(r1: seq<Row>, c1: seq<nat>, r2: seq<Row>, c2: seq<nat>) {
    |r1| == |r2| && |c1| == |c2| &&
    forall r, c :: 0 <= r < |r1| && 0 <= c < |c1| ==> At(r1[r], c1[c]) == At(r2[r], c2[c])
  }

  lemma {:induction false} SameEntriesSameDet(r1: seq<Row>, c1: seq<nat>, r2: seq<Row>, c2: seq<nat>)
    requires SameEntries(r1, c1, r2, c2)
    ensures Det(r1, c1) == Det(r2, c2)
    decreases |r1|, |c1| + 1
  {
    hide Mul;
    if r1 == [] {
    } else {
      assert [] + c1 == c1 && [] + c2 == c2;
      assert SameEntries(r1[1..], c1, r2[1..], c2);
      SameEntriesSameExpand(r1[0], r1[1..], [], c1, r2[0], r2[1..], [], c2);
    }
  }

  lemma {:induction false} SameEntriesSameExpand(row1: Row, r1: seq<Row>, p1: seq<nat>, c1: seq<nat>, row2: Row,
                                                 r2: seq<Row>, p2: seq<nat>, c2: seq<nat>)
    requires |p1| == |p2| && |c1| == |c2|
    requires SameEntries(r1, p1 + c1, r2, p2 + c2)
    requires forall c :: 0 <= c < |c1| ==> At(row1, c1[c]) == At(row2, c2[c])
    ensures Expand(row1, r1, p1, c1) == Expand(row2, r2, p2, c2)
    decreases |r1| + 1, |c1|
  {
    hide Mul;
    if c1 == [] {
    } else {
      assert p1 + c1 == p1 + [c1[0]] + c1[1..] && p2 + c2 == p2 + [c2[0]] + c2[1..];
      SkipEntry(r1, p1, c1, r2, p2, c2);
      SameEntriesSameDet(r1, p1 + c1[1..], r2, p2 + c2[1..]);
      SameEntriesSameExpand(row1, r1, p1 + [c1[0]], c1[1..], row2, r2, p2 + [c2[0]], c2[1..]);
    }
  }

  lemma SkipEntry(r1: seq<Row>, p1: seq<nat>, c1: seq<nat>, r2: seq<Row>, p2: seq<nat>, c2: seq<nat>)
    requires |p1| == |p2| && |c1| == |c2| > 0
    requires SameEntries(r1, p1 + c1, r2, p2 + c2)
    ensures SameEntries(r1, p1 + c1[1..], r2, p2 + c2[1..])
  {
    var s1, s2 := p1 + c1[1..], p2 + c2[1..];
    forall r, c | 0 <= r < |r1| && 0 <= c < |s1| ensures At(r1[r], s1[c]) == At(r2[r], s2[c]) {
      var d := if c < |p1| then c else c + 1;
      assert s1[c] == (p1 + c1)[d] && s2[c] == (p2 + c2)[d];
    }
  }
}
