/** The in-place elimination, the determinant, the adjoint and the inverse. */
module MatrixCalculator {
  import opened Laplace
  import opened Adjugate

  /** The rows an array holds. */
  ghost function Rows(m: array2<real>): (rows: seq<Row>)
    reads m
    ensures |rows| == m.Length0
    ensures forall r :: 0 <= r < m.Length0 ==> |rows[r]| == m.Length1
    ensures forall r, c :: 0 <= r < m.Length0 && 0 <= c < m.Length1 ==> rows[r][c] == m[r, c]
  {
    seq(m.Length0, r requires 0 <= r < m.Length0 reads m =>
      seq(m.Length1, c requires 0 <= c < m.Length1 reads m => m[r, c]))
  }

  /** Columns before k are zero below the diagonal. */
  ghost predicate Cleared(rows: seq<Row>, k: nat) {
    forall c, r :: 0 <= c < k && c < r < |rows| ==> At(rows[r], c) == 0.0
  }

  /** No row from k on has anything in column k. */
  ghost predicate NoPivot(rows: seq<Row>, k: nat) {
    forall r :: k <= r < |rows| ==> At(rows[r], k) == 0.0
  }

  /** f is the factor between the determinant of the original and of the
      current matrix, or 0 when the original is singular. */
  ghost predicate Factor(original: seq<Row>, current: seq<Row>, f: int) {
    || (f == 1 && Determinant(current) == Determinant(original))
    || (f == -1 && Determinant(current) == -Determinant(original))
    || (f == 0 && Determinant(current) == 0.0 == Determinant(original))
  }

  lemma SwapKeepsFactor(original: seq<Row>, current: seq<Row>, f: int, j: nat, k: nat)
    requires Factor(original, current, f) && j < k < |current|
    ensures Factor(original, Swap(current, j, k), -f)
  {
    SwapRows(current, j, k, Cols(|current|));
  }

  lemma NoPivotFactor(original: seq<Row>, current: seq<Row>, f: int, k: nat)
    requires Factor(original, current, f) && k < |current| && Cleared(current, k) && NoPivot(current, k)
    ensures Factor(original, current, 0)
  {
    NoPivotDet(current, Cols(|current|), k);
  }

  /** The v - 1 rows below row col have nothing in that column. */
  ghost predicate Passed(rows: seq<Row>, col: nat, v: nat) {
    forall r :: col < r < col + v && r < |rows| ==> At(rows[r], col) == 0.0
  }

  lemma PassedNone(rows: seq<Row>, col: nat)
    ensures Passed(rows, col, 1)
  {}

  lemma PassedAll(rows: seq<Row>, col: nat, v: nat)
    requires Passed(rows, col, v) && col < |rows| <= col + v && At(rows[col], col) == 0.0
    ensures NoPivot(rows, col)
  {}

  /** Exchanging row col, without a pivot, for the next candidate. */
  lemma ExchangeStep(original: seq<Row>, rows: seq<Row>, f: int, col: nat, v: nat)
    requires Cleared(rows, col) && Factor(original, rows, f) && Passed(rows, col, v)
    requires 1 <= v && col + v < |rows| && At(rows[col], col) == 0.0
    ensures var s := Swap(rows, col, col + v);
      && Cleared(s, col) && Factor(original, s, -f) && Passed(s, col, v + 1)
      && (NoPivot(rows, col) ==> NoPivot(s, col))
  {
    hide Factor;
    SwapKeepsFactor(original, rows, f, col, col + v);
  }

  lemma AdjSquare(rows: seq<Row>)
    ensures Square(Adj(rows), |rows|)
  {}

  /** An array that holds these entries holds these rows. */
  lemma RowsAre(m: array2<real>, rows: seq<Row>)
    requires Square(rows, m.Length0) && m.Length1 == m.Length0
    requires forall r, c :: 0 <= r < m.Length0 && 0 <= c < m.Length1 ==> m[r, c] == rows[r][c]
    ensures Rows(m) == rows
  {
    assert forall r :: 0 <= r < m.Length0 ==> Rows(m)[r] == rows[r];
  }

  class Calculator {
    /** The determinant factor: the sign of the row exchanges, or 0. */
    var iDF: int

    constructor ()
      ensures iDF == 0
    {
      iDF := 0;
    }

    /** Exchanges rows j and k, column by column. */
    method ExchangeRows(m: array2<real>, j: nat, k: nat)
      requires j < k < m.Length0
      modifies m
      ensures Rows(m) == Swap(old(Rows(m)), j, k)
    {
      ghost var before := Rows(m);
      for c := 0 to m.Length1
        invariant forall r, i :: 0 <= r < m.Length0 && 0 <= i < m.Length1 ==>
          m[r, i] == (if i < c then Swap(before, j, k) else before)[r][i]
      {
        var temp := m[j, c];
        m[j, c] := m[k, c];
        m[k, c] := temp;
      }
      assert forall r :: 0 <= r < m.Length0 ==> Rows(m)[r] == Swap(before, j, k)[r];
    }

    /** Exchanges row col with the rows below it until its diagonal entry is not zero. */
    method SeekPivot(m: array2<real>, col: nat, ghost original: seq<Row>)
      requires col < m.Length0 == m.Length1
      requires Cleared(Rows(m), col) && Factor(original, Rows(m), iDF)
      modifies m, this
      ensures Cleared(Rows(m), col) && Factor(original, Rows(m), iDF)
      ensures m[col, col] == 0.0 ==> NoPivot(Rows(m), col)
      ensures old(NoPivot(Rows(m), col)) ==> NoPivot(Rows(m), col)
      ensures old(m[col, col]) != 0.0 ==> Rows(m) == old(Rows(m))
    {
      hide Cleared, Factor, NoPivot, Swap;
      var tms := m.Length0;
      var v := 1;
      PassedNone(Rows(m), col);
      while m[col, col] == 0.0
        invariant 1 <= v && col + v <= tms
        invariant Cleared(Rows(m), col) && Factor(original, Rows(m), iDF) && Passed(Rows(m), col, v)
        invariant old(NoPivot(Rows(m), col)) ==> NoPivot(Rows(m), col)
        invariant old(m[col, col]) != 0.0 ==> Rows(m) == old(Rows(m))
        decreases tms - v
      {
        if col + v >= tms {
          PassedAll(Rows(m), col, v);
          NoPivotFactor(original, Rows(m), iDF, col);
          iDF := 0;
          break;
        } else {
          ExchangeStep(original, Rows(m), iDF, col, v);
          ExchangeRows(m, col, col + v);
          v := v + 1;
          iDF := iDF * -1;
        }
      }
    }

    /** Adds f1 times row col to row `row`, from column col on. */
    method AddRow(m: array2<real>, col: nat, row: nat, f1: real)
      requires m.Length0 == m.Length1 && col < row < m.Length0
      requires Cleared(Rows(m), col)
      modifies m
      ensures Rows(m) == old(Rows(m))[row := AddScaled(old(Rows(m))[row], f1, old(Rows(m))[col])]
    {
      ghost var before := Rows(m);
      ghost var sum := AddScaled(before[row], f1, before[col]);
      forall i: nat | i < col ensures sum[i] == before[row][i] {
        assert At(before[col], i) == 0.0 && At(sum, i) == sum[i];
        MulZero(f1);
      }
      for i := col to m.Length0
        invariant forall r, c :: 0 <= r < m.Length0 && 0 <= c < m.Length1 ==>
          m[r, c] == if r == row && c < i then sum[c] else before[r][c]
      {
        assert At(sum, i) == f1 * m[col, i] + m[row, i];
        m[row, i] := f1 * m[col, i] + m[row, i];
      }
      assert forall r :: 0 <= r < m.Length0 ==> Rows(m)[r] == before[row := sum][r];
    }

    /** Turns m into an upper triangle in place; iDF says what that did to the determinant. */
    method UpperTriangle(m: array2<real>)
      requires m.Length0 == m.Length1
      modifies m, this
      ensures UpperTriangular(Rows(m), Cols(m.Length0))
      ensures Factor(old(Rows(m)), Rows(m), iDF)
    {
      ghost var original := Rows(m);
      var tms := m.Length0;
      iDF := 1;
      var col := 0;
      while col < tms - 1
        invariant 0 <= col && (col < tms || tms == 0)
        invariant Cleared(Rows(m), col) && Factor(original, Rows(m), iDF)
      {
        for row := col + 1 to tms
          invariant Cleared(Rows(m), col) && Factor(original, Rows(m), iDF)
          invariant row == col + 1 || NoPivot(Rows(m), col) ||
            (m[col, col] != 0.0 && forall r :: col < r < row ==> At(Rows(m)[r], col) == 0.0)
        {
          SeekPivot(m, col, original);
          if m[col, col] != 0.0 {
            Eliminate(m, col, row, original);
          }
        }
        col := col + 1;
      }
    }

    /** Clears m[row, col] with the pivot row. */
    method Eliminate(m: array2<real>, col: nat, row: nat, ghost original: seq<Row>)
      requires m.Length0 == m.Length1 && col < row < m.Length0 && m[col, col] != 0.0
      requires Cleared(Rows(m), col) && Factor(original, Rows(m), iDF)
      modifies m
      ensures Cleared(Rows(m), col) && Factor(original, Rows(m), iDF)
      ensures At(Rows(m)[row], col) == 0.0
      ensures forall r :: 0 <= r < m.Length0 && r != row ==> Rows(m)[r] == old(Rows(m))[r]
    {
      ghost var before := Rows(m);
      var f1 := -1.0 * m[row, col] / m[col, col];
      AddRowMultiple(before, col, row, f1, Cols(m.Length0));
      AddRow(m, col, row, f1);
      ghost var sum := AddScaled(before[row], f1, before[col]);
      assert At(sum, col) == 0.0;
      forall c: nat | c < col ensures At(sum, c) == 0.0 {
        assert At(before[row], c) == 0.0 && At(before[col], c) == 0.0;
        MulZero(f1);
      }
    }

    /** The determinant of the matrix as it was on entry. The argument is destroyed. */
    method Determinant(matrix: array2<real>) returns (det: real)
      requires matrix.Length0 == matrix.Length1
      modifies matrix, this
      ensures det == Adjugate.Determinant(old(Rows(matrix)))
    {
      hide Factor, UpperTriangular, DiagonalProduct, Adjugate.Determinant;
      var tms := matrix.Length0;
      det := 1.0;
      UpperTriangle(matrix);
      ghost var rows, cols, f := Rows(matrix), Cols(tms), iDF;
      for i := 0 to tms
        invariant Rows(matrix) == rows && iDF == f
        invariant det * DiagonalProduct(rows[i..], cols[i..]) == DiagonalProduct(rows, cols)
      {
        ghost var before := det;
        det := det * matrix[i, i];
        DiagonalStep(before, det, rows, cols, i, DiagonalProduct(rows, cols));
      }
      EmptyDiagonal(rows[tms..], cols[tms..]);
      FactorTimesDiagonal(old(Rows(matrix)), rows, iDF);
      det := det * iDF as real;
    }

    method RowColumnProduct(a: array2<real>, row: nat, b: array2<real>, col: nat) returns (product: real)
      requires row < a.Length0 && a.Length1 == b.Length0 && col < b.Length1
      ensures product == RowTimesColumn(Rows(a), row, Rows(b), col, a.Length1)
    {
      product := 0.0;
      for i := 0 to a.Length1
        invariant product == RowTimesColumn(Rows(a), row, Rows(b), col, i)
      {
        product := product + a[row, i] * b[i, col];
      }
    }

    method Transpose(a: array2<real>) returns (m: array2<real>)
      requires a.Length0 > 0
      ensures fresh(m) && m.Length0 == a.Length1 && m.Length1 == a.Length0
      ensures forall i, j :: 0 <= i < m.Length0 && 0 <= j < m.Length1 ==> m[i, j] == a[j, i]
    {
      m := new real[a.Length1, a.Length0];
      for i := 0 to a.Length0
        invariant forall r, c :: 0 <= r < i && 0 <= c < a.Length1 ==> m[c, r] == a[r, c]
      {
        for j := 0 to a.Length1
          invariant forall r, c :: 0 <= r < a.Length0 && 0 <= c < a.Length1 && (r < i || (r == i && c < j)) ==>
            m[c, r] == a[r, c]
        {
          m[j, i] := a[i, j];
        }
      }
    }

    /** The matrix of signed minors, transposed. */
    method Adjoint(a: array2<real>) returns (m: array2<real>)
      requires a.Length0 == a.Length1 > 0
      modifies this
      ensures fresh(m) && m.Length0 == m.Length1 == a.Length0
      ensures Rows(m) == Adj(Rows(a))
    {
      hide *;
      var tms := a.Length0;
      m := new real[tms, tms];
      ghost var adj := Adj(Rows(a));
      AdjSquare(Rows(a));
      for i := 0 to tms
        invariant fresh(m)
        invariant forall r, c :: 0 <= r < i && 0 <= c < tms ==> m[r, c] == adj[c][r]
      {
        for j := 0 to tms
          invariant forall r, c :: 0 <= r < tms && 0 <= c < tms && (r < i || (r == i && c < j)) ==> m[r, c] == adj[c][r]
        {
          m[i, j] := Cofactor(a, i, j);
        }
      }
      m := Transpose(m);
      RowsAre(m, adj);
    }

    /** The signed minor of row i and column j. */
    method Cofactor(a: array2<real>, i: nat, j: nat) returns (x: real)
      requires i < a.Length0 == a.Length1 && j < a.Length1
      modifies this
      ensures x == Adj(Rows(a))[j][i]
    {
      hide Minor, Rows;
      var ap := WithoutRowAndColumn(a, i, j);
      var det := Determinant(ap);
      x := Sign(i + j) * det;
    }

    /** The matrix left when row i and column j are taken out of a. */
    method WithoutRowAndColumn(a: array2<real>, i: nat, j: nat) returns (ap: array2<real>)
      requires i < a.Length0 == a.Length1 && j < a.Length1
      ensures fresh(ap) && ap.Length0 == ap.Length1 == a.Length0 - 1
      ensures Adjugate.Determinant(Rows(ap)) == Minor(Rows(a), i, j)
    {
      var tms := a.Length0;
      ap := new real[tms - 1, tms - 1];
      var ia, ja := 0, 0;
      var ii, jj := 0, 0;
      while ii < tms
        invariant 0 <= ii <= tms && ia == (if ii <= i then ii else ii - 1) && ja == 0
        invariant forall r, c :: 0 <= r < ia && 0 <= c < tms - 1 ==> ap[r, c] == a[Skip(r, i), Skip(c, j)]
      {
        jj := 0;
        while jj < tms
          invariant 0 <= jj <= tms
          invariant ja == if ii == i then 0 else if jj <= j then jj else jj - 1
          invariant forall r, c :: 0 <= r < tms - 1 && 0 <= c < tms - 1 && (r < ia || (r == ia && c < ja)) ==>
            ap[r, c] == a[Skip(r, i), Skip(c, j)]
        {
          if ii != i && jj != j {
            ap[ia, ja] := a[ii, jj];
            ja := ja + 1;
          }
          jj := jj + 1;
        }
        if ii != i && jj != j {
          ia := ia + 1;
        }
        ja := 0;
        ii := ii + 1;
      }
      assert SameEntries(Rows(ap), Cols(tms - 1), Without(Rows(a), i), Without(Cols(tms), j));
      SameEntriesSameDet(Rows(ap), Cols(tms - 1), Without(Rows(a), i), Without(Cols(tms), j));
    }

    /** 1/det times the adjoint, or the zero matrix when the determinant is 0. */
    method Inverse(a: array2<real>) returns (m: array2<real>)
      requires a.Length0 == a.Length1 > 0
      modifies a, this
      ensures fresh(m) && m.Length0 == m.Length1 == a.Length0
      ensures var det := Adjugate.Determinant(old(Rows(a)));
        if det == 0.0 then forall i, j :: 0 <= i < m.Length0 && 0 <= j < m.Length1 ==> m[i, j] == 0.0
        else Inverts(old(Rows(a)), Rows(m)) && Inverts(Rows(m), old(Rows(a)))
    {
      ghost var rows := Rows(a);
      var tms := a.Length0;
      m := new real[tms, tms];
      var mm := Adjoint(a);
      var det := Determinant(a);
      var dd := 0.0;
      if det != 0.0 {
        dd := 1.0 / det;
      }
      assert Rows(mm) == Adj(rows);
      Scale(m, dd, mm);
      ScaledRows(m, dd, mm, rows);
      if det != 0.0 {
        InverseBothSides(rows);
      }
    }

    /** Stores d times mm into m. */
    method Scale(m: array2<real>, d: real, mm: array2<real>)
      requires m != mm && m.Length0 == mm.Length0 && m.Length1 == mm.Length1
      modifies m
      ensures forall r, c :: 0 <= r < m.Length0 && 0 <= c < m.Length1 ==> m[r, c] == Mul(d, mm[r, c])
    {
      for i := 0 to m.Length0
        invariant forall r, c :: 0 <= r < i && 0 <= c < m.Length1 ==> m[r, c] == Mul(d, mm[r, c])
      {
        for j := 0 to m.Length1
          invariant forall r, c :: 0 <= r < m.Length0 && 0 <= c < m.Length1 && (r < i || (r == i && c < j)) ==>
            m[r, c] == Mul(d, mm[r, c])
        {
          m[i, j] := d * mm[i, j];
        }
      }
    }
  }

  lemma ScaledRows(m: array2<real>, d: real, mm: array2<real>, rows: seq<Row>)
    requires m.Length0 == m.Length1 == mm.Length0 == mm.Length1 == |rows|
    requires Rows(mm) == Adj(rows)
    requires forall r, c :: 0 <= r < m.Length0 && 0 <= c < m.Length1 ==> m[r, c] == Mul(d, mm[r, c])
    ensures Rows(m) == ScaledAdj(rows, d)
    ensures d == 0.0 ==> forall r, c :: 0 <= r < m.Length0 && 0 <= c < m.Length1 ==> m[r, c] == 0.0
  {
    hide Mul;
    forall r | 0 <= r < |rows| ensures Rows(m)[r] == ScaledAdj(rows, d)[r] {
      forall c | 0 <= c < |rows| ensures Rows(m)[r][c] == ScaledAdj(rows, d)[r][c] {
        assert mm[r, c] == Rows(mm)[r][c];
      }
    }
    forall r, c | 0 <= r < |rows| && 0 <= c < |rows| ensures d == 0.0 ==> m[r, c] == 0.0 {
      MulZero(mm[r, c]);
    }
  }

  lemma FactorTimesDiagonal(original: seq<Row>, current: seq<Row>, f: int)
    requires Factor(original, current, f) && UpperTriangular(current, Cols(|current|))
    ensures DiagonalProduct(current, Cols(|current|)) * f as real == Adjugate.Determinant(original)
  {
    TriangularDet(current, Cols(|current|));
  }

  /** The k-th index when index `out` is left out. */
  function Skip(k: nat, out: nat): nat {
    if k < out then k else k + 1
  }

  lemma EmptyDiagonal(rows: seq<Row>, cols: seq<nat>)
    requires rows == [] && cols == []
    ensures DiagonalProduct(rows, cols) == 1.0
  {}

  lemma DiagonalStep(det: real, det': real, rows: seq<Row>, cols: seq<nat>, i: nat, total: real)
    requires i < |rows| == |cols| && det' == det * At(rows[i], cols[i])
    requires det * DiagonalProduct(rows[i..], cols[i..]) == total
    ensures det' * DiagonalProduct(rows[i + 1..], cols[i + 1..]) == total
  {
    var rest := DiagonalProduct(rows[i + 1..], cols[i + 1..]);
    assert rows[i..][1..] == rows[i + 1..] && cols[i..][1..] == cols[i + 1..];
    assert DiagonalProduct(rows[i..], cols[i..]) == At(rows[i], cols[i]) * rest;
    Associates(det, At(rows[i], cols[i]), rest);
  }

  lemma Associates(a: real, b: real, c: real)
    ensures a * b * c == a * (b * c)
  {}
}
