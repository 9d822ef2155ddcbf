/** The adjugate of a square matrix and what multiplying by it gives. */
module Adjugate {
  import opened Laplace

  ghost predicate Square(m: seq<Row>, n: nat) {
    |m| == n && forall i :: 0 <= i < n ==> |m[i]| == n
  }

  ghost function Determinant(m: seq<Row>): real {
    Det(m, Cols(|m|))
  }

  /** The determinant of m without row i and column j. */
  ghost function Minor(m: seq<Row>, i: nat, j: nat): real
    requires i < |m| && j < |m|
  {
    Det(Without(m, i), Without(Cols(|m|), j))
  }

  ghost function Adj(m: seq<Row>): (a: seq<Row>)
    ensures Square(a, |m|)
    ensures forall i, j :: 0 <= i < |m| && 0 <= j < |m| ==> a[i][j] == Mul(Sign(i + j), Minor(m, j, i))
  {
    seq(|m|, i requires 0 <= i < |m| => seq(|m|, j requires 0 <= j < |m| => Mul(Sign(i + j), Minor(m, j, i))))
  }

  /** The first n terms of row i of a times column j of b. */
  ghost function RowTimesColumn(a: seq<Row>, i: nat, b: seq<Row>, j: nat, n: nat): real
    requires i < |a| && n <= |b|
  {
    if n == 0 then 0.0 else RowTimesColumn(a, i, b, j, n - 1) + Mul(At(a[i], n - 1), At(b[n - 1], j))
  }

  function Unit(i: nat, j: nat): real {
    if i == j then 1.0 else 0.0
  }

  lemma SignLaw(k: nat, l: nat, d: real)
    ensures Mul(Sign(l + k), d) == Mul(Sign(k), Mul(Sign(l), d))
    ensures Mul(Sign(k), Mul(Sign(k), d)) == d
  {}

  lemma MulOut(a: real, s: real, x: real, y: real)
    ensures Mul(a, Mul(s, x)) == Mul(s, Mul(a, x))
    ensures Mul(s, x) + Mul(s, y) == Mul(s, x + y)
    ensures Mul(a, x) == Mul(x, a)
  {}

  lemma {:induction false} CofactorRow(m: seq<Row>, i: nat, k: nat, n: nat)
    requires i < |m| && k < |m| && n <= |m|
    ensures RowTimesColumn(m, i, Adj(m), k, n) == Mul(Sign(k), CofactorSum(m[i], Without(m, k), Cols(|m|), n))
  {
    hide Mul;
    if n == 0 {
      MulZero(Sign(k));
    } else {
      CofactorRow(m, i, k, n - 1);
      var a, d := At(m[i], n - 1), Minor(m, k, n - 1);
      SignLaw(k, n - 1, d);
      MulOut(a, Sign(k), Mul(Sign(n - 1), d), 0.0);
      MulOut(a, Sign(k), CofactorSum(m[i], Without(m, k), Cols(|m|), n - 1), Mul(a, Mul(Sign(n - 1), d)));
    }
  }

  /** m times its adjugate is the determinant times the unit matrix. */
  lemma TimesAdjugate(m: seq<Row>, i: nat, k: nat)
    requires i < |m| && k < |m|
    ensures RowTimesColumn(m, i, Adj(m), k, |m|) == Mul(Determinant(m), Unit(i, k))
  {
    CofactorRow(m, i, k, |m|);
    if i == k {
      RowExpansion(m, k, Cols(|m|));
      SignLaw(k, k, Determinant(m));
    } else {
      AlienExpansion(m, i, k, Cols(|m|));
    }
  }

  ghost function Transpose(m: seq<Row>): (t: seq<Row>)
    requires Square(m, |m|)
    ensures Square(t, |m|)
    ensures forall i, j :: 0 <= i < |m| && 0 <= j < |m| ==> t[i][j] == m[j][i]
  {
    seq(|m|, i requires 0 <= i < |m| => seq(|m|, j requires 0 <= j < |m| => m[j][i]))
  }

  lemma TransposeMinor(m: seq<Row>, i: nat, j: nat)
    requires Square(m, |m|) && i < |m| && j < |m|
    ensures Determinant(Transpose(m)) == Determinant(m)
    ensures Minor(Transpose(m), i, j) == Minor(m, j, i)
  {
    var t, cs := Transpose(m), Cols(|m|);
    DetTransposed(m, t, cs, cs);
    assert Pick(m, cs) == m && Pick(t, cs) == t;
    DetTransposed(m, t, Without(cs, j), Without(cs, i));
    assert Pick(m, Without(cs, j)) == Without(m, j) && Pick(t, Without(cs, i)) == Without(t, i);
  }

  lemma {:induction false} MirroredProduct(m: seq<Row>, i: nat, k: nat, n: nat)
    requires Square(m, |m|) && i < |m| && k < |m| && n <= |m|
    ensures RowTimesColumn(Adj(m), i, m, k, n) == RowTimesColumn(Transpose(m), k, Adj(Transpose(m)), i, n)
  {
    hide Mul;
    if n == 0 {
    } else {
      MirroredProduct(m, i, k, n - 1);
      TransposeMinor(m, i, n - 1);
      var t := Transpose(m);
      assert Adj(t)[n - 1][i] == Adj(m)[i][n - 1];
      MulOut(At(t[k], n - 1), 0.0, At(Adj(t)[n - 1], i), 0.0);
    }
  }

  /** The adjugate times m is the determinant times the unit matrix. */
  lemma AdjugateTimes(m: seq<Row>, i: nat, k: nat)
    requires Square(m, |m|) && i < |m| && k < |m|
    ensures RowTimesColumn(Adj(m), i, m, k, |m|) == Mul(Determinant(m), Unit(i, k))
  {
    hide Mul;
    MirroredProduct(m, i, k, |m|);
    TransposeMinor(m, i, k);
    TimesAdjugate(Transpose(m), k, i);
  }

  /** d times the adjugate. */
  ghost function ScaledAdj(m: seq<Row>, d: real): (a: seq<Row>)
    ensures Square(a, |m|)
    ensures forall i, j :: 0 <= i < |m| && 0 <= j < |m| ==> a[i][j] == Mul(d, Adj(m)[i][j])
  {
    seq(|m|, i requires 0 <= i < |m| => seq(|m|, j requires 0 <= j < |m| => Mul(d, Adj(m)[i][j])))
  }

  lemma {:induction false} TimesScaled(m: seq<Row>, d: real, i: nat, k: nat, n: nat)
    requires i < |m| && k < |m| && n <= |m|
    ensures RowTimesColumn(m, i, ScaledAdj(m, d), k, n) == Mul(d, RowTimesColumn(m, i, Adj(m), k, n))
  {
    hide Mul;
    if n == 0 {
      MulZero(d);
    } else {
      TimesScaled(m, d, i, k, n - 1);
      var x, y := At(m[i], n - 1), At(Adj(m)[n - 1], k);
      MulOut(x, d, y, 0.0);
      MulOut(x, d, RowTimesColumn(m, i, Adj(m), k, n - 1), Mul(x, y));
    }
  }

  lemma {:induction false} ScaledTimes(m: seq<Row>, d: real, i: nat, k: nat, n: nat)
    requires i < |m| && k < |m| && n <= |m|
    ensures RowTimesColumn(ScaledAdj(m, d), i, m, k, n) == Mul(d, RowTimesColumn(Adj(m), i, m, k, n))
  {
    hide Mul;
    if n == 0 {
      MulZero(d);
    } else {
      ScaledTimes(m, d, i, k, n - 1);
      var u, v := At(m[n - 1], k), At(Adj(m)[i], n - 1);
      MulOut(u, d, v, 0.0);
      MulOut(u, 0.0, Mul(d, v), 0.0);
      MulOut(u, d, RowTimesColumn(Adj(m), i, m, k, n - 1), Mul(v, u));
    }
  }

  ghost predicate Inverts(a: seq<Row>, b: seq<Row>) {
    |a| == |b| &&
    forall i, k :: 0 <= i < |a| && 0 <= k < |a| ==> RowTimesColumn(a, i, b, k, |a|) == Unit(i, k)
  }

  /** With a non-zero determinant, 1/det times the adjugate is the inverse on both sides. */
  lemma InverseBothSides(m: seq<Row>)
    requires Square(m, |m|) && Determinant(m) != 0.0
    ensures Inverts(m, ScaledAdj(m, 1.0 / Determinant(m)))
    ensures Inverts(ScaledAdj(m, 1.0 / Determinant(m)), m)
  {
    hide Determinant, ScaledAdj, RowTimesColumn;
    var d := 1.0 / Determinant(m);
    forall i, k | 0 <= i < |m| && 0 <= k < |m|
      ensures RowTimesColumn(m, i, ScaledAdj(m, d), k, |m|) == Unit(i, k)
      ensures RowTimesColumn(ScaledAdj(m, d), i, m, k, |m|) == Unit(i, k)
    {
      InverseEntry(m, d, i, k);
    }
  }

  lemma InverseEntry(m: seq<Row>, d: real, i: nat, k: nat)
    requires Square(m, |m|) && i < |m| && k < |m| && Determinant(m) != 0.0 && d == 1.0 / Determinant(m)
    ensures RowTimesColumn(m, i, ScaledAdj(m, d), k, |m|) == Unit(i, k)
    ensures RowTimesColumn(ScaledAdj(m, d), i, m, k, |m|) == Unit(i, k)
  {
    hide Determinant, ScaledAdj, RowTimesColumn;
    TimesScaled(m, d, i, k, |m|);
    ScaledTimes(m, d, i, k, |m|);
    TimesAdjugate(m, i, k);
    AdjugateTimes(m, i, k);
  }
}
