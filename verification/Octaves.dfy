/** Sums of octaves: amplitudes that fall by a constant gain. */
module Octaves {
  import opened Interpolation
  import opened Options

  function Power(b: real, n: nat): real {
    if n == 0 then 1.0 else Power(b, n - 1) * b
  }

  /** 1 + gain + gain^2 + ..., n terms. */
  function Amplitudes(gain: real, n: nat): real {
    if n == 0 then 0.0 else Amplitudes(gain, n - 1) + Power(gain, n - 1)
  }

  /** The octaves v, each weighed with its amplitude. */
  function Weighted(v: seq<real>, gain: real): real {
    if v == [] then 0.0 else Weighted(v[..|v| - 1], gain) + v[|v| - 1] * Power(gain, |v| - 1)
  }

  ghost predicate AllWithin(v: seq<real>, m: real) {
    forall i :: 0 <= i < |v| ==> Bounded(v[i], m)
  }

  lemma {:induction false} PowerNotNegative(b: real, n: nat)
    requires b >= 0.0
    ensures Power(b, n) >= 0.0
  {
    if n == 0 {
    } else {
      PowerNotNegative(b, n - 1);
      Product(Power(b, n - 1), b);
    }
  }

  /** Octaves within 1 sum to no more than the amplitudes do. */
  lemma {:induction false} WeightedWithin(v: seq<real>, gain: real)
    requires gain >= 0.0 && AllWithin(v, 1.0)
    ensures Bounded(Weighted(v, gain), Amplitudes(gain, |v|))
  {
    if v == [] {
    } else {
      WeightedWithin(v[..|v| - 1], gain);
      PowerNotNegative(gain, |v| - 1);
      WeighedBound(Power(gain, |v| - 1), v[|v| - 1], 1.0);
    }
  }

  /** The first octave counts fully, the others as a sum of their own, one step weaker. */
  lemma {:induction false} WeightedRest(a: real, v: seq<real>, gain: real)
    ensures Weighted([a] + v, gain) == a + gain * Weighted(v, gain)
  {
    if v == [] {
      assert [a] + [] == [a] && [a][..0] == [];
      assert Power(gain, 0) == 1.0;
    } else {
      var n := |v| - 1;
      WeightedRest(a, v[..n], gain);
      assert ([a] + v)[..n + 1] == [a] + v[..n];
      assert gain * (Weighted(v[..n], gain) + v[n] * Power(gain, n))
        == gain * Weighted(v[..n], gain) + v[n] * (Power(gain, n) * gain);
    }
  }

  lemma {:induction false} AmplitudesAtLeastOne(gain: real, n: nat)
    requires gain >= 0.0 && n >= 1
    ensures Amplitudes(gain, n) >= 1.0
  {
    PowerNotNegative(gain, n - 1);
    if n == 1 {
    } else {
      AmplitudesAtLeastOne(gain, n - 1);
    }
  }

  /** 1 / a; dividing by zero gives no number. */
  function Inverse(a: real): Option<real> {
    if a == 0.0 then None else Some(1.0 / a)
  }

  function Times(s: real, b: Option<real>): Option<real> {
    if b.None? then None else Some(s * b.value)
  }

  /** A sum times the bounding constant. */
  function Normalized(s: real, a: real): Option<real> {
    Times(s, Inverse(a))
  }

  /** A number in [-1, 1]. */
  ghost predicate InRange(r: Option<real>) {
    r.Some? && Bounded(r.value, 1.0)
  }

  lemma QuotientWithin(s: real, a: real)
    requires a > 0.0 && Bounded(s, a)
    ensures InRange(Normalized(s, a))
  {
    var q := 1.0 / a;
    assert q * a == 1.0;
    WeighedBound(q, s, a);
  }

  /** Dividing by the amplitudes keeps every sum of n octaves within 1. */
  ghost predicate BoundingSuffices(gain: real, n: nat) {
    forall v: seq<real> | |v| == n && AllWithin(v, 1.0) :: InRange(Normalized(Weighted(v, gain), Amplitudes(gain, n)))
  }

  lemma SufficesFor(v: seq<real>, gain: real)
    requires BoundingSuffices(gain, |v|) && AllWithin(v, 1.0)
    ensures InRange(Normalized(Weighted(v, gain), Amplitudes(gain, |v|)))
  {}

  /** The bounding constant does its work exactly when the gain is not negative or there is one octave. */
  lemma BoundingSufficesExactly(gain: real, n: nat)
    requires n >= 1
    ensures BoundingSuffices(gain, n) <==> gain >= 0.0 || n == 1
  {
    hide InRange, Weighted, Amplitudes, AllWithin, Normalized, Alternating;
    if gain >= 0.0 {
      AmplitudesAtLeastOne(gain, n);
      forall v: seq<real> | |v| == n && AllWithin(v, 1.0)
        ensures InRange(Normalized(Weighted(v, gain), Amplitudes(gain, n)))
      {
        WeightedWithin(v, gain);
        QuotientWithin(Weighted(v, gain), Amplitudes(gain, n));
      }
    } else if n == 1 {
      OneAmplitude(gain);
      forall v: seq<real> | |v| == n && AllWithin(v, 1.0)
        ensures InRange(Normalized(Weighted(v, gain), Amplitudes(gain, n)))
      {
        OneOctave(v, gain);
      }
    } else {
      AlternatingExceeds(gain, n);
      assert !InRange(Normalized(Weighted(Alternating(n), gain), Amplitudes(gain, n)));
    }
  }

  /** Octaves whose signs alternate, starting with a positive or a negative one. */
  ghost predicate InTurn(v: seq<real>, even: bool) {
    forall i :: 0 <= i < |v| ==> if (i % 2 == 0) == even then v[i] >= 0.0 else v[i] <= 0.0
  }

  function Abs(x: real): real {
    if x >= 0.0 then x else -x
  }

  function Signed(x: real, even: bool): real {
    if even then x else -x
  }

  /** The first two octaves, or the last two, are 1 and -1 or the other way around. */
  ghost predicate Extreme(v: seq<real>, gain: real) {
    && |v| >= 2
    && (gain >= -1.0 ==> Abs(v[0]) == Abs(v[1]) == 1.0)
    && (gain < -1.0 ==> Abs(v[|v| - 2]) == Abs(v[|v| - 1]) == 1.0)
  }

  /** Octaves whose signs follow a negative gain's leave [-1, 1], or are divided
      by zero, when those with the largest amplitudes are 1 and -1. */
  lemma InTurnExceeds(v: seq<real>, gain: real, even: bool)
    requires gain < 0.0 && InTurn(v, even) && Extreme(v, gain)
    ensures !InRange(Normalized(Weighted(v, gain), Amplitudes(gain, |v|)))
  {
    hide Weighted, Amplitudes, Power, Normalized, InTurn, InRange;
    var n, s, a, p := |v|, Signed(Weighted(v, gain), even), Amplitudes(gain, |v|), Power(-gain, |v|);
    AmplitudesClosed(gain, n);
    PowerOfNegative(-gain, n);
    PowerNotNegative(-gain, n);
    if gain >= -1.0 { FirstExtreme(v, gain, even); } else { LastExtreme(v, gain, even); }
    Outside(s, a, gain, p);
    BeyondEitherWay(Weighted(v, gain), s, a);
  }

  lemma FirstExtreme(v: seq<real>, gain: real, even: bool)
    requires -1.0 <= gain < 0.0 && InTurn(v, even) && Extreme(v, gain)
    ensures (1.0 - gain) * Signed(Weighted(v, gain), even) > 1.0 + Power(-gain, |v|)
  {
    hide Weighted, Power, InTurn, Signed, Abs;
    FirstTwo(v, gain, even);
    SmallPower(-gain, |v|);
    Square(-gain, Signed(Weighted(v, gain), even), Power(-gain, |v|));
  }

  lemma LastExtreme(v: seq<real>, gain: real, even: bool)
    requires gain < -1.0 && InTurn(v, even) && Extreme(v, gain)
    ensures (1.0 - gain) * Signed(Weighted(v, gain), even) > 1.0 + Power(-gain, |v|)
  {
    hide Weighted, Power, InTurn, Signed, Abs;
    var n := |v|;
    LastTwo(v, gain, even);
    LargePower(-gain, n - 1);
    LargePower(-gain, n - 2);
    LastPowers(-gain, n);
    TopSquare(-gain, Signed(Weighted(v, gain), even), Power(-gain, n - 2), Power(-gain, n - 1), Power(-gain, n));
  }

  lemma BeyondEitherWay(t: real, s: real, a: real)
    requires (t == s || t == -s) && -s < a < s
    ensures !InRange(Normalized(t, a))
  {
    if a != 0.0 {
      var q := 1.0 / a;
      QuotientBeyond(s, a);
      assert -s * q == -(s * q);
    }
  }

  /** One octave, t, adds to the sum with its whole amplitude. */
  lemma TermInTurn(x: real, gain: real, i: nat, even: bool, t: real)
    requires gain < 0.0 && t == x * Power(gain, i) && if (i % 2 == 0) == even then x >= 0.0 else x <= 0.0
    ensures Signed(t, even) == Abs(x) * Power(-gain, i) >= 0.0
  {
    hide Power;
    assert -(-gain) == gain;
    PowerOfNegative(-gain, i);
    PowerNotNegative(-gain, i);
    SignedProduct(x, Power(-gain, i));
  }

  lemma SignedProduct(x: real, p: real)
    requires p >= 0.0
    ensures Abs(x) * p >= 0.0 && x * -p == -(x * p) && (x >= 0.0 ==> x * p == Abs(x) * p)
    ensures x <= 0.0 ==> x * p == -(Abs(x) * p)
  {
    Product(Abs(x), p);
  }

  lemma LastTerm(v: seq<real>, gain: real, even: bool, t: real)
    requires v != [] && t == v[|v| - 1] * Power(gain, |v| - 1)
    ensures Signed(Weighted(v, gain), even) == Signed(Weighted(v[..|v| - 1], gain), even) + Signed(t, even)
  {
    assert Weighted(v, gain) == Weighted(v[..|v| - 1], gain) + t;
    hide *;
    SignedSum(Weighted(v[..|v| - 1], gain), t, even);
  }

  lemma SignedSum(x: real, y: real, even: bool)
    ensures Signed(x + y, even) == Signed(x, even) + Signed(y, even)
  {}

  /** The last octave adds its whole amplitude. */
  lemma LastInTurn(v: seq<real>, gain: real, even: bool)
    requires gain < 0.0 && v != [] && InTurn(v, even)
    ensures var n := |v| - 1; var a := Abs(v[n]) * Power(-gain, n);
      a >= 0.0 && Signed(Weighted(v, gain), even) == Signed(Weighted(v[..n], gain), even) + a
  {
    hide Power, Weighted, Signed, Abs;
    var n := |v| - 1;
    var t := v[n] * Power(gain, n);
    LastTerm(v, gain, even, t);
    TermInTurn(v[n], gain, n, even, t);
  }

  lemma {:induction false} FirstTwo(v: seq<real>, gain: real, even: bool)
    requires gain < 0.0 && InTurn(v, even) && |v| >= 2
    ensures Signed(Weighted(v, gain), even) >= Abs(v[0]) + Abs(v[1]) * -gain
  {
    hide Weighted, Power, Signed, Abs;
    var n := |v| - 1;
    LastInTurn(v, gain, even);
    if n == 1 {
      LastInTurn(v[..1], gain, even);
      assert v[..1][..0] == [];
      NoOctaves(gain, even);
    } else {
      FirstTwo(v[..n], gain, even);
    }
  }

  lemma NoOctaves(gain: real, even: bool)
    ensures Signed(Weighted([], gain), even) == 0.0 && Power(-gain, 0) == 1.0 && Power(-gain, 1) == -gain
    ensures Power(gain, 0) == 1.0
  {}

  lemma {:induction false} InTurnNotNegative(v: seq<real>, gain: real, even: bool)
    requires gain < 0.0 && InTurn(v, even)
    ensures Signed(Weighted(v, gain), even) >= 0.0
  {
    hide Power, Weighted, Signed, Abs;
    if v == [] {
      NoOctaves(gain, even);
    } else {
      LastInTurn(v, gain, even);
      InTurnNotNegative(v[..|v| - 1], gain, even);
    }
  }

  lemma LastTwo(v: seq<real>, gain: real, even: bool)
    requires gain < 0.0 && InTurn(v, even) && |v| >= 2
    ensures Signed(Weighted(v, gain), even)
      >= Abs(v[|v| - 2]) * Power(-gain, |v| - 2) + Abs(v[|v| - 1]) * Power(-gain, |v| - 1)
  {
    hide Power, Weighted, Signed, Abs;
    var n := |v|;
    assert v[..n - 1][..n - 2] == v[..n - 2];
    InTurnNotNegative(v[..n - 2], gain, even);
    LastInTurn(v[..n - 1], gain, even);
    LastInTurn(v, gain, even);
  }

  /** The amplitudes in closed form. */
  lemma {:induction false} AmplitudesClosed(gain: real, n: nat)
    ensures (1.0 - gain) * Amplitudes(gain, n) == 1.0 - Power(gain, n)
  {
    if n == 0 {
    } else {
      AmplitudesClosed(gain, n - 1);
      var a, p := Amplitudes(gain, n - 1), Power(gain, n - 1);
      assert (1.0 - gain) * (a + p) == (1.0 - gain) * a + p - p * gain;
    }
  }

  lemma {:induction false} SmallPower(b: real, n: nat)
    requires 0.0 < b <= 1.0 && n >= 1
    ensures Power(b, n) <= b
  {
    hide Power;
    Shrinks(b, n);
    if n == 1 {
    } else {
      SmallPower(b, n - 1);
    }
  }

  lemma {:induction false} LargePower(b: real, n: nat)
    requires b >= 1.0
    ensures Power(b, n) >= 1.0
  {
    hide Power;
    if n == 0 {
      NoOctaves(b, true);
    } else {
      LargePower(b, n - 1);
      Stretches(b, n);
    }
  }

  lemma Shrinks(b: real, n: nat)
    requires 0.0 < b <= 1.0 && n >= 1
    ensures Power(b, n) <= Power(b, n - 1) && (n == 1 ==> Power(b, n) == b)
  {
    var p := Power(b, n - 1);
    PowerNotNegative(b, n - 1);
    Product(p, 1.0 - b);
    assert p * (1.0 - b) == p - p * b;
  }

  lemma Stretches(b: real, n: nat)
    requires b >= 1.0 && n >= 1
    ensures Power(b, n) >= Power(b, n - 1)
  {
    var p := Power(b, n - 1);
    PowerNotNegative(b, n - 1);
    Product(p, b - 1.0);
    assert p * (b - 1.0) == p * b - p;
  }

  lemma LastPowers(b: real, n: nat)
    requires n >= 2
    ensures Power(b, n - 1) == Power(b, n - 2) * b && Power(b, n) == Power(b, n - 1) * b
  {}

  lemma Square(g: real, s: real, p: real)
    requires 0.0 < g <= 1.0 && s >= 1.0 + g && p <= g
    ensures (1.0 + g) * s > 1.0 + p
  {
    var d := s - 1.0;
    Product(g, d);
    assert (1.0 + g) * s == 1.0 + d + g + g * d;
  }

  lemma TopSquare(g: real, s: real, q: real, r: real, p: real)
    requires g > 1.0 && s >= q + r && q >= 1.0 && r >= 1.0 && r == q * g && p == r * g
    ensures (1.0 + g) * s > 1.0 + p
  {
    var d := s - q - r;
    Product(g, d);
    assert (1.0 + g) * s == q + r + d + q * g + r * g + g * d;
  }

  lemma Outside(s: real, a: real, gain: real, p: real)
    requires gain < 0.0 && (1.0 - gain) * s > 1.0 + p && p >= 0.0
    requires (1.0 - gain) * a == 1.0 - p || (1.0 - gain) * a == 1.0 + p
    ensures -s < a < s
  {
    var c := 1.0 - gain;
    Ordered(c, s, a);
    Ordered(c, a, -s);
    assert c * -s == -(c * s);
  }

  lemma Ordered(c: real, x: real, y: real)
    requires c >= 0.0
    ensures x <= y ==> c * x <= c * y
  {
    if x <= y {
      Product(c, y - x);
      assert c * (y - x) == c * y - c * x;
    }
  }

  lemma AlternatingExceeds(gain: real, n: nat)
    requires gain < 0.0 && n >= 2
    ensures !InRange(Normalized(Weighted(Alternating(n), gain), Amplitudes(gain, n)))
  {
    hide Weighted, Amplitudes, Normalized;
    InTurnExceeds(Alternating(n), gain, true);
  }

  lemma OneAmplitude(gain: real)
    ensures Amplitudes(gain, 1) == 1.0
  {}

  lemma OneOctave(v: seq<real>, gain: real)
    requires |v| == 1 && AllWithin(v, 1.0)
    ensures InRange(Normalized(Weighted(v, gain), 1.0))
  {}

  /** 1, -1, 1, ... */
  function Alternating(n: nat): (v: seq<real>)
    ensures |v| == n && AllWithin(v, 1.0)
  {
    seq(n, i => if i % 2 == 0 then 1.0 else -1.0)
  }

  lemma {:induction false} PowerOfNegative(b: real, n: nat)
    ensures Power(-b, n) == if n % 2 == 0 then Power(b, n) else -Power(b, n)
  {
    if n == 0 {
    } else {
      PowerOfNegative(b, n - 1);
    }
  }

  lemma TwoOctaves(gain: real)
    ensures Amplitudes(gain, 2) == 1.0 + gain
  {
    assert Power(gain, 0) == 1.0 && Power(gain, 1) == gain && Amplitudes(gain, 0) == 0.0 && Amplitudes(gain, 1) == 1.0;
  }

  lemma QuotientBeyond(s: real, a: real)
    requires a != 0.0 && -s < a < s
    ensures !InRange(Normalized(s, a))
  {
    var q := 1.0 / a;
    assert q * a == 1.0;
    if a > 0.0 {
      Beyond(s, a, q);
    } else {
      Beyond(s, -a, -q);
      assert s * -q == -(s * q);
    }
  }

  lemma Beyond(s: real, a: real, q: real)
    requires q * a == 1.0 && 0.0 < a < s
    ensures s * q > 1.0
  {
    var p, r := q * a, s * q;
    assert p < r by { Positive(q, a); Grows(q, a, s); }
    assert p == 1.0;
  }

  lemma Positive(q: real, a: real)
    requires q * a == 1.0 && a > 0.0
    ensures q > 0.0
  {
    if q <= 0.0 { Product(-q, a); }
  }

  lemma Grows(q: real, a: real, s: real)
    requires q > 0.0 && a < s
    ensures q * a < s * q
  {
    var d := s - a;
    assert d * q > 0.0;
    assert s * q == (a + d) * q == a * q + d * q;
  }
}
