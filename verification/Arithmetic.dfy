/** Integer division, remainders and multiples. */
module Arithmetic {
  function Min(a: int, b: int): int {
    if a <= b then a else b
  }

  function Max(a: int, b: int): int {
    if a >= b then a else b
  }

  /** Quotient and remainder are determined by a == q * d + r with 0 <= r < d. */
  lemma Quotient(q: int, d: int, r: int, a: int)
    requires 0 <= r < d && a == q * d + r
    ensures a / d == q && a % d == r
  {
    var k := q - a / d;
    assert a == a / d * d + a % d;
    assert k * d == q * d - a / d * d;
    SmallMultiple(k, d);
  }

  /** The only multiple of d strictly between -d and d is 0. */
  lemma SmallMultiple(k: int, d: int)
    requires d > 0
    ensures -d < k * d < d ==> k == 0
  {}

  lemma NotNegative(a: int, b: int)
    requires a >= 0 && b >= 0
    ensures a * b >= 0
  {}

  lemma Divided(n: int, d: int)
    requires d > 0
    ensures n == n / d * d + n % d && 0 <= n % d < d
    ensures n >= 0 ==> n / d >= 0
  {}

  lemma Monotone(a: int, b: int, k: int)
    requires a <= b && k >= 0
    ensures a * k <= b * k
  {}

  lemma OneMore(a: int, v: nat)
    requires v > 0
    ensures (a - a % v + v) % v == 0
  {
    Divided(a, v);
    assert (a / v + 1) * v == a / v * v + v;
    Quotient(a / v + 1, v, 0, a - a % v + v);
  }

  lemma NextMultiple(a: int, b: int, v: nat)
    requires v > 0 && a % v == 0 == b % v && a < b
    ensures a + v <= b
  {
    Divided(a, v);
    Divided(b, v);
    var k := b / v - a / v;
    assert k * v == b / v * v - a / v * v;
    SmallMultiple(k, v);
  }
}
