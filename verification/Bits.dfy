/** The bit operations of the source on two's complement integers, as arithmetic. */
module Bits {
  import opened Arithmetic

  function Pow2(k: nat): (p: nat)
    ensures p >= 1
  {
    if k == 0 then 1 else 2 * Pow2(k - 1)
  }

  /** a & m, bit by bit. The remainder and the quotient of a negative a are
      those of its two's complement bits. */
  function And(a: int, m: nat): (r: nat)
    decreases m
  {
    if m == 0 then 0 else (if a % 2 == m % 2 == 1 then 1 else 0) + 2 * And(a / 2, m / 2)
  }

  /** a & ~m. */
  function AndNot(a: int, m: nat): int {
    a - And(a, m)
  }

  /** a >> k. */
  function ShiftRight(a: int, k: nat): int {
    a / Pow2(k)
  }

  /** Masking with the k low bits leaves the remainder. */
  lemma {:induction false} AndMask(a: int, k: nat)
    ensures And(a, Pow2(k) - 1) == a % Pow2(k)
    decreases k
  {
    if k == 0 {
    } else {
      AndMask(a / 2, k - 1);
      OneMoreBit(a, Pow2(k - 1));
    }
  }

  lemma OneMoreBit(a: int, p: nat)
    requires p >= 1 && And(a / 2, p - 1) == a / 2 % p
    ensures And(a, 2 * p - 1) == a % (2 * p)
  {
    hide And;
    OddMask(a, p);
    HalfRemainder(a, p);
  }

  lemma OddMask(a: int, p: nat)
    requires p >= 1
    ensures And(a, 2 * p - 1) == a % 2 + 2 * And(a / 2, p - 1)
  {}

  lemma HalfRemainder(a: int, p: nat)
    requires p >= 1
    ensures a % (2 * p) == a % 2 + 2 * (a / 2 % p)
  {
    var q, r := a / 2 / p, a / 2 % p;
    assert a == 2 * (q * p + r) + a % 2;
    Quotient(q, 2 * p, 2 * r + a % 2, a);
  }
}
