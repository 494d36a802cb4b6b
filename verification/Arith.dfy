/** Bytes and words, facts about products and quotients, and the rounding the drivers do
    with bit masks. */
module Arith {

  newtype Byte = x: int | 0 <= x < 256

  const TWO31: int := 0x8000_0000
  const TWO32: int := 0x1_0000_0000

  lemma ProductMonotone(a: nat, b: nat, c: nat)
    requires a <= b
    ensures a * c <= b * c
  {}

  lemma Quotient(a: nat, d: nat, q: nat, r: nat)
    requires r < d && a == q * d + r
    ensures a / d == q && a % d == r
  {
    if a / d < q {
      ProductMonotone(a / d + 1, q, d);
    } else if a / d > q {
      ProductMonotone(q + 1, a / d, d);
    }
  }

  lemma Associates(a: nat, b: nat, c: nat)
    ensures a * b * c == a * (b * c)
  {}

  lemma Distributes(a: nat, b: nat, c: nat)
    ensures a * (b + c) == a * b + a * c
  {}

  /** A multiple of `p * k` is a multiple of `p`. */
  lemma MultipleOfFactor(x: nat, p: nat, k: nat)
    requires p > 0 && k > 0 && p * k > 0 && x % (p * k) == 0
    ensures x % p == 0
  {
    var q := x / (p * k);
    assert x == q * (p * k);
    assert q * (p * k) == q * k * p;
    Quotient(x, p, q * k, 0);
  }

  lemma MultipleTimes(x: nat, p: nat, k: nat)
    requires p > 0 && x % p == 0
    ensures x * k % p == 0
  {
    var q := x / p;
    assert x == q * p;
    assert x * k == q * k * p;
    Quotient(x * k, p, q * k, 0);
  }

  /** `(x + (p-1)) & ~(p-1)` for a power of two `p`: the least multiple of `p` from `x` up. */
  function RoundUp(x: nat, p: nat): (r: nat)
    requires p > 0
    ensures r % p == 0 && x <= r < x + p
  {
    var q := (x + p - 1) / p;
    Quotient(q * p, p, q, 0);
    q * p
  }

  lemma RoundsToItself(x: nat, p: nat)
    requires p > 0 && x % p == 0
    ensures RoundUp(x, p) == x
  {
    Quotient(x + p - 1, p, x / p, p - 1);
  }

  /** Rounding commutes with adding a multiple. */
  lemma RoundUpShift(m: nat, x: nat, p: nat)
    requires p > 0 && m % p == 0
    ensures RoundUp(m + x, p) == m + RoundUp(x, p)
  {
    var k, q := m / p, (x + p - 1) / p;
    Quotient(m + x + p - 1, p, k + q, (x + p - 1) % p);
    assert (k + q) * p == k * p + q * p;
  }
}
