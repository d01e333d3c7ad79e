/** Multiples, remainders and quotients. */
module Arith {
  lemma MulSucc(n: int, w: int)
    ensures (n + 1) * w == n * w + w
  {
  }

  /** A non-zero multiple of d is at least d away from zero. */
  lemma Gap(d: int, k: int)
    requires d > 0
    ensures k >= 1 ==> d * k >= d
    ensures k <= -1 ==> d * k <= -d
  {
  }

  /** Quotient and remainder are unique. */
  lemma DivModUnique(x: int, d: nat, q: int, r: int)
    requires d > 0 && x == d * q + r && 0 <= r < d
    ensures x % d == r && x / d == q
  {
    var k := x / d - q;
    assert x == d * (x / d) + x % d;
    assert r - x % d == d * k by { assert d * k == d * (x / d) - d * q; }
    Gap(d, k);
  }

  /** One bit of a number, between what lies above and below it. */
  lemma BitAt(x: nat, p: nat, high: nat, b: nat, low: nat)
    requires b < 2 && low < p && x == p * (2 * high + b) + low
    ensures x / p % 2 == b
  {
    DivModUnique(x, p, 2 * high + b, low);
  }

  lemma SmallNotMultiple(d: int, p: int)
    requires d != 0 && 0 - p < d < p
    ensures d % p != 0
  {
    if d > 0 { DivModUnique(d, p, 0, d); } else { DivModUnique(d, p, -1, d + p); }
  }
}
