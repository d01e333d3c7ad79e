/** Bitwise operators on naturals, and the bit tricks the writers build on them:
    alignment rounding, base-two logarithms and packed fields. */
module Bits {
  import opened Arith

  function Pow2(k: nat): (p: nat)
    ensures p > 0
  {
    if k == 0 then 1 else 2 * Pow2(k - 1)
  }

  function And(x: nat, y: nat): nat
    decreases x
  {
    if x == 0 then 0 else (if x % 2 == 1 && y % 2 == 1 then 1 else 0) + 2 * And(x / 2, y / 2)
  }

  function Or(x: nat, y: nat): nat
    decreases x + y
  {
    if x == 0 then y
    else if y == 0 then x
    else (if x % 2 == 1 || y % 2 == 1 then 1 else 0) + 2 * Or(x / 2, y / 2)
  }

  /** x &^ m: the bits of x that m does not have. */
  function AndNot(x: nat, m: nat): nat
    decreases x
  {
    if x == 0 then 0 else (if m % 2 == 1 then 0 else x % 2) + 2 * AndNot(x / 2, m / 2)
  }

  function Shl(x: nat, k: nat): nat
    decreases k
  {
    if k == 0 then x else 2 * Shl(x, k - 1)
  }

  predicate IsPow2(a: nat) {
    a == 1 || (a > 1 && a % 2 == 0 && IsPow2(a / 2))
  }

  // ----------------------------------------------------------- packed fields

  lemma Pow2Sum(j: nat, k: nat)
    ensures Pow2(j + k) == Pow2(j) * Pow2(k)
  {
    if j > 0 { Pow2Sum(j - 1, k); }
  }

  lemma Pow2Of4()
    ensures Pow2(4) == 0x10
  {
  }

  lemma Pow2Of8()
    ensures Pow2(8) == 0x100
  {
  }

  lemma Pow2Of16()
    ensures Pow2(16) == 0x1_0000
  {
    Pow2Of8();
    Pow2Sum(8, 8);
  }

  lemma Pow2Of20()
    ensures Pow2(20) == 0x10_0000
  {
    Pow2Of4();
    Pow2Of16();
    Pow2Sum(16, 4);
  }

  lemma Pow2Of24()
    ensures Pow2(24) == 0x100_0000
  {
    Pow2Of8();
    Pow2Of16();
    Pow2Sum(16, 8);
  }

  lemma Pow2Of28()
    ensures Pow2(28) == 0x1000_0000
  {
    Pow2Of4();
    Pow2Of24();
    Pow2Sum(24, 4);
  }

  lemma Pow2Of32()
    ensures Pow2(32) == 0x1_0000_0000
  {
    Pow2Of16();
    Pow2Sum(16, 16);
  }

  /** ORing in a field that lies below bit k is addition. */
  lemma {:induction false} OrBelow(x: nat, k: nat, y: nat)
    requires y < Pow2(k)
    ensures Or(Shl(x, k), y) == Shl(x, k) + y
    decreases k
  {
    if k > 0 {
      OrBelow(x, k - 1, y / 2);
    }
  }

  lemma {:induction false} ShlPow2(x: nat, k: nat)
    ensures Shl(x, k) == x * Pow2(k)
    decreases k
  {
    if k > 0 { ShlPow2(x, k - 1); }
  }

  /** A field packed below bit k, where p is 2^k, comes apart again. */
  lemma Packed(x: nat, k: nat, y: nat, p: nat)
    requires p == Pow2(k) && y < p
    ensures Shl(x, k) == x * p
    ensures Or(Shl(x, k), y) == x * p + y
    ensures Or(Shl(x, k), y) / p == x && Or(Shl(x, k), y) % p == y
  {
    OrBelow(x, k, y);
    ShlPow2(x, k);
    DivModUnique(x * p + y, p, x, y);
  }

  lemma OrComm(x: nat, y: nat)
    ensures Or(x, y) == Or(y, x)
    decreases x + y
  {
    if x > 0 && y > 0 { OrComm(x / 2, y / 2); }
  }

  /** x & (2^k - 1) keeps the low k bits. */
  lemma {:induction false} AndMask(x: nat, k: nat, p: nat)
    requires p == Pow2(k)
    ensures And(x, p - 1) == x % p
    decreases k
  {
    if k == 0 {
      AndZero(x);
    } else {
      var q := Pow2(k - 1);
      AndMask(x / 2, k - 1, q);
      MaskStep(x, q);
    }
  }

  lemma MaskedSmall(x: nat, k: nat, p: nat)
    requires p == Pow2(k) && x < p
    ensures And(x, p - 1) == x
  {
    AndMask(x, k, p);
    DivModUnique(x, p, 0, x);
  }

  lemma AndZero(x: nat)
    ensures And(x, 0) == 0
  {
  }

  lemma HalfMask(p: nat)
    requires p > 0
    ensures (2 * p - 1) / 2 == p - 1 && (2 * p - 1) % 2 == 1
  {
  }

  lemma MaskStep(x: nat, p: nat)
    requires p > 0
    ensures And(x, 2 * p - 1) == x % 2 + 2 * And(x / 2, p - 1)
    ensures AndNot(x, 2 * p - 1) == 2 * AndNot(x / 2, p - 1)
    ensures x % (2 * p) == x % 2 + 2 * ((x / 2) % p)
    ensures x - x % (2 * p) == 2 * (x / 2 - (x / 2) % p)
  {
    HalfMask(p);
    HalfMod(x, p);
  }

  lemma HalfMod(x: nat, p: nat)
    requires p > 0
    ensures x % (2 * p) == x % 2 + 2 * ((x / 2) % p)
  {
    var q := x / 2;
    assert x == 2 * q + x % 2;
    assert q == p * (q / p) + q % p;
    assert x == (2 * p) * (q / p) + (2 * (q % p) + x % 2);
    DivModUnique(x, 2 * p, q / p, 2 * (q % p) + x % 2);
  }

  // --------------------------------------------------------------- alignment

  /** (v + a - 1) &^ (a - 1), or v when there is nothing to align to. */
  function AlignUp(v: nat, a: nat): nat {
    if a <= 1 then v else AndNot(v + a - 1, a - 1)
  }

  lemma {:induction false} AndNotBounds(x: nat, m: nat)
    ensures AndNot(x, m) <= x <= AndNot(x, m) + m
  {
    if x > 0 { AndNotBounds(x / 2, m / 2); }
  }

  lemma {:induction false} AndNotMask(x: nat, k: nat, p: nat)
    requires p == Pow2(k)
    ensures AndNot(x, p - 1) == x - x % p
    decreases k
  {
    if k == 0 {
      AndNotZero(x);
    } else {
      var q := Pow2(k - 1);
      AndNotMask(x / 2, k - 1, q);
      MaskStep(x, q);
    }
  }

  lemma AndNotZero(x: nat)
    ensures AndNot(x, 0) == x
  {
  }

  /** Rounding never moves backwards and skips fewer than a bytes, for every a. */
  lemma AlignUpBounds(v: nat, a: nat)
    ensures v <= AlignUp(v, a)
    ensures a >= 1 ==> AlignUp(v, a) <= v + a - 1
  {
    if a > 1 { AndNotBounds(v + a - 1, a - 1); }
  }

  lemma {:induction false} Pow2Exponent(a: nat) returns (k: nat)
    requires IsPow2(a)
    ensures a == Pow2(k)
  {
    if a == 1 { k := 0; } else { k := Pow2Exponent(a / 2); k := k + 1; }
  }

  /** The lowest set bit of a number that is not a power of two is a proper part of it. */
  lemma {:induction false} LowestBit(a: nat)
    requires a >= 1
    ensures 0 < AndNot(a, a - 1) <= a
    ensures AndNot(a, a - 1) == a <==> IsPow2(a)
  {
    if a == 1 {
    } else if a % 2 == 0 {
      assert (a - 1) / 2 == a / 2 - 1;
      LowestBit(a / 2);
    } else {
      assert (a - 1) / 2 == a / 2;
      AndNotSelf(a / 2);
    }
  }

  lemma AndNotSelf(x: nat)
    ensures AndNot(x, x) == 0
  {
  }

  /** For a power of two, AlignUp is the least multiple of a at or above v. */
  lemma AlignUpLeast(v: nat, a: nat, m: nat)
    requires IsPow2(a)
    ensures AlignUp(v, a) % a == 0
    ensures v <= m && m % a == 0 ==> AlignUp(v, a) <= m
  {
    AlignUpBounds(v, a);
    var k := Pow2Exponent(a);
    if a > 1 {
      AndNotMask(v + a - 1, k, a);
      FloorMultiple(v + a - 1, a);
    }
    if v <= m && m % a == 0 { MultipleGap(AlignUp(v, a), m, a); }
  }

  lemma FloorMultiple(x: nat, a: nat)
    requires a > 0
    ensures (x - x % a) % a == 0
  {
    DivModUnique(x - x % a, a, x / a, 0);
  }

  lemma MultipleGap(r: nat, m: nat, a: nat)
    requires a > 0 && r % a == 0 && m % a == 0 && r < m + a
    ensures r <= m
  {
    var q, t := r / a, m / a;
    assert r == a * q && m == a * t;
    assert a * (q - t) == r - m;
    Gap(a, q - t);
  }

  /** The bit trick aligns exactly when the alignment is a power of two:
      otherwise already the position 1 is rounded to a non-multiple. */
  lemma AlignUpMultipleIff(a: nat)
    requires a >= 1
    ensures (forall v: nat :: AlignUp(v, a) % a == 0) <==> IsPow2(a)
  {
    if IsPow2(a) {
      forall v: nat ensures AlignUp(v, a) % a == 0 { AlignUpLeast(v, a, 0); }
    } else {
      LowestBit(a);
      var r := AlignUp(1, a);
      assert r == AndNot(a, a - 1) && 0 < r < a;
      DivModUnique(r, a, 0, r);
    }
  }

  lemma {:induction false} PowersArePow2(k: nat)
    ensures IsPow2(Pow2(k))
  {
    if k > 0 { PowersArePow2(k - 1); }
  }

  lemma {:induction false} Pow2AtMost(j: nat, k: nat)
    requires j <= k
    ensures Pow2(j) <= Pow2(k)
    decreases k
  {
    if j < k { Pow2AtMost(j, k - 1); }
  }

  // -------------------------------------------------------------- logarithms

  function Log2Of(v: nat): nat {
    if v <= 1 then 0 else 1 + Log2Of(v / 2)
  }

  lemma {:induction false} Log2OfPow2(k: nat)
    ensures Log2Of(Pow2(k)) == k
  {
    if k > 0 { Log2OfPow2(k - 1); }
  }

  lemma {:induction false} Log2OfBounds(v: nat)
    requires v >= 1
    ensures Pow2(Log2Of(v)) <= v < 2 * Pow2(Log2Of(v))
  {
    if v > 1 { Log2OfBounds(v / 2); }
  }

  /** Shift-and-count loop, as both the COFF and the Mach-O writer have it. */
  method Log2(v: nat) returns (n: nat)
    ensures n == Log2Of(v)
    ensures v >= 1 ==> Pow2(n) <= v < 2 * Pow2(n)
    ensures forall k: nat :: v == Pow2(k) ==> n == k
  {
    n := 0;
    var a := v;
    while a > 1
      invariant n + Log2Of(a) == Log2Of(v)
      decreases a
    {
      a := a / 2;
      n := n + 1;
    }
    if v >= 1 { Log2OfBounds(v); }
    forall k: nat | v == Pow2(k) ensures n == k { Log2OfPow2(k); }
  }
}
