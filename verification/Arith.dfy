/** Products and remainders of indices, behind names so that proofs about sums
    and buffers stay linear. */
module Arith {

  function Times(a: int, b: int): (r: int)
    ensures a >= 0 && b >= 0 ==> r >= 0
  {
    a * b
  }

  lemma TimesSuc(a: int, b: int)
    ensures Times(a, b) == Times(a, b - 1) + a
  {
  }

  lemma TimesZero(a: int)
    ensures Times(a, 0) == 0 == Times(0, a)
  {
  }

  /** Element k of sub-block q of block b, for blocks of p sub-blocks of length m. */
  lemma SubIndex(b: int, p: nat, m: nat, q: int, k: int)
    requires 0 <= q < p && 0 <= k < m
    ensures 0 <= q * m + k < p * m
    ensures b * (p * m) + (q * m + k) == (b * p + q) * m + k
  {
    assert p * m == (p - 1 - q) * m + q * m + m;
    assert (p - 1 - q) * m >= 0;
    assert b * (p * m) == (b * p) * m;
  }

  lemma TimesMonotone(a: int, b: int, c: int, d: int)
    requires 0 <= a <= c && 0 <= b <= d
    ensures Times(a, b) <= Times(c, d)
  {
    assert Times(c, d) == a * b + a * (d - b) + (c - a) * d;
    assert a * (d - b) >= 0 && (c - a) * d >= 0;
  }

  lemma TimesAssoc(a: int, b: int, c: int)
    ensures Times(Times(a, b), c) == Times(a, Times(b, c))
    ensures Times(a, b) == Times(b, a)
  {
  }

  /** Zero is the only multiple of d strictly between -d and d. */
  lemma SmallMultiple(d: int, e: int)
    requires d > 0 && -d < d * e < d
    ensures e == 0
  {
    if e > 0 {
      Grow(d, e);
    } else if e < 0 {
      Grow(d, -e);
    }
  }

  lemma Grow(d: int, e: int)
    requires d > 0 && e > 0
    ensures d * e >= d
    ensures d * e >= e
    ensures e > 1 && d > 1 ==> d * e > d && d * e > e
  {
  }

  /** Quotient and remainder are determined by x == d*q + r with 0 <= r < d. */
  lemma DivUnique(x: int, d: int, q: int, r: int)
    requires d > 0 && 0 <= r < d && x == Times(d, q) + r
    ensures x / d == q && x % d == r
  {
    var e := x / d - q;
    assert d * e == r - x % d;
    SmallMultiple(d, e);
  }

  // ---- machine arithmetic ----

  type U32 = x: int | 0 <= x < 0x1_0000_0000

  /** C division: towards zero. */
  function TruncDiv(a: int, b: int): int
    requires b > 0
  {
    if a >= 0 then a / b else -((-a) / b)
  }

  function Pow2(n: nat): (r: nat)
    ensures r >= 1
  {
    if n == 0 then 1 else 2 * Pow2(n - 1)
  }

  lemma {:induction false} Pow2Monotone(a: nat, b: nat)
    requires a <= b
    ensures Pow2(a) <= Pow2(b)
    ensures a < b ==> 2 * Pow2(a) <= Pow2(b)
  {
    if a < b {
      Pow2Monotone(a, b - 1);
    }
  }

  lemma Pow2Values()
    ensures Pow2(1) == 2 && Pow2(2) == 4 && Pow2(4) == 16 && Pow2(8) == 256 && Pow2(14) == 16384 && Pow2(15) == 32768
    ensures Pow2(16) == 65536 && Pow2(31) == 0x8000_0000
  {
    assert Pow2(12) == 4096;
    assert Pow2(20) == 0x10_0000;
    assert Pow2(28) == 0x1000_0000;
  }
}
