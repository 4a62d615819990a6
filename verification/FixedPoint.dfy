/** The fixed-point arithmetic that the library can be built on: the split multiplies of
    fixed_generic.h against the 64-bit ones of fixed_debug.h, shifts, and spx_ilog2. */
module FixedPoint {
  import opened Arith

  type S16 = x: int | -32768 <= x <= 32767
  type S32 = x: int | -0x8000_0000 <= x <= 0x7fff_ffff

  function To16(x: int): (r: S16) {
    (x + 32768) % 65536 - 32768
  }

  function To32(x: int): (r: S32) {
    (x + 0x8000_0000) % 0x1_0000_0000 - 0x8000_0000
  }

  predicate Fits32(x: int) {
    -0x8000_0000 <= x <= 0x7fff_ffff
  }

  lemma To32Exact(x: int)
    ensures To32(x) == x <==> Fits32(x)
  {
  }

  lemma {:induction false} To32Shifted(x: int, k: int)
    ensures To32(x + 0x1_0000_0000 * k) == To32(x)
    decreases if k < 0 then -k else k
  {
    if k > 0 {
      To32Shifted(x, k - 1);
      assert x + 0x1_0000_0000 * k == (x + 0x1_0000_0000 * (k - 1)) + 0x1_0000_0000;
    } else if k < 0 {
      To32Shifted(x, k + 1);
      assert x + 0x1_0000_0000 * k == (x + 0x1_0000_0000 * (k + 1)) - 0x1_0000_0000;
    }
  }

  /** Adding in 32 bits what was rounded to 32 bits before. */
  lemma To32Add(a: int, b: int)
    ensures To32(To32(a) + To32(b)) == To32(a + b)
  {
    var j, k := (a - To32(a)) / 0x1_0000_0000, (b - To32(b)) / 0x1_0000_0000;
    assert a == To32(a) + 0x1_0000_0000 * j && b == To32(b) + 0x1_0000_0000 * k;
    To32Shifted(To32(a) + To32(b), j + k);
  }

  lemma {:induction false} Pow2Sum(a: nat, b: nat)
    ensures Pow2(a + b) == Times(Pow2(a), Pow2(b))
  {
    if b > 0 {
      Pow2Sum(a, b - 1);
      assert Times(Pow2(a), Pow2(b)) == 2 * Times(Pow2(a), Pow2(b - 1));
    }
  }

  // ---- split multiplies ----

  /** MULT16_32_Q15: the high and the low part of b separately, every step in 32 bits. */
  function Mult16_32_Q15(a: S16, b: S32): S32 {
    To32(To32(Times(a, b / 32768)) + To32(Times(a, b % 32768)) / 32768)
  }

  /** MULT16_32_P15: the same with the low part rounded. */
  function Mult16_32_P15(a: S16, b: S32): S32 {
    To32(To32(Times(a, b / 32768)) + To32(To32(Times(a, b % 32768)) + 16384) / 32768)
  }

  lemma SplitProduct(a: S16, b: S32)
    ensures Times(a, b) == 32768 * Times(a, b / 32768) + Times(a, b % 32768)
    ensures -0x4000_0000 <= Times(a, b % 32768) <= 0x3fff_8000
  {
    var h, l := b / 32768, b % 32768;
    assert b == 32768 * h + l;
    assert a * (32768 * h + l) == 32768 * (a * h) + a * l;
    LowBound(a, l);
  }

  lemma LowBound(a: S16, l: int)
    requires 0 <= l < 32768
    ensures -0x4000_0000 <= Times(a, l) <= 0x3fff_8000
  {
    if a >= 0 {
      TimesMonotone(0, 0, a, l);
      TimesMonotone(a, l, 32767, 32767);
    } else {
      var m: int := a;
      TimesMonotone(0, 0, 0 - m, l);
      TimesMonotone(0 - m, l, 32768, 32767);
      assert Times(0 - m, l) == -Times(a, l);
    }
  }

  /** For every 16-bit a and every 32-bit b the split product is the floor of the 64-bit one,
      reduced to 32 bits. */
  lemma SplitIsFloor(a: S16, b: S32)
    ensures Mult16_32_Q15(a, b) == To32(Times(a, b) / 32768)
  {
    hide Times, To32;
    SplitProduct(a, b);
    var p, q := Times(a, b / 32768), Times(a, b % 32768);
    To32Exact(q);
    To32Exact(q / 32768);
    assert (32768 * p + q) / 32768 == p + q / 32768;
    To32Add(p, q / 32768);
  }

  lemma SplitIsRounded(a: S16, b: S32)
    ensures Mult16_32_P15(a, b) == To32((Times(a, b) + 16384) / 32768)
  {
    hide Times, To32;
    SplitProduct(a, b);
    var p, q := Times(a, b / 32768), Times(a, b % 32768);
    To32Exact(q);
    To32Exact(q + 16384);
    To32Exact((q + 16384) / 32768);
    assert (32768 * p + q + 16384) / 32768 == p + (q + 16384) / 32768;
    To32Add(p, (q + 16384) / 32768);
  }

  function Abs(x: int): nat {
    if x < 0 then -x else x
  }

  lemma ProductBounds(a: S16, b: S32)
    ensures -32768 * 0x7fff_ffff <= Times(a, b) <= 32768 * 0x8000_0000
    ensures Times(a, b) == 32768 * 0x8000_0000 <==> a == -32768 && b == -0x8000_0000
    ensures Times(a, b) > 32768 * 0x8000_0000 - 32768 ==> a == -32768 && b == -0x8000_0000
    ensures -0x4000_0000 <= b <= 0x4000_0000 ==> -32768 * 0x4000_0000 <= Times(a, b) <= 32768 * 0x4000_0000
  {
    hide Times;
    var x := Abs(a);
    var y := Abs(b);
    TimesSigns(a, b);
    TimesMonotone(0, 0, x, y);
    TimesMonotone(x, y, 32768, y);
    TimesIs32768(y);
    if x <= 32767 {
      TimesMonotone(x, y, 32767, y);
      TimesIs32768(y);
    }
  }

  lemma TimesIs32768(y: int)
    ensures Times(32768, y) == 32768 * y && Times(32767, y) == 32767 * y && Times(0, 0) == 0
  {
  }

  lemma TimesSigns(a: int, b: int)
    ensures Times(a, b) == Times(-a, -b) == -Times(-a, b) == -Times(a, -b)
  {
  }

  /** The exact product comes out unless both operands are the most negative ones; in
      particular it does for |b| <= 2^30. */
  lemma SplitExact(a: S16, b: S32)
    ensures Mult16_32_Q15(a, b) == Times(a, b) / 32768 <==> !(a == -32768 && b == -0x8000_0000)
    ensures Mult16_32_P15(a, b) == (Times(a, b) + 16384) / 32768 <==> !(a == -32768 && b == -0x8000_0000)
    ensures -0x4000_0000 <= b <= 0x4000_0000 ==>
              -0x4000_0000 <= Mult16_32_Q15(a, b) <= 0x4000_0000 && -0x4000_0000 <= Mult16_32_P15(a, b) <= 0x4000_0000
  {
    hide Times, To32, Mult16_32_Q15, Mult16_32_P15;
    SplitIsFloor(a, b);
    SplitIsRounded(a, b);
    ProductBounds(a, b);
    To32Exact(Times(a, b) / 32768);
    To32Exact((Times(a, b) + 16384) / 32768);
  }

  // ---- the 64-bit reference ----

  predicate VerifyShort(x: int) {
    -32768 <= x <= 32767
  }

  /** q places further down, the product p stays within a word. */
  ghost predicate FitsAt(p: int, q: nat) {
    Times(-0x8000_0000, Pow2(q)) <= p < Times(0x8000_0000, Pow2(q))
  }

  /** r is p, q places further down, rounded down. */
  ghost predicate Floors(r: int, p: int, q: nat) {
    Times(r, Pow2(q)) <= p < Times(r + 1, Pow2(q))
  }

  /** r is the whole number nearest to p, q places further down. */
  ghost predicate Nearest(r: int, p: int, q: nat) {
    Times(2 * r - 1, Pow2(q)) <= 2 * p < Times(2 * r + 1, Pow2(q))
  }

  /** What the debugging versions complain about: operands or a result outside their types, or
      a second operand that is too large. */
  ghost predicate Suspicious(a: int, b: int, p: int, q: nat) {
    !VerifyShort(a) || !Fits32(b) || Abs(b) >= Pow2(16 + q) || !FitsAt(p, q)
  }

  /** Valid operands are complained about at 15 bits exactly when b is the most negative
      number, with rounding and without. */
  lemma SuspiciousAt15(a: S16, b: S32)
    ensures Suspicious(a, b, Times(a, b), 15) <==> b == -0x8000_0000
    ensures Suspicious(a, b, Times(a, b) + Pow2(15) / 2, 15) <==> b == -0x8000_0000
  {
    hide Times;
    Pow2Values();
    ProductBounds(a, b);
    TimesAssoc(32768, 0x8000_0000, 1);
    TimesAssoc(32768, -0x8000_0000, 1);
    TimesIs32768(0x8000_0000);
    TimesIs32768(-0x8000_0000);
  }

  lemma Floored(p: int, q: nat)
    ensures Floors(p / Pow2(q), p, q)
    ensures Fits32(p / Pow2(q)) <==> FitsAt(p, q)
  {
    hide Times, Pow2;
    Quotient(p, Pow2(q));
    QuotientAtLeast(p, Pow2(q), -0x8000_0000);
    QuotientAtLeast(p, Pow2(q), 0x8000_0000);
  }

  lemma QuotientAtLeast(x: int, p: nat, c: int)
    requires p > 0
    ensures x / p >= c <==> x >= Times(c, p)
  {
    hide Times;
    Quotient(x, p);
    if x / p >= c {
      TimesOrdered(c, x / p, p);
    } else {
      TimesOrdered(x / p + 1, c, p);
    }
  }

  lemma TimesOrdered(a: int, b: int, p: nat)
    requires a <= b
    ensures Times(a, p) <= Times(b, p)
  {
    var d := b - a;
    assert d * p >= 0;
    assert (a + d) * p == a * p + d * p;
  }

  lemma FloorIsNearest(r: int, p: int, q: nat)
    requires Floors(r, p + Pow2(q) / 2, q)
    ensures Nearest(r, p, q)
  {
    hide Times;
    var w := Pow2(q);
    TimesLinear(r, w);
    if q == 0 {
      assert w == 1;
      TimesUnit(r);
      TimesUnit(r + 1);
    } else {
      assert w == 2 * Pow2(q - 1);
    }
  }

  lemma TimesLinear(r: int, w: int)
    ensures Times(r + 1, w) == Times(r, w) + w
    ensures Times(2 * r - 1, w) == 2 * Times(r, w) - w && Times(2 * r + 1, w) == 2 * Times(r, w) + w
  {
  }

  lemma TimesUnit(r: int)
    ensures Times(r, 1) == r
  {
  }

  /** At 15 bits the wide floor and the wide rounded quotient are the split products. */
  lemma WideIsSplit(a: int, b: int)
    requires VerifyShort(a) && Fits32(b)
    ensures To32(Times(a, b) / Pow2(15)) == Mult16_32_Q15(a, b)
    ensures To32((Times(a, b) + Pow2(15) / 2) / Pow2(15)) == Mult16_32_P15(a, b)
  {
    hide Times, To32, Mult16_32_P15, Mult16_32_Q15;
    SplitIsReference(a, b);
  }

  class Debug {
    var spxMips: int
    var warnings: nat

    /** Without a complaint the result is the exact product, q places down, rounded down; at 15
        bits it is the split product of the other build, complaint or not. */
    method Mult16_32_QX(a: int, b: int, q: nat) returns (r: S32)
      modifies this
      ensures warnings >= old(warnings) && spxMips == old(spxMips) + 5
      ensures warnings == old(warnings) <==> !Suspicious(a, b, Times(a, b), q)
      ensures warnings == old(warnings) ==> Floors(r, Times(a, b), q)
      ensures q == 15 && VerifyShort(a) && Fits32(b) ==> r == Mult16_32_Q15(a, b)
    {
      hide Times, Pow2, To32, Mult16_32_Q15;
      Floored(Times(a, b), q);
      if !VerifyShort(a) || !Fits32(b) {
        warnings := warnings + 1;
      }
      if Abs(b) >= Pow2(16 + q) {
        warnings := warnings + 1;
      }
      var res := Times(a, b) / Pow2(q);
      if !Fits32(res) {
        warnings := warnings + 1;
      }
      spxMips := spxMips + 5;
      r := To32(res);
      To32Exact(res);
      if q == 15 && VerifyShort(a) && Fits32(b) {
        WideIsSplit(a, b);
      }
    }

    /** The same to the nearest number, for shifts that an int allows. The constant of the
        rounding counts as an operation of its own. */
    method Mult16_32_PX(a: int, b: int, q: nat) returns (r: S32)
      requires q <= 30
      modifies this
      ensures warnings >= old(warnings) && spxMips == old(spxMips) + 6
      ensures warnings == old(warnings) <==> !Suspicious(a, b, Times(a, b) + Pow2(q) / 2, q)
      ensures warnings == old(warnings) ==> Nearest(r, Times(a, b), q)
      ensures q == 15 && VerifyShort(a) && Fits32(b) ==> r == Mult16_32_P15(a, b)
    {
      hide Times, Pow2, To32, Mult16_32_P15;
      Floored(Times(a, b) + Pow2(q) / 2, q);
      if !VerifyShort(a) || !Fits32(b) {
        warnings := warnings + 1;
      }
      if Abs(b) >= Pow2(16 + q) {
        warnings := warnings + 1;
      }
      spxMips := spxMips + 1;
      var res := (Times(a, b) + Pow2(q) / 2) / Pow2(q);
      if !Fits32(res) {
        warnings := warnings + 1;
      }
      spxMips := spxMips + 5;
      r := To32(res);
      To32Exact(res);
      if Floors(r, Times(a, b) + Pow2(q) / 2, q) {
        FloorIsNearest(r, Times(a, b), q);
      }
      if q == 15 && VerifyShort(a) && Fits32(b) {
        WideIsSplit(a, b);
      }
    }
  }

  /** The two builds agree on every pair of operands. */
  lemma SplitIsReference(a: S16, b: S32)
    ensures Mult16_32_Q15(a, b) == To32(Times(a, b) / Pow2(15))
    ensures Mult16_32_P15(a, b) == To32((Times(a, b) + Pow2(15) / 2) / Pow2(15))
  {
    hide Times, To32, Mult16_32_P15, Mult16_32_Q15;
    Pow2Values();
    SplitIsFloor(a, b);
    SplitIsRounded(a, b);
  }

  // ---- shifts and logarithms ----

  /** x is x0 shifted right by e. */
  ghost predicate ShiftedTo(x0: nat, x: nat, e: nat) {
    Times(x, Pow2(e)) <= x0 < Times(x + 1, Pow2(e))
  }

  lemma ShiftMore(x0: nat, x: nat, e: nat, k: nat)
    requires ShiftedTo(x0, x, e)
    ensures ShiftedTo(x0, x / Pow2(k), e + k)
  {
    hide Times, Pow2;
    var p, z := Pow2(k), x / Pow2(k);
    Pow2Sum(k, e);
    Quotient(x, p);
    TimesAssoc(z, p, Pow2(e));
    TimesAssoc(z + 1, p, Pow2(e));
    TimesMonotone(Times(z, p), Pow2(e), x, Pow2(e));
    TimesMonotone(x + 1, Pow2(e), Times(z + 1, p), Pow2(e));
  }

  lemma Quotient(x: int, p: nat)
    requires p > 0
    ensures Times(x / p, p) <= x && x + 1 <= Times(x / p + 1, p)
  {
    assert x == p * (x / p) + x % p;
  }

  lemma ShiftedNone(x: nat)
    ensures ShiftedTo(x, x, 0)
  {
  }

  ghost predicate IsLog2(x: nat, r: nat) {
    Pow2(r) <= x < Pow2(r + 1)
  }

  lemma Log2Unique(x: nat, r: nat, s: nat)
    requires IsLog2(x, r) && IsLog2(x, s)
    ensures r == s
  {
    if r < s {
      Pow2Monotone(r + 1, s);
    } else if s < r {
      Pow2Monotone(s + 1, r);
    }
  }

  method IntLog2(x0: U32) returns (r: nat)
    ensures x0 > 0 ==> IsLog2(x0, r)
    ensures x0 == 0 ==> r == 0
    ensures r <= 31
  {
    hide Times, Pow2, ShiftedTo;
    var x: nat := x0;
    r := 0;
    Pow2Values();
    ShiftedNone(x0);
    if x >= 65536 {
      ShiftMore(x0, x, r, 16);
      x, r := x / 65536, r + 16;
    }
    if x >= 256 {
      ShiftMore(x0, x, r, 8);
      x, r := x / 256, r + 8;
    }
    if x >= 16 {
      ShiftMore(x0, x, r, 4);
      x, r := x / 16, r + 4;
    }
    if x >= 4 {
      ShiftMore(x0, x, r, 2);
      x, r := x / 4, r + 2;
    }
    if x >= 2 {
      ShiftMore(x0, x, r, 1);
      r := r + 1;
    }
    if x0 > 0 {
      TopBit(x0, r);
    }
  }

  lemma TopBit(x0: nat, r: nat)
    requires ShiftedTo(x0, 1, r)
    ensures IsLog2(x0, r)
  {
    assert Times(1, Pow2(r)) == Pow2(r) && Times(2, Pow2(r)) == Pow2(r + 1);
  }
}
