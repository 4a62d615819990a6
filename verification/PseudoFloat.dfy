/** The pseudo-float type of pseudofloat.h in the fixed-point build: a 16-bit mantissa, kept
    between 2^14 and 2^15, and a 16-bit exponent. */
module PseudoFloat {
  import opened Arith
  import opened FixedPoint

  datatype Float = Float(m: S16, e: S16)

  const FLOAT_ZERO := Float(0, 0)
  const FLOAT_ONE := Float(16384, -14)

  /** Full precision: the top bit of the mantissa is in use, and its magnitude fits. */
  predicate Normalised(a: Float) {
    16384 <= Abs(a.m) <= 32767
  }

  function Neg32(x: int): S32 {
    To32(-x)
  }

  /** VSHR32: to the right by shift, or to the left when it is not positive. */
  function VShr32(a: int, shift: int): int {
    if shift > 0 then a / Pow2(shift) else To32(Times(a, Pow2(-shift)))
  }

  // ---- PSEUDOFLOAT ----

  /** m is the first 15 bits of x, e the place of the last of them. */
  ghost predicate Represents(x: nat, m: int, e: int) {
    if e >= 0 then m >= 0 && ShiftedTo(x, m, e) else m == Times(x, Pow2(-e))
  }

  lemma LeadingBits(x: nat, r: nat)
    requires IsLog2(x, r) && r <= 30
    ensures Represents(x, VShr32(x, r - 14), r - 14) && 16384 <= VShr32(x, r - 14) <= 32767
  {
    hide Times, Pow2, To32;
    Pow2Values();
    Pow2Monotone(r + 1, 31);
    if r > 14 {
      ShiftedNone(x);
      ShiftMore(x, x, 0, r - 14);
      BitsAbove(x, r, r - 14);
    } else {
      BitsBelow(x, r, 14 - r);
      To32Exact(Times(x, Pow2(14 - r)));
    }
    if r == 14 {
      ShiftedNone(x);
      OneTimes(x);
    }
  }

  lemma OneTimes(x: nat)
    ensures Times(x, Pow2(0)) == x
  {
  }

  lemma BitsAbove(x: nat, r: nat, e: nat)
    requires IsLog2(x, r) && r == e + 14
    ensures 16384 <= x / Pow2(e) <= 32767
  {
    hide Pow2, Times;
    Pow2Values();
    Pow2Sum(14, e);
    Pow2Sum(15, e);
    var p := Pow2(e);
    var q := x / p;
    Quotient(x, p);
    if q < 16384 {
      TimesMonotone(q + 1, p, 16384, p);
    }
    if q > 32767 {
      TimesMonotone(32768, p, q, p);
    }
  }

  lemma BitsBelow(x: nat, r: nat, k: nat)
    requires IsLog2(x, r) && r + k == 14
    ensures 16384 <= Times(x, Pow2(k)) <= 32767
  {
    hide Pow2, Times;
    Pow2Values();
    Pow2Sum(r, k);
    Pow2Sum(r + 1, k);
    TimesMonotone(Pow2(r), Pow2(k), x, Pow2(k));
    TimesMonotone(x + 1, Pow2(k), Pow2(r + 1), Pow2(k));
    OneMore(x, Pow2(k));
  }

  lemma OneMore(x: int, p: int)
    ensures Times(x + 1, p) == Times(x, p) + p
  {
  }

  /** Every nonzero number but the most negative one becomes a normalised value of the same
      sign that keeps its first 15 bits; the most negative one loses its sign. */
  method FromInt(x0: S32) returns (r: Float)
    ensures x0 == 0 ==> r == FLOAT_ZERO
    ensures x0 != 0 && x0 > -0x8000_0000 ==>
              && Normalised(r) && (r.m > 0 <==> x0 > 0)
              && Represents(Abs(x0), Abs(r.m), r.e) && -14 <= r.e <= 16
    ensures x0 == -0x8000_0000 ==> r == Float(16384, 17)
  {
    hide Pow2, Times, VShr32, To32, Represents;
    var x := x0;
    var sign := false;
    if x < 0 {
      sign := true;
      To32Exact(-x);
      x := Neg32(x);
    }
    if x == 0 {
      Wrapping();
      return Float(0, 0);
    }
    Wrapping();
    var a := if x > 0 then x else Neg32(x);
    var top := IntLog2(if a >= 0 then a else a + 0x1_0000_0000);
    var bits: int := top;
    var e := bits - 14;
    if x0 > -0x8000_0000 {
      SmallTop(a, top);
      LeadingBits(a, top);
    } else {
      BigTop(top);
    }
    x := VShr32(x, e);
    r := if sign then Float(To16(-x), To16(e)) else Float(To16(x), To16(e));
  }

  lemma Wrapping()
    ensures To32(0x8000_0000) == -0x8000_0000 && To32(0) == 0
    ensures VShr32(-0x8000_0000, 17) == -16384
  {
    assert Pow2(10) == 1024;
    assert Pow2(17) == 131072;
  }

  lemma SmallTop(x: nat, r: nat)
    requires x <= 0x7fff_ffff && IsLog2(x, r)
    ensures r <= 30
  {
    hide Pow2;
    Pow2Values();
    if r > 30 {
      Pow2Monotone(31, r);
    }
  }

  lemma BigTop(r: nat)
    requires IsLog2(0x8000_0000, r)
    ensures r == 31
  {
    hide Pow2;
    Pow2Values();
    if r < 31 {
      Pow2Monotone(r + 1, 31);
    } else if r > 31 {
      Pow2Monotone(31, r);
    }
  }

  // ---- FLOAT_MULT ----

  function Mult(a: Float, b: Float): Float {
    var m := To16(Times(a.m, b.m) / 32768);
    var e := To16(a.e + b.e + 15);
    if (m > 0 && m < 16384) || (m <= 0 && m > -16384) then Float(To16(m * 2), To16(e - 1)) else Float(m, e)
  }

  /** The top bit of the mantissa is in use. */
  predicate FullRange(a: Float) {
    16384 <= Abs(a.m)
  }

  /** r is a normalised product of a and b: the right sign and exponent, and a mantissa within
      32768 of the exact product, less than one unit before it was shifted into place. */
  ghost predicate IsProduct(r: Float, a: Float, b: Float) {
    && Normalised(r) && (r.m > 0 <==> (a.m > 0 <==> b.m > 0))
    && (r.e == To16(a.e + b.e + 15) || r.e == To16(a.e + b.e + 14))
    && 0 <= Times(a.m, b.m) - r.m * (if r.e == To16(a.e + b.e + 15) then 32768 else 16384) < 32768
  }

  lemma MantissaProduct(a: S16, b: S16)
    requires 16384 <= Abs(a) && 16384 <= Abs(b)
    ensures 16384 * 16384 <= Abs(Times(a, b))
    ensures !(a == -32768 && b == -32768) ==> Abs(Times(a, b)) <= 32768 * 32767
    ensures Times(a, b) > 0 <==> (a > 0 <==> b > 0)
  {
    hide Times;
    var x, y := Abs(a), Abs(b);
    TimesSigns(a, b);
    TimesMonotone(16384, 16384, x, y);
    if x <= 32767 {
      TimesMonotone(x, y, 32767, 32768);
    } else if y <= 32767 {
      TimesMonotone(x, y, 32768, 32767);
    }
    Corners();
  }

  lemma Corners()
    ensures Times(16384, 16384) == 16384 * 16384
    ensures Times(32767, 32768) == Times(32768, 32767) == 32768 * 32767
  {
  }

  /** Operands with the top bit in use have a normalised product exactly when they are not both
      the most negative mantissa, whose product leaves 16 bits. */
  lemma MultNormalised(a: Float, b: Float)
    requires FullRange(a) && FullRange(b)
    ensures IsProduct(Mult(a, b), a, b) <==> !(a.m == -32768 && b.m == -32768)
  {
    hide Times, To16;
    MantissaProduct(a.m, b.m);
    ExponentBelow(a.e + b.e + 15);
    if a.m == -32768 && b.m == -32768 {
      MultOverflows();
    } else {
      NegativeProduct(a.m, b.m);
      Mantissas(Times(a.m, b.m) / 32768);
    }
  }

  /** A product of opposite signs stays above the most negative mantissa. */
  lemma NegativeProduct(a: S16, b: S16)
    requires !(a == -32768 && b == -32768)
    ensures Times(a, b) / 32768 >= -32767
  {
    hide Times;
    var x, y := Abs(a), Abs(b);
    TimesSigns(a, b);
    if x <= 32767 {
      TimesMonotone(x, y, 32767, 32768);
    } else if y <= 32767 {
      TimesMonotone(x, y, 32768, 32767);
    }
    Corners();
  }

  lemma ExponentBelow(x: int)
    ensures To16(To16(x) - 1) == To16(x - 1) != To16(x)
  {
  }

  lemma Mantissas(m: int)
    requires -32768 <= m <= 32767
    ensures To16(m) == m && (-16384 <= m <= 16383 ==> To16(m * 2) == m * 2)
  {
  }

  /** The square of the most negative mantissa wraps to itself. */
  lemma MultOverflows()
    ensures To16(Times(-32768, -32768) / 32768) == -32768
  {
  }

  // ---- FLOAT_DIVU ----

  /** The mantissa of r is the quotient of a and b after e halvings, short of the exact one by
      less than one unit, and the exponents fit together. */
  ghost predicate IsQuotient(r: Float, a: Float, b: Float, e: nat)
    requires e <= 15
  {
    Abs(Times(a.m, Pow2(15 - e)) - Times(r.m, b.m)) < b.m && r.e == To16(a.e - b.e - 15 + e)
  }

  /** The loop ends after at most 15 halvings, and the result is the quotient exactly when the
      dividend is not the most negative mantissa; the quotient of normalised values is
      normalised. A divisor that is not positive gives one. */
  method DivU(a: Float, b: Float) returns (r: Float, ghost e: nat)
    ensures b.m <= 0 ==> r == FLOAT_ONE
    ensures e <= 15
    ensures b.m > 0 ==> (IsQuotient(r, a, b, e) <==> a.m != -32768)
    ensures Normalised(a) && Normalised(b) && b.m > 0 ==> Normalised(r) && (r.m > 0 <==> a.m > 0)
  {
    hide Times, Pow2, TruncDiv, Normalised, To16, To32;
    e := 0;
    if b.m <= 0 {
      return FLOAT_ONE, 0;
    }
    var num: int := a.m;
    var am: int := To16(Abs(a.m));
    var k := 0;
    Magnitude(a.m);
    while am >= b.m
      invariant 0 <= k <= 15
      invariant a.m != -32768 ==> am >= 0 && ShiftedTo(Abs(a.m), am, k)
      invariant a.m != -32768 && k > 0 ==> Times(b.m, Pow2(k - 1)) <= Abs(a.m)
      invariant a.m == -32768 ==> k == 0 && am < 0
      decreases am
    {
      StillLarge(Abs(a.m), am, b.m, k);
      HalvedOnce(Abs(a.m), am, k);
      k := k + 1;
      am := am / 2;
    }
    e := k;
    num := To32(Times(num, Pow2(15 - k)));
    var q := TruncDiv(num, b.m);
    r := Float(To16(q), To16(a.e - b.e - 15 + k));
    NormalisedMantissas(a, b, r);
    if a.m == -32768 {
      MostNegativeQuotient(b.m);
    } else {
      Exhausted(Abs(a.m), am, b.m, k);
      QuotientFits(a.m, b.m, k);
      if Normalised(a) && Normalised(b) {
        QuotientNormalised(a.m, b.m, k);
      }
    }
  }

  lemma Magnitude(m: S16)
    ensures m != -32768 ==> To16(Abs(m)) == Abs(m) && ShiftedTo(Abs(m), Abs(m), 0)
    ensures m == -32768 ==> To16(Abs(m)) < 0
  {
    ShiftedNone(Abs(m));
  }

  lemma HalvedOnce(a0: nat, am: nat, k: nat)
    requires ShiftedTo(a0, am, k)
    ensures ShiftedTo(a0, am / 2, k + 1)
  {
    hide Times, Pow2;
    Pow2Values();
    ShiftMore(a0, am, k, 1);
  }

  /** The quotient of the most negative mantissa needs 17 bits for every divisor, so no 16-bit
      mantissa is near it. */
  lemma MostNegativeQuotient(b: S16)
    requires b > 0
    ensures var num := Times(-32768, Pow2(15));
            && To32(num) == num && !(-32768 <= TruncDiv(num, b) <= 32767)
            && forall m: S16 :: !(-b < num - Times(m, b) < b)
  {
    hide Times;
    Pow2Values();
    SquareOfLimit();
    To32Exact(-32768 * 32768);
    var n := 32768 * 32768;
    Quotient(n, b);
    ProductIs(32769, b);
    QuotientAtLeast(n, b, 32769);
    forall m: S16
      ensures !(-b < -n - Times(m, b) < b)
    {
      TimesOrdered(-32768, m, b);
      ProductIs(-32768, b);
    }
  }

  lemma SquareOfLimit()
    ensures Times(-32768, 32768) == -32768 * 32768
  {
  }

  lemma NormalisedMantissas(a: Float, b: Float, r: Float)
    ensures Normalised(a) <==> 16384 <= Abs(a.m) <= 32767
    ensures Normalised(b) <==> 16384 <= Abs(b.m) <= 32767
    ensures Normalised(r) <==> 16384 <= Abs(r.m) <= 32767
  {
  }

  /** While the shifted dividend is no smaller than the divisor, fewer than 15 shifts have
      been made. */
  lemma StillLarge(a0: nat, am: nat, b: nat, k: nat)
    requires a0 <= 32767 && am >= b > 0 && ShiftedTo(a0, am, k) && k <= 15
    ensures k < 15 && Times(b, Pow2(k)) <= a0
  {
    hide Times, Pow2;
    Pow2Values();
    TimesMonotone(b, Pow2(k), am, Pow2(k));
    if k == 15 {
      TimesMonotone(1, 32768, b, 32768);
      TimesIs32768Once();
    }
  }

  lemma TimesIs32768Once()
    ensures Times(1, 32768) == 32768
  {
  }

  lemma Exhausted(a0: nat, am: nat, b: nat, k: nat)
    requires am < b && ShiftedTo(a0, am, k)
    ensures a0 < Times(b, Pow2(k))
  {
    hide Times, Pow2;
    TimesMonotone(am + 1, Pow2(k), b, Pow2(k));
  }

  lemma Scaled(a0: nat, b: nat, k: nat)
    requires k <= 15
    ensures Times(Times(b, Pow2(k)), Pow2(15 - k)) == 32768 * b
    ensures a0 < Times(b, Pow2(k)) ==> Times(a0, Pow2(15 - k)) + 1 <= 32768 * b
  {
    hide Times, Pow2;
    var p, q := Pow2(k), Pow2(15 - k);
    Pow2Values();
    Pow2Sum(k, 15 - k);
    TimesAssoc(b, p, q);
    TimesIs32768(b);
    TimesAssoc(32768, b, 1);
    if a0 < Times(b, p) {
      TimesMonotone(a0 + 1, q, Times(b, p), q);
      OneMore(a0, q);
    }
  }

  lemma QuotientFits(a: S16, b: S16, k: nat)
    requires b > 0 && k <= 15 && Abs(a) < Times(b, Pow2(k))
    ensures var num := Times(a, Pow2(15 - k));
            var q := TruncDiv(num, b);
            && To32(num) == num && To16(q) == q && -32768 < q < 32768
            && -b < num - Times(q, b) < b
  {
    hide Times, Pow2, To32;
    var q := Pow2(15 - k);
    Scaled(Abs(a), b, k);
    TimesSigns(a, q);
    TimesSigns(Abs(a), q);
    To32Exact(Times(a, q));
    DivisionBound(Times(a, q), b);
  }

  lemma DivisionBound(num: int, b: int)
    requires 0 < b <= 32767 && -32768 * b < num < 32768 * b
    ensures var q := TruncDiv(num, b); -32768 < q < 32768 && -b < num - Times(q, b) < b
  {
    hide Times;
    var n := Abs(num);
    var q := n / b;
    Quotient(n, b);
    OneMore(q, b);
    TimesSigns(q, b);
    QuotientBelow(n, b, 32768);
  }

  lemma QuotientBelow(n: nat, b: nat, c: nat)
    requires b > 0 && n < c * b
    ensures n / b < c
  {
    hide Times;
    Quotient(n, b);
    assert Times(c, b) == c * b by { ProductIs(c, b); }
    if n / b >= c {
      TimesMonotone(c, b, n / b, b);
    }
  }

  lemma ProductIs(a: int, b: int)
    ensures Times(a, b) == a * b
  {
  }

  lemma QuotientNormalised(a: S16, b: S16, k: nat)
    requires 16384 <= Abs(a) <= 32767 && 16384 <= b && k <= 15
    requires Abs(a) < Times(b, Pow2(k)) && (k > 0 ==> Times(b, Pow2(k - 1)) <= Abs(a))
    ensures var q := TruncDiv(Times(a, Pow2(15 - k)), b);
            16384 <= Abs(q) <= 32767 && (q > 0 <==> a > 0)
  {
    hide Times, Pow2;
    var n := Times(Abs(a), Pow2(15 - k));
    QuotientFits(a, b, k);
    TimesSigns(a, Pow2(15 - k));
    if k == 0 {
      Pow2Values();
      TimesAssoc(Abs(a), 32768, 1);
      TimesIs32768(Abs(a));
    } else {
      HalfScaled(Abs(a), b, k);
    }
    AtLeast(n, b);
  }

  lemma HalfScaled(a0: nat, b: nat, k: nat)
    requires 0 < k <= 15 && Times(b, Pow2(k - 1)) <= a0
    ensures 16384 * b <= Times(a0, Pow2(15 - k))
  {
    hide Times, Pow2;
    var p, q := Pow2(k - 1), Pow2(15 - k);
    Pow2Values();
    Pow2Sum(k - 1, 15 - k);
    TimesAssoc(b, p, q);
    TimesMonotone(Times(b, p), q, a0, q);
    TimesIs16384(b);
  }

  lemma TimesIs16384(y: int)
    ensures Times(y, 16384) == 16384 * y
  {
  }

  lemma AtLeast(n: nat, b: nat)
    requires b > 0 && 16384 * b <= n
    ensures n / b >= 16384
  {
    hide Times;
    Quotient(n, b);
    ProductIs(16384, b);
    if n / b < 16384 {
      TimesMonotone(n / b + 1, b, 16384, b);
    }
  }
}
