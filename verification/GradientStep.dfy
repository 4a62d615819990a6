/** What the gradient step and the constraint of mdf.c do to the weights, bin by bin and in the
    time domain, and what the step does to the error. */
module GradientStep {
  import opened Arith
  import opened Complex
  import opened Sums
  import opened HalfComplex
  import opened FftWrap
  import opened Convolution
  import opened Blocks
  import opened BlockFilter

  /** Every bin moves by the weighted product of the conjugate of x with the error. */
  ghost predicate SteppedBins(before: seq<real>, after: seq<real>, x: seq<real>, e: seq<real>, power1: seq<real>, prop: real) {
    && |before| == |after| == |x| == |e|
    && forall k :: 0 <= k <= |before| / 2 ==> SteppedBin(before, after, x, e, power1, prop, k)
  }

  ghost predicate SteppedBin(before: seq<real>, after: seq<real>, x: seq<real>, e: seq<real>, power1: seq<real>, prop: real,
                             k: int) {
    Unpacked(after)(k)
    == Add(Unpacked(before)(k), Scale(SMul(prop, RealAt(power1, k)), Mul(Conj(Unpacked(x)(k)), Unpacked(e)(k))))
  }

  lemma StepsBins(before: seq<real>, x: seq<real>, e: seq<real>, power1: seq<real>, prop: real)
    requires |before| == |x| == |e| && |e| >= 2 && |e| % 2 == 0
    ensures SteppedBins(before, VecAdd(before, WeightedConj(power1, prop, x, e)), x, e, power1, prop)
  {
    hide Unpacked, Mul, Scale, Conj, SMul, VecAdd, WeightedConj;
    var step := WeightedConj(power1, prop, x, e);
    forall k | 0 <= k <= |before| / 2
      ensures SteppedBin(before, VecAdd(before, step), x, e, power1, prop, k)
    {
      WeightedConjBin(power1, prop, x, e, k);
      UnpackedAdd(before, step, k);
    }
  }

  /** Partition j of every microphone and speaker has stepped, with the delay line's block
      j + ahead, the microphone's error and the partition's rate. */
  ghost predicate Stepped(w0: seq<real>, w1: seq<real>, x: seq<real>, ahead: int, e: seq<real>, power1: seq<real>,
                          prop: seq<real>, count: nat, m: nat, k: nat, n: nat) {
    forall c, j, s :: 0 <= c < count && 0 <= j < m && 0 <= s < k ==>
      SteppedBins(Blk(w0, Wx(m, k, c, j, s), n), Blk(w1, Wx(m, k, c, j, s), n), Blk(x, Wx(m + 1, k, 0, j + ahead, s), n),
                  Blk(e, c, n), power1, RealAt(prop, j))
  }

  // ---- what a step does to the error ----

  function Norm(z: Cpx): (r: real) {
    SMul(z.re, z.re) + SMul(z.im, z.im)
  }

  function Rate(p: int -> real, x: int -> Cpx, b: int): real {
    SMul(p(b), Norm(x(b)))
  }

  function Through(x: int -> Cpx, w: int -> Cpx, b: int): Cpx {
    Mul(x(b), w(b))
  }

  lemma StepTerm(x: Cpx, w: Cpx, e: Cpx, c: real)
    ensures Mul(x, Add(w, Scale(c, Mul(Conj(x), e)))) == Add(Mul(x, w), Scale(SMul(c, Norm(x)), e))
  {
    MulAdd(x, w, Scale(c, Mul(Conj(x), e)));
    ConjugateNorm(x, e, c);
  }

  lemma ConjugateNorm(x: Cpx, e: Cpx, c: real)
    ensures Mul(x, Scale(c, Mul(Conj(x), e))) == Scale(SMul(c, Norm(x)), e)
  {
    hide Mul;
    ScalesOut(c, x, Mul(Conj(x), e));
    MulAssoc(x, Conj(x), e);
    NormIs(x, e);
    ScaleTwice(c, Norm(x), e);
  }

  lemma ScalesOut(c: real, x: Cpx, y: Cpx)
    ensures Mul(x, Scale(c, y)) == Scale(c, Mul(x, y))
  {
  }

  lemma NormIs(x: Cpx, e: Cpx)
    ensures Mul(Mul(x, Conj(x)), e) == Scale(Norm(x), e)
  {
    assert Mul(x, Conj(x)) == Cpx(Norm(x), 0.0);
  }

  lemma ScaleTwice(c: real, d: real, e: Cpx)
    ensures Scale(c, Scale(d, e)) == Scale(SMul(c, d), e)
  {
  }

  /** The sum that the stepped weights give is the old one plus the error, scaled by the sum of
      the rates times the power of what each weight is applied to. */
  lemma {:induction false} SteppedSum(n: nat, x: int -> Cpx, w0: int -> Cpx, w1: int -> Cpx, p: int -> real, pow: real, e: Cpx)
    requires forall b :: 0 <= b < n ==> w1(b) == Add(w0(b), Scale(SMul(p(b), pow), Mul(Conj(x(b)), e)))
    ensures Sum(n, b => Through(x, w1, b))
         == Add(Sum(n, b => Through(x, w0, b)), Scale(SMul(pow, RealSum(n, b => Rate(p, x, b))), e))
  {
    hide Mul, Add, Scale, Conj, SMul, Norm, Sum, RealSum;
    var f0, f1 := b => Through(x, w0, b), b => Through(x, w1, b);
    var g := b => Rate(p, x, b);
    SumParts(n, f0);
    SumParts(n, f1);
    RealSumParts(n, g);
    if n == 0 {
      NothingAdded(pow, e);
    } else {
      SteppedSum(n - 1, x, w0, w1, p, pow, e);
      StepTerm(x(n - 1), w0(n - 1), e, SMul(p(n - 1), pow));
      AddSwap(Sum(n - 1, f0), Scale(SMul(pow, RealSum(n - 1, g)), e), f0(n - 1), Scale(SMul(SMul(p(n - 1), pow), Norm(x(n - 1))), e));
      RatesAdd(pow, RealSum(n - 1, g), p(n - 1), Norm(x(n - 1)), e);
    }
  }

  lemma NothingAdded(pow: real, e: Cpx)
    ensures Add(ZERO, Scale(SMul(pow, 0.0), e)) == ZERO
  {
  }

  lemma RatesAdd(pow: real, sum: real, p: real, norm: real, e: Cpx)
    ensures Add(Scale(SMul(pow, sum), e), Scale(SMul(SMul(p, pow), norm), e)) == Scale(SMul(pow, sum + SMul(p, norm)), e)
  {
    assert p * pow * norm == pow * (p * norm);
    assert pow * (sum + p * norm) == pow * sum + pow * (p * norm);
    ScaleAdd(pow * sum, pow * (p * norm), e);
  }

  lemma ScaleAdd(a: real, b: real, e: Cpx)
    ensures Add(Scale(a, e), Scale(b, e)) == Scale(a + b, e)
  {
  }

  /** Where the error of a bin is what the weights leave of the microphone, the stepped weights
      leave the same error scaled by one less the step size times the power they saw. */
  lemma StepShrinks(n: nat, x: int -> Cpx, w0: int -> Cpx, w1: int -> Cpx, p: int -> real, pow: real, d: Cpx, e: Cpx)
    requires forall b :: 0 <= b < n ==> w1(b) == Add(w0(b), Scale(SMul(p(b), pow), Mul(Conj(x(b)), e)))
    requires e == Sub(d, Sum(n, b => Through(x, w0, b)))
    ensures var gain := SMul(pow, RealSum(n, b => Rate(p, x, b)));
            var left := Sub(d, Sum(n, b => Through(x, w1, b)));
            && left == Scale(1.0 - gain, e)
            && (0.0 < gain < 2.0 && e != ZERO ==> Norm(left) < Norm(e))
  {
    hide Mul, Scale, Conj, SMul, Norm, Sum, RealSum;
    SteppedSum(n, x, w0, w1, p, pow, e);
    var gain := SMul(pow, RealSum(n, b => Rate(p, x, b)));
    LeftOver(d, Sum(n, b => Through(x, w0, b)), gain, e);
    if 0.0 < gain < 2.0 && e != ZERO {
      NormShrinks(1.0 - gain, e);
    }
  }

  lemma LeftOver(d: Cpx, sum: Cpx, gain: real, e: Cpx)
    requires e == Sub(d, sum)
    ensures Sub(d, Add(sum, Scale(gain, e))) == Scale(1.0 - gain, e)
  {
  }

  lemma NormShrinks(c: real, e: Cpx)
    requires -1.0 < c < 1.0 && e != ZERO
    ensures Norm(Scale(c, e)) < Norm(e)
  {
    var n := Norm(e);
    NormPositiveAt(e);
    NormScaled(c, e);
    assert c * c < 1.0;
    assert (1.0 - c * c) * n > 0.0;
  }

  lemma NormScaled(c: real, e: Cpx)
    ensures Norm(Scale(c, e)) == c * c * Norm(e)
  {
  }

  lemma NormPositiveAt(e: Cpx)
    requires e != ZERO
    ensures Norm(e) > 0.0
  {
    hide SMul;
    assert e == Cpx(e.re, e.im) && ZERO == Cpx(0.0, 0.0);
    SquareSign(e.re);
    SquareSign(e.im);
  }

  lemma SquareSign(a: real)
    ensures SMul(a, a) >= 0.0 && (a != 0.0 ==> SMul(a, a) > 0.0)
  {
    hide SMul;
    SMulZero(0.0);
    if a > 0.0 {
      PositiveProduct(a, a);
    } else if a < 0.0 {
      PositiveProduct(-a, -a);
      NegatedSquare(a);
    }
  }

  lemma NegatedSquare(a: real)
    ensures SMul(-a, -a) == SMul(a, a)
  {
  }

  lemma PositiveProduct(a: real, b: real)
    requires a > 0.0 && b > 0.0
    ensures SMul(a, b) > 0.0
  {
  }

  // ---- on the blocks of a filter ----

  /** Bin i of block base + b. */
  function BinOfBlock(f: seq<real>, base: int, n: nat, i: int): int -> Cpx {
    b => Unpacked(Blk(f, base + b, n))(i)
  }

  /** The rate of partition b / k. */
  function RateOfBlock(prop: seq<real>, k: nat): int -> real {
    b => if k == 0 then 0.0 else RealAt(prop, b / k)
  }

  /** For every microphone and every bin: if the error is what the weights leave of d, the
      stepped weights leave less of it on the same blocks, as long as the step size times the
      power is below two. */
  lemma StepDescends(w0: seq<real>, w1: seq<real>, x: seq<real>, e: seq<real>, power1: seq<real>, prop: seq<real>, count: nat,
                     m: nat, k: nat, n: nat, c: nat, i: int, d: Cpx)
    requires Stepped(w0, w1, x, 0, e, power1, prop, count, m, k, n) && c < count && 0 <= i <= n / 2
    requires Unpacked(Blk(e, c, n))(i)
          == Sub(d, Sum(m * k, b => Through(BinOfBlock(x, 0, n, i), BinOfBlock(w0, c * m * k, n, i), b)))
    ensures var err := Unpacked(Blk(e, c, n))(i);
            var gain := SMul(RealAt(power1, i), RealSum(m * k, b => Rate(RateOfBlock(prop, k), BinOfBlock(x, 0, n, i), b)));
            var left := Sub(d, Sum(m * k, b => Through(BinOfBlock(x, 0, n, i), BinOfBlock(w1, c * m * k, n, i), b)));
            && left == Scale(1.0 - gain, err)
            && (0.0 < gain < 2.0 && err != ZERO ==> Norm(left) < Norm(err))
  {
    hide Mul, Add, Sub, Scale, Conj, SMul, Norm, Sum, RealSum, Unpacked, Blk, Through, Rate, Stepped;
    var xs, ws, vs := BinOfBlock(x, 0, n, i), BinOfBlock(w0, c * m * k, n, i), BinOfBlock(w1, c * m * k, n, i);
    var err := Unpacked(Blk(e, c, n))(i);
    forall b | 0 <= b < m * k
      ensures vs(b) == Add(ws(b), Scale(SMul(RateOfBlock(prop, k)(b), RealAt(power1, i)), Mul(Conj(xs(b)), err)))
    {
      SteppedBlock(w0, w1, x, e, power1, prop, count, m, k, n, c, b, i);
    }
    StepShrinks(m * k, xs, ws, vs, RateOfBlock(prop, k), RealAt(power1, i), d, err);
  }

  lemma SteppedBlock(w0: seq<real>, w1: seq<real>, x: seq<real>, e: seq<real>, power1: seq<real>, prop: seq<real>, count: nat,
                     m: nat, k: nat, n: nat, c: nat, b: nat, i: int)
    requires Stepped(w0, w1, x, 0, e, power1, prop, count, m, k, n) && c < count && 0 <= i <= n / 2 && b < m * k
    ensures BinOfBlock(w1, c * m * k, n, i)(b)
         == Add(BinOfBlock(w0, c * m * k, n, i)(b),
                Scale(SMul(RateOfBlock(prop, k)(b), RealAt(power1, i)),
                      Mul(Conj(BinOfBlock(x, 0, n, i)(b)), Unpacked(Blk(e, c, n))(i))))
  {
    hide Mul, Add, Scale, Conj, SMul, Unpacked, Blk, Wx;
    var j, s := BlockPlace(m, k, b);
    WxBounds(m, k, count, c, j, s);
    WxBounds(m + 1, k, 1, 0, j, s);
    assert SteppedBin(Blk(w0, Wx(m, k, c, j, s), n), Blk(w1, Wx(m, k, c, j, s), n), Blk(x, Wx(m + 1, k, 0, j + 0, s), n),
                      Blk(e, c, n), power1, RealAt(prop, j), i);
  }

  /** The partition and the speaker of block b. */
  lemma BlockPlace(m: nat, k: nat, b: nat) returns (j: nat, s: nat)
    requires b < m * k
    ensures k > 0 && j == b / k && j < m && s < k && b == j * k + s
  {
    PositiveFactor(m, k);
    j, s := b / k, b % k;
    assert b == k * j + s;
    PlaceBelow(b, m, k);
  }

  lemma PositiveFactor(m: nat, k: nat)
    requires m * k > 0
    ensures k > 0 && Times(m, k) == m * k
  {
  }

  lemma PlaceBelow(b: nat, m: nat, k: nat)
    requires k > 0 && b < Times(m, k)
    ensures b / k < m
  {
    hide Times;
    DivTimes(b, k);
    if b / k >= m {
      TimesMonotone(m, k, b / k, k);
    }
  }

  lemma DivTimes(b: nat, k: nat)
    requires k > 0
    ensures Times(b / k, k) <= b
  {
    assert b == k * (b / k) + b % k;
  }

  // ---- a whole call ----

  /** What one partition of one microphone and speaker learns in call number count: a step, if
      there is one, and then, if the schedule asks for it, the first half of its impulse
      response with silence behind it. */
  ghost predicate BlockLearned(w: int -> Cpx, before: seq<real>, mid: seq<real>, after: seq<real>, x: seq<real>, e: seq<real>,
                               power1: seq<real>, prop: real, adapt: bool, constrained: bool, fs: nat) {
    && (if adapt then SteppedBins(before, mid, x, e, power1, prop) else mid == before)
    && |mid| == |after| == 2 * fs
    && if constrained then Ifft(w, after) == Ifft(w, mid)[..fs] + Zeros(fs) else after == mid
  }

  ghost predicate Learns(w: int -> Cpx, before: seq<real>, after: seq<real>, x: seq<real>, e: seq<real>, power1: seq<real>,
                         prop: real, adapt: bool, constrained: bool, fs: nat) {
    exists mid :: BlockLearned(w, before, mid, after, x, e, power1, prop, adapt, constrained, fs)
  }

  ghost predicate WeightsLearned(w: int -> Cpx, w0: seq<real>, w1: seq<real>, x: seq<real>, e: seq<real>, power1: seq<real>,
                                 prop: seq<real>, adapt: bool, number: nat, count: nat, m: nat, k: nat, fs: nat) {
    forall c, j, s :: 0 <= c < count && 0 <= j < m && 0 <= s < k ==>
      PartitionLearned(w, w0, w1, x, e, power1, prop, adapt, number, m, k, fs, c, j, s)
  }

  ghost predicate PartitionLearned(w: int -> Cpx, w0: seq<real>, w1: seq<real>, x: seq<real>, e: seq<real>, power1: seq<real>,
                                   prop: seq<real>, adapt: bool, number: nat, m: nat, k: nat, fs: nat, c: int, j: int, s: int)
    requires 0 <= j < m
  {
    Learns(w, Blk(w0, Wx(m, k, c, j, s), 2 * fs), Blk(w1, Wx(m, k, c, j, s), 2 * fs),
           Blk(x, Wx(m + 1, k, 0, j, s), 2 * fs), Blk(e, c, 2 * fs), power1, RealAt(prop, j), adapt, Scheduled(j, number, m), fs)
  }
}
