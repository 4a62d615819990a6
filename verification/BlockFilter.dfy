/** The frequency-domain block filter of mdf.c on values: the sum of partition products,
    the gradient, the constraint, and what they mean in the time domain. */
module BlockFilter {
  import opened Arith
  import FixedPoint
  import opened Complex
  import opened RootsOfUnity
  import opened HalfComplex
  import opened FftWrap
  import opened Convolution
  import opened Blocks

  // ---- spectral_mul_accum ----

  /** The sum of the products of the first m blocks of a with the blocks of b from base on. */
  function ProductSum(a: seq<real>, b: seq<real>, base: int, n: nat, m: nat): (r: seq<real>)
    ensures |r| == n
  {
    if m == 0 then Zeros(n)
    else VecAdd(ProductSum(a, b, base, n, m - 1), PackedMul(Blk(a, m - 1, n), Blk(b, base + m - 1, n)))
  }

  lemma ProductSumParts(a: seq<real>, b: seq<real>, base: int, n: nat, m: nat)
    ensures ProductSum(a, b, base, n, 0) == Zeros(n)
    ensures m > 0 ==>
              ProductSum(a, b, base, n, m)
              == VecAdd(ProductSum(a, b, base, n, m - 1), PackedMul(Blk(a, m - 1, n), Blk(b, base + m - 1, n)))
  {
    hide VecAdd, PackedMul, Blk, Zeros;
  }

  /** One block product, added in place. */
  method AccumulateProduct(acc: array<real>, a: seq<real>, b: seq<real>)
    requires acc.Length == |a| == |b| && acc.Length >= 2 && acc.Length % 2 == 0
    modifies acc
    ensures acc[..] == VecAdd(old(acc[..]), PackedMul(a, b))
  {
    hide SMul;
    var n := acc.Length;
    acc[0] := acc[0] + SMul(a[0], b[0]);
    var i := 1;
    while i < n - 1
      invariant 1 <= i <= n - 1 && i % 2 == 1
      invariant forall k :: 0 <= k < i ==> acc[k] == old(acc[k]) + PackedMulAt(a, b, k)
      invariant forall k :: i <= k < n ==> acc[k] == old(acc[k])
    {
      acc[i] := acc[i] + (SMul(a[i], b[i]) - SMul(a[i + 1], b[i + 1]));
      acc[i + 1] := acc[i + 1] + (SMul(a[i + 1], b[i]) + SMul(a[i], b[i + 1]));
      i := i + 2;
    }
    acc[i] := acc[i] + SMul(a[i], b[i]);
  }

  /** The float spectral_mul_accum; base counts blocks of b. */
  method SpectralMulAccum(a: array<real>, aCount: nat, b: array<real>, bCount: nat, base: nat, n: nat, m: nat)
    returns (acc: array<real>)
    requires n >= 2 && n % 2 == 0 && a.Length == aCount * n && b.Length == bCount * n
    requires m <= aCount && base + m <= bCount
    ensures fresh(acc) && acc.Length == n
    ensures acc[..] == ProductSum(a[..], b[..], base, n, m)
  {
    hide VecAdd, PackedMul, Blk, ProductSum;
    acc := new real[n](_ => 0.0);
    ProductSumParts(a[..], b[..], base, n, 0);
    assert acc[..] == Zeros(n);
    for j := 0 to m
      invariant acc[..] == ProductSum(a[..], b[..], base, n, j)
      modifies acc
    {
      var x := Load(a, j, n, aCount);
      var y := Load(b, base + j, n, bCount);
      AccumulateProduct(acc, x, y);
      ProductSumParts(a[..], b[..], base, n, j + 1);
    }
  }

  // ---- weighted_spectral_mul_conj ----

  /** Entry i of the weighted product of the conjugate of a with b; weight j belongs to bin j. */
  function WeightedConjAt(weight: seq<real>, p: real, a: seq<real>, b: seq<real>, i: int): real
    requires |a| == |b| && 0 <= i < |a|
  {
    if i == 0 || i == |a| - 1 then SMul(SMul(p, RealAt(weight, (i + 1) / 2)), SMul(a[i], b[i]))
    else if i % 2 == 1 then
      SMul(SMul(p, RealAt(weight, (i + 1) / 2)), SMul(a[i], b[i]) + SMul(RealAt(a, i + 1), RealAt(b, i + 1)))
    else SMul(SMul(p, RealAt(weight, i / 2)), SMul(-a[i], b[i - 1]) + SMul(a[i - 1], b[i]))
  }

  function WeightedConj(weight: seq<real>, p: real, a: seq<real>, b: seq<real>): (r: seq<real>)
    requires |a| == |b|
    ensures |r| == |a|
  {
    seq(|a|, i requires 0 <= i < |a| => WeightedConjAt(weight, p, a, b, i))
  }

  /** Bin by bin: the weight times the conjugate of a times b. */
  lemma WeightedConjBin(weight: seq<real>, p: real, a: seq<real>, b: seq<real>, k: int)
    requires |a| == |b| && |a| >= 2 && |a| % 2 == 0 && 0 <= k <= |a| / 2
    ensures Unpacked(WeightedConj(weight, p, a, b))(k)
         == Scale(SMul(p, RealAt(weight, k)), Mul(Conj(Unpacked(a)(k)), Unpacked(b)(k)))
  {
    hide SMul, Mul, Scale, Conj, RealAt;
    var n := |a|;
    var wt := SMul(p, RealAt(weight, k));
    EntriesInside(a);
    EntriesInside(b);
    EntriesInside(WeightedConj(weight, p, a, b));
    if k == 0 {
      RealConjugate(wt, a[0], b[0]);
    } else if k == n / 2 {
      assert (n - 1 + 1) / 2 == k;
      RealConjugate(wt, a[n - 1], b[n - 1]);
    } else {
      assert (2 * k - 1) % 2 == 1 && (2 * k) % 2 == 0 && (2 * k - 1 + 1) / 2 == k && 2 * k / 2 == k;
      ConjugateProduct(wt, Cpx(a[2 * k - 1], a[2 * k]), Cpx(b[2 * k - 1], b[2 * k]));
    }
  }

  lemma EntriesInside(a: seq<real>)
    ensures forall i :: 0 <= i < |a| ==> RealAt(a, i) == a[i]
  {
  }

  lemma ConjugateProduct(wt: real, x: Cpx, y: Cpx)
    ensures Scale(wt, Mul(Conj(x), y))
         == Cpx(SMul(wt, SMul(x.re, y.re) + SMul(x.im, y.im)), SMul(wt, SMul(-x.im, y.re) + SMul(x.re, y.im)))
  {
  }

  lemma RealConjugate(wt: real, x: real, y: real)
    ensures Scale(wt, Mul(Conj(Real(x)), Real(y))) == Real(SMul(wt, SMul(x, y)))
  {
  }

  method WeightedSpectralMulConj(weight: array<real>, p: real, a: seq<real>, b: seq<real>) returns (prod: array<real>)
    requires |a| == |b| && |a| >= 2 && |a| % 2 == 0 && weight.Length == |a| / 2 + 1
    ensures fresh(prod) && prod.Length == |a|
    ensures prod[..] == WeightedConj(weight[..], p, a, b)
  {
    hide SMul;
    var n := |a|;
    prod := new real[n](_ => 0.0);
    prod[0] := SMul(SMul(p, weight[0]), SMul(a[0], b[0]));
    var i, j := 1, 1;
    while i < n - 1
      invariant 1 <= i <= n - 1 && i == 2 * j - 1
      invariant forall k :: 0 <= k < i ==> prod[k] == WeightedConjAt(weight[..], p, a, b, k)
    {
      var wt := SMul(p, weight[j]);
      prod[i] := SMul(wt, SMul(a[i], b[i]) + SMul(a[i + 1], b[i + 1]));
      prod[i + 1] := SMul(wt, SMul(-a[i + 1], b[i]) + SMul(a[i], b[i + 1]));
      i, j := i + 2, j + 1;
    }
    prod[i] := SMul(SMul(p, weight[j]), SMul(a[i], b[i]));
  }

  // ---- the constraint ----

  /** A partition whose second half of time samples has been cut off. */
  function Constrained(w: int -> Cpx, blk: seq<real>, fs: nat): (r: seq<real>)
    requires |blk| == 2 * fs
    ensures |r| == 2 * fs
  {
    Fft(w, Ifft(w, blk)[..fs] + Zeros(fs))
  }

  /** The second half of the partition's impulse response is silent. */
  ghost predicate Causal(w: int -> Cpx, blk: seq<real>, fs: nat) {
    |blk| == 2 * fs && forall i :: fs <= i < 2 * fs ==> Ifft(w, blk)[i] == 0.0
  }

  lemma ConstrainedCausal(w: int -> Cpx, blk: seq<real>, fs: nat)
    requires fs > 0 && |blk| == 2 * fs && Root(2 * fs, w)
    ensures Causal(w, Constrained(w, blk, fs), fs)
    ensures Ifft(w, Constrained(w, blk, fs))[..fs] == Ifft(w, blk)[..fs]
  {
    hide Root, Fft, Ifft;
    IfftOfFft(w, Ifft(w, blk)[..fs] + Zeros(fs));
  }

  /** Constraining a constrained partition changes nothing. */
  lemma ConstrainedFixed(w: int -> Cpx, blk: seq<real>, fs: nat)
    requires fs > 0 && Root(2 * fs, w) && Causal(w, blk, fs)
    ensures Constrained(w, blk, fs) == blk
  {
    hide Root, Fft, Ifft;
    FftOfIfft(w, blk);
    assert Ifft(w, blk)[..fs] + Zeros(fs) == Ifft(w, blk);
  }

  // ---- the update schedule ----

  /** Whether partition j is constrained in call number count, as the source tests it: the
      remainder is not evaluated for partition 0, and a filter of one partition has no other. */
  predicate Scheduled(j: nat, count: nat, m: nat)
    requires j < m
  {
    j == 0 || count % (m - 1) == j - 1
  }

  /** Call number count is the one of partition j in round q. */
  predicate InRound(j: nat, count: nat, m: nat, q: nat) {
    count == Times(m - 1, q) + j - 1
  }

  /** Partition j > 0 comes in calls j-1, j-1 + (m-1), j-1 + 2*(m-1) and so on. */
  lemma ScheduledExactly(j: nat, count: nat, m: nat)
    requires 0 < j < m
    ensures Scheduled(j, count, m) <==> exists q: nat :: InRound(j, count, m, q)
    ensures Scheduled(0, count, m)
  {
    var d := m - 1;
    if Scheduled(j, count, m) {
      assert count == d * (count / d) + count % d;
      assert InRound(j, count, m, count / d);
    }
    if q: nat :| InRound(j, count, m, q) {
      DivUnique(count, d, q, j - 1);
    }
  }

  lemma ConsecutiveResidue(c0: nat, d: nat, r: nat) returns (c: nat)
    requires d > 0 && r < d
    ensures c0 < c <= c0 + d && c % d == r
  {
    var q := c0 / d;
    assert c0 == d * q + c0 % d;
    if c0 % d < r {
      c := d * q + r;
      DivUnique(c, d, q, r);
    } else {
      c := d * (q + 1) + r;
      assert d * (q + 1) == d * q + d;
      DivUnique(c, d, q + 1, r);
    }
  }

  lemma ResidueOnce(c0: nat, d: nat, a: nat, b: nat)
    requires d > 0 && c0 < a <= c0 + d && c0 < b <= c0 + d && a % d == b % d
    ensures a == b
  {
    assert a == d * (a / d) + a % d && b == d * (b / d) + b % d;
    assert d * (a / d - b / d) == a - b;
    SmallMultiple(d, a / d - b / d);
  }

  /** In any m-1 consecutive calls partition 0 is constrained every time and every other
      partition exactly once. */
  lemma ScheduleCovers(c0: nat, m: nat, j: nat) returns (c: nat)
    requires m >= 2 && 1 <= j < m
    ensures forall a :: c0 < a <= c0 + (m - 1) ==> Scheduled(0, a, m)
    ensures c0 < c <= c0 + (m - 1) && Scheduled(j, c, m)
    ensures forall a :: c0 < a <= c0 + (m - 1) && Scheduled(j, a, m) ==> a == c
  {
    c := ConsecutiveResidue(c0, m - 1, j - 1);
    forall a | c0 < a <= c0 + (m - 1) && Scheduled(j, a, m)
      ensures a == c
    {
      ResidueOnce(c0, m - 1, a, c);
    }
  }

  /** The taps that make_speex asks for, and the partitions that they come to. */
  function Taps(filterMs: FixedPoint.S32): int {
    var taps := TruncDiv(TruncDiv(FixedPoint.To32(filterMs * 16000), 1000), 160) * 160;
    if taps < 320 then 320 else taps
  }

  function Partitions(frameSize: int, filterLength: int): int
    requires frameSize > 0
  {
    (filterLength + frameSize - 1) / frameSize
  }

  /** Whatever the property says, the filter has at least two partitions, so the schedule
      never divides by zero; it comes to the requested length, in whole partitions, exactly
      from two partitions up to where the product still fits a word. */
  lemma TapsGiveTwoPartitions(filterMs: FixedPoint.S32)
    ensures Partitions(160, Taps(filterMs)) >= 2
    ensures Partitions(160, Taps(filterMs)) * 160 == Taps(filterMs)
    ensures 16 * filterMs - 160 < Taps(filterMs) <= 16 * filterMs <==> 20 <= filterMs <= 134217
  {
  }

  // ---- histories ----

  /** The frame of speaker s from j calls ago; silence before the first. */
  function FrameAgo(frames: seq<seq<seq<real>>>, fs: nat, j: int, s: int): (r: seq<real>)
    ensures |r| == fs
  {
    if 0 <= j < |frames| && 0 <= s < |frames[|frames| - 1 - j]| && |frames[|frames| - 1 - j][s]| == fs
    then frames[|frames| - 1 - j][s]
    else Zeros(fs)
  }

  /** The window of two frames that the canceller transformed j calls ago. */
  function WindowAgo(frames: seq<seq<seq<real>>>, fs: nat, j: int, s: int): (r: seq<real>)
    ensures |r| == 2 * fs
  {
    FrameAgo(frames, fs, j + 1, s) + FrameAgo(frames, fs, j, s)
  }

  lemma OneCallLater(frames: seq<seq<seq<real>>>, frame: seq<seq<real>>, fs: nat, j: nat, s: int)
    ensures FrameAgo(frames + [frame], fs, j + 1, s) == FrameAgo(frames, fs, j, s)
    ensures WindowAgo(frames + [frame], fs, j + 1, s) == WindowAgo(frames, fs, j, s)
  {
  }

  /** The far-end sample of speaker s that lies d samples before position i of the newest
      frame. */
  function Past(frames: seq<seq<seq<real>>>, fs: nat, s: int, i: int, d: int): real {
    if fs == 0 then 0.0
    else if d <= i then RealAt(FrameAgo(frames, fs, 0, s), i - d)
    else RealAt(FrameAgo(frames, fs, (d - i + fs - 1) / fs, s), (i - d) % fs)
  }

  /** Sample b -j from position i of a window is a sample of the far-end history. */
  lemma WindowIsPast(frames: seq<seq<seq<real>>>, fs: nat, j: int, s: int, i: int, b: int)
    requires 0 <= j && 0 <= i < fs && 0 <= b < fs
    ensures RealAt(WindowAgo(frames, fs, j, s), fs + i - b) == Past(frames, fs, s, i, j * fs + b)
  {
    hide FrameAgo;
    PastIndex(fs, j, i, b);
  }

  /** Counting samples from the first frame on, the sample d before position i of the newest
      frame is position p of frame t, or silence before the first frame. */
  lemma PastIsHistory(frames: seq<seq<seq<real>>>, fs: nat, s: int, i: int, d: int, t: int, p: int)
    requires 0 <= i < fs && 0 <= d && 0 <= p < fs && t < |frames|
    requires Times(fs, t) + p == Times(fs, |frames| - 1) + i - d
    ensures t < 0 ==> Past(frames, fs, s, i, d) == 0.0
    ensures 0 <= t && 0 <= s < |frames[t]| && |frames[t][s]| == fs ==> Past(frames, fs, s, i, d) == frames[t][s][p]
  {
    hide Past, Times;
    var j: nat := |frames| - 1 - t;
    SpreadFrames(fs, |frames| - 1, t);
    if p <= i {
      TimesIs(fs, j);
      WindowIsPast(frames, fs, j, s, i, i - p);
    } else {
      if j == 0 {
        TimesZero(fs);
      }
      TimesSuc(fs, j);
      TimesIs(fs, j - 1);
      WindowIsPast(frames, fs, j - 1, s, i, fs - p + i);
    }
  }

  lemma SpreadFrames(fs: nat, a: int, b: int)
    ensures Times(fs, a) - Times(fs, b) == Times(fs, a - b)
  {
  }

  /** Where the sample d = j*fs + b back from position i is found. */
  lemma PastIndex(fs: nat, j: int, i: int, b: int)
    requires 0 <= j && 0 <= i < fs && 0 <= b < fs
    ensures j * fs + b <= i ==> j == 0
    ensures j * fs + b > i ==>
              && (j * fs + b - i + fs - 1) / fs == (if b <= i then j else j + 1)
              && (i - (j * fs + b)) % fs == (if b <= i then i - b else i - b + fs)
  {
    var a := Times(fs, j);
    assert a == j * fs;
    if j > 0 {
      Grow(fs, j);
    }
    if b <= i {
      DivUnique(a + b - i + fs - 1, fs, j, b - i + fs - 1);
      NegTimes(fs, j);
      DivUnique(i - (a + b), fs, -j, i - b);
    } else {
      TimesSuc(fs, j + 1);
      DivUnique(a + b - i + fs - 1, fs, j + 1, b - i - 1);
      NegTimes(fs, j + 1);
      DivUnique(i - (a + b), fs, -(j + 1), i - b + fs);
    }
  }

  lemma NegTimes(a: int, b: int)
    ensures Times(a, -b) == -Times(a, b)
  {
  }

  // ---- the block filter is a time-domain filter ----

  /** Sample t of the inverse of block b's product. */
  function BlockOut(w: int -> Cpx, x: seq<real>, g: seq<real>, base: int, n: nat, t: int, b: int): real {
    RealAt(Ifft(w, PackedMul(Blk(x, b, n), Blk(g, base + b, n))), t)
  }

  lemma {:induction false} ProductSumSample(w: int -> Cpx, x: seq<real>, g: seq<real>, base: int, n: nat, m: nat, t: int)
    requires 0 <= t < n
    ensures Ifft(w, ProductSum(x, g, base, n, m))[t] == RealSum(m, b => BlockOut(w, x, g, base, n, t, b))
  {
    hide Ifft, VecAdd, PackedMul, Blk, Zeros, RealSum, ProductSum;
    var outs := b => BlockOut(w, x, g, base, n, t, b);
    ProductSumParts(x, g, base, n, m);
    RealSumParts(m, outs);
    if m == 0 {
      IfftZeros(w, n);
      ZerosAt(n);
    } else {
      ProductSumSample(w, x, g, base, n, m - 1, t);
      var p := PackedMul(Blk(x, m - 1, n), Blk(g, base + m - 1, n));
      IfftAdd(w, ProductSum(x, g, base, n, m - 1), p);
      VecAddAt(Ifft(w, ProductSum(x, g, base, n, m - 1)), Ifft(w, p));
    }
  }

  /** Coefficient d of the impulse response that the partitions of one speaker spell out. */
  function Impulse(w: int -> Cpx, g: seq<real>, base: int, fs: nat, k: nat, s: int, d: int): real {
    if fs == 0 then 0.0 else RealAt(Ifft(w, Blk(g, base + (d / fs * k + s), 2 * fs)), d % fs)
  }

  /** The filter applied to the history of speaker s. */
  function FirTerm(w: int -> Cpx, g: seq<real>, base: int, fs: nat, k: nat, frames: seq<seq<seq<real>>>, s: int, i: int,
                   d: int): real {
    SMul(Impulse(w, g, base, fs, k, s, d), Past(frames, fs, s, i, d))
  }

  function Fir(w: int -> Cpx, g: seq<real>, base: int, fs: nat, m: nat, k: nat, frames: seq<seq<seq<real>>>, s: int,
               i: int): real {
    RealSum(Times(fs, m), d => FirTerm(w, g, base, fs, k, frames, s, i, d))
  }

  /** Block j*k+s of the delay line is the spectrum of that speaker's window j calls ago. */
  ghost predicate Spectra(w: int -> Cpx, x: seq<real>, fs: nat, m: nat, k: nat, frames: seq<seq<seq<real>>>) {
    forall j, s :: 0 <= j < m && 0 <= s < k ==> Blk(x, Wx(m, k, 0, j, s), 2 * fs) == Fft(w, WindowAgo(frames, fs, j, s))
  }

  /** Every partition's impulse response stays within one frame. */
  ghost predicate AllCausal(w: int -> Cpx, g: seq<real>, fs: nat, m: nat, k: nat, chan: int) {
    forall j, s :: 0 <= j < m && 0 <= s < k ==> Causal(w, Blk(g, Wx(m, k, chan, j, s), 2 * fs), fs)
  }

  /** One partition's output is its impulse response applied to one stretch of history. */
  lemma PartitionOut(w: int -> Cpx, x: seq<real>, g: seq<real>, fs: nat, m: nat, k: nat, chan: nat,
                     frames: seq<seq<seq<real>>>, i: int, j: int, s: int)
    requires fs > 0 && Root(2 * fs, w) && 0 <= i < fs && 0 <= j < m && 0 <= s < k
    requires Spectra(w, x, fs, m, k, frames) && AllCausal(w, g, fs, m, k, chan)
    ensures BlockOut(w, x, g, chan * m * k, 2 * fs, fs + i, j * k + s)
         == SMul(RowOf(fs, d => FirTerm(w, g, chan * m * k, fs, k, frames, s, i, d), j), OneOver(2 * fs))
  {
    hide Root, Fft, Ifft, PackedMul, Blk, RealSum, SMul, OneOver, Past, WindowAgo, FirTerm, RowOf;
    var base := chan * m * k;
    WxBounds(m, k, chan + 1, chan, j, s);
    WxBounds(m, k, 1, 0, j, s);
    var xb := WindowAgo(frames, fs, j, s);
    var gb := Blk(g, base + (j * k + s), 2 * fs);
    var h := Ifft(w, gb);
    assert Blk(x, j * k + s, 2 * fs) == Fft(w, xb);
    assert Causal(w, gb, fs);
    FftOfIfft(w, gb);
    OverlapSave(w, xb, h, fs + i);
    var f := d => FirTerm(w, g, base, fs, k, frames, s, i, d);
    RowMeans(fs, f, j);
    var taps := b => Tap(h, xb, fs + i, b);
    var row := q => f(Times(fs, j) + q);
    forall b | 0 <= b < fs
      ensures taps(b) == row(b)
    {
      TapIsFirTerm(w, g, base, fs, k, frames, s, i, j, b);
    }
    RealSumExt(fs, taps, row);
  }

  lemma TapIsFirTerm(w: int -> Cpx, g: seq<real>, base: int, fs: nat, k: nat, frames: seq<seq<seq<real>>>, s: int, i: int,
                     j: int, b: int)
    requires fs > 0 && 0 <= i < fs && 0 <= j && 0 <= b < fs
    ensures Tap(Ifft(w, Blk(g, base + (j * k + s), 2 * fs)), WindowAgo(frames, fs, j, s), fs + i, b)
         == FirTerm(w, g, base, fs, k, frames, s, i, Times(fs, j) + b)
  {
    hide Ifft, Blk, SMul, Past, WindowAgo, Times;
    DivUnique(Times(fs, j) + b, fs, j, b);
    WindowIsPast(frames, fs, j, s, i, b);
    TimesIs(fs, j);
  }

  lemma TimesIs(a: int, b: int)
    ensures Times(a, b) == b * a
  {
  }

  /** The output window of microphone chan: its partitions times the delay line. */
  function FilterWindow(w: int -> Cpx, x: seq<real>, g: seq<real>, fs: nat, m: nat, k: nat, chan: int): (r: seq<real>)
    ensures |r| == 2 * fs
  {
    Ifft(w, ProductSum(x, g, chan * m * k, 2 * fs, m * k))
  }

  /** The block filter: sample fs+i of the inverse transform of the summed products is, up
      to the fixed scale, the filter of m*fs coefficients over the far-end history, summed
      over the k speakers. */
  lemma FilterIsFir(w: int -> Cpx, x: seq<real>, g: seq<real>, fs: nat, m: nat, k: nat, chan: nat,
                    frames: seq<seq<seq<real>>>, i: int)
    requires fs > 0 && Root(2 * fs, w) && 0 <= i < fs
    requires Spectra(w, x, fs, m, k, frames) && AllCausal(w, g, fs, m, k, chan)
    ensures FilterWindow(w, x, g, fs, m, k, chan)[fs + i]
         == SMul(RealSum(k, s => Fir(w, g, chan * m * k, fs, m, k, frames, s, i)), OneOver(2 * fs))
  {
    hide Root, Ifft, ProductSum, RealSum, SMul, OneOver, BlockOut, Spectra, AllCausal, ColumnOf, Fir, Times;
    var base := chan * m * k;
    var c := OneOver(2 * fs);
    var outs := b => BlockOut(w, x, g, base, 2 * fs, fs + i, b);
    ProductSumSample(w, x, g, base, 2 * fs, m * k, fs + i);
    TimesIs(k, m);
    RealSumColumns(k, m, outs);
    var firs := s => Fir(w, g, base, fs, m, k, frames, s, i);
    forall s | 0 <= s < k
      ensures ColumnOf(k, m, outs, s) == SMul(firs(s), c)
    {
      SpeakerOut(w, x, g, fs, m, k, chan, frames, i, s);
    }
    RealSumExt(k, q => ColumnOf(k, m, outs, q), s => SMul(firs(s), c));
    RealSumScale(k, c, firs);
  }

  lemma SpeakerOut(w: int -> Cpx, x: seq<real>, g: seq<real>, fs: nat, m: nat, k: nat, chan: nat,
                   frames: seq<seq<seq<real>>>, i: int, s: int)
    requires fs > 0 && Root(2 * fs, w) && 0 <= i < fs && 0 <= s < k
    requires Spectra(w, x, fs, m, k, frames) && AllCausal(w, g, fs, m, k, chan)
    ensures ColumnOf(k, m, b => BlockOut(w, x, g, chan * m * k, 2 * fs, fs + i, b), s)
         == SMul(Fir(w, g, chan * m * k, fs, m, k, frames, s, i), OneOver(2 * fs))
  {
    hide Root, RealSum, SMul, OneOver, BlockOut, Spectra, AllCausal, Times, RowOf, FirTerm;
    var base := chan * m * k;
    var c := OneOver(2 * fs);
    var outs := b => BlockOut(w, x, g, base, 2 * fs, fs + i, b);
    var f := d => FirTerm(w, g, base, fs, k, frames, s, i, d);
    var rows := j => RowOf(fs, f, j);
    forall j | 0 <= j < m
      ensures outs(Times(k, j) + s) == SMul(rows(j), c)
    {
      PartitionOut(w, x, g, fs, m, k, chan, frames, i, j, s);
      TimesIs(k, j);
    }
    RealSumExt(m, j => outs(Times(k, j) + s), j => SMul(rows(j), c));
    RealSumScale(m, c, rows);
    RealSumRows(fs, m, f);
  }
}
