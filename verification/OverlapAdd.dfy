/** The weighted overlap-add of preprocess.c: analysis window, transform, gain, inverse
    transform, synthesis window. The gains that the noise estimate leads to are inputs. */
module OverlapAdd {
  import opened Complex
  import opened RootsOfUnity
  import opened HalfComplex
  import opened FftWrap
  import opened Convolution

  // ---- the window ----

  /** What is needed of the cosine approximation. */
  ghost predicate IsCosine(cosNorm: real -> real) {
    forall x :: -1.0 <= cosNorm(x) <= 1.0
  }

  ghost predicate IsSquareRoot(sqrt: real -> real) {
    forall x :: 0.0 <= x ==> 0.0 <= sqrt(x) && SMul(sqrt(x), sqrt(x)) == x
  }

  /** Analysis and synthesis window together pass a sample on unchanged: the two halves of
      the window are power complementary. */
  ghost predicate PowerComplementary(window: seq<real>, n: nat) {
    && |window| == 2 * n
    && forall i :: 0 <= i < n ==> SquareAt(window, i) + SquareAt(window, n + i) == 1.0
  }

  function SquareAt(window: seq<real>, i: int): real {
    SMul(RealAt(window, i), RealAt(window, i))
  }

  /** The square of the window where the position runs from 0 to 4. */
  function Power(cosNorm: real -> real, x: real): real {
    var y := if x < 1.0 then x else if x < 2.0 then 2.0 - x else if x < 3.0 then x - 2.0 else 2.0 - x + 2.0;
    var tmp := Raised(cosNorm, y);
    if 1.0 <= x < 3.0 then 1.0 - tmp else tmp
  }

  function Raised(cosNorm: real -> real, y: real): real {
    var half := 0.5 - SMul(0.5, cosNorm(SMul(1.271903, y)));
    SMul(half, half)
  }

  lemma RaisedBetween(cosNorm: real -> real, y: real)
    requires IsCosine(cosNorm)
    ensures 0.0 <= Raised(cosNorm, y) <= 1.0
  {
    var half := 0.5 - 0.5 * cosNorm(SMul(1.271903, y));
    assert 0.0 <= half <= 1.0;
    assert half * half <= half * 1.0;
  }

  lemma OppositePowers(cosNorm: real -> real, x: real)
    requires 0.0 <= x < 2.0
    ensures Power(cosNorm, x) + Power(cosNorm, x + 2.0) == 1.0
  {
    hide Raised;
  }

  /** The shape of the window over its length, a quarter at a time. */
  lemma PowerShape(cosNorm: real -> real, y: real)
    requires 0.0 <= y < 1.0
    ensures Power(cosNorm, y) == Hump(cosNorm, y)
    ensures y > 0.0 ==> Power(cosNorm, 2.0 - y) == 1.0 - Hump(cosNorm, y) && Power(cosNorm, 4.0 - y) == Hump(cosNorm, y)
    ensures Power(cosNorm, 2.0 + y) == 1.0 - Hump(cosNorm, y)
  {
    var half := (1.0 - cosNorm(SMul(1.271903, y))) / 2.0;
    assert half == 0.5 - SMul(0.5, cosNorm(SMul(1.271903, y)));
  }

  /** The square of half of one less the cosine. */
  function Hump(cosNorm: real -> real, y: real): real {
    SMul((1.0 - cosNorm(SMul(1.271903, y))) / 2.0, (1.0 - cosNorm(SMul(1.271903, y))) / 2.0)
  }

  function Position(i: int, len: nat): real
    requires len > 0
  {
    (4 * i) as real / len as real
  }

  lemma PositionShifts(i: int, n: nat)
    requires 0 <= i < n
    ensures 0.0 <= Position(i, 2 * n) < 2.0
    ensures Position(n + i, 2 * n) == Position(i, 2 * n) + 2.0
  {
    var d := (2 * n) as real;
    assert (4 * i) as real < 2.0 * d;
    assert (4 * (n + i)) as real == (4 * i) as real + 2.0 * d;
    Quotients((4 * i) as real, d);
  }

  lemma Quotients(a: real, d: real)
    requires d > 0.0
    ensures (a + 2.0 * d) / d == a / d + 2.0
    ensures 0.0 <= a < 2.0 * d ==> 0.0 <= a / d < 2.0
  {
    var q := a / d;
    assert q * d == a;
    var r := (a + 2.0 * d) / d;
    assert r * d == a + 2.0 * d;
    Cancel(r - (q + 2.0), d);
  }

  lemma Cancel(x: real, d: real)
    requires d > 0.0 && x * d == 0.0
    ensures x == 0.0
  {
    assert x > 0.0 ==> x * d > 0.0;
    assert x < 0.0 ==> (-x) * d > 0.0;
  }

  method ConjWindow(len: nat, cosNorm: real -> real, sqrt: real -> real) returns (w: array<real>)
    requires IsCosine(cosNorm) && IsSquareRoot(sqrt)
    ensures fresh(w) && w.Length == len
    ensures forall i :: 0 <= i < len ==> 0.0 <= w[i] && SMul(w[i], w[i]) == Power(cosNorm, Position(i, len))
    ensures len % 2 == 0 ==> PowerComplementary(w[..], len / 2)
  {
    hide SMul, IsCosine, Raised;
    w := new real[len](_ => 0.0);
    for i := 0 to len
      invariant forall k :: 0 <= k < i ==> 0.0 <= w[k] && SMul(w[k], w[k]) == Power(cosNorm, Position(k, len))
    {
      var x := (4 * i) as real / len as real;
      var inv := false;
      if x < 1.0 {
      } else if x < 2.0 {
        x := 2.0 - x;
        inv := true;
      } else if x < 3.0 {
        x := x - 2.0;
        inv := true;
      } else {
        x := 2.0 - x + 2.0;
      }
      var tmp := Raised(cosNorm, x);
      RaisedBetween(cosNorm, x);
      if inv {
        tmp := 1.0 - tmp;
      }
      w[i] := sqrt(tmp);
    }
    if len % 2 == 0 {
      Complementary(w[..], len / 2, cosNorm);
    }
  }

  lemma Complementary(w: seq<real>, n: nat, cosNorm: real -> real)
    requires |w| == 2 * n
    requires forall i :: 0 <= i < 2 * n ==> SMul(w[i], w[i]) == Power(cosNorm, Position(i, 2 * n))
    ensures PowerComplementary(w, n)
  {
    hide SMul, Power, Position;
    forall i | 0 <= i < n
      ensures SquareAt(w, i) + SquareAt(w, n + i) == 1.0
    {
      PositionShifts(i, n);
      OppositePowers(cosNorm, Position(i, 2 * n));
    }
  }

  // ---- one frame ----

  function Reals(x: seq<int>): (r: seq<real>)
    ensures |r| == |x|
  {
    seq(|x|, i requires 0 <= i < |x| => x[i] as real)
  }

  function Windowed(window: seq<real>, f: seq<real>): (r: seq<real>)
    ensures |r| == |f|
  {
    seq(|f|, i => SMul(RealAt(f, i), RealAt(window, i)))
  }

  /** The bin whose gain applies to entry i of a packed spectrum of n bins; the middle bin
      shares the last gain. */
  function BinOf(i: int, n: nat): int {
    if i == 2 * n - 1 then n - 1 else (i + 1) / 2
  }

  function Gained(gains: seq<real>, ft: seq<real>, n: nat): (r: seq<real>)
    ensures |r| == |ft|
  {
    seq(|ft|, i => SMul(RealAt(gains, BinOf(i, n)), RealAt(ft, i)))
  }

  /** The frame that one call synthesises from the previous samples and the new ones. */
  function Synthesised(w: int -> Cpx, window: seq<real>, samples: seq<real>, gains: seq<real>, n: nat): (r: seq<real>)
    ensures |r| == |samples|
  {
    Windowed(window, Ifft(w, Gained(gains, Fft(w, Windowed(window, samples)), n)))
  }

  /** Rounding to 16 bits, with the limits of the source. */
  function Word2Int(x: real): int {
    if x < -32767.5 then -32768 else if x > 32766.5 then 32767 else (0.5 + x).Floor
  }

  lemma Word2IntExact(k: int)
    ensures Word2Int(k as real) == (if k < -32768 then -32768 else if k > 32767 then 32767 else k)
  {
  }

  /** Within the limits rounding is to the nearest number, halves upwards. */
  lemma Word2IntNear(x: real)
    ensures -32767.5 <= x <= 32766.5 ==> -0.5 < Word2Int(x) as real - x <= 0.5
    ensures x < -32767.5 ==> Word2Int(x) == -32768
    ensures x > 32766.5 ==> Word2Int(x) == 32767
  {
  }

  /** The two buffers that a call leaves for the next one. */
  datatype Buffers = Buffers(inbuf: seq<real>, outbuf: seq<real>)

  function After(w: int -> Cpx, window: seq<real>, b: Buffers, x: seq<int>, gains: seq<real>, n: nat): Buffers
    requires |b.inbuf| == |x| == n
  {
    Buffers(Reals(x), Synthesised(w, window, b.inbuf + Reals(x), gains, n)[n..])
  }

  function Emitted(w: int -> Cpx, window: seq<real>, b: Buffers, x: seq<int>, gains: seq<real>, n: nat): (out: seq<int>)
    requires |b.inbuf| == |x| == n
    ensures |out| == n
  {
    OverlapSum(b.outbuf, Synthesised(w, window, b.inbuf + Reals(x), gains, n), n)
  }

  /** The first half of a frame on top of the tail of the one before. */
  function OverlapSum(tail: seq<real>, f: seq<real>, n: nat): (out: seq<int>)
    ensures |out| == n
  {
    seq(n, i => Word2Int(RealAt(tail, i) + RealAt(f, i)))
  }

  // ---- gains, bin by bin ----

  /** Gain k meets bin k, and the last gain the middle bin as well. */
  ghost predicate BinsScaled(before: seq<real>, after: seq<real>, gains: seq<real>, n: nat) {
    && |before| == |after| == 2 * n
    && (forall k :: 0 <= k < n ==> Unpacked(after)(k) == Scale(RealAt(gains, k), Unpacked(before)(k)))
    && Unpacked(after)(n) == Scale(RealAt(gains, n - 1), Unpacked(before)(n))
  }

  lemma GainsMeetBins(gains: seq<real>, ft: seq<real>, n: nat)
    requires |ft| == 2 * n && n > 0
    ensures BinsScaled(ft, Gained(gains, ft, n), gains, n)
  {
    hide RealAt, SMul, Scale;
    var after := Gained(gains, ft, n);
    forall k | 0 <= k <= n
      ensures Unpacked(after)(k) == Scale(RealAt(gains, if k < n then k else n - 1), Unpacked(ft)(k))
    {
      GainedBin(gains, ft, n, k);
    }
  }

  lemma GainedBin(gains: seq<real>, ft: seq<real>, n: nat, k: nat)
    requires |ft| == 2 * n && n > 0 && k <= n
    ensures Unpacked(Gained(gains, ft, n))(k) == Scale(RealAt(gains, if k < n then k else n - 1), Unpacked(ft)(k))
  {
    hide RealAt, SMul, Scale;
    var after := Gained(gains, ft, n);
    EntryGained(gains, ft, n, 0);
    EntryGained(gains, ft, n, 2 * n - 1);
    assert BinOf(0, n) == 0 && BinOf(2 * n - 1, n) == n - 1;
    if 0 < k < n {
      EntryGained(gains, ft, n, 2 * k - 1);
      EntryGained(gains, ft, n, 2 * k);
      assert BinOf(2 * k - 1, n) == k == BinOf(2 * k, n);
      ScaledPair(RealAt(gains, k), RealAt(ft, 2 * k - 1), RealAt(ft, 2 * k));
    } else {
      ScaledReal(RealAt(gains, 0), RealAt(ft, 0));
      ScaledReal(RealAt(gains, n - 1), RealAt(ft, 2 * n - 1));
    }
  }

  lemma EntryGained(gains: seq<real>, ft: seq<real>, n: nat, i: nat)
    requires i < |ft|
    ensures RealAt(Gained(gains, ft, n), i) == SMul(RealAt(gains, BinOf(i, n)), RealAt(ft, i))
  {
  }

  lemma ScaledPair(g: real, a: real, b: real)
    ensures Scale(g, Cpx(a, b)) == Cpx(SMul(g, a), SMul(g, b))
  {
  }

  lemma ScaledReal(g: real, a: real)
    ensures Scale(g, Real(a)) == Real(SMul(g, a))
  {
  }

  /** after is the frame whose spectrum is the one of before with the gains applied. */
  ghost predicate Filtered(w: int -> Cpx, gains: seq<real>, before: seq<real>, after: seq<real>, n: nat) {
    |before| == |after| == 2 * n && BinsScaled(Fft(w, before), Fft(w, after), gains, n)
  }

  /** Gains of zero outside a set of bins leave nothing there. */
  lemma OnlyThoseBins(before: seq<real>, after: seq<real>, gains: seq<real>, n: nat, k: nat)
    requires BinsScaled(before, after, gains, n) && k <= n && RealAt(gains, if k < n then k else n - 1) == 0.0
    ensures Unpacked(after)(k) == ZERO
  {
    hide Unpacked;
  }

  /** The previous and the new samples under the window. */
  function Analysed(window: seq<real>, inbuf: seq<real>, x: seq<int>, n: nat): (r: seq<real>)
    ensures |r| == 2 * n
  {
    seq(2 * n, i => SMul(if i < n then RealAt(inbuf, i) else if i - n < |x| then x[i - n] as real else 0.0, RealAt(window, i)))
  }

  /** What one call emits and leaves behind, from the frame f that the gains make of the windowed
      samples: its first half under the window goes on top of the tail, its second half becomes
      the next tail, and the new samples are kept. */
  ghost predicate EmitsFrame(w: int -> Cpx, window: seq<real>, b: Buffers, x: seq<int>, gains: seq<real>, n: nat, out: seq<int>,
                             next: Buffers, f: seq<real>) {
    && Filtered(w, gains, Analysed(window, b.inbuf, x, n), f, n)
    && |out| == |x| == |next.inbuf| == |next.outbuf| == n
    && forall i :: 0 <= i < n ==>
         && out[i] == Word2Int(RealAt(b.outbuf, i) + SMul(RealAt(f, i), RealAt(window, i)))
         && next.outbuf[i] == SMul(RealAt(f, n + i), RealAt(window, n + i))
         && next.inbuf[i] == x[i] as real
  }

  ghost predicate Emits(w: int -> Cpx, window: seq<real>, b: Buffers, x: seq<int>, gains: seq<real>, n: nat, out: seq<int>,
                        next: Buffers) {
    exists f :: EmitsFrame(w, window, b, x, gains, n, out, next, f)
  }

  lemma AnalysedIs(window: seq<real>, inbuf: seq<real>, x: seq<int>, n: nat)
    requires |inbuf| == |x| == n
    ensures Windowed(window, inbuf + Reals(x)) == Analysed(window, inbuf, x, n)
  {
    hide SMul;
    forall i | 0 <= i < 2 * n
      ensures Windowed(window, inbuf + Reals(x))[i] == Analysed(window, inbuf, x, n)[i]
    {
      assert RealAt(inbuf + Reals(x), i) == if i < n then RealAt(inbuf, i) else x[i - n] as real;
    }
  }

  lemma CallEmits(w: int -> Cpx, window: seq<real>, b: Buffers, x: seq<int>, gains: seq<real>, n: nat)
    requires n > 0 && Root(2 * n, w) && |b.inbuf| == |x| == n
    ensures Emits(w, window, b, x, gains, n, Emitted(w, window, b, x, gains, n), After(w, window, b, x, gains, n))
  {
    hide Root, Fft, Ifft, Gained, SMul, Word2Int, BinsScaled, Analysed;
    var s := Analysed(window, b.inbuf, x, n);
    var g := Gained(gains, Fft(w, s), n);
    var f := Ifft(w, g);
    AnalysedIs(window, b.inbuf, x, n);
    GainsMeetBins(gains, Fft(w, s), n);
    FftOfIfft(w, g);
    assert EmitsFrame(w, window, b, x, gains, n, Emitted(w, window, b, x, gains, n), After(w, window, b, x, gains, n), f);
  }

  lemma OverlapSumIs(tail: seq<real>, f: seq<real>, out: seq<int>, n: nat)
    requires |tail| == |out| == n <= |f|
    requires forall i :: 0 <= i < n ==> out[i] == Word2Int(tail[i] + f[i])
    ensures out == OverlapSum(tail, f, n)
  {
    hide Word2Int;
  }

  // ---- a one-frame delay ----

  lemma GainedByOnes(ft: seq<real>, n: nat)
    requires |ft| == 2 * n
    ensures Gained(Ones(n), ft, n) == ft
  {
    forall i | 0 <= i < 2 * n
      ensures Gained(Ones(n), ft, n)[i] == ft[i]
    {
      assert 0 <= BinOf(i, n) < n;
    }
  }

  /** With unit gains the transforms cancel and only the two windows remain. */
  lemma SynthesisByOnes(w: int -> Cpx, window: seq<real>, samples: seq<real>, n: nat)
    requires n > 0 && Root(2 * n, w) && |samples| == 2 * n
    ensures Synthesised(w, window, samples, Ones(n), n) == Windowed(window, Windowed(window, samples))
  {
    hide Root, Fft, Ifft, Windowed, Gained, Ones;
    GainedByOnes(Fft(w, Windowed(window, samples)), n);
    IfftOfFft(w, Windowed(window, samples));
  }

  /** What outbuf holds when only unit gains have been applied. */
  ghost predicate Tail(window: seq<real>, b: Buffers, n: nat) {
    && |b.inbuf| == |b.outbuf| == n
    && forall i :: 0 <= i < n ==> b.outbuf[i] == SMul(b.inbuf[i], SquareAt(window, n + i))
  }

  lemma TwiceWindowed(window: seq<real>, f: seq<real>, i: int)
    requires 0 <= i < |f|
    ensures Windowed(window, Windowed(window, f))[i] == SMul(f[i], SquareAt(window, i))
  {
    assert f[i] * RealAt(window, i) * RealAt(window, i) == f[i] * (RealAt(window, i) * RealAt(window, i));
  }

  predicate Short(x: seq<int>) {
    forall i :: 0 <= i < |x| ==> -32768 <= x[i] <= 32767
  }

  /** One step of the delay: the previous frame comes out, the new one stays behind. */
  lemma UnitStep(w: int -> Cpx, window: seq<real>, b: Buffers, x: seq<int>, previous: seq<int>, n: nat)
    requires n > 0 && Root(2 * n, w) && PowerComplementary(window, n) && Tail(window, b, n)
    requires |x| == |previous| == n && b.inbuf == Reals(previous) && Short(previous)
    ensures Emitted(w, window, b, x, Ones(n), n) == previous
    ensures Tail(window, After(w, window, b, x, Ones(n), n), n)
  {
    hide Root, Synthesised, Windowed, SMul, SquareAt, Ones, Word2Int;
    var samples := b.inbuf + Reals(x);
    SynthesisByOnes(w, window, samples, n);
    forall i | 0 <= i < 2 * n
      ensures Windowed(window, Windowed(window, samples))[i] == SMul(samples[i], SquareAt(window, i))
    {
      TwiceWindowed(window, samples, i);
    }
    var f := Synthesised(w, window, samples, Ones(n), n);
    forall i | 0 <= i < n
      ensures Word2Int(RealAt(b.outbuf, i) + RealAt(f, i)) == previous[i]
    {
      assert f[i] == SMul(b.inbuf[i], SquareAt(window, i));
      PowersAdd(b.inbuf[i], SquareAt(window, i), SquareAt(window, n + i));
      Word2IntExact(previous[i]);
    }
  }

  lemma PowersAdd(a: real, p: real, q: real)
    requires p + q == 1.0
    ensures SMul(a, p) + SMul(a, q) == a
  {
    assert a * (p + q) == a * p + a * q;
  }

  /** The frames that come out of a run in which every gain is one. */
  function Outputs(w: int -> Cpx, window: seq<real>, b: Buffers, frames: seq<seq<int>>, n: nat): (out: seq<seq<int>>)
    requires |b.inbuf| == n && forall t :: 0 <= t < |frames| ==> |frames[t]| == n
    ensures |out| == |frames|
    decreases |frames|
  {
    if frames == [] then []
    else [Emitted(w, window, b, frames[0], Ones(n), n)]
         + Outputs(w, window, After(w, window, b, frames[0], Ones(n), n), frames[1..], n)
  }

  /** With noise suppression and gain control off the preprocessor is a delay of one frame,
      whatever the frames. */
  lemma {:induction false} FrameDelay(w: int -> Cpx, window: seq<real>, b: Buffers, previous: seq<int>,
                                      frames: seq<seq<int>>, n: nat)
    requires n > 0 && Root(2 * n, w) && PowerComplementary(window, n) && Tail(window, b, n)
    requires |previous| == n && b.inbuf == Reals(previous) && Short(previous)
    requires forall t :: 0 <= t < |frames| ==> |frames[t]| == n && Short(frames[t])
    ensures Outputs(w, window, b, frames, n) == ([previous] + frames)[..|frames|]
    decreases |frames|
  {
    hide Root, PowerComplementary, Tail, Emitted, After, Ones, Short;
    if frames != [] {
      UnitStep(w, window, b, frames[0], previous, n);
      AfterInbuf(w, window, b, frames[0], n);
      FrameDelay(w, window, After(w, window, b, frames[0], Ones(n), n), frames[0], frames[1..], n);
      assert [frames[0]] + frames[1..] == frames;
    }
  }

  lemma AfterInbuf(w: int -> Cpx, window: seq<real>, b: Buffers, x: seq<int>, n: nat)
    requires |b.inbuf| == |x| == n
    ensures After(w, window, b, x, Ones(n), n).inbuf == Reals(x)
  {
  }

  lemma SilentStart(window: seq<real>, n: nat)
    ensures Zeros(n) == Reals(seq(n, _ => 0)) && Short(seq(n, _ => 0))
    ensures Tail(window, Buffers(Zeros(n), Zeros(n)), n)
  {
  }

  // ---- the state of speex_preprocess_run that the overlap-add uses ----

  class Preprocessor {
    const frameSize: nat
    const w: int -> Cpx
    const window: array<real>
    const frame: array<real>
    const ft: array<real>
    const inbuf: array<real>
    const outbuf: array<real>
    var denoiseEnabled: bool
    /** The samples of the last frame, and whether every gain so far was one. */
    ghost var last: seq<int>
    ghost var plain: bool

    ghost predicate Shape() {
      && frameSize > 0 && window.Length == frame.Length == ft.Length == 2 * frameSize
      && inbuf.Length == outbuf.Length == frameSize
      && frame != ft && frame != window && frame != inbuf && frame != outbuf && ft != window && ft != inbuf && ft != outbuf
      && window != inbuf && window != outbuf && inbuf != outbuf
    }

    ghost predicate Valid()
      reads this, window, inbuf, outbuf
    {
      && Shape() && |last| == frameSize && Short(last) && inbuf[..] == Reals(last)
      && PowerComplementary(window[..], frameSize)
      && (plain ==> Tail(window[..], Contents(), frameSize))
    }

    ghost function Contents(): Buffers
      reads inbuf, outbuf
    {
      Buffers(inbuf[..], outbuf[..])
    }

    constructor (frameSize: nat, w: int -> Cpx, cosNorm: real -> real, sqrt: real -> real)
      requires frameSize > 0 && IsCosine(cosNorm) && IsSquareRoot(sqrt)
      ensures Valid() && plain && denoiseEnabled && this.frameSize == frameSize && this.w == w
      ensures last == seq(frameSize, _ => 0)
      ensures fresh(window) && fresh(frame) && fresh(ft) && fresh(inbuf) && fresh(outbuf)
    {
      hide IsCosine, IsSquareRoot, PowerComplementary, Tail, Short, Power, Position;
      this.frameSize := frameSize;
      this.w := w;
      frame := new real[2 * frameSize](_ => 0.0);
      ft := new real[2 * frameSize](_ => 0.0);
      inbuf := new real[frameSize](_ => 0.0);
      outbuf := new real[frameSize](_ => 0.0);
      denoiseEnabled := true;
      last := seq(frameSize, _ => 0);
      plain := true;
      var v := ConjWindow(2 * frameSize, cosNorm, sqrt);
      window := v;
      new;
      assert inbuf[..] == Zeros(frameSize) && outbuf[..] == Zeros(frameSize);
      SilentStart(window[..], frameSize);
    }

    /** Old samples, then new ones, and the new ones kept for the next call. */
    method BuildFrame(x: array<int>)
      requires Shape() && x.Length == frameSize
      modifies frame, inbuf
      ensures frame[..] == old(inbuf[..]) + Reals(x[..]) && inbuf[..] == Reals(x[..])
    {
      ghost var before := inbuf[..];
      for i := 0 to frameSize
        invariant forall k :: 0 <= k < i ==> frame[k] == before[k]
        modifies frame
      {
        frame[i] := inbuf[i];
      }
      for i := 0 to frameSize
        invariant forall k :: 0 <= k < frameSize ==> frame[k] == before[k]
        invariant forall k :: frameSize <= k < frameSize + i ==> frame[k] == x[k - frameSize] as real
        modifies frame
      {
        frame[frameSize + i] := x[i] as real;
      }
      for i := 0 to frameSize
        invariant forall k :: 0 <= k < i ==> inbuf[k] == x[k] as real
        modifies inbuf
      {
        inbuf[i] := x[i] as real;
      }
    }

    method ApplyWindow()
      requires Shape()
      modifies frame
      ensures frame[..] == Windowed(window[..], old(frame[..]))
    {
      hide SMul;
      for i := 0 to 2 * frameSize
        invariant forall k :: 0 <= k < i ==> frame[k] == SMul(old(frame[k]), window[k])
        invariant forall k :: i <= k < 2 * frameSize ==> frame[k] == old(frame[k])
        modifies frame
      {
        frame[i] := SMul(frame[i], window[i]);
      }
    }

    method ApplyGains(gain2: array<real>)
      requires Shape() && gain2.Length == frameSize && gain2 != ft
      modifies ft
      ensures ft[..] == Gained(gain2[..], old(ft[..]), frameSize)
      ensures BinsScaled(old(ft[..]), ft[..], gain2[..], frameSize)
    {
      hide SMul, BinsScaled;
      var n := frameSize;
      for i := 1 to n
        invariant forall k :: 1 <= k < 2 * i - 1 ==> ft[k] == SMul(gain2[(k + 1) / 2], old(ft[k]))
        invariant forall k :: 2 * i - 1 <= k < 2 * n ==> ft[k] == old(ft[k])
        invariant ft[0] == old(ft[0])
        modifies ft
      {
        ft[2 * i - 1] := SMul(gain2[i], ft[2 * i - 1]);
        ft[2 * i] := SMul(gain2[i], ft[2 * i]);
      }
      ft[0] := SMul(gain2[0], ft[0]);
      ft[2 * n - 1] := SMul(gain2[n - 1], ft[2 * n - 1]);
      assert ft[..] == Gained(gain2[..], old(ft[..]), n);
      GainsMeetBins(gain2[..], old(ft[..]), n);
    }

    method OverlapOut(x: array<int>)
      requires Shape() && x.Length == frameSize
      modifies x, outbuf
      ensures forall i :: 0 <= i < frameSize ==> x[i] == Word2Int(old(outbuf[i]) + frame[i])
      ensures outbuf[..] == frame[frameSize..]
    {
      hide Word2Int;
      for i := 0 to frameSize
        invariant forall k :: 0 <= k < i ==> x[k] == Word2Int(old(outbuf[k]) + frame[k])
        modifies x
      {
        x[i] := Word2Int(outbuf[i] + frame[i]);
      }
      for i := 0 to frameSize
        invariant forall k :: 0 <= k < i ==> outbuf[k] == frame[frameSize + k]
        modifies outbuf
      {
        outbuf[i] := frame[frameSize + i];
      }
    }

    /** From the old and the new samples to the frame that is added in. */
    method Synthesise(x: array<int>, gain2: array<real>)
      requires Shape() && x.Length == gain2.Length == frameSize
      requires gain2 !in {window, frame, ft, inbuf, outbuf}
      modifies frame, ft, inbuf, gain2
      ensures inbuf[..] == Reals(x[..])
      ensures gain2[..] == (if denoiseEnabled then old(gain2[..]) else Ones(frameSize))
      ensures frame[..] == Synthesised(w, window[..], old(inbuf[..]) + Reals(x[..]), gain2[..], frameSize)
    {
      hide Fft, Ifft, Windowed, Gained, Ones;
      BuildFrame(x);
      ApplyWindow();
      Fill(ft, Fft(w, frame[..]));
      if !denoiseEnabled {
        SetOnes(gain2);
      }
      ApplyGains(gain2);
      Fill(frame, Ifft(w, ft[..]));
      ApplyWindow();
    }

    /** One call, in place on x. gain2 holds the gains that the noise estimate led to; they
        are overwritten with ones when noise suppression is off. */
    method Run(x: array<int>, gain2: array<real>)
      requires Valid() && Root(2 * frameSize, w) && x.Length == gain2.Length == frameSize && Short(x[..])
      requires gain2 !in {window, frame, ft, inbuf, outbuf}
      modifies this`last, this`plain, frame, ft, inbuf, outbuf, x, gain2
      ensures Valid() && last == old(x[..]) && plain == (old(plain) && !denoiseEnabled)
      ensures gain2[..] == (if denoiseEnabled then old(gain2[..]) else Ones(frameSize))
      ensures Contents() == After(w, window[..], old(Contents()), old(x[..]), gain2[..], frameSize)
      ensures x[..] == Emitted(w, window[..], old(Contents()), old(x[..]), gain2[..], frameSize)
      ensures Emits(w, window[..], old(Contents()), old(x[..]), gain2[..], frameSize, x[..], Contents())
      ensures plain ==> x[..] == old(last)
    {
      hide Root, Emits, Synthesised, Word2Int, PowerComplementary, Tail, Short, Ones;
      ghost var b, x0 := Contents(), x[..];
      Synthesise(x, gain2);
      OverlapOut(x);
      OverlapSumIs(b.outbuf, frame[..], x[..], frameSize);
      CallEmits(w, window[..], b, x0, gain2[..], frameSize);
      if plain && !denoiseEnabled {
        UnitStep(w, window[..], b, x0, last, frameSize);
      }
      plain := plain && !denoiseEnabled;
      last := x0;
    }
  }

  /** The buffer that a transform fills. */
  method Fill(a: array<real>, values: seq<real>)
    requires a.Length == |values|
    modifies a
    ensures a[..] == values
  {
    for i := 0 to a.Length
      invariant forall k :: 0 <= k < i ==> a[k] == values[k]
    {
      a[i] := values[i];
    }
  }

  method SetOnes(a: array<real>)
    modifies a
    ensures a[..] == Ones(a.Length)
  {
    for i := 0 to a.Length
      invariant forall k :: 0 <= k < i ==> a[k] == 1.0
    {
      a[i] := 1.0;
    }
  }
}
