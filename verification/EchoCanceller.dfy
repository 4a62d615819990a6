/** The block-adaptive echo canceller of mdf.c: the far-end delay line, the foreground and
    background filters, the gradient step and the rotating constraint. The statistics that
    steer adaptation (step sizes, when to copy one filter over the other, when to reset) are
    inputs. */
module EchoCanceller {
  import opened Arith
  import opened Complex
  import opened RootsOfUnity
  import opened HalfComplex
  import opened FftWrap
  import opened Convolution
  import opened Blocks
  import opened BlockFilter
  import opened GradientStep
  import opened Emphasis
  import opened CrossFading

  /** What the two-path logic decides at the end of a call. */
  datatype TwoPath = Keep | CopyToForeground | ResetBackground

  /** The gradient step of one partition. */
  function Adapted(weight: seq<real>, power1: seq<real>, prop: real, x: seq<real>, e: seq<real>): (r: seq<real>)
    requires |weight| == |x| == |e|
    ensures |r| == |weight|
  {
    VecAdd(weight, WeightedConj(power1, prop, x, e))
  }

  /** Block (j, speaker) of the delay line is the spectrum of that speaker's window j calls
      ago; when complete is false this is promised only as far back as there were calls. */
  ghost predicate DelayLine(w: int -> Cpx, line: seq<real>, fs: nat, count: nat, k: nat, frames: seq<seq<seq<real>>>,
                            complete: bool) {
    forall j, s :: 0 <= j < count && 0 <= s < k && (complete || j < |frames|) ==>
      Blk(line, Wx(count, k, 0, j, s), 2 * fs) == Fft(w, WindowAgo(frames, fs, j, s))
  }

  /** The windows waiting to be transformed. */
  ghost predicate Windows(x: seq<real>, fs: nat, k: nat, frames: seq<seq<seq<real>>>) {
    forall s :: 0 <= s < k ==> Blk(x, s, 2 * fs) == WindowAgo(frames, fs, 0, s)
  }

  ghost predicate InStep(w: int -> Cpx, x: seq<real>, line: seq<real>, fs: nat, m: nat, k: nat,
                         frames: seq<seq<seq<real>>>, complete: bool) {
    Windows(x, fs, k, frames) && DelayLine(w, line, fs, m + 1, k, frames, complete)
  }

  /** What the shifted delay line holds, from the line before and the new windows. */
  function Shifted(w: int -> Cpx, line: seq<real>, x: seq<real>, fs: nat, count: nat, k: nat): (int, int, int) -> seq<real> {
    (c, j, s) => if j == 0 then Fft(w, Blk(x, s, 2 * fs)) else Blk(line, Wx(count, k, 0, j - 1, s), 2 * fs)
  }

  /** A shift of the line and a new frame of history keep the line in step. */
  lemma LineShifts(w: int -> Cpx, line: seq<real>, next: seq<real>, x: seq<real>, fs: nat, count: nat, k: nat,
                   frames: seq<seq<seq<real>>>, frame: seq<seq<real>>, complete: bool)
    requires DelayLine(w, line, fs, count, k, frames, complete)
    requires Windows(x, fs, k, frames + [frame])
    requires AllHold(next, 1, count, k, 2 * fs, Shifted(w, line, x, fs, count, k))
    ensures DelayLine(w, next, fs, count, k, frames + [frame], complete)
  {
    hide Blk, Wx, Fft, WindowAgo, AllHold, Shifted;
    forall j, s | 0 <= j < count && 0 <= s < k && (complete || j < |frames + [frame]|)
      ensures Blk(next, Wx(count, k, 0, j, s), 2 * fs) == Fft(w, WindowAgo(frames + [frame], fs, j, s))
    {
      AllHoldAt(next, 1, count, k, 2 * fs, Shifted(w, line, x, fs, count, k), 0, j, s);
      ShiftedAt(w, line, x, fs, count, k, j, s);
      if j > 0 {
        OneCallLater(frames, frame, fs, j - 1, s);
      }
    }
  }

  /** A window is its second half from one call ago, and the new frame. */
  lemma WindowSlides(frames: seq<seq<seq<real>>>, frame: seq<seq<real>>, fs: nat, s: int)
    requires 0 <= s < |frame| && |frame[s]| == fs
    ensures WindowAgo(frames + [frame], fs, 0, s) == WindowAgo(frames, fs, 0, s)[fs..] + frame[s]
  {
    OneCallLater(frames, frame, fs, 0, s);
    assert FrameAgo(frames + [frame], fs, 0, s) == frame[s];
  }

  /** The inner loop: in place, the window moves down by one frame while the new samples come
      in through the pre-emphasis filter, whose memory is the last raw sample. */
  method SlideWindow(x: array<real>, memX: array<real>, far: array<real>, fs: nat, k: nat, speak: nat, base: nat)
    requires x != memX && far != x && far != memX && fs > 0
    requires speak < k && far.Length == fs * k && memX.Length == k && base + 2 * fs <= x.Length
    modifies x, memX
    ensures x[base..base + 2 * fs]
         == old(x[base + fs..base + 2 * fs]) + PreEmphasised(far[..], k, speak, old(RealAt(memX[..], speak)), fs)
    ensures forall i :: 0 <= i < x.Length && !(base <= i < base + 2 * fs) ==> x[i] == old(x[i])
    ensures RealAt(memX[..], speak) == LastOf(far[..], k, speak, fs)
    ensures forall s :: s != speak ==> RealAt(memX[..], s) == old(RealAt(memX[..], s))
  {
    hide SMul, PreEmphasised;
    ghost var mem := memX[speak];
    ghost var newest := PreEmphasised(far[..], k, speak, mem, fs);
    ghost var before := x[..];
    for i := 0 to fs
      invariant forall t :: base <= t < base + i ==> x[t] == before[t + fs]
      invariant forall t :: base + fs <= t < base + fs + i ==> x[t] == newest[t - (base + fs)]
      invariant forall t :: base + fs + i <= t < base + 2 * fs ==> x[t] == before[t]
      invariant forall t :: 0 <= t < x.Length && !(base <= t < base + 2 * fs) ==> x[t] == before[t]
      invariant memX[speak] == if i == 0 then mem else RealAt(far[..], (i - 1) * k + speak)
      invariant forall s :: 0 <= s < k && s != speak ==> memX[s] == old(memX[s])
    {
      FarIndex(far[..], fs, k, i, speak);
      PreEmphasisedAt(far[..], k, speak, mem, fs, i);
      x[base + i] := x[base + fs + i];
      x[base + fs + i] := far[i * k + speak] - SMul(PREEMPH, memX[speak]);
      memX[speak] := far[i * k + speak];
    }
  }

  lemma FarIndex(far: seq<real>, fs: nat, k: nat, i: int, s: int)
    requires 0 <= i < fs && 0 <= s < k && |far| == fs * k
    ensures 0 <= i * k + s < |far| && RealAt(far, i * k + s) == far[i * k + s]
  {
    SubIndex(0, fs, k, i, s);
  }

  class EchoState {
    const frameSize: nat
    const M: nat  // partitions
    const C: nat  // microphones
    const K: nat  // speakers
    /** The powers of the transform's root of unity: what spx_fft_init tabulates. */
    const w: int -> Cpx
    var cancelCount: nat
    const x: array<real>           // far-end windows, one per speaker
    const X: array<real>           // delay line: M+1 spectra per speaker
    const W: array<real>           // background weights
    const foreground: array<real>  // foreground weights
    const E: array<real>           // spectrum of the last error, one per microphone
    const memX: array<real>        // last far-end sample of each speaker
    const window: seq<real>        // cross-fade for a new foreground filter
    /** The pre-emphasised far-end frames of all speakers since the last reset. */
    ghost var frames: seq<seq<seq<real>>>
    /** Whether blocks older than the last reset are known to be silent. */
    ghost var clean: bool

    ghost predicate Shape() {
      && frameSize > 0 && M > 0 && C > 0 && K > 0
      && x.Length == K * (2 * frameSize) && X.Length == 1 * (M + 1) * K * (2 * frameSize)
      && W.Length == C * M * K * (2 * frameSize) && foreground.Length == C * M * K * (2 * frameSize)
      && E.Length == C * (2 * frameSize) && memX.Length == K && |window| == 2 * frameSize
      && x != X && x != W && x != foreground && x != E && x != memX
      && X != W && X != foreground && X != E && X != memX
      && W != foreground && W != E && W != memX
      && foreground != E && foreground != memX && E != memX
    }

    /** The far-end buffers are the history they are meant to be. */
    ghost predicate Valid()
      reads this, x, X
    {
      Shape() && InStep(w, x[..], X[..], frameSize, M, K, frames, clean)
    }

    /** One speaker's new frame: pre-emphasis while the window slides by one frame. */
    method ShiftSpeaker(far: array<real>, speak: nat)
      requires Shape() && speak < K && far.Length == frameSize * K && far != x && far != memX
      modifies x, memX
      ensures Blk(x[..], speak, 2 * frameSize)
           == old(Blk(x[..], speak, 2 * frameSize))[frameSize..]
              + PreEmphasised(far[..], K, speak, old(RealAt(memX[..], speak)), frameSize)
      ensures OnlyBlock(old(x[..]), x[..], speak, 2 * frameSize)
      ensures RealAt(memX[..], speak) == LastOf(far[..], K, speak, frameSize)
      ensures forall s :: s != speak ==> RealAt(memX[..], s) == old(RealAt(memX[..], s))
    {
      hide Blk, OnlyBlock, SMul, PreEmphasised;
      Room(speak, K, 2 * frameSize, x.Length);
      var base := speak * (2 * frameSize);
      ghost var before := x[..];
      SlideWindow(x, memX, far, frameSize, K, speak, base);
      BlkAt(before, speak, 2 * frameSize, base);
      BlkAt(x[..], speak, 2 * frameSize, base);
      OtherBlocks(before, x[..], speak, 2 * frameSize);
    }

    method ShiftFarEnd(far: array<real>)
      requires Shape() && far.Length == frameSize * K && far != x && far != memX
      modifies x, memX
      ensures forall s :: 0 <= s < K ==>
                Blk(x[..], s, 2 * frameSize)
                == old(Blk(x[..], s, 2 * frameSize))[frameSize..]
                   + PreEmphasised(far[..], K, s, old(RealAt(memX[..], s)), frameSize)
      ensures forall s :: 0 <= s < K ==> RealAt(memX[..], s) == LastOf(far[..], K, s, frameSize)
    {
      hide Blk, SMul, PreEmphasised, LastOf;
      for speak := 0 to K
        invariant forall s :: 0 <= s < speak ==>
                    Blk(x[..], s, 2 * frameSize)
                    == old(Blk(x[..], s, 2 * frameSize))[frameSize..]
                       + PreEmphasised(far[..], K, s, old(RealAt(memX[..], s)), frameSize)
        invariant forall s :: 0 <= s < speak ==> RealAt(memX[..], s) == LastOf(far[..], K, s, frameSize)
        invariant forall s :: speak <= s < K ==> Blk(x[..], s, 2 * frameSize) == old(Blk(x[..], s, 2 * frameSize))
        invariant forall s :: speak <= s < K ==> RealAt(memX[..], s) == old(RealAt(memX[..], s))
      {
        ShiftSpeaker(far, speak);
      }
    }

    /** The delay line moves by one call and takes the new spectra in. */
    method ShiftSpectra()
      requires Shape()
      modifies X
      ensures AllHold(X[..], 1, M + 1, K, 2 * frameSize, Shifted(w, old(X[..]), x[..], frameSize, M + 1, K))
    {
      hide Blk, OnlyBlock, Swept, Wx, Shifted;
      ghost var line := X[..];
      ghost var target := Shifted(w, line, x[..], frameSize, M + 1, K);
      ghost var n := 2 * frameSize;
      SweptStart(line, 1, M + 1, K, n, target);
      for speak := 0 to K
        invariant Swept(X[..], line, 1, M + 1, K, n, target, 0, speak, 0, M + 1)
      {
        for j := M downto 0
          invariant Swept(X[..], line, 1, M + 1, K, n, target, 0, speak, 0, j + 1)
        {
          ShiftBlock(speak, j, line, target);
        }
        NewBlock(speak, line, target);
        SweptNextSpeaker(X[..], line, 1, M + 1, K, n, target, 0, speak, 0, 0);
      }
      SweptNextMic(X[..], line, 1, M + 1, K, n, target, 0);
      SweptEnd(X[..], line, 1, M + 1, K, n, target);
    }

    method ShiftBlock(speak: nat, j: nat, ghost line: seq<real>, ghost target: (int, int, int) -> seq<real>)
      requires Shape() && speak < K && j < M
      requires target == Shifted(w, line, x[..], frameSize, M + 1, K)
      requires Swept(X[..], line, 1, M + 1, K, 2 * frameSize, target, 0, speak, 0, j + 2)
      modifies X
      ensures Swept(X[..], line, 1, M + 1, K, 2 * frameSize, target, 0, speak, 0, j + 1)
    {
      hide Blk, OnlyBlock, Swept, Wx;
      var n := 2 * frameSize;
      ghost var now := X[..];
      WxBounds(M + 1, K, 1, 0, j, speak);
      WxBounds(M + 1, K, 1, 0, j + 1, speak);
      WxDiffer(M + 1, K, j, speak);
      SweptPending(now, line, 1, M + 1, K, n, target, 0, speak, 0, j + 2, j);
      CopyBlock(X, Wx(M + 1, K, 0, j, speak), Wx(M + 1, K, 0, j + 1, speak), n, 1 * (M + 1) * K);
      SweptStep(now, X[..], line, 1, M + 1, K, n, target, 0, speak, 0, j + 2, j + 1, 0, j + 1);
    }

    method NewBlock(speak: nat, ghost line: seq<real>, ghost target: (int, int, int) -> seq<real>)
      requires Shape() && speak < K
      requires target == Shifted(w, line, x[..], frameSize, M + 1, K)
      requires Swept(X[..], line, 1, M + 1, K, 2 * frameSize, target, 0, speak, 0, 1)
      modifies X
      ensures Swept(X[..], line, 1, M + 1, K, 2 * frameSize, target, 0, speak, 0, 0)
    {
      hide Blk, OnlyBlock, Swept, Wx, Fft;
      ghost var now := X[..];
      WxBounds(M + 1, K, 1, 0, 0, speak);
      var blk := Load(x, speak, 2 * frameSize, K);
      Store(X, Wx(M + 1, K, 0, 0, speak), Fft(w, blk), 1 * (M + 1) * K);
      SweptStep(now, X[..], line, 1, M + 1, K, 2 * frameSize, target, 0, speak, 0, 1, 0, 0, 0);
    }

    /** The output of one microphone's filter: its partitions times the delay line, back in
        the time domain. */
    method FilterOutput(weights: array<real>, chan: nat) returns (y: seq<real>)
      requires Shape() && chan < C && weights.Length == W.Length
      ensures |y| == 2 * frameSize
      ensures y == FilterWindow(w, X[..], weights[..], frameSize, M, K, chan)
    {
      hide ProductSum, Ifft;
      FilterRoom(C, M, K, chan);
      var acc := SpectralMulAccum(X, 1 * (M + 1) * K, weights, C * M * K, chan * M * K, 2 * frameSize, M * K);
      y := Ifft(w, acc[..]);
    }

    /** The gradient step. X has already been shifted, so partition j meets block j+1. */
    method AdaptWeights(power1: array<real>, prop: seq<real>)
      requires Shape() && power1.Length == frameSize + 1 && |prop| == M && power1 != W
      modifies W
      ensures AllHold(W[..], C, M, K, 2 * frameSize,
                      Gradient(old(W[..]), X[..], 1, E[..], power1[..], prop, M, K, 2 * frameSize))
      ensures Stepped(old(W[..]), W[..], X[..], 1, E[..], power1[..], prop, C, M, K, 2 * frameSize)
    {
      hide Swept, Gradient, AllHold, Stepped;
      ghost var w0 := W[..];
      ghost var target := Gradient(w0, X[..], 1, E[..], power1[..], prop, M, K, 2 * frameSize);
      ghost var n := 2 * frameSize;
      SweptStart(w0, C, M, K, n, target);
      for chan := 0 to C
        invariant Swept(W[..], w0, C, M, K, n, target, chan, 0, 0, M)
      {
        for speak := 0 to K
          invariant Swept(W[..], w0, C, M, K, n, target, chan, speak, 0, M)
        {
          for j := M downto 0
            invariant Swept(W[..], w0, C, M, K, n, target, chan, speak, 0, j)
          {
            AdaptPartition(power1, prop, chan, j, speak, w0);
          }
          SweptNextSpeaker(W[..], w0, C, M, K, n, target, chan, speak, 0, 0);
        }
        SweptNextMic(W[..], w0, C, M, K, n, target, chan);
      }
      SweptEnd(W[..], w0, C, M, K, n, target);
      GradientSteps(w0, W[..], X[..], 1, E[..], power1[..], prop, C, M, K, n);
    }

    method AdaptPartition(power1: array<real>, prop: seq<real>, chan: nat, j: nat, speak: nat, ghost w0: seq<real>)
      requires Shape() && power1.Length == frameSize + 1 && |prop| == M && power1 != W
      requires chan < C && j < M && speak < K
      requires Swept(W[..], w0, C, M, K, 2 * frameSize,
                     Gradient(w0, X[..], 1, E[..], power1[..], prop, M, K, 2 * frameSize), chan, speak, 0, j + 1)
      modifies W
      ensures Swept(W[..], w0, C, M, K, 2 * frameSize,
                    Gradient(w0, X[..], 1, E[..], power1[..], prop, M, K, 2 * frameSize), chan, speak, 0, j)
    {
      hide Blk, OnlyBlock, Swept, Wx, VecAdd, WeightedConj;
      var n := 2 * frameSize;
      ghost var now := W[..];
      ghost var target := Gradient(w0, X[..], 1, E[..], power1[..], prop, M, K, n);
      WxBounds(M + 1, K, 1, 0, j + 1, speak);
      WxBounds(M, K, C, chan, j, speak);
      SweptPending(now, w0, C, M, K, n, target, chan, speak, 0, j + 1, j);
      var xb := Load(X, Wx(M + 1, K, 0, j + 1, speak), n, 1 * (M + 1) * K);
      var eb := Load(E, chan, n, C);
      var wb := Load(W, Wx(M, K, chan, j, speak), n, C * M * K);
      var phi := WeightedSpectralMulConj(power1, prop[j], xb, eb);
      AddTo(phi, wb);
      Store(W, Wx(M, K, chan, j, speak), phi[..], C * M * K);
      SweptStep(now, W[..], w0, C, M, K, n, target, chan, speak, 0, j + 1, j, 0, j);
    }

    /** The constraint of the scheduled partitions; partition 0 is always among them. */
    method ConstrainWeights()
      requires Shape()
      modifies W
      ensures AllHold(W[..], C, M, K, 2 * frameSize, Schedule(w, old(W[..]), cancelCount, M, K, frameSize))
    {
      hide Swept, Schedule;
      ghost var w0 := W[..];
      ghost var target := Schedule(w, w0, cancelCount, M, K, frameSize);
      ghost var n := 2 * frameSize;
      SweptStart(w0, C, M, K, n, target);
      for chan := 0 to C
        invariant Swept(W[..], w0, C, M, K, n, target, chan, 0, 0, M)
      {
        for speak := 0 to K
          invariant Swept(W[..], w0, C, M, K, n, target, chan, speak, 0, M)
        {
          for j := 0 to M
            invariant Swept(W[..], w0, C, M, K, n, target, chan, speak, j, M)
          {
            ConstrainPartition(chan, j, speak, w0);
          }
          SweptNextSpeaker(W[..], w0, C, M, K, n, target, chan, speak, M, M);
        }
        SweptNextMic(W[..], w0, C, M, K, n, target, chan);
      }
      SweptEnd(W[..], w0, C, M, K, n, target);
    }

    method ConstrainPartition(chan: nat, j: nat, speak: nat, ghost w0: seq<real>)
      requires Shape() && chan < C && j < M && speak < K
      requires Swept(W[..], w0, C, M, K, 2 * frameSize, Schedule(w, w0, cancelCount, M, K, frameSize), chan, speak, j, M)
      modifies W
      ensures Swept(W[..], w0, C, M, K, 2 * frameSize, Schedule(w, w0, cancelCount, M, K, frameSize), chan, speak, j + 1, M)
    {
      hide Blk, OnlyBlock, Swept, Wx, Fft, Ifft, Constrained;
      var n := 2 * frameSize;
      ghost var now := W[..];
      ghost var target := Schedule(w, w0, cancelCount, M, K, frameSize);
      WxBounds(M, K, C, chan, j, speak);
      SweptPending(now, w0, C, M, K, n, target, chan, speak, j, M, j);
      if j == 0 || cancelCount % (M - 1) == j - 1 {
        var b := Wx(M, K, chan, j, speak);
        CutTail(b);
      } else {
        OnlyBlockSame(now, Wx(M, K, chan, j, speak), n);
      }
      SweptStep(now, W[..], w0, C, M, K, n, target, chan, speak, j, M, j, j + 1, M);
    }

    /** One constrained block: inverse transform, second half to zero, forward transform. */
    method CutTail(b: nat)
      requires Shape() && b < C * M * K
      modifies W
      ensures Blk(W[..], b, 2 * frameSize) == Constrained(w, old(Blk(W[..], b, 2 * frameSize)), frameSize)
      ensures OnlyBlock(old(W[..]), W[..], b, 2 * frameSize)
    {
      hide Blk, OnlyBlock, Fft, Ifft;
      var n := 2 * frameSize;
      var blk := Load(W, b, n, C * M * K);
      var wtmp := ZeroTail(Ifft(w, blk), frameSize);
      Store(W, b, Fft(w, wtmp[..]), C * M * K);
    }

    /** The far-end half of a call: one more frame of history, and the line shifted with it. */
    method TakeFarEnd(far: array<real>)
      requires Valid() && far.Length == frameSize * K && far != x && far != memX && far != X
      modifies this`frames, x, memX, X
      ensures Valid()
      ensures frames == old(frames) + [NewFrames(far[..], K, old(memX[..]), frameSize)]
      ensures forall s :: 0 <= s < K ==> RealAt(memX[..], s) == LastOf(far[..], K, s, frameSize)
      ensures Older(old(X[..]), X[..], frameSize, M, K)
    {
      hide Blk, Wx, PreEmphasised, LastOf, Windows, DelayLine, AllHold, Fft, Older, NewFrames;
      ghost var line := X[..];
      ghost var frame := NewFrames(far[..], K, memX[..], frameSize);
      ghost var before := x[..];
      ghost var mem := memX[..];
      ShiftFarEnd(far);
      WindowsSlide(before, x[..], frameSize, K, frames, far[..], mem);
      ShiftSpectra();
      LineShifts(w, line, X[..], x[..], frameSize, M + 1, K, frames, frame, clean);
      OlderBlocks(w, line, X[..], x[..], frameSize, M, K);
      frames := frames + [frame];
    }

    /** The foreground filter's echo estimate for every microphone. */
    method ForegroundEcho() returns (echo: array<real>)
      requires Shape()
      ensures fresh(echo) && echo.Length == C * frameSize
      ensures Estimates(echo[..], w, X[..], foreground[..], frameSize, M, K, C)
    {
      hide FilterWindow, Blk, OnlyBlock;
      echo := new real[C * frameSize](_ => 0.0);
      for chan := 0 to C
        invariant Estimates(echo[..], w, X[..], foreground[..], frameSize, M, K, chan)
        modifies echo
      {
        var y := FilterOutput(foreground, chan);
        ghost var before := echo[..];
        Store(echo, chan, y[frameSize..], C);
        EstimatesStep(before, echo[..], w, X[..], foreground[..], frameSize, M, K, chan);
      }
    }

    /** Gradient step and constraint. */
    method Learn(adapt: bool, power1: array<real>, prop: seq<real>)
      requires Shape() && power1.Length == frameSize + 1 && |prop| == M && power1 != W
      modifies W
      ensures AllHold(W[..], C, M, K, 2 * frameSize,
                      Learned(w, old(W[..]), X[..], 1, E[..], power1[..], prop, adapt, cancelCount, M, K, frameSize))
    {
      hide Blk, Wx, AllHold, Gradient, Schedule, Learned;
      ghost var w0 := W[..];
      if adapt {
        AdaptWeights(power1, prop);
      }
      ghost var w1 := W[..];
      ConstrainWeights();
      LearnCombines(w, w0, w1, W[..], X[..], E[..], power1[..], prop, adapt, cancelCount, C, M, K, frameSize);
    }

    /** The background filter's error for every microphone, its spectrum, and the exchange
        between the two filters. */
    method DecideAndMeasure(mic: array<real>, echo: array<real>, twoPath: TwoPath)
      requires Shape() && mic.Length == C * frameSize && echo.Length == C * frameSize
      requires mic !in {W, foreground, E, echo} && echo !in {x, memX, X, W, foreground, E}
      requires Estimates(echo[..], w, X[..], foreground[..], frameSize, M, K, C)
      modifies W, foreground, E, echo
      ensures W[..] == (if twoPath == ResetBackground then old(foreground[..]) else old(W[..]))
      ensures foreground[..] == (if twoPath == CopyToForeground then old(W[..]) else old(foreground[..]))
      ensures Errors(E[..], w, mic[..], X[..], W[..], frameSize, M, K, C)
      ensures Outputs(echo[..], w, X[..], old(foreground[..]), old(W[..]), window, twoPath, frameSize, M, K, C)
    {
      hide FilterWindow, Fft, Blk, Outputs, Errors, Exchanged, Estimates;
      ghost var fg, bg := foreground[..], W[..];
      ghost var final := if twoPath == ResetBackground then fg else bg;
      ErrorsStart(E[..], w, mic[..], X[..], final, frameSize, M, K);
      ExchangedStart(echo[..], w, X[..], fg, bg, window, twoPath, frameSize, M, K, C);
      for chan := 0 to C
        invariant W[..] == bg && foreground[..] == fg
        invariant Errors(E[..], w, mic[..], X[..], final, frameSize, M, K, chan)
        invariant Exchanged(echo[..], w, X[..], fg, bg, window, twoPath, frameSize, M, K, C, chan)
        modifies E, echo
      {
        MeasureMic(mic, echo, twoPath, chan, fg, bg);
      }
      ExchangedEnd(echo[..], w, X[..], fg, bg, window, twoPath, frameSize, M, K, C);
      if twoPath == CopyToForeground {
        CopyAll(W, foreground);
      } else if twoPath == ResetBackground {
        CopyAll(foreground, W);
      }
    }

    method MeasureMic(mic: array<real>, echo: array<real>, twoPath: TwoPath, chan: nat, ghost fg: seq<real>, ghost bg: seq<real>)
      requires Shape() && mic.Length == C * frameSize && echo.Length == C * frameSize && chan < C
      requires mic !in {W, foreground, E, echo} && echo !in {x, memX, X, W, foreground, E}
      requires W[..] == bg && foreground[..] == fg
      requires Errors(E[..], w, mic[..], X[..], if twoPath == ResetBackground then fg else bg, frameSize, M, K, chan)
      requires Exchanged(echo[..], w, X[..], fg, bg, window, twoPath, frameSize, M, K, C, chan)
      modifies E, echo
      ensures Errors(E[..], w, mic[..], X[..], if twoPath == ResetBackground then fg else bg, frameSize, M, K, chan + 1)
      ensures Exchanged(echo[..], w, X[..], fg, bg, window, twoPath, frameSize, M, K, C, chan + 1)
    {
      hide FilterWindow, Fft, Blk, OnlyBlock, Mixed, Residual, Errors, Exchanged;
      var fs := frameSize;
      ghost var e0, echo0 := E[..], echo[..];
      ExchangedPending(echo0, w, X[..], fg, bg, window, twoPath, fs, M, K, C, chan);
      var y := FilterOutput(W, chan);
      var out := Load(echo, chan, fs, C);
      var input := Load(mic, chan, fs, C);
      var err := ErrorFrame(input, if twoPath == ResetBackground then out else y[fs..], fs);
      Store(E, chan, Fft(w, err[..]), C);
      ErrorsStep(e0, E[..], w, mic[..], X[..], if twoPath == ResetBackground then fg else bg, fs, M, K, chan);
      if twoPath == CopyToForeground {
        var faded := CrossFade(out, y[fs..], window, fs);
        Store(echo, chan, faded[..], C);
      } else {
        OnlyBlockSame(echo0, chan, fs);
      }
      ExchangedStep(echo0, echo[..], w, X[..], fg, bg, window, twoPath, fs, M, K, C, chan);
    }

    /** One call. mic holds the microphone frames after the notch filter and pre-emphasis;
        adapt, power1, prop, twoPath and slapped are what the statistics of the call decide.
        The result is the echo estimate that is subtracted from every microphone. */
    method Cancellation(mic: array<real>, far: array<real>, adapt: bool, power1: array<real>, prop: seq<real>,
                        twoPath: TwoPath, slapped: bool) returns (echo: array<real>)
      requires Valid() && Root(2 * frameSize, w) && mic.Length == C * frameSize && far.Length == frameSize * K
      requires power1.Length == frameSize + 1 && |prop| == M
      requires far !in {x, memX, X, W, foreground, E} && mic !in {x, memX, X, W, foreground, E} && power1 !in {x, memX, X, W}
      modifies this, x, X, W, foreground, E, memX
      ensures Valid() && fresh(echo) && echo.Length == C * frameSize
      ensures slapped ==> cancelCount == 0 && frames == [] && (clean <==> K == 1)
      ensures !slapped ==>
                && cancelCount == old(cancelCount) + 1 && clean == old(clean)
                && frames == old(frames) + [NewFrames(far[..], K, old(memX[..]), frameSize)]
      ensures !slapped && twoPath != ResetBackground ==>
                AllHold(W[..], C, M, K, 2 * frameSize,
                        Learned(w, old(W[..]), old(X[..]), 0, old(E[..]), old(power1[..]), prop, adapt,
                                old(cancelCount) + 1, M, K, frameSize))
      ensures !slapped && twoPath != ResetBackground ==>
                WeightsLearned(w, old(W[..]), W[..], old(X[..]), old(E[..]), old(power1[..]), prop, adapt,
                               old(cancelCount) + 1, C, M, K, frameSize)
      ensures !slapped && twoPath == ResetBackground ==> W[..] == old(foreground[..])
      ensures !slapped ==> foreground[..] == (if twoPath == CopyToForeground then W[..] else old(foreground[..]))
      ensures !slapped ==> Errors(E[..], w, mic[..], X[..], W[..], frameSize, M, K, C)
      ensures !slapped && twoPath != CopyToForeground ==>
                Estimates(echo[..], w, X[..], old(foreground[..]), frameSize, M, K, C)
      ensures !slapped && twoPath == CopyToForeground ==>
                Outputs(echo[..], w, X[..], old(foreground[..]), W[..], window, twoPath, frameSize, M, K, C)
      ensures !slapped ==> forall s :: 0 <= s < K ==> RealAt(memX[..], s) == LastOf(far[..], K, s, frameSize)
    {
      hide Root, InStep, Estimates, Errors, Outputs, AllHold, Learned, NewFrames, Blk, Wx, LastOf, RealAt, WeightsLearned;
      ghost var line := X[..];
      ghost var w0, fg, e0 := W[..], foreground[..], E[..];
      cancelCount := cancelCount + 1;
      TakeFarEnd(far);
      echo := ForegroundEcho();
      Learn(adapt, power1, prop);
      GradientPairs(w, w0, line, X[..], E[..], power1[..], prop, adapt, cancelCount, C, M, K, frameSize, W[..]);
      LearnedMeans(w, w0, W[..], line, e0, power1[..], prop, adapt, cancelCount, C, M, K, frameSize);
      ghost var w1 := W[..];
      DecideAndMeasure(mic, echo, twoPath);
      OutputsAreEstimates(echo[..], w, X[..], fg, w1, window, twoPath, frameSize, M, K, C);
      if slapped {
        Reset();
      }
    }

    /** The loops of speex_echo_state_reset, with the extents of the source: the weights and
        the delay line are cleared over the length that a single-channel state has, the
        windows and memories entirely. */
    method Reset()
      requires Shape() && Root(2 * frameSize, w)
      modifies this, x, X, W, foreground, E, memX
      ensures Valid() && cancelCount == 0 && frames == [] && (clean <==> K == 1)
      ensures W[..] == ZeroedTo(old(W[..]), 2 * frameSize * M)
      ensures foreground[..] == ZeroedTo(old(foreground[..]), 2 * frameSize * M)
      ensures X[..] == ZeroedTo(old(X[..]), 2 * frameSize * (M + 1))
      ensures X[..] == Zeros(X.Length) <==>
                K == 1 || forall i :: 2 * frameSize * (M + 1) <= i < X.Length ==> old(X[..])[i] == 0.0
      ensures E[..] == Zeros(E.Length) && x[..] == Zeros(x.Length) && memX[..] == Zeros(memX.Length)
    {
      hide InStep, Zeros, ZeroedTo;
      var N := 2 * frameSize;
      ResetRoom(N, M, C, K);
      ZeroedSilent(X[..], N * (M + 1));
      cancelCount := 0;
      ZeroPrefix(W, N * M);
      ZeroPrefix(foreground, N * M);
      ZeroPrefix(X, N * (M + 1));
      ZeroPrefix(E, E.Length);
      ZeroPrefix(x, x.Length);
      ZeroPrefix(memX, memX.Length);
      ZeroedAll(old(E[..]));
      ZeroedAll(old(x[..]));
      ZeroedAll(old(memX[..]));
      frames := [];
      clean := K == 1;
      if K == 1 {
        ZeroedAll(old(X[..]));
      }
      ResetInStep(w, x[..], X[..], frameSize, M, K, clean);
    }

    /** A fresh state: everything silent. */
    constructor (frameSize: nat, M: nat, C: nat, K: nat, w: int -> Cpx, cosine: real -> real)
      requires frameSize > 0 && M > 0 && C > 0 && K > 0
      requires Root(2 * frameSize, w) && IsCosineOfTurns(cosine)
      ensures Valid() && cancelCount == 0 && frames == [] && clean
      ensures W[..] == Zeros(W.Length) && foreground[..] == Zeros(W.Length)
      ensures this.frameSize == frameSize && this.M == M && this.C == C && this.K == K && this.w == w && Fades(this.window, frameSize)
      ensures fresh(x) && fresh(X) && fresh(W) && fresh(foreground) && fresh(E) && fresh(memX)
    {
      hide InStep, Zeros;
      this.frameSize := frameSize;
      this.M := M;
      this.C := C;
      this.K := K;
      var fade := FadeWindow(frameSize, cosine);
      this.window := fade[..];
      this.w := w;
      cancelCount := 0;
      x := new real[K * (2 * frameSize)](_ => 0.0);
      X := new real[1 * (M + 1) * K * (2 * frameSize)](_ => 0.0);
      W := new real[C * M * K * (2 * frameSize)](_ => 0.0);
      foreground := new real[C * M * K * (2 * frameSize)](_ => 0.0);
      E := new real[C * (2 * frameSize)](_ => 0.0);
      memX := new real[K](_ => 0.0);
      frames := [];
      clean := true;
      new;
      AllZero(x[..]);
      AllZero(X[..]);
      AllZero(W[..]);
      AllZero(foreground[..]);
      ResetInStep(w, x[..], X[..], frameSize, M, K, clean);
    }
  }

  lemma AllZero(f: seq<real>)
    requires forall i :: 0 <= i < |f| ==> f[i] == 0.0
    ensures f == Zeros(|f|)
  {
  }

  lemma ResetRoom(n: nat, m: nat, c: nat, k: nat)
    requires c > 0 && k > 0
    ensures 0 <= n * m <= c * m * k * n && 0 <= n * (m + 1) <= 1 * (m + 1) * k * n
    ensures k == 1 ==> n * (m + 1) == 1 * (m + 1) * k * n
  {
    ProductAbove(n * m, c, k);
    ProductAbove(n * (m + 1), 1, k);
    assert c * m * k * n == n * m * (c * k);
    assert 1 * (m + 1) * k * n == n * (m + 1) * (1 * k);
  }

  lemma ProductAbove(a: nat, c: nat, k: nat)
    requires c > 0 && k > 0
    ensures 0 <= a <= a * (c * k)
  {
    assert c * k >= 1;
  }

  /** f with its first n entries silenced. */
  function ZeroedTo(f: seq<real>, n: int): (r: seq<real>)
    ensures |r| == |f|
  {
    seq(|f|, i requires 0 <= i < |f| => if i < n then 0.0 else f[i])
  }

  /** Clearing a prefix silences a buffer exactly when the rest was silent. */
  lemma ZeroedSilent(f: seq<real>, n: nat)
    ensures ZeroedTo(f, n) == Zeros(|f|) <==> forall i :: n <= i < |f| ==> f[i] == 0.0
  {
    forall i | n <= i < |f|
      ensures ZeroedTo(f, n)[i] == f[i] && Zeros(|f|)[i] == 0.0
    {
    }
  }

  lemma ZeroedAll(f: seq<real>)
    ensures ZeroedTo(f, |f|) == Zeros(|f|)
  {
  }

  method ZeroPrefix(a: array<real>, n: nat)
    requires n <= a.Length
    modifies a
    ensures a[..] == ZeroedTo(old(a[..]), n)
  {
    for i := 0 to n
      invariant forall k :: 0 <= k < i ==> a[k] == 0.0
      invariant forall k :: i <= k < a.Length ==> a[k] == old(a[k])
    {
      a[i] := 0.0;
    }
  }

  /** Silent buffers are in step with an empty history. */
  lemma ResetInStep(w: int -> Cpx, x: seq<real>, line: seq<real>, fs: nat, m: nat, k: nat, complete: bool)
    requires fs > 0 && Root(2 * fs, w) && x == Zeros(|x|)
    requires complete ==> line == Zeros(|line|)
    ensures InStep(w, x, line, fs, m, k, [], complete)
  {
    hide Root, Fft, Wx, Blk;
    forall j, s
      ensures WindowAgo([], fs, j, s) == Zeros(2 * fs)
    {
      SilentWindow(fs, j, s);
    }
    FftZeros(w, 2 * fs);
    forall b: int
      ensures Blk(x, b, 2 * fs) == Zeros(2 * fs)
      ensures complete ==> Blk(line, b, 2 * fs) == Zeros(2 * fs)
    {
      SilentBlock(|x|, b, 2 * fs);
      SilentBlock(|line|, b, 2 * fs);
    }
  }

  lemma SilentWindow(fs: nat, j: int, s: int)
    ensures WindowAgo([], fs, j, s) == Zeros(2 * fs)
  {
  }

  lemma SilentBlock(length: nat, b: int, n: nat)
    ensures Blk(Zeros(length), b, n) == Zeros(n)
  {
    BlkAt(Zeros(length), b, n, b * n);
    forall i | 0 <= i < n
      ensures Blk(Zeros(length), b, n)[i] == Zeros(n)[i]
    {
    }
  }

  function NewFrames(far: seq<real>, k: nat, mem: seq<real>, fs: nat): (r: seq<seq<real>>)
    ensures |r| == k
  {
    seq(k, s => PreEmphasised(far, k, s, RealAt(mem, s), fs))
  }

  /** Every microphone's echo frame is the second half of its filter window. */
  ghost predicate Estimates(echo: seq<real>, w: int -> Cpx, x: seq<real>, g: seq<real>, fs: nat, m: nat, k: nat, count: int) {
    forall c :: 0 <= c < count ==> Blk(echo, c, fs) == FilterWindow(w, x, g, fs, m, k, c)[fs..]
  }

  /** The microphone frame less a filter's output, behind one frame of silence. */
  function Residual(mic: seq<real>, out: seq<real>, fs: nat): (r: seq<real>)
    ensures |r| == 2 * fs
  {
    Zeros(fs) + seq(fs, i => RealAt(mic, i) - RealAt(out, i))
  }

  /** The residual and the filter's output add up to the microphone, behind silence. */
  lemma ResidualCompletes(mic: seq<real>, out: seq<real>, fs: nat, i: nat)
    requires |mic| == |out| == fs && i < fs
    ensures Residual(mic, out, fs)[i] == 0.0
    ensures Residual(mic, out, fs)[fs + i] + out[i] == mic[i]
  {
  }

  /** The error spectra are those of what the weights g leave of the microphones. */
  ghost predicate Errors(e: seq<real>, w: int -> Cpx, mic: seq<real>, x: seq<real>, g: seq<real>, fs: nat, m: nat, k: nat,
                         count: int) {
    forall c :: 0 <= c < count ==>
      Blk(e, c, 2 * fs) == Fft(w, Residual(Blk(mic, c, fs), FilterWindow(w, x, g, fs, m, k, c)[fs..], fs))
  }

  /** What is subtracted from microphone c: the foreground's estimate, cross-faded into the
      background's when that takes over. */
  function Output(w: int -> Cpx, x: seq<real>, fg: seq<real>, bg: seq<real>, window: seq<real>, twoPath: TwoPath, fs: nat,
                  m: nat, k: nat, c: int): seq<real> {
    var old_ := FilterWindow(w, x, fg, fs, m, k, c)[fs..];
    if twoPath == CopyToForeground then Mixed(old_, FilterWindow(w, x, bg, fs, m, k, c)[fs..], window, fs) else old_
  }

  ghost predicate Outputs(echo: seq<real>, w: int -> Cpx, x: seq<real>, fg: seq<real>, bg: seq<real>, window: seq<real>,
                          twoPath: TwoPath, fs: nat, m: nat, k: nat, count: int) {
    forall c :: 0 <= c < count ==> Blk(echo, c, fs) == Output(w, x, fg, bg, window, twoPath, fs, m, k, c)
  }

  lemma OutputsAreEstimates(echo: seq<real>, w: int -> Cpx, x: seq<real>, fg: seq<real>, bg: seq<real>, window: seq<real>,
                            twoPath: TwoPath, fs: nat, m: nat, k: nat, count: int)
    requires Outputs(echo, w, x, fg, bg, window, twoPath, fs, m, k, count)
    ensures twoPath != CopyToForeground ==> Estimates(echo, w, x, fg, fs, m, k, count)
  {
    hide Blk, FilterWindow;
  }

  lemma EstimatesStep(before: seq<real>, after: seq<real>, w: int -> Cpx, x: seq<real>, g: seq<real>, fs: nat, m: nat,
                      k: nat, chan: nat)
    requires Estimates(before, w, x, g, fs, m, k, chan) && OnlyBlock(before, after, chan, fs)
    requires Blk(after, chan, fs) == FilterWindow(w, x, g, fs, m, k, chan)[fs..]
    ensures Estimates(after, w, x, g, fs, m, k, chan + 1)
  {
    hide Blk, FilterWindow;
  }

  lemma ErrorsStart(e: seq<real>, w: int -> Cpx, mic: seq<real>, x: seq<real>, g: seq<real>, fs: nat, m: nat, k: nat)
    ensures Errors(e, w, mic, x, g, fs, m, k, 0)
  {
  }

  lemma ErrorsStep(before: seq<real>, after: seq<real>, w: int -> Cpx, mic: seq<real>, x: seq<real>, g: seq<real>, fs: nat,
                   m: nat, k: nat, chan: nat)
    requires Errors(before, w, mic, x, g, fs, m, k, chan) && OnlyBlock(before, after, chan, 2 * fs)
    requires Blk(after, chan, 2 * fs) == Fft(w, Residual(Blk(mic, chan, fs), FilterWindow(w, x, g, fs, m, k, chan)[fs..], fs))
    ensures Errors(after, w, mic, x, g, fs, m, k, chan + 1)
  {
    hide Blk, FilterWindow, Fft, Residual;
  }

  /** The microphones below done have their output, the others the foreground's estimate. */
  ghost predicate Exchanged(echo: seq<real>, w: int -> Cpx, x: seq<real>, fg: seq<real>, bg: seq<real>, window: seq<real>,
                            twoPath: TwoPath, fs: nat, m: nat, k: nat, count: int, done: int) {
    forall c :: 0 <= c < count ==>
      Blk(echo, c, fs) == if c < done then Output(w, x, fg, bg, window, twoPath, fs, m, k, c)
                          else FilterWindow(w, x, fg, fs, m, k, c)[fs..]
  }

  lemma ExchangedStart(echo: seq<real>, w: int -> Cpx, x: seq<real>, fg: seq<real>, bg: seq<real>, window: seq<real>,
                       twoPath: TwoPath, fs: nat, m: nat, k: nat, count: int)
    requires Estimates(echo, w, x, fg, fs, m, k, count)
    ensures Exchanged(echo, w, x, fg, bg, window, twoPath, fs, m, k, count, 0)
  {
    hide Blk, FilterWindow, Output;
  }

  lemma ExchangedPending(echo: seq<real>, w: int -> Cpx, x: seq<real>, fg: seq<real>, bg: seq<real>, window: seq<real>,
                         twoPath: TwoPath, fs: nat, m: nat, k: nat, count: int, chan: nat)
    requires Exchanged(echo, w, x, fg, bg, window, twoPath, fs, m, k, count, chan) && chan < count
    ensures Blk(echo, chan, fs) == FilterWindow(w, x, fg, fs, m, k, chan)[fs..]
  {
    hide Blk, FilterWindow, Output;
  }

  lemma ExchangedStep(before: seq<real>, after: seq<real>, w: int -> Cpx, x: seq<real>, fg: seq<real>, bg: seq<real>,
                      window: seq<real>, twoPath: TwoPath, fs: nat, m: nat, k: nat, count: int, chan: nat)
    requires Exchanged(before, w, x, fg, bg, window, twoPath, fs, m, k, count, chan) && OnlyBlock(before, after, chan, fs)
    requires Blk(after, chan, fs) == Output(w, x, fg, bg, window, twoPath, fs, m, k, chan)
    ensures Exchanged(after, w, x, fg, bg, window, twoPath, fs, m, k, count, chan + 1)
  {
    hide Blk, FilterWindow, Output;
  }

  lemma ExchangedEnd(echo: seq<real>, w: int -> Cpx, x: seq<real>, fg: seq<real>, bg: seq<real>, window: seq<real>,
                     twoPath: TwoPath, fs: nat, m: nat, k: nat, count: int)
    requires Exchanged(echo, w, x, fg, bg, window, twoPath, fs, m, k, count, count)
    ensures Outputs(echo, w, x, fg, bg, window, twoPath, fs, m, k, count)
  {
    hide Blk, FilterWindow, Output;
  }

  method ErrorFrame(mic: seq<real>, out: seq<real>, fs: nat) returns (err: array<real>)
    requires |mic| == |out| == fs
    ensures fresh(err) && err.Length == 2 * fs && err[..] == Residual(mic, out, fs)
  {
    err := new real[2 * fs](_ => 0.0);
    for i := 0 to fs
      invariant forall k :: 0 <= k < fs || fs + i <= k < 2 * fs ==> err[k] == 0.0
      invariant forall k :: fs <= k < fs + i ==> err[k] == mic[k - fs] - out[k - fs]
    {
      err[fs + i] := mic[i] - out[i];
    }
  }

  method CopyAll(a: array<real>, b: array<real>)
    requires a.Length == b.Length && a != b
    modifies b
    ensures b[..] == a[..]
  {
    for i := 0 to a.Length
      invariant forall k :: 0 <= k < i ==> b[k] == a[k]
    {
      b[i] := a[i];
    }
  }

  /** Windows stay in step when every one of them slides. */
  lemma WindowsSlide(before: seq<real>, after: seq<real>, fs: nat, k: nat, frames: seq<seq<seq<real>>>, far: seq<real>,
                     mem: seq<real>)
    requires Windows(before, fs, k, frames)
    requires forall s :: 0 <= s < k ==>
               Blk(after, s, 2 * fs) == Blk(before, s, 2 * fs)[fs..] + PreEmphasised(far, k, s, RealAt(mem, s), fs)
    ensures Windows(after, fs, k, frames + [NewFrames(far, k, mem, fs)])
  {
    hide Blk, PreEmphasised, WindowAgo;
    var frame := NewFrames(far, k, mem, fs);
    forall s | 0 <= s < k
      ensures Blk(after, s, 2 * fs) == WindowAgo(frames + [frame], fs, 0, s)
    {
      WindowSlides(frames, frame, fs, s);
    }
  }

  /** After the shift, block j+1 is what block j was. */
  lemma OlderBlocks(w: int -> Cpx, line: seq<real>, next: seq<real>, x: seq<real>, fs: nat, m: nat, k: nat)
    requires AllHold(next, 1, m + 1, k, 2 * fs, Shifted(w, line, x, fs, m + 1, k))
    ensures Older(line, next, fs, m, k)
  {
    hide Blk, Wx, Fft, AllHold, Shifted;
    forall j, s | 0 <= j < m && 0 <= s < k
      ensures OlderAt(line, next, fs, m, k, j, s)
    {
      AllHoldAt(next, 1, m + 1, k, 2 * fs, Shifted(w, line, x, fs, m + 1, k), 0, j + 1, s);
      ShiftedAt(w, line, x, fs, m + 1, k, j + 1, s);
    }
  }

  lemma ShiftedAt(w: int -> Cpx, line: seq<real>, x: seq<real>, fs: nat, count: nat, k: nat, j: int, s: int)
    ensures j == 0 ==> Shifted(w, line, x, fs, count, k)(0, j, s) == Fft(w, Blk(x, s, 2 * fs))
    ensures j != 0 ==> Shifted(w, line, x, fs, count, k)(0, j, s) == Blk(line, Wx(count, k, 0, j - 1, s), 2 * fs)
  {
    hide Blk, Wx, Fft;
  }

  ghost predicate Older(line: seq<real>, next: seq<real>, fs: nat, m: nat, k: nat) {
    forall j, s :: 0 <= j < m && 0 <= s < k ==> OlderAt(line, next, fs, m, k, j, s)
  }

  ghost predicate OlderAt(line: seq<real>, next: seq<real>, fs: nat, m: nat, k: nat, j: int, s: int) {
    Blk(next, Wx(m + 1, k, 0, j + 1, s), 2 * fs) == Blk(line, Wx(m + 1, k, 0, j, s), 2 * fs)
  }

  lemma LearnCombines(w: int -> Cpx, w0: seq<real>, w1: seq<real>, w2: seq<real>, x: seq<real>, e: seq<real>,
                      power1: seq<real>, prop: seq<real>, adapt: bool, count: nat, c: nat, m: nat, k: nat, fs: nat)
    requires if adapt then AllHold(w1, c, m, k, 2 * fs, Gradient(w0, x, 1, e, power1, prop, m, k, 2 * fs)) else w1 == w0
    requires AllHold(w2, c, m, k, 2 * fs, Schedule(w, w1, count, m, k, fs))
    ensures AllHold(w2, c, m, k, 2 * fs, Learned(w, w0, x, 1, e, power1, prop, adapt, count, m, k, fs))
  {
    hide Blk, Wx, Adapted, Constrained, Scheduled;
    var target := Learned(w, w0, x, 1, e, power1, prop, adapt, count, m, k, fs);
    forall i, j, s | 0 <= i < c && 0 <= j < m && 0 <= s < k
      ensures Blk(w2, Wx(m, k, i, j, s), 2 * fs) == target(i, j, s)
    {
      AllHoldAt(w2, c, m, k, 2 * fs, Schedule(w, w1, count, m, k, fs), i, j, s);
      if adapt {
        AllHoldAt(w1, c, m, k, 2 * fs, Gradient(w0, x, 1, e, power1, prop, m, k, 2 * fs), i, j, s);
      }
    }
  }

  /** The gradient step pairs the error of the previous call with exactly the spectra that
      each partition multiplied in that call: block j+1 of the shifted line is block j of
      the line as it stood then. */
  lemma GradientPairs(w: int -> Cpx, w0: seq<real>, line: seq<real>, next: seq<real>, e: seq<real>, power1: seq<real>,
                      prop: seq<real>, adapt: bool, count: nat, c: nat, m: nat, k: nat, fs: nat, w2: seq<real>)
    requires Older(line, next, fs, m, k)
    requires AllHold(w2, c, m, k, 2 * fs, Learned(w, w0, next, 1, e, power1, prop, adapt, count, m, k, fs))
    ensures AllHold(w2, c, m, k, 2 * fs, Learned(w, w0, line, 0, e, power1, prop, adapt, count, m, k, fs))
  {
    hide Blk, Wx, Adapted, Constrained, Scheduled;
    var target := Learned(w, w0, line, 0, e, power1, prop, adapt, count, m, k, fs);
    forall i, j, s | 0 <= i < c && 0 <= j < m && 0 <= s < k
      ensures Blk(w2, Wx(m, k, i, j, s), 2 * fs) == target(i, j, s)
    {
      assert OlderAt(line, next, fs, m, k, j, s);
      AllHoldAt(w2, c, m, k, 2 * fs, Learned(w, w0, next, 1, e, power1, prop, adapt, count, m, k, fs), i, j, s);
    }
  }

  method ZeroTail(full: seq<real>, fs: nat) returns (a: array<real>)
    requires |full| == 2 * fs
    ensures fresh(a) && a.Length == 2 * fs && a[..] == full[..fs] + Zeros(fs)
  {
    a := new real[2 * fs](i requires 0 <= i < 2 * fs => full[i]);
    for i := fs to a.Length
      invariant forall k :: 0 <= k < fs ==> a[k] == full[k]
      invariant forall k :: fs <= k < i ==> a[k] == 0.0
    {
      a[i] := 0.0;
    }
  }

  method AddTo(a: array<real>, b: seq<real>)
    requires a.Length == |b|
    modifies a
    ensures a[..] == VecAdd(b, old(a[..]))
  {
    for i := 0 to a.Length
      invariant forall k :: 0 <= k < i ==> a[k] == b[k] + old(a[k])
      invariant forall k :: i <= k < a.Length ==> a[k] == old(a[k])
    {
      a[i] := b[i] + a[i];
    }
  }

  lemma OnlyBlockSame(f: seq<real>, b: int, n: nat)
    ensures OnlyBlock(f, f, b, n)
  {
  }

  lemma FilterRoom(c: nat, m: nat, k: nat, chan: nat)
    requires chan < c
    ensures 0 <= chan * m * k && chan * m * k + m * k <= c * m * k
    ensures m * k <= 1 * (m + 1) * k
  {
    Reassociate(chan, m, k);
    Reassociate(c, m, k);
    Room(chan, c, m * k, c * (m * k));
  }

  lemma Reassociate(a: int, b: int, c: int)
    ensures a * (b * c) == a * b * c
    ensures 1 * (b + 1) * c == b * c + c
  {
  }

  /** What the gradient step makes of every partition, pairing partition j with block
      j + ahead of the delay line. */
  function Gradient(w0: seq<real>, x: seq<real>, ahead: int, e: seq<real>, power1: seq<real>, prop: seq<real>,
                    m: nat, k: nat, n: nat): (int, int, int) -> seq<real>
  {
    (c, j, s) =>
      Adapted(Blk(w0, Wx(m, k, c, j, s), n), power1, RealAt(prop, j), Blk(x, Wx(m + 1, k, 0, j + ahead, s), n), Blk(e, c, n))
  }

  /** The weights that a call learns: the gradient step if there is one, then the constraint
      of the scheduled partitions. */
  function Learned(w: int -> Cpx, w0: seq<real>, x: seq<real>, ahead: int, e: seq<real>, power1: seq<real>,
                   prop: seq<real>, adapt: bool, count: nat, m: nat, k: nat, fs: nat): (int, int, int) -> seq<real>
  {
    (c, j, s) => LearnedBlock(w, w0, x, ahead, e, power1, prop, adapt, count, m, k, fs, c, j, s)
  }

  function LearnedBlock(w: int -> Cpx, w0: seq<real>, x: seq<real>, ahead: int, e: seq<real>, power1: seq<real>,
                        prop: seq<real>, adapt: bool, count: nat, m: nat, k: nat, fs: nat, c: int, j: int, s: int): seq<real>
  {
    var old_ := Blk(w0, Wx(m, k, c, j, s), 2 * fs);
    var stepped := if adapt then Gradient(w0, x, ahead, e, power1, prop, m, k, 2 * fs)(c, j, s) else old_;
    if 0 <= j < m && Scheduled(j, count, m) then Constrained(w, stepped, fs) else stepped
  }

  /** The gradient step moves every bin towards the error that it should have explained. */
  lemma GradientSteps(w0: seq<real>, w1: seq<real>, x: seq<real>, ahead: int, e: seq<real>, power1: seq<real>,
                      prop: seq<real>, count: nat, m: nat, k: nat, n: nat)
    requires n >= 2 && n % 2 == 0 && AllHold(w1, count, m, k, n, Gradient(w0, x, ahead, e, power1, prop, m, k, n))
    ensures Stepped(w0, w1, x, ahead, e, power1, prop, count, m, k, n)
  {
    hide Blk, Wx, AllHold, SteppedBins, VecAdd, WeightedConj, RealAt;
    forall c, j, s | 0 <= c < count && 0 <= j < m && 0 <= s < k
      ensures SteppedBins(Blk(w0, Wx(m, k, c, j, s), n), Blk(w1, Wx(m, k, c, j, s), n), Blk(x, Wx(m + 1, k, 0, j + ahead, s), n),
                          Blk(e, c, n), power1, RealAt(prop, j))
    {
      AllHoldAt(w1, count, m, k, n, Gradient(w0, x, ahead, e, power1, prop, m, k, n), c, j, s);
      StepsBins(Blk(w0, Wx(m, k, c, j, s), n), Blk(x, Wx(m + 1, k, 0, j + ahead, s), n), Blk(e, c, n), power1, RealAt(prop, j));
    }
  }

  /** What a call learns, without the functions that compute it. */
  lemma LearnedMeans(w: int -> Cpx, w0: seq<real>, w1: seq<real>, x: seq<real>, e: seq<real>, power1: seq<real>,
                     prop: seq<real>, adapt: bool, number: nat, count: nat, m: nat, k: nat, fs: nat)
    requires fs > 0 && Root(2 * fs, w)
    requires AllHold(w1, count, m, k, 2 * fs, Learned(w, w0, x, 0, e, power1, prop, adapt, number, m, k, fs))
    ensures WeightsLearned(w, w0, w1, x, e, power1, prop, adapt, number, count, m, k, fs)
  {
    hide Root, Blk, Wx, AllHold, PartitionLearned, Learned;
    forall c, j, s | 0 <= c < count && 0 <= j < m && 0 <= s < k
      ensures PartitionLearned(w, w0, w1, x, e, power1, prop, adapt, number, m, k, fs, c, j, s)
    {
      AllHoldAt(w1, count, m, k, 2 * fs, Learned(w, w0, x, 0, e, power1, prop, adapt, number, m, k, fs), c, j, s);
      PartitionMeans(w, w0, w1, x, e, power1, prop, adapt, number, m, k, fs, c, j, s);
    }
  }

  lemma PartitionMeans(w: int -> Cpx, w0: seq<real>, w1: seq<real>, x: seq<real>, e: seq<real>, power1: seq<real>,
                       prop: seq<real>, adapt: bool, number: nat, m: nat, k: nat, fs: nat, c: int, j: int, s: int)
    requires fs > 0 && Root(2 * fs, w) && 0 <= j < m
    requires Blk(w1, Wx(m, k, c, j, s), 2 * fs) == Learned(w, w0, x, 0, e, power1, prop, adapt, number, m, k, fs)(c, j, s)
    ensures PartitionLearned(w, w0, w1, x, e, power1, prop, adapt, number, m, k, fs, c, j, s)
  {
    hide Root, Blk, Wx, SteppedBins, VecAdd, WeightedConj, RealAt, Scheduled, Fft, Ifft;
    var before := Blk(w0, Wx(m, k, c, j, s), 2 * fs);
    var xb, eb := Blk(x, Wx(m + 1, k, 0, j, s), 2 * fs), Blk(e, c, 2 * fs);
    var mid := if adapt then VecAdd(before, WeightedConj(power1, RealAt(prop, j), xb, eb)) else before;
    StepsBins(before, xb, eb, power1, RealAt(prop, j));
    IfftOfFft(w, Ifft(w, mid)[..fs] + Zeros(fs));
    var due := Scheduled(j, number, m);
    assert Blk(w1, Wx(m, k, c, j, s), 2 * fs) == if due then Constrained(w, mid, fs) else mid;
    assert BlockLearned(w, before, mid, Blk(w1, Wx(m, k, c, j, s), 2 * fs), xb, eb, power1, RealAt(prop, j), adapt, due, fs);
  }

  /** What the constraint makes of every partition in call number count. */
  function Schedule(w: int -> Cpx, w0: seq<real>, count: nat, m: nat, k: nat, fs: nat): (int, int, int) -> seq<real> {
    (c, j, s) =>
      if 0 <= j < m && Scheduled(j, count, m) then Constrained(w, Blk(w0, Wx(m, k, c, j, s), 2 * fs), fs)
      else Blk(w0, Wx(m, k, c, j, s), 2 * fs)
  }

  lemma WxDiffer(m: nat, k: nat, j: int, s: int)
    requires 0 <= j && j + 1 < m && 0 <= s < k
    ensures Wx(m, k, 0, j, s) != Wx(m, k, 0, j + 1, s)
  {
    if Wx(m, k, 0, j, s) == Wx(m, k, 0, j + 1, s) {
      WxInjective(m, k, 0, j, s, 0, j + 1, s);
    }
  }
}
