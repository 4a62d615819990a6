/** When the echo estimates of mdf.c are a direct filter over the far-end history: what the
    schedule does to the weights over several calls, and what that makes of the echo. */
module EchoFilter {
  import opened Arith
  import opened Complex
  import opened RootsOfUnity
  import opened HalfComplex
  import opened FftWrap
  import opened Convolution
  import opened Blocks
  import opened BlockFilter
  import opened EchoCanceller

  /** The block filter is the direct one: with causal partitions and a line in step, every
      echo estimate is, up to the fixed scale, the filter of m*fs coefficients over the
      far-end history, summed over the speakers. */
  lemma EchoIsFir(echo: seq<real>, w: int -> Cpx, x: seq<real>, line: seq<real>, g: seq<real>, fs: nat, m: nat, k: nat,
                  count: nat, frames: seq<seq<seq<real>>>, complete: bool, c: nat, i: nat)
    requires fs > 0 && Root(2 * fs, w) && c < count && i < fs
    requires InStep(w, x, line, fs, m, k, frames, complete) && (complete || m <= |frames|)
    requires AllCausal(w, g, fs, m, k, c)
    requires Estimates(echo, w, line, g, fs, m, k, count)
    ensures Blk(echo, c, fs)[i] == SMul(RealSum(k, s => Fir(w, g, c * m * k, fs, m, k, frames, s, i)), OneOver(2 * fs))
  {
    hide Root, Blk, FilterWindow, Fft, WindowAgo, Windows, AllCausal, RealSum, SMul, Fir, OneOver;
    forall j, s | 0 <= j < m && 0 <= s < k
      ensures Blk(line, Wx(m, k, 0, j, s), 2 * fs) == Fft(w, WindowAgo(frames, fs, j, s))
    {
      assert Wx(m, k, 0, j, s) == Wx(m + 1, k, 0, j, s);
    }
    assert Spectra(w, line, fs, m, k, frames);
    FilterIsFir(w, line, g, fs, m, k, c, frames, i);
  }

  /** Every partition that the schedule visits in a call is causal after it. */
  lemma VisitedCausal(w: int -> Cpx, w0: seq<real>, w1: seq<real>, count: nat, c: nat, m: nat, k: nat, fs: nat, i: int, j: int,
                      s: int)
    requires fs > 0 && Root(2 * fs, w) && 0 <= i < c && 0 <= j < m && 0 <= s < k
    requires AllHold(w1, c, m, k, 2 * fs, Schedule(w, w0, count, m, k, fs))
    ensures Scheduled(j, count, m) ==> Causal(w, Blk(w1, Wx(m, k, i, j, s), 2 * fs), fs)
    ensures Causal(w, Blk(w0, Wx(m, k, i, j, s), 2 * fs), fs) ==> Causal(w, Blk(w1, Wx(m, k, i, j, s), 2 * fs), fs)
  {
    hide Root, Blk, Wx, Constrained, Causal, Scheduled;
    var before := Blk(w0, Wx(m, k, i, j, s), 2 * fs);
    ConstrainedCausal(w, before, fs);
    AllHoldAt(w1, c, m, k, 2 * fs, Schedule(w, w0, count, m, k, fs), i, j, s);
  }

  /** Call t of a run without gradient steps, the first of which is number c0 + 1. */
  ghost predicate FrozenAt(w: int -> Cpx, ws: seq<seq<real>>, c0: nat, c: nat, m: nat, k: nat, fs: nat, t: nat)
    requires t + 1 < |ws|
  {
    AllHold(ws[t + 1], c, m, k, 2 * fs, Schedule(w, ws[t], c0 + 1 + t, m, k, fs))
  }

  ghost predicate Frozen(w: int -> Cpx, ws: seq<seq<real>>, c0: nat, c: nat, m: nat, k: nat, fs: nat) {
    forall t: nat :: t < |ws| - 1 ==> FrozenAt(w, ws, c0, c, m, k, fs, t)
  }

  lemma {:induction false} CausalPersists(w: int -> Cpx, ws: seq<seq<real>>, c0: nat, c: nat, m: nat, k: nat, fs: nat, i: int,
                                          j: int, s: int, from: nat, upto: nat)
    requires fs > 0 && Root(2 * fs, w) && 0 <= i < c && 0 <= j < m && 0 <= s < k
    requires Frozen(w, ws, c0, c, m, k, fs) && from <= upto < |ws|
    requires Causal(w, Blk(ws[from], Wx(m, k, i, j, s), 2 * fs), fs)
    ensures Causal(w, Blk(ws[upto], Wx(m, k, i, j, s), 2 * fs), fs)
    decreases upto
  {
    hide Root, Blk, Wx, Causal, AllHold;
    if from < upto {
      CausalPersists(w, ws, c0, c, m, k, fs, i, j, s, from, upto - 1);
      assert FrozenAt(w, ws, c0, c, m, k, fs, upto - 1);
      VisitedCausal(w, ws[upto - 1], ws[upto], c0 + upto, c, m, k, fs, i, j, s);
    }
  }

  /** In any m-1 consecutive calls without a gradient step the schedule makes every partition
      causal, which is what the block filter needs to be the direct one. */
  lemma FrozenBecomesCausal(w: int -> Cpx, ws: seq<seq<real>>, c0: nat, c: nat, m: nat, k: nat, fs: nat, i: int)
    requires fs > 0 && Root(2 * fs, w) && m >= 2 && 0 <= i < c
    requires |ws| == m && Frozen(w, ws, c0, c, m, k, fs)
    ensures AllCausal(w, ws[m - 1], fs, m, k, i)
  {
    hide Root, Blk, Wx, Causal, AllHold, Scheduled;
    forall j, s | 0 <= j < m && 0 <= s < k
      ensures Causal(w, Blk(ws[m - 1], Wx(m, k, i, j, s), 2 * fs), fs)
    {
      var t := VisitingCall(c0, m, j);
      assert FrozenAt(w, ws, c0, c, m, k, fs, t);
      VisitedCausal(w, ws[t], ws[t + 1], c0 + 1 + t, c, m, k, fs, i, j, s);
      CausalPersists(w, ws, c0, c, m, k, fs, i, j, s, t + 1, m - 1);
    }
  }

  lemma VisitingCall(c0: nat, m: nat, j: nat) returns (t: nat)
    requires m >= 2 && j < m
    ensures t < m - 1 && Scheduled(j, c0 + 1 + t, m)
  {
    if j == 0 {
      t := 0;
    } else {
      var call := ScheduleCovers(c0, m, j);
      t := call - c0 - 1;
    }
  }

  /** Without a gradient step a call learns what the schedule makes of the weights. */
  lemma LearnedFrozen(w: int -> Cpx, w0: seq<real>, w1: seq<real>, x: seq<real>, ahead: int, e: seq<real>, power1: seq<real>,
                      prop: seq<real>, count: nat, c: nat, m: nat, k: nat, fs: nat)
    requires AllHold(w1, c, m, k, 2 * fs, Learned(w, w0, x, ahead, e, power1, prop, false, count, m, k, fs))
    ensures AllHold(w1, c, m, k, 2 * fs, Schedule(w, w0, count, m, k, fs))
  {
    hide Blk, Wx, Constrained, Scheduled, AllHold;
    var target := Schedule(w, w0, count, m, k, fs);
    forall i, j, s | 0 <= i < c && 0 <= j < m && 0 <= s < k
      ensures Blk(w1, Wx(m, k, i, j, s), 2 * fs) == target(i, j, s)
    {
      AllHoldAt(w1, c, m, k, 2 * fs, Learned(w, w0, x, ahead, e, power1, prop, false, count, m, k, fs), i, j, s);
    }
    HoldAll(w1, c, m, k, 2 * fs, target);
  }

  lemma HoldAll(now: seq<real>, count: nat, m: nat, k: nat, n: nat, target: (int, int, int) -> seq<real>)
    requires forall c, j, s :: 0 <= c < count && 0 <= j < m && 0 <= s < k ==> Blk(now, Wx(m, k, c, j, s), n) == target(c, j, s)
    ensures AllHold(now, count, m, k, n, target)
  {
    hide Blk, Wx;
  }

  /** What the rest of a call brings into the gradient, of which nothing is left without one. */
  datatype Inputs = Inputs(x: seq<real>, e: seq<real>, power1: seq<real>, prop: seq<real>)

  /** Call t of a run, number c0 + 1 + t, did not adapt and did not reset the background. */
  ghost predicate FrozenCall(w: int -> Cpx, ws: seq<seq<real>>, ins: seq<Inputs>, c0: nat, c: nat, m: nat, k: nat, fs: nat,
                             t: nat)
    requires t + 1 < |ws| && t < |ins|
  {
    AllHold(ws[t + 1], c, m, k, 2 * fs,
            Learned(w, ws[t], ins[t].x, 0, ins[t].e, ins[t].power1, ins[t].prop, false, c0 + 1 + t, m, k, fs))
  }

  /** After m-1 consecutive calls that did not adapt, the last of which copied the background to
      the foreground, the next call's echo is the direct filter over the far-end history. */
  lemma FrozenEchoIsFir(w: int -> Cpx, ws: seq<seq<real>>, ins: seq<Inputs>, c0: nat, foreground: seq<real>, echo: seq<real>,
                        x: seq<real>, line: seq<real>, fs: nat, m: nat, k: nat, count: nat, frames: seq<seq<seq<real>>>,
                        complete: bool, c: nat, i: nat)
    requires fs > 0 && Root(2 * fs, w) && m >= 2 && c < count && i < fs
    requires |ws| == m && |ins| == m - 1
    requires forall t: nat :: t < m - 1 ==> FrozenCall(w, ws, ins, c0, count, m, k, fs, t)
    requires foreground == ws[m - 1]
    requires InStep(w, x, line, fs, m, k, frames, complete) && (complete || m <= |frames|)
    requires Estimates(echo, w, line, foreground, fs, m, k, count)
    ensures Blk(echo, c, fs)[i] == SMul(RealSum(k, s => Fir(w, foreground, c * m * k, fs, m, k, frames, s, i)), OneOver(2 * fs))
  {
    hide Root, Blk, AllHold, InStep, Estimates, AllCausal, RealSum, SMul, Fir, OneOver;
    forall t: nat | t < |ws| - 1
      ensures FrozenAt(w, ws, c0, count, m, k, fs, t)
    {
      assert FrozenCall(w, ws, ins, c0, count, m, k, fs, t);
      LearnedFrozen(w, ws[t], ws[t + 1], ins[t].x, 0, ins[t].e, ins[t].power1, ins[t].prop, c0 + 1 + t, count, m, k, fs);
    }
    FrozenBecomesCausal(w, ws, c0, count, m, k, fs, c);
    EchoIsFir(echo, w, x, line, foreground, fs, m, k, count, frames, complete, c, i);
  }
}
