/** The pre-emphasis that mdf.c applies to the far end, and its inverse. */
module Emphasis {
  import opened Complex
  import opened HalfComplex

  const PREEMPH: real := 0.9

  /** The frame of speaker s in the interleaved far-end buffer, after pre-emphasis. */
  function PreEmphasised(far: seq<real>, k: nat, s: int, mem: real, fs: nat): (r: seq<real>)
    ensures |r| == fs
  {
    seq(fs, i => RealAt(far, i * k + s) - SMul(PREEMPH, if i == 0 then mem else RealAt(far, (i - 1) * k + s)))
  }

  /** The de-emphasis filter: sample i of the output for the input p, after the sample mem. */
  function DeEmphasised(p: seq<real>, mem: real, i: nat): real {
    RealAt(p, i) + SMul(0.9, if i == 0 then mem else DeEmphasised(p, mem, i - 1))
  }

  /** Pre-emphasis loses nothing: de-emphasis gives every sample of the speaker back, and
      leaves off with the memory that the next frame starts from. */
  lemma {:induction false} EmphasisRoundTrip(far: seq<real>, k: nat, s: int, mem: real, fs: nat, i: nat)
    requires i < fs
    ensures DeEmphasised(PreEmphasised(far, k, s, mem, fs), mem, i) == RealAt(far, i * k + s)
    ensures i == fs - 1 ==> DeEmphasised(PreEmphasised(far, k, s, mem, fs), mem, i) == LastOf(far, k, s, fs)
  {
    hide SMul, PreEmphasised;
    PreEmphasisedAt(far, k, s, mem, fs, i);
    if i > 0 {
      EmphasisRoundTrip(far, k, s, mem, fs, i - 1);
    }
  }

  /** The last sample of speaker s in an interleaved buffer. */
  function LastOf(far: seq<real>, k: nat, s: int, fs: nat): real {
    RealAt(far, (fs - 1) * k + s)
  }

  lemma PreEmphasisedAt(far: seq<real>, k: nat, s: int, mem: real, fs: nat, i: int)
    requires 0 <= i < fs
    ensures PreEmphasised(far, k, s, mem, fs)[i]
         == RealAt(far, i * k + s) - SMul(PREEMPH, if i == 0 then mem else RealAt(far, (i - 1) * k + s))
  {
    hide SMul, RealAt;
  }
}
