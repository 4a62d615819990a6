/** What one processed block holds, in terms of its bytes and of the processors alone: which
    samples go into which processor, and where its output ends up. */
module BlockMeaning {
  import opened Options
  import opened Complex
  import opened HalfComplex
  import opened FrameBytes
  import opened BlockProcessor
  import opened Convolution

  // ---- the samples of a block ----

  /** Channel c of frame f: three bytes, as a fraction of full scale. */
  function SampleAt(bytes: seq<Byte>, f: int, c: int): real {
    var p := f * 18 + c * 3;
    if 0 <= p && p + 2 < |bytes| then S24(Triple(bytes[p], bytes[p + 1], bytes[p + 2])) as real / 8388608.0 else 0.0
  }

  function Samples(bytes: seq<Byte>, c: int): (r: seq<real>)
    ensures |r| == BLOCK
  {
    seq(BLOCK, f => SampleAt(bytes, f, c))
  }

  /** The selected channels, in order. */
  function Chosen(bytes: seq<Byte>, sel: seq<int>): (r: seq<seq<real>>)
    ensures |r| == |sel|
  {
    seq(|sel|, k requires 0 <= k < |sel| => Samples(bytes, sel[k]))
  }

  /** The mean of the selected channels. */
  function AverageAt(bytes: seq<Byte>, sel: seq<int>, f: int): real {
    if sel == [] then 0.0
    else RealSum(|sel|, k => SelectedSample(bytes, sel, f, k)) / |sel| as real
  }

  function SelectedSample(bytes: seq<Byte>, sel: seq<int>, f: int, k: int): real {
    if 0 <= k < |sel| then SampleAt(bytes, f, sel[k]) else 0.0
  }

  function Average(bytes: seq<Byte>, sel: seq<int>): (r: seq<real>)
    ensures |r| == BLOCK
  {
    seq(BLOCK, f => AverageAt(bytes, sel, f))
  }

  /** A loopback sample within the clip, if there is one. */
  function Limited(x: real, clip: real): real {
    if clip > 0.0 && x < -clip then -clip else if clip > 0.0 && clip < x then clip else x
  }

  function FarAt(bytes: seq<Byte>, clip: real, c: int, f: int): real {
    Limited(SampleAt(bytes, f, c), clip)
  }

  /** Channels 4 and 5 and their mean. */
  function FarEnd(bytes: seq<Byte>, clip: real): Reference {
    Reference(seq(BLOCK, f => FarAt(bytes, clip, 4, f)), seq(BLOCK, f => FarAt(bytes, clip, 5, f)),
              seq(BLOCK, f => (FarAt(bytes, clip, 4, f) + FarAt(bytes, clip, 5, f)) / 2.0))
  }

  /** Microphone m holds dst, amplified, in every frame. */
  ghost predicate Holds(bytes: seq<Byte>, m: int, dst: seq<real>, gain: real)
    requires |bytes| == BLOCK_BYTES && 0 <= m < MICS
  {
    forall f :: 0 <= f < BLOCK ==> TripleAt(bytes, f * 18 + m * 3) == PutF(SMul(RealAt(dst, f), gain))
  }

  // ---- a block ----

  /** Microphone m leaves with dst unless it is muted. */
  ghost predicate Leaves<A, S>(r: Rig<A, S>, now: seq<Byte>, m: int, dst: seq<real>)
    requires |now| == BLOCK_BYTES
  {
    0 <= m < MICS && (!Bit(r.mute, m) ==> Holds(now, m, dst, r.gain))
  }

  /** Speex meets the first selected microphone, or the mean of all. */
  ghost predicate SpeexBlock<A(!new), S(!new)>(e: Engines<A, S>, r: Rig<A, S>, next: Rig<A, S>, bytes: seq<Byte>,
                                               now: seq<Byte>)
    requires ValidRig(r) && r.spx.Some? && |now| == BLOCK_BYTES
  {
    var step := e.runSpeex(r.spx.value, if r.mode == 0 then Samples(bytes, r.sel[0]) else Average(bytes, r.sel),
                           FarEnd(bytes, r.refClip));
    next == r.(spx := Some(step.0)) && Leaves(r, now, if r.mode == 0 then r.sel[0] else 0, step.1)
  }

  /** Every selected microphone meets its own processor. */
  ghost predicate SeparateBlock<A(!new), S(!new)>(e: Engines<A, S>, r: Rig<A, S>, next: Rig<A, S>, bytes: seq<Byte>,
                                                  now: seq<Byte>)
    requires ValidRig(r) && r.spx.None? && r.mode == 0 && |now| == BLOCK_BYTES
  {
    && next.(apm := r.apm) == r && |next.apm| == MICS
    && forall m :: 0 <= m < MICS ==>
         if m in r.sel then OwnProcessor(e, r, next, bytes, now, m) else next.apm[m] == r.apm[m]
  }

  ghost predicate OwnProcessor<A(!new), S(!new)>(e: Engines<A, S>, r: Rig<A, S>, next: Rig<A, S>, bytes: seq<Byte>,
                                                 now: seq<Byte>, m: int)
    requires |r.apm| == |next.apm| == MICS && 0 <= m < MICS && r.apm[m].Some? && |now| == BLOCK_BYTES
  {
    var step := e.runApm(r.apm[m].value, [Samples(bytes, m)], FarEnd(bytes, r.refClip));
    next.apm[m] == Some(step.0) && Leaves(r, now, m, step.1)
  }

  /** One processor meets the mean of the selected microphones, or all of them in order, and
      its output goes to channel 0. */
  ghost predicate JointBlock<A(!new), S(!new)>(e: Engines<A, S>, r: Rig<A, S>, next: Rig<A, S>, bytes: seq<Byte>,
                                               now: seq<Byte>)
    requires ValidRig(r) && r.spx.None? && r.mode != 0 && |now| == BLOCK_BYTES
  {
    var step := e.runApm(r.apm[0].value,
                         if r.mode == 1 then [Average(bytes, r.sel)]
                         else Chosen(bytes, r.sel),
                         FarEnd(bytes, r.refClip));
    next == r.(apm := r.apm[0 := Some(step.0)]) && Leaves(r, now, 0, step.1)
  }

  /** Whether a processor's output goes to channel c. */
  predicate Replaces<A, S>(r: Rig<A, S>, c: int)
    requires |r.sel| > 0
  {
    if r.mode != 0 then c == 0 else if r.spx.Some? then c == r.sel[0] else c in r.sel
  }

  /** Loopback channels and microphones that no processor replaces keep their bytes; muted
      microphones are silent. */
  ghost predicate OthersKept<A, S>(r: Rig<A, S>, bytes: seq<Byte>, now: seq<Byte>)
    requires |r.sel| > 0 && |bytes| == |now| == BLOCK_BYTES
  {
    forall f, c :: 0 <= f < BLOCK && 0 <= c < CHANNELS ==> ChannelKept(r, bytes, now, f, c)
  }

  ghost predicate ChannelKept<A, S>(r: Rig<A, S>, bytes: seq<Byte>, now: seq<Byte>, f: int, c: int)
    requires |r.sel| > 0 && |bytes| == |now| == BLOCK_BYTES && 0 <= f < BLOCK && 0 <= c < CHANNELS
  {
    && (c >= MICS || (!Bit(r.mute, c) && !Replaces(r, c)) ==> TripleAt(now, f * 18 + c * 3) == TripleAt(bytes, f * 18 + c * 3))
    && (c < MICS && Bit(r.mute, c) ==> S24(TripleAt(now, f * 18 + c * 3)) == 0)
  }

  /** One block, in any mode. */
  ghost predicate Carried<A(!new), S(!new)>(e: Engines<A, S>, r: Rig<A, S>, next: Rig<A, S>, bytes: seq<Byte>, now: seq<Byte>)
    requires ValidRig(r) && |bytes| == |now| == BLOCK_BYTES
  {
    && OthersKept(r, bytes, now)
    && if r.spx.Some? then SpeexBlock(e, r, next, bytes, now)
       else if r.mode == 0 then SeparateBlock(e, r, next, bytes, now)
       else JointBlock(e, r, next, bytes, now)
  }

  // ---- every block is carried ----

  lemma SamplesAre(bytes: seq<Byte>, c: int)
    requires |bytes| == BLOCK_BYTES && 0 <= c < CHANNELS
    ensures Channel(bytes, c) == Samples(bytes, c)
  {
    hide S24;
  }

  lemma FarEndIs(bytes: seq<Byte>, clip: real)
    requires |bytes| == BLOCK_BYTES
    ensures ReferenceOf(bytes, clip) == FarEnd(bytes, clip)
  {
    hide SampleAt, Channel;
    SamplesAre(bytes, 4);
    SamplesAre(bytes, 5);
    var a, b := ReferenceOf(bytes, clip), FarEnd(bytes, clip);
    assert a.left == b.left && a.right == b.right && a.mono == b.mono;
  }

  lemma {:induction false} SumIs(bytes: seq<Byte>, sel: seq<int>, f: int, k: nat)
    requires |bytes| == BLOCK_BYTES && Increasing(sel) && k <= |sel| && 0 <= f < BLOCK
    ensures SumSelected(Near(bytes), sel, f, k) == RealSum(k, i => SelectedSample(bytes, sel, f, i))
  {
    hide SampleAt, Channel, RealSum;
    var g := i => SelectedSample(bytes, sel, f, i);
    RealSumParts(k, g);
    if k > 0 {
      SumIs(bytes, sel, f, k - 1);
      SamplesAre(bytes, sel[k - 1]);
    }
  }

  lemma AverageIs(bytes: seq<Byte>, sel: seq<int>)
    requires |bytes| == BLOCK_BYTES && Increasing(sel) && |sel| > 0
    ensures Mix(Near(bytes), sel) == Average(bytes, sel)
  {
    hide SampleAt, Near, RealSum, SumSelected, SelectedSample;
    forall f | 0 <= f < BLOCK
      ensures Mix(Near(bytes), sel)[f] == Average(bytes, sel)[f]
    {
      SumIs(bytes, sel, f, |sel|);
    }
  }

  /** Which microphones' bytes the fates replace. */
  lemma Replaced<A(!new), S(!new)>(e: Engines<A, S>, r: Rig<A, S>, bytes: seq<Byte>, m: int, dst: seq<real>)
    requires ValidRig(r) && |bytes| == BLOCK_BYTES && 0 <= m < MICS && Processed(r, m)
    requires Dispatch(e, r, Near(bytes), ReferenceOf(bytes, r.refClip)).1[m] == dst
    ensures Leaves(r, Block(e, r, bytes).1, m, dst)
  {
    hide Dispatch, Written, PutF, Near, ReferenceOf, Bit, SMul;
    var ref := ReferenceOf(bytes, r.refClip);
    var (next, near) := Dispatch(e, r, Near(bytes), ref);
    DispatchKeeps(e, r, Near(bytes), ref);
    forall f | 0 <= f < BLOCK && !Bit(r.mute, m)
      ensures TripleAt(Block(e, r, bytes).1, f * 18 + m * 3) == PutF(SMul(RealAt(dst, f), r.gain))
    {
      WrittenChannels(bytes, Fates(next, near), r.gain, f, m);
    }
  }

  lemma ReplacesExactly<A, S>(r: Rig<A, S>, c: int)
    requires ValidRig(r) && 0 <= c < MICS
    ensures Replaces(r, c) <==> Processed(r, c)
  {
  }

  lemma OthersAreKept<A(!new), S(!new)>(e: Engines<A, S>, r: Rig<A, S>, bytes: seq<Byte>)
    requires ValidRig(r) && |bytes| == BLOCK_BYTES
    ensures OthersKept(r, bytes, Block(e, r, bytes).1)
  {
    hide Block, ValidRig, S24, Bit, Replaces, Processed;
    Parts(r);
    forall f, c | 0 <= f < BLOCK && 0 <= c < CHANNELS
      ensures ChannelKept(r, bytes, Block(e, r, bytes).1, f, c)
    {
      BlockChannels(e, r, bytes, f, c);
      if c < MICS {
        ReplacesExactly(r, c);
      }
    }
  }

  lemma SelectionIs(bytes: seq<Byte>, sel: seq<int>)
    requires |bytes| == BLOCK_BYTES && Increasing(sel)
    ensures Selection(Near(bytes), sel) == Chosen(bytes, sel)
  {
    hide Channel, Samples;
    forall k | 0 <= k < |sel|
      ensures Selection(Near(bytes), sel)[k] == Samples(bytes, sel[k])
    {
      SamplesAre(bytes, sel[k]);
    }
  }

  lemma SpeexCarried<A(!new), S(!new)>(e: Engines<A, S>, r: Rig<A, S>, bytes: seq<Byte>)
    requires ValidRig(r) && |bytes| == BLOCK_BYTES && r.spx.Some?
    ensures SpeexBlock(e, r, Block(e, r, bytes).0, bytes, Block(e, r, bytes).1)
  {
    hide Written, Leaves, Samples, Average, FarEnd, ReferenceOf, Mix, Channel;
    FarEndIs(bytes, r.refClip);
    AverageIs(bytes, r.sel);
    SamplesAre(bytes, r.sel[0]);
    var m := if r.mode == 0 then r.sel[0] else 0;
    Replaced(e, r, bytes, m, Dispatch(e, r, Near(bytes), ReferenceOf(bytes, r.refClip)).1[m]);
  }

  lemma SeparateCarried<A(!new), S(!new)>(e: Engines<A, S>, r: Rig<A, S>, bytes: seq<Byte>)
    requires ValidRig(r) && |bytes| == BLOCK_BYTES && r.spx.None? && r.mode == 0
    ensures SeparateBlock(e, r, Block(e, r, bytes).0, bytes, Block(e, r, bytes).1)
  {
    hide Written, Leaves, Samples, FarEnd, ReferenceOf, Channel, RunEach;
    var near, ref := Near(bytes), ReferenceOf(bytes, r.refClip);
    FarEndIs(bytes, r.refClip);
    RunEachKeeps(e, r, near, ref, |r.sel|);
    assert r.sel[..|r.sel|] == r.sel;
    forall m | 0 <= m < MICS && m in r.sel
      ensures OwnProcessor(e, r, Block(e, r, bytes).0, bytes, Block(e, r, bytes).1, m)
    {
      SamplesAre(bytes, m);
      EachToItsOwn(e, r, near, ref, m);
      Replaced(e, r, bytes, m, Dispatch(e, r, near, ref).1[m]);
    }
  }

  lemma JointCarried<A(!new), S(!new)>(e: Engines<A, S>, r: Rig<A, S>, bytes: seq<Byte>)
    requires ValidRig(r) && |bytes| == BLOCK_BYTES && r.spx.None? && r.mode != 0
    ensures JointBlock(e, r, Block(e, r, bytes).0, bytes, Block(e, r, bytes).1)
  {
    hide Written, Leaves, Samples, Average, FarEnd, ReferenceOf, Mix, Selection, Channel;
    FarEndIs(bytes, r.refClip);
    AverageIs(bytes, r.sel);
    SelectionIs(bytes, r.sel);
    Replaced(e, r, bytes, 0, Dispatch(e, r, Near(bytes), ReferenceOf(bytes, r.refClip)).1[0]);
  }

  /** Every block that goes back carries the processors' output for its own bytes, and the
      processors have taken exactly one step. */
  lemma BlockCarried<A(!new), S(!new)>(e: Engines<A, S>, r: Rig<A, S>, bytes: seq<Byte>)
    requires ValidRig(r) && |bytes| == BLOCK_BYTES
    ensures Carried(e, r, Block(e, r, bytes).0, bytes, Block(e, r, bytes).1)
  {
    hide Block, ValidRig, OthersKept, SpeexBlock, SeparateBlock, JointBlock;
    OthersAreKept(e, r, bytes);
    if r.spx.Some? {
      SpeexCarried(e, r, bytes);
    } else if r.mode == 0 {
      SeparateCarried(e, r, bytes);
    } else {
      JointCarried(e, r, bytes);
    }
  }

  /** The four mask bits are the binary digits of the mask. */
  lemma BitsOf(mask: int)
    requires 0 <= mask < 16
    ensures mask == (if Bit(mask, 0) then 1 else 0) + (if Bit(mask, 1) then 2 else 0)
                    + (if Bit(mask, 2) then 4 else 0) + (if Bit(mask, 3) then 8 else 0)
  {
  }

  /** The three bytes of a sample, the lowest first, in two's complement. */
  lemma BytesOf(p: Triple)
    ensures S24(p) == p.b0 + 256 * p.b1 + 65536 * p.b2 - (if p.b2 >= 128 then 16777216 else 0)
  {
  }
}
