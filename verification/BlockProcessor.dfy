/** process_block_l of amznaec_shim.cpp: which processor gets which microphones, and what
    is written back. The processors themselves are functions of their state and input. */
module BlockProcessor {
  import opened Options
  import opened Complex
  import opened HalfComplex
  import opened FrameBytes

  /** The far end of one block: both loopback channels and their mean. */
  datatype Reference = Reference(left: seq<real>, right: seq<real>, mono: seq<real>)

  /** The two kinds of processor, as steps on their state. */
  datatype Engines<!A, !S> = Engines(runApm: (A, seq<seq<real>>, Reference) -> (A, seq<real>),
                                     runSpeex: (S, seq<real>, Reference) -> (S, seq<real>))

  ghost predicate LengthKeeping<A(!new), S(!new)>(e: Engines<A, S>) {
    && (forall a, src, ref :: |e.runApm(a, src, ref).1| == BLOCK)
    && forall s, src, ref :: |e.runSpeex(s, src, ref).1| == BLOCK
  }

  /** What a session has decided when its stream was opened, and the processors it has. */
  datatype Rig<A, S> = Rig(mode: int, sel: seq<int>, mute: int, gain: real, refClip: real,
                           apm: seq<Option<A>>, spx: Option<S>)

  predicate Increasing(sel: seq<int>) {
    && (forall k :: 0 <= k < |sel| ==> 0 <= sel[k] < MICS)
    && forall j, k :: 0 <= j < k < |sel| ==> sel[j] < sel[k]
  }

  /** The microphones are a nonempty increasing selection, the mode is one that they allow,
      and exactly the processors that a block needs exist. */
  predicate ValidRig<A, S>(r: Rig<A, S>) {
    && 1 <= |r.sel| <= MICS && Increasing(r.sel)
    && 0 <= r.mode <= 2 && (r.mode != 0 ==> |r.sel| >= 2)
    && |r.apm| == MICS
    && (r.spx.Some? ==> r.mode != 2)
    && forall m :: 0 <= m < MICS ==> (r.apm[m].Some? <==> Needs(r, m))
  }

  /** Whether microphone m has a processor of its own. */
  predicate Needs<A, S>(r: Rig<A, S>, m: int) {
    r.spx.None? && if r.mode == 0 then m in r.sel else m == 0
  }

  predicate Bit(mask: int, m: int)
    requires 0 <= m < MICS
  {
    (if m == 0 then mask else if m == 1 then mask / 2 else if m == 2 then mask / 4 else mask / 8) % 2 == 1
  }

  /** Whether microphone m leaves with a processor's samples. */
  predicate Processed<A, S>(r: Rig<A, S>, m: int)
    requires |r.apm| == MICS && |r.sel| > 0 && 0 <= m < MICS
  {
    if r.mode == 0 then r.apm[m].Some? || (r.spx.Some? && m == r.sel[0]) else m == 0
  }

  function Fates<A, S>(r: Rig<A, S>, near: seq<seq<real>>): (fates: seq<Fate>)
    requires |r.apm| == |near| == MICS && |r.sel| > 0
    ensures |fates| == MICS
  {
    seq(MICS, m requires 0 <= m < MICS =>
      if Bit(r.mute, m) then Muted else if Processed(r, m) then Replaced(near[m]) else Kept)
  }

  // ---- inputs of a block ----

  function Clipped(c: real, x: real): real {
    if c <= 0.0 then x else if x > c then c else if x < -c then -c else x
  }

  function ClippedAll(c: real, x: seq<real>): (r: seq<real>)
    ensures |r| == |x|
  {
    seq(|x|, i requires 0 <= i < |x| => Clipped(c, x[i]))
  }

  function MeanOf(a: seq<real>, b: seq<real>): (r: seq<real>)
    ensures |r| == |a|
  {
    seq(|a|, i => SMul(RealAt(a, i) + RealAt(b, i), 0.5))
  }

  function ReferenceOf(bytes: seq<Byte>, refClip: real): Reference
    requires |bytes| == BLOCK_BYTES
  {
    var left := ClippedAll(refClip, Channel(bytes, REF_FIRST));
    var right := ClippedAll(refClip, Channel(bytes, REF_FIRST + 1));
    Reference(left, right, MeanOf(left, right))
  }

  function Near(bytes: seq<Byte>): (near: seq<seq<real>>)
    requires |bytes| == BLOCK_BYTES
    ensures |near| == MICS && forall m :: 0 <= m < MICS ==> |near[m]| == BLOCK
  {
    seq(MICS, m requires 0 <= m < MICS => Channel(bytes, m))
  }

  function SumSelected(near: seq<seq<real>>, sel: seq<int>, f: int, k: nat): real
    requires Increasing(sel) && |near| == MICS && k <= |sel|
  {
    if k == 0 then 0.0 else SumSelected(near, sel, f, k - 1) + RealAt(near[sel[k - 1]], f)
  }

  /** The mean of the selected microphones. */
  function Mix(near: seq<seq<real>>, sel: seq<int>): (r: seq<real>)
    requires Increasing(sel) && |near| == MICS && |sel| > 0
    ensures |r| == BLOCK
  {
    seq(BLOCK, f => SMul(SumSelected(near, sel, f, |sel|), 1.0 / |sel| as real))
  }

  function Selection(near: seq<seq<real>>, sel: seq<int>): (src: seq<seq<real>>)
    requires Increasing(sel) && |near| == MICS
    ensures |src| == |sel|
  {
    seq(|sel|, k requires 0 <= k < |sel| => near[sel[k]])
  }

  // ---- dispatch ----

  /** Every selected microphone through its own processor, the first k of them. */
  function RunEach<A(!new), S(!new)>(e: Engines<A, S>, r: Rig<A, S>, near: seq<seq<real>>, ref: Reference, k: nat)
    : (res: (seq<Option<A>>, seq<seq<real>>))
    requires |r.apm| == |near| == MICS && Increasing(r.sel) && k <= |r.sel|
    ensures |res.0| == |res.1| == MICS
  {
    if k == 0 then (r.apm, near)
    else
      var (apm, done) := RunEach(e, r, near, ref, k - 1);
      var m := r.sel[k - 1];
      if apm[m].None? then (apm, done)
      else
        var (a, dst) := e.runApm(apm[m].value, [done[m]], ref);
        (apm[m := Some(a)], done[m := dst])
  }

  function Dispatch<A(!new), S(!new)>(e: Engines<A, S>, r: Rig<A, S>, near: seq<seq<real>>, ref: Reference)
    : (res: (Rig<A, S>, seq<seq<real>>))
    requires ValidRig(r) && |near| == MICS
    ensures |res.1| == MICS
  {
    if r.spx.Some? then
      var (s, dst) := e.runSpeex(r.spx.value, if r.mode == 0 then near[r.sel[0]] else Mix(near, r.sel), ref);
      (r.(spx := Some(s)), near[(if r.mode == 0 then r.sel[0] else 0) := dst])
    else if r.mode == 0 then
      var (apm, done) := RunEach(e, r, near, ref, |r.sel|);
      (r.(apm := apm), done)
    else
      var (a, dst) := e.runApm(r.apm[0].value, if r.mode == 1 then [Mix(near, r.sel)] else Selection(near, r.sel), ref);
      (r.(apm := r.apm[0 := Some(a)]), near[0 := dst])
  }

  /** One block: the session's processors one block further, and the new bytes. */
  function Block<A(!new), S(!new)>(e: Engines<A, S>, r: Rig<A, S>, bytes: seq<Byte>): (res: (Rig<A, S>, seq<Byte>))
    requires ValidRig(r) && |bytes| == BLOCK_BYTES
    ensures ValidRig(res.0) && (res.0.spx.Some? <==> r.spx.Some?) && |res.1| == BLOCK_BYTES
  {
    var (next, near) := Dispatch(e, r, Near(bytes), ReferenceOf(bytes, r.refClip));
    DispatchKeeps(e, r, Near(bytes), ReferenceOf(bytes, r.refClip));
    (next, Written(bytes, Fates(next, near), r.gain))
  }

  lemma {:induction false} RunEachKeeps<A(!new), S(!new)>(e: Engines<A, S>, r: Rig<A, S>, near: seq<seq<real>>,
                                                          ref: Reference, k: nat)
    requires |r.apm| == |near| == MICS && Increasing(r.sel) && k <= |r.sel|
    ensures var (apm, done) := RunEach(e, r, near, ref, k);
            forall m :: 0 <= m < MICS ==>
              && (apm[m].Some? <==> r.apm[m].Some?)
              && (m !in r.sel[..k] || r.apm[m].None? ==> done[m] == near[m] && apm[m] == r.apm[m])
              && (m in r.sel[..k] && r.apm[m].Some? ==>
                    (apm[m].value, done[m]) == e.runApm(r.apm[m].value, [near[m]], ref))
  {
    if k > 0 {
      RunEachKeeps(e, r, near, ref, k - 1);
      assert r.sel[..k] == r.sel[..k - 1] + [r.sel[k - 1]];
    }
  }

  /** A block changes the processors' states but not which ones there are, and a microphone
      that no processor replaced keeps its samples. */
  lemma DispatchKeeps<A(!new), S(!new)>(e: Engines<A, S>, r: Rig<A, S>, near: seq<seq<real>>, ref: Reference)
    requires ValidRig(r) && |near| == MICS
    ensures var (next, now) := Dispatch(e, r, near, ref);
            && ValidRig(next)
            && next.(apm := r.apm, spx := r.spx) == r
            && (forall m :: 0 <= m < MICS ==> (Processed(next, m) <==> Processed(r, m)))
            && forall m :: 0 <= m < MICS && !Processed(r, m) ==> now[m] == near[m]
  {
    RunEachKeeps(e, r, near, ref, |r.sel|);
    assert r.sel[..|r.sel|] == r.sel;
  }

  lemma FatesFit<A(!new), S(!new)>(e: Engines<A, S>, r: Rig<A, S>, near: seq<seq<real>>, ref: Reference, m: int)
    requires LengthKeeping(e) && ValidRig(r) && |near| == MICS && 0 <= m < MICS
    ensures Processed(r, m) ==> |Dispatch(e, r, near, ref).1[m]| == BLOCK
  {
    RunEachKeeps(e, r, near, ref, |r.sel|);
    assert r.sel[..|r.sel|] == r.sel;
  }

  /** With separate processors every selected microphone gets exactly its own processor's
      output for its own samples. */
  lemma EachToItsOwn<A(!new), S(!new)>(e: Engines<A, S>, r: Rig<A, S>, near: seq<seq<real>>, ref: Reference, m: int)
    requires ValidRig(r) && |near| == MICS && r.mode == 0 && r.spx.None? && m in r.sel
    ensures var (next, now) := Dispatch(e, r, near, ref);
            next.apm[m].Some? && (next.apm[m].value, now[m]) == e.runApm(r.apm[m].value, [near[m]], ref)
  {
    RunEachKeeps(e, r, near, ref, |r.sel|);
    assert r.sel[..|r.sel|] == r.sel;
  }

  /** In the block that goes back, the loopback channels and every microphone that is
      neither muted nor processed are what they were, byte for byte, and muted ones are
      silent. */
  lemma BlockChannels<A(!new), S(!new)>(e: Engines<A, S>, r: Rig<A, S>, bytes: seq<Byte>, f: int, c: int)
    requires ValidRig(r) && |bytes| == BLOCK_BYTES && 0 <= f < BLOCK && 0 <= c < CHANNELS
    ensures var p := f * FRAME_BYTES + c * 3;
            var now := TripleAt(Block(e, r, bytes).1, p);
            && (c >= MICS || (!Bit(r.mute, c) && !Processed(r, c)) ==> now == TripleAt(bytes, p))
            && (c < MICS && Bit(r.mute, c) ==> S24(now) == 0)
  {
    hide S24, Written, Dispatch, ValidRig, Near, ReferenceOf, Processed, Bit;
    var ref := ReferenceOf(bytes, r.refClip);
    Parts(r);
    var (next, near) := Dispatch(e, r, Near(bytes), ref);
    DispatchKeeps(e, r, Near(bytes), ref);
    Parts(next);
    WrittenChannels(bytes, Fates(next, near), r.gain, f, c);
  }

  lemma Parts<A, S>(r: Rig<A, S>)
    requires ValidRig(r)
    ensures |r.apm| == MICS && |r.sel| > 0
  {
  }

  // ---- the loops ----

  method ReadNear(frames: array<Byte>) returns (near: seq<seq<real>>)
    requires frames.Length == BLOCK_BYTES
    ensures near == Near(frames[..])
  {
    hide Channel;
    near := [];
    for m := 0 to MICS
      invariant |near| == m && forall k :: 0 <= k < m ==> near[k] == Channel(frames[..], k)
    {
      var samples := ReadChannel(frames, m);
      near := near + [samples[..]];
    }
  }

  method ReadReference(frames: array<Byte>, refClip: real) returns (ref: Reference)
    requires frames.Length == BLOCK_BYTES
    ensures ref == ReferenceOf(frames[..], refClip)
  {
    hide Channel, Clipped, SMul;
    var left := ReadChannel(frames, REF_FIRST);
    var right := ReadChannel(frames, REF_FIRST + 1);
    var mono := new real[BLOCK](_ => 0.0);
    ghost var l, r := left[..], right[..];
    for f := 0 to BLOCK
      invariant forall k :: 0 <= k < f ==>
                  && left[k] == Clipped(refClip, l[k]) && right[k] == Clipped(refClip, r[k])
                  && mono[k] == SMul(left[k] + right[k], 0.5)
      invariant forall k :: f <= k < BLOCK ==> left[k] == l[k] && right[k] == r[k]
      modifies left, right, mono
    {
      left[f] := Clipped(refClip, left[f]);
      right[f] := Clipped(refClip, right[f]);
      mono[f] := SMul(left[f] + right[f], 0.5);
    }
    assert left[..] == ClippedAll(refClip, l) && right[..] == ClippedAll(refClip, r);
    assert mono[..] == MeanOf(left[..], right[..]);
    ref := Reference(left[..], right[..], mono[..]);
  }

  method MixSelected(near: seq<seq<real>>, sel: seq<int>) returns (mix: array<real>)
    requires Increasing(sel) && |near| == MICS && |sel| > 0
    requires forall m :: 0 <= m < MICS ==> |near[m]| == BLOCK
    ensures fresh(mix) && mix[..] == Mix(near, sel)
  {
    hide SMul;
    var scale := 1.0 / |sel| as real;
    mix := new real[BLOCK](_ => 0.0);
    for f := 0 to BLOCK
      invariant forall i :: 0 <= i < f ==> mix[i] == SMul(SumSelected(near, sel, i, |sel|), scale)
    {
      var a := 0.0;
      for k := 0 to |sel|
        invariant a == SumSelected(near, sel, f, k)
      {
        a := a + near[sel[k]][f];
      }
      mix[f] := SMul(a, scale);
    }
  }
}
