/** The interposed pcm_open, pcm_read and pcm_close of amznaec_shim.cpp: a session's state
    machine, and the re-blocking of a stream that is read in pieces of any size. */
module CaptureShim {
  import opened Options
  import opened FrameBytes
  import opened BlockProcessor
  import opened BlockMeaning

  // ---- recognising and configuring a stream ----

  datatype Format = S24_3LE | OtherFormat

  datatype Config = Config(channels: nat, rate: nat, format: Format)

  /** The microphone stream is recognised by its shape. */
  predicate IsMicPcm(device: nat, capture: bool, config: Option<Config>) {
    && capture && config.Some?
    && config.value.channels == CHANNELS && config.value.rate == 16000 && config.value.format == S24_3LE
    && device < 64
  }

  /** The properties that shape a session; mics and mute have been masked to four bits. */
  datatype Settings = Settings(enable: bool, mics: int, mute: int, array_: int, engine: int, preprocess: bool,
                               gain: real, refClip: real)

  function SelectedBelow(mics: int, m: nat): (sel: seq<int>)
    requires m <= MICS
    ensures Increasing(sel) && |sel| <= m
    ensures forall i :: i in sel <==> 0 <= i < m && Bit(mics, i)
    ensures forall k :: 0 <= k < |sel| ==> sel[k] < m
  {
    if m == 0 then []
    else if Bit(mics, m - 1) then SelectedBelow(mics, m - 1) + [m - 1]
    else SelectedBelow(mics, m - 1)
  }

  /** The selected microphones; the first one when there are none. */
  function Selected(mics: int): (sel: seq<int>)
    ensures Increasing(sel) && 1 <= |sel| <= MICS
    ensures if exists i :: 0 <= i < MICS && Bit(mics, i) then forall i :: i in sel <==> 0 <= i < MICS && Bit(mics, i)
            else sel == [0]
  {
    var below := SelectedBelow(mics, MICS);
    if below == [] then [0]
    else
      assert below[0] in below;
      below
  }

  function ModeOf(array_: int, nsel: int): (mode: int)
    ensures 0 <= mode <= 2 && (mode != 0 ==> nsel >= 2)
    ensures mode == array_ <==> array_ == 0 || (nsel >= 2 && 1 <= array_ <= 2)
    ensures mode != array_ ==> mode == 0
  {
    if array_ < 0 || array_ > 2 || (array_ != 0 && nsel < 2) then 0 else array_
  }

  /** What the constructors of the processors return when asked. */
  datatype Factory<!A, !S> = Factory(makeApm: (int, int, bool) -> Option<A>, makeSpeex: Option<S>, makePreprocess: bool)

  /** Whether every processor that the session asks for can be made. */
  predicate Creatable<A(!new), S(!new)>(s: Settings, f: Factory<A, S>) {
    var sel := Selected(s.mics);
    var mode := ModeOf(s.array_, |sel|);
    if s.engine == 1 && mode != 2 then f.makeSpeex.Some? && (s.preprocess ==> f.makePreprocess)
    else if mode == 0 then forall m :: m in sel ==> f.makeApm(m, 1, false).Some?
    else f.makeApm(0, if mode == 2 then |sel| else 1, mode == 2).Some?
  }

  /** When every constructor succeeds, every session that is enabled goes live; and none does
      without the processors that its engine and mode call for. */
  lemma CreatableWhen<A(!new), S(!new)>(s: Settings, f: Factory<A, S>)
    ensures (forall m, channels, beam :: f.makeApm(m, channels, beam).Some?) && f.makeSpeex.Some? && f.makePreprocess
            ==> Creatable(s, f)
    ensures Creatable(s, f) && s.engine == 1 && s.array_ != 2 ==> f.makeSpeex.Some? && (s.preprocess ==> f.makePreprocess)
    ensures Creatable(s, f) && s.engine != 1 && s.array_ == 0 ==> forall m :: m in Selected(s.mics) ==> f.makeApm(m, 1, false).Some?
    ensures Creatable(s, f) && s.engine != 1 && s.array_ == 1 && |Selected(s.mics)| >= 2 ==> f.makeApm(0, 1, false).Some?
    ensures Creatable(s, f) && s.array_ == 2 && |Selected(s.mics)| >= 2 ==> f.makeApm(0, |Selected(s.mics)|, true).Some?
  {
    hide Selected;
  }

  /** Exactly the six-channel 24-bit capture stream at 16 kHz is taken for the microphones. */
  lemma MicPcmShape(device: nat, capture: bool, config: Option<Config>)
    ensures IsMicPcm(device, capture, config) <==> capture && device < 64 && config == Some(Config(6, 16000, S24_3LE))
  {
  }

  // ---- the stream ----

  function Silence(): (s: seq<Byte>)
    ensures |s| == BLOCK_BYTES && forall i :: 0 <= i < |s| ==> s[i] == 0
  {
    seq(BLOCK_BYTES, _ => 0)
  }

  /** Block n of a stream. */
  function BlockAt(bytes: seq<Byte>, n: nat): (b: seq<Byte>)
    requires (n + 1) * BLOCK_BYTES <= |bytes|
    ensures |b| == BLOCK_BYTES
  {
    bytes[n * BLOCK_BYTES..(n + 1) * BLOCK_BYTES]
  }

  /** The processors after n blocks, and those blocks processed one after the other. */
  function Blockwise<A(!new), S(!new)>(e: Engines<A, S>, r: Rig<A, S>, bytes: seq<Byte>, n: nat)
    : (res: (Rig<A, S>, seq<Byte>))
    requires ValidRig(r) && n * BLOCK_BYTES <= |bytes|
    ensures ValidRig(res.0) && (res.0.spx.Some? <==> r.spx.Some?) && |res.1| == n * BLOCK_BYTES
  {
    if n == 0 then (r, [])
    else
      var (before, out) := Blockwise(e, r, bytes, n - 1);
      var (next, o) := Block(e, before, BlockAt(bytes, n - 1));
      (next, out + o)
  }

  /** The stream that the caller is promised for a given input: one block of silence, then
      the complete blocks of the input, processed. */
  function Promised<A(!new), S(!new)>(e: Engines<A, S>, r: Rig<A, S>, bytes: seq<Byte>): (out: seq<Byte>)
    requires ValidRig(r)
    ensures |out| > |bytes|
  {
    Silence() + Blockwise(e, r, bytes, |bytes| / BLOCK_BYTES).1
  }

  /** More input does not change what was processed before. */
  lemma {:induction false} BlockwiseExtends<A(!new), S(!new)>(e: Engines<A, S>, r: Rig<A, S>, bytes: seq<Byte>,
                                                              more: seq<Byte>, n: nat)
    requires ValidRig(r) && n * BLOCK_BYTES <= |bytes|
    ensures Blockwise(e, r, bytes + more, n) == Blockwise(e, r, bytes, n)
  {
    hide Block, ValidRig;
    if n > 0 {
      BlockwiseExtends(e, r, bytes, more, n - 1);
      assert BlockAt(bytes + more, n - 1) == BlockAt(bytes, n - 1);
    }
  }

  /** A byte of the promised stream never changes as input arrives: the promise for less
      input is a prefix of the promise for more. */
  lemma PromisedPrefix<A(!new), S(!new)>(e: Engines<A, S>, r: Rig<A, S>, bytes: seq<Byte>, more: seq<Byte>)
    requires ValidRig(r)
    ensures Promised(e, r, bytes) <= Promised(e, r, bytes + more)
  {
    hide Block, ValidRig;
    var n, m := |bytes| / BLOCK_BYTES, |bytes + more| / BLOCK_BYTES;
    BlockwiseExtends(e, r, bytes, more, n);
    BlockwiseGrows(e, r, bytes + more, n, m);
  }

  /** The promised stream, block by block: silence first, then the blocks of the input, each
      carried by the processors as the blocks before left them. */
  lemma PromisedBlock<A(!new), S(!new)>(e: Engines<A, S>, r: Rig<A, S>, bytes: seq<Byte>, t: nat)
    requires ValidRig(r) && (t + 1) * BLOCK_BYTES <= |bytes|
    ensures forall i :: 0 <= i < BLOCK_BYTES ==> Promised(e, r, bytes)[i] == 0
    ensures Blockwise(e, r, bytes, 0).0 == r
    ensures Carried(e, Blockwise(e, r, bytes, t).0, Blockwise(e, r, bytes, t + 1).0, BlockAt(bytes, t),
                    BlockAt(Promised(e, r, bytes), t + 1))
  {
    hide Block, ValidRig, Carried;
    var n := |bytes| / BLOCK_BYTES;
    var before := Blockwise(e, r, bytes, t);
    var o := Block(e, before.0, BlockAt(bytes, t));
    BlockCarried(e, before.0, BlockAt(bytes, t));
    BlockwiseGrows(e, r, bytes, t + 1, n);
    var all := Blockwise(e, r, bytes, n).1;
    assert all[..(t + 1) * BLOCK_BYTES] == before.1 + o.1;
    assert BlockAt(Promised(e, r, bytes), t + 1) == all[t * BLOCK_BYTES..(t + 1) * BLOCK_BYTES] == o.1;
  }

  lemma {:induction false} BlockwiseGrows<A(!new), S(!new)>(e: Engines<A, S>, r: Rig<A, S>, bytes: seq<Byte>, n: nat, m: nat)
    requires ValidRig(r) && n <= m && m * BLOCK_BYTES <= |bytes|
    ensures Blockwise(e, r, bytes, n).1 <= Blockwise(e, r, bytes, m).1
  {
    hide Block, ValidRig;
    if n < m {
      BlockwiseGrows(e, r, bytes, n, m - 1);
    }
  }

  // ---- the session ----

  class Session<A(!new), S(!new)> {
    const engines: Engines<A, S>
    var pcm: Option<int>
    var mode: int
    var nsel: int
    var sel: seq<int>
    var mute: int
    var gain: real
    var refClip: real
    var apm: seq<Option<A>>
    var spx: Option<S>
    var spxPp: bool
    var inq: seq<Byte>
    var out: seq<Byte>
    /** The session as it was opened, and what has been read and returned since. */
    ghost var atOpen: Rig<A, S>
    ghost var fed: seq<Byte>
    ghost var returned: seq<Byte>

    ghost function RigNow(): Rig<A, S>
      reads this
      requires 0 <= nsel <= |sel|
    {
      Rig(mode, sel[..nsel], mute, gain, refClip, apm, spx)
    }

    /** No processors, nothing queued. */
    ghost predicate Torn()
      reads this
    {
      && |apm| == MICS && (forall m :: 0 <= m < MICS ==> apm[m].None?)
      && spx.None? && !spxPp && inq == [] && out == []
    }

    /** The queues and the processors are where the input so far puts them. */
    ghost predicate Streaming()
      reads this
      requires 0 <= nsel <= |sel|
    {
      var n := |fed| / BLOCK_BYTES;
      && ValidRig(atOpen) && |returned| == |fed|
      && inq == fed[n * BLOCK_BYTES..]
      && RigNow() == Blockwise(engines, atOpen, fed, n).0
      && returned + out == Promised(engines, atOpen, fed)
    }

    /** The processors are those that the factory made for these settings. */
    ghost predicate MadeBy(s: Settings, f: Factory<A, S>)
      reads this`spx, this`spxPp, this`apm, this`mode, this`nsel
      requires |apm| == MICS
    {
      && spx == (if s.engine == 1 && mode != 2 then f.makeSpeex else None)
      && (spxPp <==> spx.Some? && s.preprocess)
      && forall m :: 0 <= m < MICS && apm[m].Some? ==> apm[m] == f.makeApm(m, if mode == 2 then nsel else 1, mode == 2)
    }

    ghost predicate Valid()
      reads this
    {
      && |sel| == MICS && 0 <= nsel <= MICS
      && LengthKeeping(engines)
      && if pcm.None? then Torn() else Streaming() && (spxPp ==> spx.Some?)
    }

    /** With a handle the session has exactly the processors that its mode and selection
        need, and the two queues together always hold one block; without one there is
        nothing. */
    lemma LiveInvariant()
      requires Valid()
      ensures pcm.Some? ==> ValidRig(RigNow()) && |inq| + |out| == BLOCK_BYTES
      ensures pcm.Some? ==> returned == Promised(engines, atOpen, fed)[..|fed|]
      ensures pcm.None? ==> Torn()
    {
      hide Blockwise, ValidRig;
      if pcm.Some? {
        assert returned == (returned + out)[..|returned|];
      }
    }

    constructor (engines: Engines<A, S>)
      requires LengthKeeping(engines)
      ensures Valid() && pcm.None? && this.engines == engines
    {
      this.engines := engines;
      pcm := None;
      mode, nsel, sel, mute, gain, refClip := 0, 0, [0, 0, 0, 0], 0, 1.0, 0.0;
      apm := [None, None, None, None];
      spx := None;
      spxPp := false;
      inq, out := [], [];
    }

    method TearDown()
      requires |apm| == MICS
      modifies this`pcm, this`apm, this`spx, this`spxPp, this`inq, this`out
      ensures pcm.None? && Torn()
    {
      for i := 0 to MICS
        invariant |apm| == MICS && forall k :: 0 <= k < i ==> apm[k].None?
      {
        apm := apm[i := None];
      }
      pcm := None;
      spxPp := false;
      spx := None;
      inq, out := [], [];
    }

    method SelectMics(mics: int)
      requires |sel| == MICS
      modifies this`nsel, this`sel
      ensures |sel| == MICS && 1 <= nsel <= MICS && sel[..nsel] == Selected(mics)
    {
      hide Bit, Increasing;
      nsel := 0;
      for i := 0 to MICS
        invariant |sel| == MICS && 0 <= nsel <= i && sel[..nsel] == SelectedBelow(mics, i)
      {
        if Bit(mics, i) {
          sel := sel[nsel := i];
          nsel := nsel + 1;
        }
      }
      if nsel == 0 {
        sel := sel[0 := 0];
        nsel := 1;
      }
    }

    method MakeSpeex(preprocess: bool, f: Factory<A, S>) returns (ok: bool)
      requires Torn()
      modifies this`spx, this`spxPp
      ensures ok == (f.makeSpeex.Some? && (preprocess ==> f.makePreprocess))
      ensures ok ==> spx == f.makeSpeex && spxPp == preprocess
    {
      spx := f.makeSpeex;
      if spx.None? {
        return false;
      }
      if preprocess {
        spxPp := f.makePreprocess;
        if !spxPp {
          return false;
        }
      }
      return true;
    }

    /** One processor for every selected microphone, until one cannot be made. */
    method MakeEach(f: Factory<A, S>) returns (ok: bool)
      requires Torn() && 0 <= nsel <= |sel| && Increasing(sel[..nsel])
      modifies this`apm
      ensures |apm| == MICS
      ensures ok <==> forall m :: m in sel[..nsel] ==> f.makeApm(m, 1, false).Some?
      ensures ok ==> forall m :: 0 <= m < MICS ==> apm[m] == if m in sel[..nsel] then f.makeApm(m, 1, false) else None
    {
      ok := true;
      var k := 0;
      while k < nsel && ok
        invariant 0 <= k <= nsel && |apm| == MICS
        invariant ok ==> forall m :: m in sel[..k] ==> f.makeApm(m, 1, false).Some?
        invariant ok ==> forall m :: 0 <= m < MICS ==> apm[m] == if m in sel[..k] then f.makeApm(m, 1, false) else None
        invariant !ok ==> exists m :: m in sel[..nsel] && f.makeApm(m, 1, false).None?
      {
        var m := sel[..nsel][k];
        assert sel[..k + 1] == sel[..k] + [m];
        apm := apm[m := f.makeApm(m, 1, false)];
        ok := apm[m].Some?;
        assert m in sel[..nsel];
        k := k + 1;
      }
    }

    /** The processors of a session, as its mode asks for them. */
    method MakeProcessors(s: Settings, f: Factory<A, S>) returns (ok: bool)
      requires Torn() && |sel| == MICS && 1 <= nsel <= MICS && sel[..nsel] == Selected(s.mics)
      requires mode == ModeOf(s.array_, nsel)
      modifies this`apm, this`spx, this`spxPp
      ensures |apm| == MICS && (ok <==> Creatable(s, f))
      ensures ok ==> ValidRig(RigNow()) && (spxPp ==> spx.Some?)
      ensures ok ==> MadeBy(s, f)
    {
      if s.engine == 1 && mode != 2 {
        ok := MakeSpeex(s.preprocess, f);
      } else if mode == 0 {
        ok := MakeEach(f);
      } else {
        apm := apm[0 := f.makeApm(0, if mode == 2 then nsel else 1, mode == 2)];
        ok := apm[0].Some?;
      }
    }

    /** handle is what the library's own pcm_open returned, and what is passed on. */
    method PcmOpen(device: nat, capture: bool, config: Option<Config>, handle: Option<int>, s: Settings, f: Factory<A, S>)
      returns (result: Option<int>)
      requires Valid()
      modifies this
      ensures Valid() && result == handle
      ensures handle.None? || !IsMicPcm(device, capture, config) ==> unchanged(this)
      ensures handle.Some? && IsMicPcm(device, capture, config) ==>
                && (pcm == if s.enable && Creatable(s, f) then handle else None)
                && (pcm.Some? ==>
                      && fed == [] && returned == [] && inq == [] && out == Silence()
                      && sel[..nsel] == Selected(s.mics) && mode == ModeOf(s.array_, nsel)
                      && mute == s.mute && gain == s.gain && refClip == s.refClip
                      && |apm| == MICS && MadeBy(s, f))
    {
      hide ValidRig, IsMicPcm, Creatable, Selected, ModeOf, Streaming, LengthKeeping, MadeBy;
      result := handle;
      if handle.None? || !IsMicPcm(device, capture, config) {
        return;
      }
      ApmLength();
      TearDown();
      OpenMic(handle, s, f);
    }

    /** A new session on a torn-down state. */
    method OpenMic(handle: Option<int>, s: Settings, f: Factory<A, S>)
      requires handle.Some? && pcm.None? && Torn() && LengthKeeping(engines) && |sel| == MICS && 0 <= nsel <= MICS
      modifies this
      ensures Valid() && pcm == if s.enable && Creatable(s, f) then handle else None
      ensures pcm.Some? ==>
                && fed == [] && returned == [] && inq == [] && out == Silence()
                && sel[..nsel] == Selected(s.mics) && mode == ModeOf(s.array_, nsel)
                && mute == s.mute && gain == s.gain && refClip == s.refClip
                && |apm| == MICS && MadeBy(s, f)
    {
      hide ValidRig, Creatable, Selected, ModeOf, Streaming, LengthKeeping, MadeBy;
      if !s.enable {
        return;
      }
      mute, gain, refClip := s.mute, s.gain, s.refClip;
      SelectMics(s.mics);
      mode := ModeOf(s.array_, nsel);
      var ok := MakeProcessors(s, f);
      if !ok {
        TearDown();
      } else {
        Start(handle);
      }
    }

    /** One block of priming silence, and the stream begins. */
    method Start(handle: Option<int>)
      requires LengthKeeping(engines) && handle.Some?
      requires |sel| == MICS && 0 <= nsel <= MICS && ValidRig(RigNow()) && (spxPp ==> spx.Some?)
      modifies this`pcm, this`inq, this`out, this`atOpen, this`fed, this`returned
      ensures Valid() && pcm == handle && fed == [] && returned == [] && inq == [] && out == Silence()
    {
      hide ValidRig, Blockwise, Promised, LengthKeeping;
      pcm := handle;
      inq := [];
      out := Silence();
      atOpen := RigNow();
      fed, returned := [], [];
      NothingYet(engines, atOpen);
    }

    lemma ApmLength()
      requires Valid()
      ensures |apm| == MICS
    {
      hide Blockwise;
    }

    /** process_block_l on one block of the input queue. */
    method ProcessBlock(frames: array<Byte>)
      requires 0 <= nsel <= |sel| && ValidRig(RigNow()) && LengthKeeping(engines) && frames.Length == BLOCK_BYTES
      modifies this`apm, this`spx, frames
      ensures (RigNow(), frames[..]) == Block(engines, old(RigNow()), old(frames[..]))
      ensures Carried(engines, old(RigNow()), RigNow(), old(frames[..]), frames[..])
    {
      hide Written, Channel, Bit, Mix, Carried;
      ghost var r := RigNow();
      ghost var bytes := frames[..];
      var near := ReadNear(frames);
      var ref := ReadReference(frames, refClip);
      near := RunProcessors(near, ref);
      DispatchKeeps(engines, r, Near(bytes), ref);
      var fates := DecideFates(near);
      FatesReplaced(engines, r, Near(bytes), ref, fates);
      WriteBack(frames, fates, gain);
      BlockCarried(engines, r, bytes);
    }

    /** The processor that the mode calls for. It exists in every reachable state. */
    method RunProcessors(near0: seq<seq<real>>, ref: Reference) returns (near: seq<seq<real>>)
      requires 0 <= nsel <= |sel| && ValidRig(RigNow()) && |near0| == MICS
      requires forall m :: 0 <= m < MICS ==> |near0[m]| == BLOCK
      modifies this`apm, this`spx
      ensures (RigNow(), near) == Dispatch(engines, old(RigNow()), near0, ref)
    {
      hide Mix;
      var chosen := sel[..nsel];
      near := near0;
      if spx.Some? && mode == 0 {
        var (state, dst) := engines.runSpeex(spx.value, near[chosen[0]], ref);
        spx := Some(state);
        near := near[chosen[0] := dst];
      } else if spx.Some? && mode == 1 {
        var mix := MixSelected(near, chosen);
        var (state, dst) := engines.runSpeex(spx.value, mix[..], ref);
        spx := Some(state);
        near := near[0 := dst];
      } else if mode == 0 {
        near := RunSelected(near, ref);
      } else if mode == 1 {
        var mix := MixSelected(near, chosen);
        var (state, dst) := engines.runApm(apm[0].value, [mix[..]], ref);
        apm := apm[0 := Some(state)];
        near := near[0 := dst];
      } else {
        var (state, dst) := engines.runApm(apm[0].value, Selection(near, chosen), ref);
        apm := apm[0 := Some(state)];
        near := near[0 := dst];
      }
    }

    method RunSelected(near0: seq<seq<real>>, ref: Reference) returns (near: seq<seq<real>>)
      requires 0 <= nsel <= |sel| && |apm| == MICS && Increasing(sel[..nsel]) && |near0| == MICS
      modifies this`apm
      ensures (apm, near) == RunEach(engines, old(RigNow()), near0, ref, nsel)
    {
      ghost var r := RigNow();
      near := near0;
      for k := 0 to nsel
        invariant (apm, near) == RunEach(engines, r, near0, ref, k)
      {
        var m := sel[..nsel][k];
        if apm[m].Some? {
          var (state, dst) := engines.runApm(apm[m].value, [near[m]], ref);
          apm := apm[m := Some(state)];
          near := near[m := dst];
        }
      }
    }

    method DecideFates(near: seq<seq<real>>) returns (fates: seq<Fate>)
      requires 0 <= nsel <= |sel| && ValidRig(RigNow()) && |near| == MICS
      ensures fates == Fates(RigNow(), near)
    {
      hide Bit;
      fates := [];
      for m := 0 to MICS
        invariant |fates| == m && forall k :: 0 <= k < m ==> fates[k] == Fates(RigNow(), near)[k]
      {
        var processed := if mode == 0 then apm[m].Some? || (spx.Some? && m == sel[..nsel][0]) else m == 0;
        fates := fates + [if Bit(mute, m) then Muted else if processed then Replaced(near[m]) else Kept];
      }
    }

    /** One block of the input queue, moved to the output queue. */
    method MoveBlock(off: nat, ghost bytes: seq<Byte>, ghost n: nat)
      requires 0 <= nsel <= |sel| && LengthKeeping(engines) && off + BLOCK_BYTES <= |inq|
      requires ValidRig(atOpen) && (n + 1) * BLOCK_BYTES <= |bytes| && inq[off..] == bytes[n * BLOCK_BYTES..]
      requires RigNow() == Blockwise(engines, atOpen, bytes, n).0
      requires returned + out == Silence() + Blockwise(engines, atOpen, bytes, n).1
      modifies this`apm, this`spx, this`inq, this`out
      ensures RigNow() == Blockwise(engines, atOpen, bytes, n + 1).0
      ensures returned + out == Silence() + Blockwise(engines, atOpen, bytes, n + 1).1
      ensures |inq| == |old(inq)| && |out| == |old(out)| + BLOCK_BYTES
      ensures inq[off + BLOCK_BYTES..] == bytes[(n + 1) * BLOCK_BYTES..]
    {
      hide Block, ValidRig, Blockwise;
      ghost var q := inq;
      BlockSlice(q, off, bytes, n);
      BlockwiseNext(engines, atOpen, bytes, n);
      var block := inq[off..off + BLOCK_BYTES];
      var frames := new Byte[BLOCK_BYTES](i requires 0 <= i < BLOCK_BYTES => block[i]);
      assert frames[..] == block;
      ghost var before := returned + out;
      ProcessBlock(frames);
      inq := inq[..off] + frames[..] + inq[off + BLOCK_BYTES..];
      out := out + inq[off..off + BLOCK_BYTES];
      assert inq[off..off + BLOCK_BYTES] == frames[..];
      assert inq[off + BLOCK_BYTES..] == q[off + BLOCK_BYTES..];
      assert returned + out == before + frames[..];
    }

    /** rc and data are what the library's own pcm_read returned. A read that failed, that is
        for another stream or that is not whole frames is passed on untouched; any other
        returns the next bytes of the promised stream. */
    method PcmRead(handle: int, data: array<Byte>, rc: int) returns (result: int, underrun: bool)
      requires Valid()
      modifies this`apm, this`spx, this`inq, this`out, this`fed, this`returned, data
      ensures Valid() && result == rc && !underrun
      ensures rc != 0 || pcm != Some(handle) || data.Length % FRAME_BYTES != 0 ==>
                unchanged(this) && data[..] == old(data[..])
      ensures rc == 0 && pcm == Some(handle) && data.Length % FRAME_BYTES == 0 ==>
                && fed == old(fed) + old(data[..]) && returned == old(returned) + data[..]
                && returned == Promised(engines, atOpen, fed)[..|fed|]
    {
      result, underrun := rc, false;
      if rc != 0 || pcm != Some(handle) || data.Length == 0 || data.Length % FRAME_BYTES != 0 {
        DataUnchanged(data);
        return;
      }
      underrun := Reblock(data);
    }

    /** An empty read changes nothing in a live session either. */
    lemma DataUnchanged(data: array<Byte>)
      requires Valid()
      ensures fed == fed + [] && returned == returned + []
      ensures pcm.Some? ==> returned == Promised(engines, atOpen, fed)[..|fed|]
    {
      LiveInvariant();
    }

    /** The new input joins the queue, and its complete blocks move to the output. */
    method Absorb(data: array<Byte>)
      requires Valid() && pcm.Some?
      modifies this`apm, this`spx, this`inq, this`out, this`fed
      ensures fed == old(fed) + data[..] && ValidRig(atOpen)
      ensures inq == fed[|fed| / BLOCK_BYTES * BLOCK_BYTES..]
      ensures RigNow() == Blockwise(engines, atOpen, fed, |fed| / BLOCK_BYTES).0
      ensures returned + out == Promised(engines, atOpen, fed)
    {
      hide Block, ValidRig, Blockwise;
      ghost var bytes := fed + data[..];
      ghost var n := |fed| / BLOCK_BYTES;
      BlockwiseExtends(engines, atOpen, fed, data[..], n);
      inq := inq + data[..];
      assert inq == bytes[n * BLOCK_BYTES..];
      var off := 0;
      ghost var k := n;
      while |inq| - off >= BLOCK_BYTES
        invariant 0 <= off <= |inq| && n <= k && k * BLOCK_BYTES <= |bytes|
        invariant inq[off..] == bytes[k * BLOCK_BYTES..]
        invariant RigNow() == Blockwise(engines, atOpen, bytes, k).0
        invariant returned + out == Silence() + Blockwise(engines, atOpen, bytes, k).1
        modifies this`apm, this`spx, this`inq, this`out
      {
        MoveBlock(off, bytes, k);
        off := off + BLOCK_BYTES;
        k := k + 1;
      }
      inq := inq[off..];
      fed := bytes;
      assert k == |bytes| / BLOCK_BYTES;
    }

    method Reblock(data: array<Byte>) returns (underrun: bool)
      requires Valid() && pcm.Some?
      modifies this`apm, this`spx, this`inq, this`out, this`fed, this`returned, data
      ensures Valid() && !underrun
      ensures fed == old(fed) + old(data[..]) && returned == old(returned) + data[..]
      ensures returned == Promised(engines, atOpen, fed)[..|fed|]
    {
      hide Block, ValidRig, Blockwise, Promised;
      Absorb(data);
      underrun := |out| < data.Length;
      if !underrun {
        TakeOut(data);
      }
    }

    method TakeOut(data: array<Byte>)
      requires data.Length <= |out|
      modifies this`out, this`returned, data
      ensures data[..] == old(out)[..data.Length] && out == old(out)[data.Length..]
      ensures returned == old(returned) + data[..] && returned + out == old(returned) + old(out)
    {
      for i := 0 to data.Length
        invariant forall k :: 0 <= k < i ==> data[k] == out[k]
        modifies data
      {
        data[i] := out[i];
      }
      assert data[..] == out[..data.Length];
      out := out[data.Length..];
      returned := returned + data[..];
    }

    /** The handle goes to the library's own pcm_close in any case. */
    method PcmClose(handle: int)
      requires Valid()
      modifies this
      ensures Valid()
      ensures pcm == if old(pcm) == Some(handle) then None else old(pcm)
      ensures old(pcm) != Some(handle) ==> unchanged(this)
    {
      if pcm == Some(handle) {
        ApmLength();
        TearDown();
      }
    }
  }

  lemma NothingYet<A(!new), S(!new)>(e: Engines<A, S>, r: Rig<A, S>)
    requires ValidRig(r)
    ensures Blockwise(e, r, [], 0) == (r, []) && Promised(e, r, []) == Silence()
  {
  }

  lemma BlockwiseNext<A(!new), S(!new)>(e: Engines<A, S>, r: Rig<A, S>, bytes: seq<Byte>, n: nat)
    requires ValidRig(r) && (n + 1) * BLOCK_BYTES <= |bytes|
    ensures var (before, out) := Blockwise(e, r, bytes, n);
            var (next, o) := Block(e, before, BlockAt(bytes, n));
            Blockwise(e, r, bytes, n + 1) == (next, out + o)
  {
    hide Block, ValidRig;
  }

  lemma BlockSlice(q: seq<Byte>, off: nat, bytes: seq<Byte>, n: nat)
    requires off + BLOCK_BYTES <= |q| && (n + 1) * BLOCK_BYTES <= |bytes| && q[off..] == bytes[n * BLOCK_BYTES..]
    ensures q[off..off + BLOCK_BYTES] == BlockAt(bytes, n)
    ensures q[off + BLOCK_BYTES..] == bytes[(n + 1) * BLOCK_BYTES..]
  {
    assert q[off..][..BLOCK_BYTES] == q[off..off + BLOCK_BYTES];
    assert q[off..][BLOCK_BYTES..] == q[off + BLOCK_BYTES..];
  }

  lemma FatesReplaced<A(!new), S(!new)>(e: Engines<A, S>, r: Rig<A, S>, near: seq<seq<real>>, ref: Reference, fates: seq<Fate>)
    requires LengthKeeping(e) && ValidRig(r) && |near| == MICS
    requires fates == Fates(Dispatch(e, r, near, ref).0, Dispatch(e, r, near, ref).1)
    ensures forall c :: 0 <= c < MICS && fates[c].Replaced? ==> |fates[c].samples| == BLOCK
  {
    hide Bit, Dispatch;
    DispatchKeeps(e, r, near, ref);
    forall c | 0 <= c < MICS && fates[c].Replaced?
      ensures |fates[c].samples| == BLOCK
    {
      FatesFit(e, r, near, ref, c);
    }
  }
}
