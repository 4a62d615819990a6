/** The interleaved 24-bit frames of amznaec_shim.cpp: reading and writing a sample, and
    what the end of process_block_l writes back. */
module FrameBytes {
  import opened Complex
  import opened HalfComplex

  type Byte = b: int | 0 <= b < 256

  const CHANNELS := 6
  const MICS := 4
  const REF_FIRST := 4
  const BLOCK := 160
  const FRAME_BYTES := 18
  const BLOCK_BYTES := 2880

  /** Three bytes, the lowest first. */
  datatype Triple = Triple(b0: Byte, b1: Byte, b2: Byte)

  function ByteOf(t: Triple, i: int): Byte {
    if i == 0 then t.b0 else if i == 1 then t.b1 else t.b2
  }

  function S24(p: Triple): (v: int)
    ensures -0x80_0000 <= v <= 0x7f_ffff
  {
    var v := p.b0 + p.b1 * 0x100 + p.b2 * 0x1_0000;
    if v >= 0x80_0000 then v - 0x100_0000 else v
  }

  function Clamp24(v: int): int {
    if v > 0x7f_ffff then 0x7f_ffff else if v < -0x80_0000 then -0x80_0000 else v
  }

  function Put24(v: int): Triple {
    var c := Clamp24(v);
    Triple(c % 0x100, c / 0x100 % 0x100, c / 0x1_0000 % 0x100)
  }

  lemma PutOfGet(p: Triple)
    ensures Put24(S24(p)) == p
  {
    var v := S24(p);
    var r := if p.b2 >= 0x80 then p.b2 - 0x100 else p.b2;
    var q := r * 0x100 + p.b1;
    assert v == q * 0x100 + p.b0;
    assert v / 0x100 == q && v % 0x100 == p.b0;
    assert q / 0x100 == r && q % 0x100 == p.b1;
    assert v / 0x1_0000 == r by {
      assert v == r * 0x1_0000 + (p.b1 * 0x100 + p.b0);
    }
  }

  /** Writing clamps and nothing else. */
  lemma GetOfPut(v: int)
    ensures S24(Put24(v)) == Clamp24(v)
  {
    var c := Clamp24(v);
    var q := c / 0x100;
    assert c == 0x100 * q + c % 0x100;
    assert c / 0x1_0000 == q / 0x100;
    assert q == 0x100 * (q / 0x100) + q % 0x100;
    assert -0x80 <= q / 0x100 <= 0x7f;
  }

  function S24F(p: Triple): real {
    S24(p) as real / 8388608.0
  }

  /** The conversion to int drops the fraction towards zero. */
  function Truncated(v: real): int {
    if v >= 0.0 then v.Floor else -(-v).Floor
  }

  function PutF(v: real): Triple {
    var c := if v > 0.9999999 then 0.9999999 else if v < -1.0 then -1.0 else v;
    Put24(Truncated(c * 8388608.0))
  }

  /** At unit gain a sample passes through exactly. */
  lemma PutFOfGet(p: Triple)
    ensures PutF(S24F(p)) == p
  {
    var v := S24(p);
    var r := S24F(p);
    assert r * 8388608.0 == v as real;
    assert -1.0 <= r <= 0.9999999;
    assert Truncated(v as real) == v;
    PutOfGet(p);
  }

  /** What putf writes is within one unit of the sample, below full scale. */
  lemma GetOfPutF(v: real)
    ensures -1.0 <= v <= 0.9999999 ==> -1.0 < S24(PutF(v)) as real - v * 8388608.0 < 1.0
    ensures v < -1.0 ==> S24(PutF(v)) == -0x80_0000
    ensures v > 0.9999999 ==> S24(PutF(v)) == 0x7f_ffff
  {
    var c := if v > 0.9999999 then 0.9999999 else if v < -1.0 then -1.0 else v;
    var t := c * 8388608.0;
    TruncatedNear(t);
    GetOfPut(Truncated(t));
  }

  lemma TruncatedNear(t: real)
    requires -8388608.0 <= t <= 8388607.5
    ensures -1.0 < Truncated(t) as real - t < 1.0
    ensures -0x80_0000 <= Truncated(t) <= 0x7f_ffff
  {
  }

  /** The sample of channel c in frame f. */
  function TripleAt(bytes: seq<Byte>, p: int): Triple
    requires 0 <= p && p + 3 <= |bytes|
  {
    Triple(bytes[p], bytes[p + 1], bytes[p + 2])
  }

  function Channel(bytes: seq<Byte>, c: int): (r: seq<real>)
    requires |bytes| == BLOCK_BYTES && 0 <= c < CHANNELS
    ensures |r| == BLOCK
  {
    seq(BLOCK, f requires 0 <= f < BLOCK => S24F(TripleAt(bytes, f * FRAME_BYTES + c * 3)))
  }

  /** What is to happen to a microphone channel. */
  datatype Fate = Kept | Muted | Replaced(samples: seq<real>)

  /** Byte i of a block after writing back: only replaced and muted microphones change. */
  function WrittenByte(before: seq<Byte>, fates: seq<Fate>, gain: real, i: int): Byte
    requires 0 <= i < |before| && |fates| == MICS
  {
    var c := i % FRAME_BYTES / 3;
    if c >= MICS || fates[c].Kept? then before[i]
    else if fates[c].Muted? then ByteOf(Put24(0), i % 3)
    else ByteOf(PutF(SMul(RealAt(fates[c].samples, i / FRAME_BYTES), gain)), i % 3)
  }

  function Written(before: seq<Byte>, fates: seq<Fate>, gain: real): (r: seq<Byte>)
    requires |fates| == MICS
    ensures |r| == |before|
  {
    seq(|before|, i requires 0 <= i < |before| => WrittenByte(before, fates, gain, i))
  }

  /** Loopback channels keep their bytes and so do microphones that are neither muted nor
      processed; muted ones read as silence, and processed ones as the processor's sample. */
  lemma WrittenChannels(before: seq<Byte>, fates: seq<Fate>, gain: real, f: int, c: int)
    requires |before| == BLOCK_BYTES && |fates| == MICS && 0 <= f < BLOCK && 0 <= c < CHANNELS
    ensures var p := f * FRAME_BYTES + c * 3;
            var now := TripleAt(Written(before, fates, gain), p);
            && (c >= MICS || fates[c].Kept? ==> now == TripleAt(before, p))
            && (c < MICS && fates[c].Muted? ==> S24(now) == 0)
            && (c < MICS && fates[c].Replaced? ==> now == PutF(SMul(RealAt(fates[c].samples, f), gain)))
  {
    hide PutF, S24, Put24, SMul, WrittenByte;
    if c < MICS {
      WrittenAt(before, fates, gain, f, c, 0);
      WrittenAt(before, fates, gain, f, c, 1);
      WrittenAt(before, fates, gain, f, c, 2);
    } else {
      LoopbackKept(before, fates, gain, f);
    }
    GetOfPut(0);
  }

  /** put24 and putf, in place. */
  method PutAt(frames: array<Byte>, p: nat, t: Triple)
    requires p + 3 <= frames.Length
    modifies frames
    ensures frames[..] == old(frames[..])[p := t.b0][p + 1 := t.b1][p + 2 := t.b2]
  {
    frames[p] := t.b0;
    frames[p + 1] := t.b1;
    frames[p + 2] := t.b2;
  }

  method ReadChannel(frames: array<Byte>, c: nat) returns (samples: array<real>)
    requires frames.Length == BLOCK_BYTES && c < CHANNELS
    ensures fresh(samples) && samples[..] == Channel(frames[..], c)
  {
    hide S24F;
    samples := new real[BLOCK](_ => 0.0);
    for f := 0 to BLOCK
      invariant forall k :: 0 <= k < f ==> samples[k] == S24F(TripleAt(frames[..], k * FRAME_BYTES + c * 3))
    {
      var p := f * FRAME_BYTES + c * 3;
      samples[f] := S24F(Triple(frames[p], frames[p + 1], frames[p + 2]));
    }
  }

  /** The last loop of process_block_l. */
  method WriteBack(frames: array<Byte>, fates: seq<Fate>, gain: real)
    requires frames.Length == BLOCK_BYTES && |fates| == MICS
    requires forall c :: 0 <= c < MICS && fates[c].Replaced? ==> |fates[c].samples| == BLOCK
    modifies frames
    ensures frames[..] == Written(old(frames[..]), fates, gain)
  {
    hide WrittenByte;
    ghost var before := frames[..];
    for f := 0 to BLOCK
      invariant forall i :: 0 <= i < BLOCK_BYTES ==>
                  frames[i] == if i < f * FRAME_BYTES then WrittenByte(before, fates, gain, i) else before[i]
    {
      for m := 0 to MICS
        invariant forall i :: 0 <= i < BLOCK_BYTES ==>
                    frames[i] == if i < f * FRAME_BYTES + m * 3 then WrittenByte(before, fates, gain, i) else before[i]
      {
        WriteMic(frames, fates, gain, before, f, m);
      }
      LoopbackKept(before, fates, gain, f);
    }
  }

  lemma LoopbackKept(before: seq<Byte>, fates: seq<Fate>, gain: real, f: nat)
    requires |before| == BLOCK_BYTES && |fates| == MICS && f < BLOCK
    ensures forall i :: f * FRAME_BYTES + 12 <= i < f * FRAME_BYTES + 18 ==> WrittenByte(before, fates, gain, i) == before[i]
  {
    forall i | f * FRAME_BYTES + 12 <= i < f * FRAME_BYTES + 18
      ensures WrittenByte(before, fates, gain, i) == before[i]
    {
      assert i % FRAME_BYTES == i - f * FRAME_BYTES;
    }
  }

  method WriteMic(frames: array<Byte>, fates: seq<Fate>, gain: real, ghost before: seq<Byte>, f: nat, m: nat)
    requires frames.Length == |before| == BLOCK_BYTES && |fates| == MICS && f < BLOCK && m < MICS
    requires fates[m].Replaced? ==> |fates[m].samples| == BLOCK
    requires forall i :: 0 <= i < BLOCK_BYTES ==>
               frames[i] == if i < f * FRAME_BYTES + m * 3 then WrittenByte(before, fates, gain, i) else before[i]
    modifies frames
    ensures forall i :: 0 <= i < BLOCK_BYTES ==>
              frames[i] == if i < f * FRAME_BYTES + (m + 1) * 3 then WrittenByte(before, fates, gain, i) else before[i]
  {
    hide WrittenByte, PutF, Put24, SMul;
    var p := f * FRAME_BYTES + m * 3;
    WrittenAt(before, fates, gain, f, m, 0);
    WrittenAt(before, fates, gain, f, m, 1);
    WrittenAt(before, fates, gain, f, m, 2);
    match fates[m] {
      case Muted => PutAt(frames, p, Put24(0));
      case Replaced(samples) => PutAt(frames, p, PutF(SMul(samples[f], gain)));
      case Kept =>
    }
  }

  lemma WrittenAt(before: seq<Byte>, fates: seq<Fate>, gain: real, f: nat, m: nat, t: nat)
    requires |before| == BLOCK_BYTES && |fates| == MICS && f < BLOCK && m < MICS && t < 3
    ensures WrittenByte(before, fates, gain, f * FRAME_BYTES + m * 3 + t)
         == match fates[m]
            case Kept => before[f * FRAME_BYTES + m * 3 + t]
            case Muted => ByteOf(Put24(0), t)
            case Replaced(samples) => ByteOf(PutF(SMul(RealAt(samples, f), gain)), t)
  {
    hide PutF, Put24, SMul;
    var i := f * FRAME_BYTES + m * 3 + t;
    assert i % FRAME_BYTES == m * 3 + t && i / FRAME_BYTES == f && i % 3 == t;
  }
}
