/** The small playback buffer of mdf.c (speex_echo_capture, speex_echo_playback and the last
    lines of speex_echo_state_reset), for one speaker: it refines a queue of at most three
    frames. */
module PlaybackQueue {

  const PLAYBACK_DELAY := 2

  type Frame = seq<int>

  function Silence(n: nat): (f: Frame)
    ensures |f| == n
  {
    seq(n, _ => 0)
  }

  // ---- the queue ----

  /** The queue as the two calls are meant to see it. */
  datatype Queue = Queue(frames: seq<Frame>, started: bool)

  datatype Event = Capture(resets: bool) | Playback(frame: Frame) | Reset

  function Initial(n: nat): Queue {
    Queue([Silence(n), Silence(n)], false)
  }

  /** What an event makes of the queue. A capture takes the oldest frame; when the canceller
      resets itself on the way, one of the two fresh silent frames is taken instead. A
      playback into a nearly empty queue puts the frame in twice. */
  function Step(q: Queue, event: Event, n: nat): Queue {
    match event
    case Reset => Initial(n)
    case Capture(resets) =>
      if q.frames == [] then q.(started := true)
      else if resets then Queue([Silence(n)], false)
      else Queue(q.frames[1..], true)
    case Playback(frame) =>
      if !q.started || |q.frames| > PLAYBACK_DELAY then q
      else if |q.frames| < PLAYBACK_DELAY - 1 then q.(frames := q.frames + [frame, frame])
      else q.(frames := q.frames + [frame])
  }

  function Run(q: Queue, events: seq<Event>, n: nat): Queue {
    if events == [] then q else Step(Run(q, events[..|events| - 1], n), events[|events| - 1], n)
  }

  predicate Framed(frames: seq<Frame>, n: nat) {
    forall i :: 0 <= i < |frames| ==> |frames[i]| == n
  }

  /** One capture and one playback for every frame played. */
  function Alternating(played: seq<Frame>): (events: seq<Event>)
    ensures |events| == 2 * |played|
  {
    if played == [] then []
    else Alternating(played[..|played| - 1]) + [Capture(false), Playback(played[|played| - 1])]
  }

  lemma RunNext(q: Queue, events: seq<Event>, event: Event, n: nat)
    ensures Run(q, events + [event], n) == Step(Run(q, events, n), event, n)
  {
    hide Step;
    assert (events + [event])[..|events|] == events;
  }

  lemma AlternatingNext(played: seq<Frame>, frame: Frame)
    ensures Alternating(played + [frame]) == Alternating(played) + [Capture(false)] + [Playback(frame)]
  {
    assert (played + [frame])[..|played|] == played;
  }

  /** Dropping the oldest and adding the newest frame keeps the queue two frames behind. */
  lemma DelaySlides(lead: seq<Frame>, played: seq<Frame>, frame: Frame)
    requires |lead| == 2
    ensures (lead + (played + [frame]))[|played| + 1..] == (lead + played)[|played|..][1..] + [frame]
  {
  }

  /** In step with the sound card, the canceller meets every played frame exactly
      PLAYBACK_DELAY captures after it was played: the queue in front of capture number t
      starts with frame t-2, or with silence. */
  lemma {:induction false} PlaybackDelay(played: seq<Frame>, n: nat)
    ensures Run(Initial(n), Alternating(played), n).frames
         == ([Silence(n), Silence(n)] + played)[|played|..]
    ensures |played| > 0 ==> Run(Initial(n), Alternating(played), n).started
    decreases |played|
  {
    if played != [] {
      var t := |played| - 1;
      PlaybackDelay(played[..t], n);
      PlaybackDelayNext(played[..t], played[t], n);
      assert played[..t] + [played[t]] == played;
    } else {
      assert Run(Initial(n), Alternating([]), n) == Initial(n);
    }
  }

  lemma PlaybackDelayNext(played: seq<Frame>, frame: Frame, n: nat)
    requires Run(Initial(n), Alternating(played), n).frames == ([Silence(n), Silence(n)] + played)[|played|..]
    ensures var q := Run(Initial(n), Alternating(played + [frame]), n);
            q.frames == ([Silence(n), Silence(n)] + (played + [frame]))[|played| + 1..] && q.started
  {
    hide Run, Alternating, Silence;
    var before := Alternating(played);
    AlternatingNext(played, frame);
    RunNext(Initial(n), before, Capture(false), n);
    RunNext(Initial(n), before + [Capture(false)], Playback(frame), n);
    DelaySlides([Silence(n), Silence(n)], played, frame);
  }

  /** On every run whatsoever the queue holds at most three frames; right after a playback
      that was not discarded it holds at least two, and until the first capture after a
      reset it holds one or two silent frames. */
  lemma {:induction false} RunBounds(events: seq<Event>, n: nat)
    requires forall i :: 0 <= i < |events| && events[i].Playback? ==> |events[i].frame| == n
    ensures var q := Run(Initial(n), events, n);
            && |q.frames| <= PLAYBACK_DELAY + 1 && Framed(q.frames, n)
            && (!q.started ==> 1 <= |q.frames| <= 2 && forall i :: 0 <= i < |q.frames| ==> q.frames[i] == Silence(n))
            && (q.started && events != [] && events[|events| - 1].Playback? ==> |q.frames| >= 2)
  {
    if events != [] {
      RunBounds(events[..|events| - 1], n);
    }
  }

  // ---- what goes in comes out ----

  /** The far-end frames that the canceller has been given in a run. */
  function Fed(q: Queue, events: seq<Event>, n: nat): seq<Frame> {
    if events == [] then []
    else
      var before := events[..|events| - 1];
      var now := Run(q, before, n);
      Fed(q, before, n) + if events[|events| - 1].Capture? && now.frames != [] then [now.frames[0]] else []
  }

  /** How often a played frame is put into a queue of this length: twice into an empty one, not
      at all into one of three. */
  function Copies(length: nat, frame: Frame): seq<Frame> {
    if length == 0 then [frame, frame] else if length <= 2 then [frame] else []
  }

  /** The frames that have been put in, in order; playback before the first capture is lost. */
  function Put(q: Queue, events: seq<Event>, n: nat): seq<Frame> {
    if events == [] then []
    else
      var before := events[..|events| - 1];
      var now := Run(q, before, n);
      Put(q, before, n)
      + match events[|events| - 1] case Playback(frame) => (if now.started then Copies(|now.frames|, frame) else []) case _ => []
  }

  predicate Undisturbed(events: seq<Event>) {
    forall i :: 0 <= i < |events| ==> events[i] != Event.Reset && events[i] != Event.Capture(true)
  }

  /** Between resets nothing is lost, reordered or made up: what the canceller was given,
      followed by what still waits, is what waited at first followed by what was put in. */
  lemma {:induction false} FirstInFirstOut(q: Queue, events: seq<Event>, n: nat)
    requires Undisturbed(events)
    ensures Fed(q, events, n) + Run(q, events, n).frames == q.frames + Put(q, events, n)
    decreases |events|
  {
    if events != [] {
      var before, last := events[..|events| - 1], events[|events| - 1];
      var now := Run(q, before, n);
      FirstInFirstOut(q, before, n);
      OneMoreEvent(now, last, n);
      var rest := Step(now, last, n).frames;
      assert Run(q, events, n).frames == rest;
      if last.Playback? {
        var put := if now.started then Copies(|now.frames|, last.frame) else [];
        assert Put(q, events, n) == Put(q, before, n) + put;
        assert Fed(q, events, n) == Fed(q, before, n);
        assert q.frames + (Put(q, before, n) + put) == (q.frames + Put(q, before, n)) + put;
        assert Fed(q, before, n) + (now.frames + put) == (Fed(q, before, n) + now.frames) + put;
      } else if now.frames != [] {
        assert Fed(q, before, n) + ([now.frames[0]] + rest) == (Fed(q, before, n) + [now.frames[0]]) + rest;
      }
    }
  }

  lemma OneMoreEvent(q: Queue, event: Event, n: nat)
    ensures event.Playback? ==>
              Step(q, event, n) == q.(frames := q.frames + if q.started then Copies(|q.frames|, event.frame) else [])
    ensures event == Event.Capture(false) ==> Step(q, event, n).started
    ensures event == Event.Capture(false) && q.frames == [] ==> Step(q, event, n).frames == []
    ensures event == Event.Capture(false) && q.frames != [] ==> [q.frames[0]] + Step(q, event, n).frames == q.frames
  {
  }

  /** A reset leaves two silent frames and waits for a capture; when it happens during a capture
      one of the two is already gone. */
  lemma AfterReset(q: Queue, n: nat)
    ensures Run(q, [Event.Reset], n) == Queue([Silence(n), Silence(n)], false)
    ensures q.frames != [] ==> Run(q, [Event.Capture(true)], n) == Queue([Silence(n)], false)
    ensures forall i :: 0 <= i < n ==> Silence(n)[i] == 0
  {
    assert [Event.Reset][..0] == [] && [Event.Capture(true)][..0] == [];
  }

  // ---- the buffer ----

  /** The frames one after the other. */
  function Flat(frames: seq<Frame>): Frame {
    if frames == [] then [] else frames[0] + Flat(frames[1..])
  }

  lemma {:induction false} FlatLength(frames: seq<Frame>, n: nat)
    requires Framed(frames, n)
    ensures |Flat(frames)| == |frames| * n
  {
    if frames != [] {
      FlatLength(frames[1..], n);
    }
  }

  lemma {:induction false} FlatAppend(frames: seq<Frame>, last: Frame)
    ensures Flat(frames + [last]) == Flat(frames) + last
  {
    if frames == [] {
      assert Flat([last]) == last + Flat([]);
    } else {
      assert (frames + [last])[1..] == frames[1..] + [last];
      FlatAppend(frames[1..], last);
    }
  }

  class EchoBuffer {
    const frameSize: nat
    const playBuf: array<int>
    var playBufPos: nat
    var playBufStarted: bool
    ghost var queue: seq<Frame>

    /** The occupied prefix of the buffer is the queued frames in order; the position is a
        multiple of the frame size between 0 and three frames. */
    ghost predicate Valid()
      reads this, playBuf
    {
      && frameSize > 0 && playBuf.Length == (PLAYBACK_DELAY + 1) * frameSize
      && |queue| <= PLAYBACK_DELAY + 1 && Framed(queue, frameSize)
      && playBufPos == |queue| * frameSize
      && playBuf[..playBufPos] == Flat(queue)
    }

    ghost function Contents(): Queue
      reads this
    {
      Queue(queue, playBufStarted)
    }

    constructor (frameSize: nat)
      requires frameSize > 0
      ensures Valid() && fresh(playBuf) && this.frameSize == frameSize
      ensures Contents() == Initial(frameSize)
    {
      this.frameSize := frameSize;
      playBuf := new int[(PLAYBACK_DELAY + 1) * frameSize](_ => 0);
      playBufPos := PLAYBACK_DELAY * frameSize;
      playBufStarted := false;
      queue := [Silence(frameSize), Silence(frameSize)];
      new;
      SilentFrames(frameSize);
    }

    /** The buffer's part of speex_echo_state_reset. */
    method Reset()
      requires Valid()
      modifies this, playBuf
      ensures Valid() && Contents() == Step(old(Contents()), Event.Reset, frameSize)
      ensures forall i :: 0 <= i < playBuf.Length ==> playBuf[i] == 0
    {
      for i := 0 to 3 * frameSize
        invariant forall k :: 0 <= k < i ==> playBuf[k] == 0
        modifies playBuf
      {
        playBuf[i] := 0;
      }
      playBufPos := PLAYBACK_DELAY * frameSize;
      playBufStarted := false;
      queue := [Silence(frameSize), Silence(frameSize)];
      SilentFrames(frameSize);
    }

    /** resets says whether the canceller resets its state during this call, which clears the
        buffer under the capture's hands. fed is the far-end frame that the canceller was
        given, if it was called; corrupt whether the branch for a corrupt buffer was taken. */
    method Capture(rec: Frame, cancel: (Frame, Frame) -> Frame, resets: bool)
      returns (out: Frame, ghost fed: seq<Frame>, corrupt: bool)
      requires Valid() && |rec| == frameSize
      modifies this, playBuf
      ensures Valid() && Contents() == Step(old(Contents()), Event.Capture(resets), frameSize)
      ensures fed == if old(queue) == [] then [] else [old(queue)[0]]
      ensures out == if old(queue) == [] then rec else cancel(rec, old(queue)[0])
      ensures !corrupt
    {
      playBufStarted := true;
      fed := [];
      corrupt := false;
      if playBufPos >= frameSize {
        HeadFrame(queue, frameSize);
        var far := playBuf[..frameSize];
        assert far == playBuf[..playBufPos][..frameSize] == queue[0];
        fed := [far];
        out := cancel(rec, far);
        if resets {
          Reset();
        }
        playBufPos := playBufPos - frameSize;
        DropFrame();
      } else {
        EmptyQueue(queue, frameSize);
        corrupt := playBufPos != 0;
        playBufPos := 0;
        out := rec;
      }
    }

    /** The remaining frames move to the front. */
    method DropFrame()
      requires frameSize > 0 && playBuf.Length == (PLAYBACK_DELAY + 1) * frameSize
      requires 0 < |queue| <= PLAYBACK_DELAY + 1 && Framed(queue, frameSize)
      requires playBufPos + frameSize == |queue| * frameSize && playBuf[..playBufPos + frameSize] == Flat(queue)
      modifies this`queue, playBuf
      ensures Valid() && queue == old(queue)[1..]
    {
      ghost var before := playBuf[..];
      for i := 0 to playBufPos
        invariant forall k :: 0 <= k < i ==> playBuf[k] == before[k + frameSize]
        invariant forall k :: i <= k < playBuf.Length ==> playBuf[k] == before[k]
        modifies playBuf
      {
        playBuf[i] := playBuf[i + frameSize];
      }
      assert playBuf[..playBufPos] == Flat(queue)[frameSize..];
      queue := queue[1..];
    }

    method Playback(play: Frame)
      requires Valid() && |play| == frameSize
      modifies this, playBuf
      ensures Valid() && Contents() == Step(old(Contents()), Event.Playback(play), frameSize)
    {
      if !playBufStarted {
        return;
      }
      if playBufPos <= PLAYBACK_DELAY * frameSize {
        Append(play);
        if playBufPos <= (PLAYBACK_DELAY - 1) * frameSize {
          Append(play);
        }
      }
    }

    method Append(play: Frame)
      requires Valid() && |play| == frameSize && playBufPos <= PLAYBACK_DELAY * frameSize
      modifies this`queue, this`playBufPos, playBuf
      ensures Valid() && queue == old(queue) + [play] && |old(queue)| <= PLAYBACK_DELAY
      ensures playBufPos == old(playBufPos) + frameSize
    {
      hide Flat;
      QueueRoom(|queue|, frameSize);
      ghost var before := playBuf[..playBufPos];
      for i := 0 to frameSize
        invariant playBuf[..playBufPos] == before
        invariant forall k :: playBufPos <= k < playBufPos + i ==> playBuf[k] == play[k - playBufPos]
        modifies playBuf
      {
        playBuf[playBufPos + i] := play[i];
      }
      assert playBuf[..playBufPos + frameSize] == before + play;
      FlatAppend(queue, play);
      queue := queue + [play];
      playBufPos := playBufPos + frameSize;
    }
  }

  lemma QueueRoom(k: nat, n: nat)
    requires n > 0
    ensures k * n <= PLAYBACK_DELAY * n ==> k <= PLAYBACK_DELAY
    ensures (k + 1) * n == k * n + n
  {
    if k > PLAYBACK_DELAY {
      var d: nat := k - PLAYBACK_DELAY - 1;
      assert d * n >= 0;
      assert (PLAYBACK_DELAY + 1 + d) * n == PLAYBACK_DELAY * n + n + d * n;
    }
  }

  lemma SilentFrames(n: nat)
    ensures |Flat([Silence(n), Silence(n)])| == 2 * n
    ensures forall i :: 0 <= i < 2 * n ==> Flat([Silence(n), Silence(n)])[i] == 0
  {
    assert [Silence(n), Silence(n)][1..] == [Silence(n)];
    assert [Silence(n)][1..] == [];
    assert Flat([Silence(n)]) == Silence(n) + Flat([]);
  }

  lemma HeadFrame(queue: seq<Frame>, n: nat)
    requires Framed(queue, n) && |Flat(queue)| >= n > 0
    ensures queue != [] && Flat(queue)[..n] == queue[0]
  {
  }

  lemma EmptyQueue(queue: seq<Frame>, n: nat)
    requires Framed(queue, n) && |Flat(queue)| < n
    ensures queue == []
  {
  }
}
