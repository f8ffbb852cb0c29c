/** The capture stage (src/main_A.cpp): the FrameSender configuration cell
    that the fps listener updates, the frame-rate gate, and the capture loop
    that writes accepted frames into the frame segment. Time is in integer
    nanoseconds as the high-resolution clock counts it; capture timestamps
    are milliseconds since the epoch as the system clock gives them. */
module Capture {

  import opened Bytes
  import opened Wrappers
  import FrameLayout
  import Ipc

  /** FrameSender::DEFAULT_FPS. */
  const DEFAULT_FPS: int := 30

  const NS_PER_SECOND: int := 1_000_000_000

  /** std::chrono::milliseconds delta(5): the gate's tolerance. */
  const DELTA_NS: int := 5_000_000

  /** duration<double>(1.0 / fps): the target interval between written
      frames, `1 / divisor` seconds, kept exact. A divisor of 0 is the
      floating-point +infinity that 1.0 / 0 yields; a negative divisor is a
      negative interval. */
  datatype FrameInterval = Reciprocal(divisor: int)

  /** `time_elapsed >= getFrameRate() - delta` with both sides multiplied out
      by the divisor (which flips the comparison when it is negative). */
  predicate Accepts(elapsedNs: int, interval: FrameInterval)
    ensures interval.divisor == 0 ==> !Accepts(elapsedNs, interval)
  {
    var f := interval.divisor;
    if f > 0 then elapsedNs * f >= NS_PER_SECOND - DELTA_NS * f
    else if f < 0 then elapsedNs * f <= NS_PER_SECOND - DELTA_NS * f
    else false
  }

  /** The gate's comparison as the source writes it, in seconds. */
  ghost predicate AcceptsInSeconds(elapsedNs: int, fps: int)
    requires fps != 0
  {
    (elapsedNs as real) / 1_000_000_000.0 >= 1.0 / (fps as real) - 0.005
  }

  lemma MulMonotone(a: real, b: real, k: real)
    requires k > 0.0
    ensures a >= b <==> a * k >= b * k
  {
  }

  lemma MulAntitone(a: real, b: real, k: real)
    requires k < 0.0
    ensures a >= b <==> a * k <= b * k
  {
  }

  /** The integer gate decides exactly as the source's comparison of
      durations in seconds, for every non-zero fps. */
  lemma GateMatchesSeconds(elapsedNs: int, fps: int)
    requires fps != 0
    ensures Accepts(elapsedNs, Reciprocal(fps)) <==> AcceptsInSeconds(elapsedNs, fps)
  {
    var e, f := elapsedNs as real, fps as real;
    var k := f * 1_000_000_000.0;
    assert (e / 1_000_000_000.0) * k == e * f;
    assert (1.0 / f - 0.005) * k == 1_000_000_000.0 - 5_000_000.0 * f;
    assert (elapsedNs * fps) as real == e * f;
    assert (NS_PER_SECOND - DELTA_NS * fps) as real == 1_000_000_000.0 - 5_000_000.0 * f;
    if fps > 0 {
      MulMonotone(e / 1_000_000_000.0, 1.0 / f - 0.005, k);
    } else {
      MulAntitone(e / 1_000_000_000.0, 1.0 / f - 0.005, k);
    }
  }

  /** An fps cap of 0 makes the interval infinite: no frame is ever written
      again. A negative cap makes it negative: every frame taken at least as
      late as the previous write is written. */
  lemma GateDegenerateCaps(elapsedNs: int, fps: int)
    ensures fps == 0 ==> !Accepts(elapsedNs, Reciprocal(fps))
    ensures fps < 0 && elapsedNs >= 0 ==> Accepts(elapsedNs, Reciprocal(fps))
  {
    if fps < 0 && elapsedNs >= 0 {
      assert elapsedNs * fps <= 0;
      assert NS_PER_SECOND - DELTA_NS * fps > 0;
    }
  }

  /** Whatever the cap, the gate is monotone in the elapsed time: once an
      elapsed time is accepted, every longer one is too. (A cap of 0 never
      accepts.) */
  lemma GateMonotone(elapsedNs: int, laterNs: int, fps: int)
    requires elapsedNs <= laterNs
    requires Accepts(elapsedNs, Reciprocal(fps))
    ensures Accepts(laterNs, Reciprocal(fps))
  {
    if fps > 0 {
      assert elapsedNs * fps <= laterNs * fps;
    } else {
      assert laterNs * fps <= elapsedNs * fps;
    }
  }

  /** The configuration cell shared by the capture loop and the fps
      listener. The mutex that guards it is not modelled (concurrency). */
  class FrameSender {
    var fps: int
    var fpsChanged: bool
    var frameRate: FrameInterval

    /** The interval is always the one computed from the current fps. */
    ghost predicate Valid()
      reads this
    {
      frameRate == Reciprocal(fps)
    }

    /** FrameSender(): setFrameRate(DEFAULT_FPS). */
    constructor ()
      ensures Valid()
      ensures fps == DEFAULT_FPS && fpsChanged && frameRate == Reciprocal(DEFAULT_FPS)
    {
      fpsChanged := false;
      new;
      SetFrameRate(DEFAULT_FPS);
    }

    method GetFrameRate() returns (rate: FrameInterval)
      requires Valid()
      ensures rate == frameRate == Reciprocal(fps)
    {
      rate := frameRate;
    }

    /** setFrameRate(fps): stores the cap, recomputes the interval and
        raises the changed flag. Any integer is stored, 0 and negative ones
        included. */
    method SetFrameRate(newFps: int)
      modifies this
      ensures Valid()
      ensures fps == newFps && fpsChanged && frameRate == Reciprocal(newFps)
    {
      fpsChanged := true;
      fps := newFps;
      frameRate := Reciprocal(fps);
    }

    /** isFpsChanged(): returns the flag and clears it. */
    method IsFpsChanged() returns (changed: bool)
      requires Valid()
      modifies this
      ensures Valid()
      ensures changed == old(fpsChanged) && !fpsChanged
      ensures fps == old(fps) && frameRate == old(frameRate)
    {
      changed := fpsChanged;
      fpsChanged := false;
    }

    method GetFps() returns (f: int)
      ensures f == fps
    {
      f := fps;
    }
  }

  /** Reading isFpsChanged() twice with no setFrameRate in between: the
      second call says false, and the cap is still the one last set. */
  method ChangedFlagIsReadAndClear() returns (first: bool, second: bool, fps: int)
    ensures first && !second && fps == DEFAULT_FPS
  {
    var sender := new FrameSender();
    first := sender.IsFpsChanged();
    second := sender.IsFpsChanged();
    fps := sender.GetFps();
  }

  /** A successful receive value of the fps queue is passed to setFrameRate
      unchecked; the listener runs until the queue has nothing more to give
      (where the real thread blocks). */
  method WaitForFpsChange(sender: FrameSender, queue: Ipc.MessageQueue<int>)
    requires sender.Valid()
    modifies sender, queue
    ensures sender.Valid() && queue.messages == []
    ensures old(queue.messages) == [] ==> sender.fps == old(sender.fps) && sender.fpsChanged == old(sender.fpsChanged)
    ensures old(queue.messages) != [] ==> sender.fps == old(queue.messages)[|old(queue.messages)| - 1] && sender.fpsChanged
  {
    ghost var received: seq<int> := [];
    while queue.messages != []
      invariant sender.Valid()
      invariant old(queue.messages) == received + queue.messages
      invariant received == [] ==> sender.fps == old(sender.fps) && sender.fpsChanged == old(sender.fpsChanged)
      invariant received != [] ==> sender.fps == received[|received| - 1] && sender.fpsChanged
      decreases |queue.messages|
    {
      var m := queue.Receive();
      received := received + [m.value];
      sender.SetFrameRate(m.value);
    }
  }

  /** What happens in the capture process between two gate evaluations. */
  datatype CaptureEvent =
    /** The fps listener received a new cap and called setFrameRate. */
    | FpsMessage(fps: int)
    /** `capture >> frame` gave a frame: its pixels, the millisecond
        timestamp taken right after (line 198), the clock reading the
        elapsed time is measured at (line 205) and the later reading that
        becomes prev when the frame is accepted (line 208). */
    | Frame(pixels: seq<byte>, stampMs: int, checkNs: int, markNs: int)
    /** `capture >> frame` gave an empty frame. */
    | EmptyFrame

  /** The capture process's variables and the frame segment, plus the
      history of accepted writes (which the process itself does not keep). */
  datatype CaptureState = CaptureState(
    fps: int,
    fpsChanged: bool,
    prevNs: int,
    frameCounter: int,
    segment: seq<byte>,
    written: seq<FrameLayout.FrameRecord>)

  /** Every frame fits the segment and carries an int64 timestamp. A frame
      of another size would overflow or short-write the segment; the code
      does not check this. */
  ghost predicate FramesFit(events: seq<CaptureEvent>, pixelCount: nat)
  {
    forall i :: 0 <= i < |events| && events[i].Frame? ==>
      |events[i].pixels| == pixelCount && IsI64(events[i].stampMs)
  }

  lemma FramesFitSlice(events: seq<CaptureEvent>, lo: nat, hi: nat, pixelCount: nat)
    requires lo <= hi <= |events| && FramesFit(events, pixelCount)
    ensures FramesFit(events[lo..hi], pixelCount)
  {
    forall i | 0 <= i < hi - lo && events[lo..hi][i].Frame?
      ensures |events[lo..hi][i].pixels| == pixelCount && IsI64(events[lo..hi][i].stampMs)
    {
      assert events[lo..hi][i] == events[lo + i];
    }
  }

  /** The state after one event that is not an empty frame. */
  function Step(s: CaptureState, e: CaptureEvent): (t: CaptureState)
    requires IsU32(s.frameCounter)
    requires e.Frame? ==> IsI64(e.stampMs)
    requires !e.EmptyFrame?
    ensures IsU32(t.frameCounter)
    ensures e.Frame? ==> t.fps == s.fps && t.fpsChanged == s.fpsChanged
  {
    match e
    case FpsMessage(f) => s.(fps := f, fpsChanged := true)
    case Frame(pixels, stampMs, checkNs, markNs) =>
      if Accepts(checkNs - s.prevNs, Reciprocal(s.fps)) then Write(s, pixels, stampMs, markNs)
      else s
  }

  /** An accepted frame: prev moves to the second clock reading, the frame
      is copied with the current counter, and the counter is incremented
      as an unsigned int. */
  function Write(s: CaptureState, pixels: seq<byte>, stampMs: int, markNs: int): (t: CaptureState)
    requires IsU32(s.frameCounter) && IsI64(stampMs)
    ensures IsU32(t.frameCounter) && t.prevNs == markNs
    ensures t.written == s.written + [FrameLayout.FrameRecord(s.frameCounter, stampMs, pixels)]
    ensures |t.segment| == |pixels| + FrameLayout.HEADER_SIZE
  {
    s.(prevNs := markNs,
       frameCounter := (s.frameCounter + 1) % U32_LIMIT,
       segment := FrameLayout.FrameBytes(s.frameCounter, stampMs, pixels),
       written := s.written + [FrameLayout.FrameRecord(s.frameCounter, stampMs, pixels)])
  }

  /** The capture loop run over a sequence of events: it stops at the first
      empty frame. */
  function Run(s: CaptureState, events: seq<CaptureEvent>): (t: CaptureState)
    requires IsU32(s.frameCounter) && |s.segment| >= FrameLayout.HEADER_SIZE
    requires FramesFit(events, |s.segment| - FrameLayout.HEADER_SIZE)
    ensures IsU32(t.frameCounter) && |t.segment| == |s.segment|
    decreases |events|
  {
    if events == [] || events[0].EmptyFrame? then s
    else
      var t := Step(s, events[0]);
      FramesFitSlice(events, 1, |events|, |s.segment| - FrameLayout.HEADER_SIZE);
      assert events[1..|events|] == events[1..];
      Run(t, events[1..])
  }

  /** The state the loop starts in: prev is the epoch, the counter 0, no
      frame written yet. */
  function Initial(fps: int, fpsChanged: bool, segment: seq<byte>): (s: CaptureState)
  {
    CaptureState(fps, fpsChanged, 0, 0, segment, [])
  }

  /** The history invariant of the capture loop: the j-th accepted frame was
      written with counter j (mod 2^32), the counter is the number of frames
      written (mod 2^32), and the segment holds the latest written frame. */
  ghost predicate Consistent(s: CaptureState)
  {
    && s.frameCounter == |s.written| % U32_LIMIT
    && (forall j :: 0 <= j < |s.written| ==> s.written[j].counter == j % U32_LIMIT)
    && (forall j :: 0 <= j < |s.written| ==>
          IsU32(s.written[j].counter) && IsI64(s.written[j].stampMs))
    && (s.written != [] ==>
          var last := s.written[|s.written| - 1];
          s.segment == FrameLayout.FrameBytes(last.counter, last.stampMs, last.pixels))
  }

  lemma SuccessorMod(n: nat)
    ensures (n + 1) % U32_LIMIT == (n % U32_LIMIT + 1) % U32_LIMIT
  {
  }

  lemma WriteKeepsConsistent(s: CaptureState, pixels: seq<byte>, stampMs: int, markNs: int)
    requires IsU32(s.frameCounter) && IsI64(stampMs)
    requires Consistent(s)
    ensures Consistent(Write(s, pixels, stampMs, markNs))
  {
    var t := Write(s, pixels, stampMs, markNs);
    var n := |s.written|;
    SuccessorMod(n);
    assert t.frameCounter == |t.written| % U32_LIMIT;
    forall j | 0 <= j < |t.written|
      ensures t.written[j].counter == j % U32_LIMIT
      ensures IsU32(t.written[j].counter) && IsI64(t.written[j].stampMs)
    {
      if j < n { assert t.written[j] == s.written[j]; }
    }
  }

  lemma StepKeepsConsistent(s: CaptureState, e: CaptureEvent)
    requires IsU32(s.frameCounter) && !e.EmptyFrame? && (e.Frame? ==> IsI64(e.stampMs))
    requires Consistent(s)
    ensures Consistent(Step(s, e))
    ensures |Step(s, e).written| >= |s.written| && Step(s, e).written[..|s.written|] == s.written
  {
    match e
    case FpsMessage(f) =>
    case Frame(pixels, stampMs, checkNs, markNs) =>
      if Accepts(checkNs - s.prevNs, Reciprocal(s.fps)) {
        WriteKeepsConsistent(s, pixels, stampMs, markNs);
        assert Step(s, e).written[..|s.written|] == s.written;
      }
  }

  lemma {:induction false} RunKeepsConsistent(s: CaptureState, events: seq<CaptureEvent>)
    requires IsU32(s.frameCounter) && |s.segment| >= FrameLayout.HEADER_SIZE
    requires FramesFit(events, |s.segment| - FrameLayout.HEADER_SIZE)
    requires Consistent(s)
    ensures Consistent(Run(s, events))
    ensures |Run(s, events).written| >= |s.written|
    ensures Run(s, events).written[..|s.written|] == s.written
    decreases |events|
  {
    if events != [] && !events[0].EmptyFrame? {
      var t := Step(s, events[0]);
      StepKeepsConsistent(s, events[0]);
      FramesFitSlice(events, 1, |events|, |s.segment| - FrameLayout.HEADER_SIZE);
      assert events[1..|events|] == events[1..];
      RunKeepsConsistent(t, events[1..]);
      assert Run(s, events) == Run(t, events[1..]);
    }
  }

  /** A rejected frame writes nothing and leaves prev and the counter as
      they were; an accepted one moves prev to the later clock reading,
      writes the frame with the current counter and bumps the counter. */
  lemma FrameStep(s: CaptureState, pixels: seq<byte>, stampMs: int, checkNs: int, markNs: int)
    requires IsU32(s.frameCounter) && IsI64(stampMs)
    ensures var t := Step(s, Frame(pixels, stampMs, checkNs, markNs));
      if Accepts(checkNs - s.prevNs, Reciprocal(s.fps)) then
        t.prevNs == markNs && t.frameCounter == (s.frameCounter + 1) % U32_LIMIT &&
        FrameLayout.ReadFrame(t.segment) == FrameLayout.FrameRecord(s.frameCounter, stampMs, pixels) &&
        t.fps == s.fps
      else t == s
  {
    if Accepts(checkNs - s.prevNs, Reciprocal(s.fps)) {
      FrameLayout.FrameRoundTrip(s.frameCounter, stampMs, pixels);
    }
  }

  /** Whatever follows it, an empty frame ends the loop: nothing after it is
      captured or written. */
  lemma {:induction false} EmptyFrameEndsLoop(s: CaptureState, before: seq<CaptureEvent>, after: seq<CaptureEvent>)
    requires IsU32(s.frameCounter) && |s.segment| >= FrameLayout.HEADER_SIZE
    requires FramesFit(before + [EmptyFrame] + after, |s.segment| - FrameLayout.HEADER_SIZE)
    requires forall i :: 0 <= i < |before| ==> !before[i].EmptyFrame?
    ensures FramesFit(before, |s.segment| - FrameLayout.HEADER_SIZE)
    ensures Run(s, before + [EmptyFrame] + after) == Run(s, before)
    decreases |before|
  {
    var all := before + [EmptyFrame] + after;
    FramesFitSlice(all, 0, |before|, |s.segment| - FrameLayout.HEADER_SIZE);
    assert all[0..|before|] == before;
    if before == [] {
      assert all[0] == EmptyFrame;
    } else {
      assert all[0] == before[0];
      assert all[1..] == before[1..] + [EmptyFrame] + after;
      var t := Step(s, before[0]);
      EmptyFrameEndsLoop(t, before[1..], after);
    }
  }

  /** The capture loop of main (lines 185-217) over a sequence of events,
      with prev starting at the epoch and frameCounter at 0. The loop ends at
      the first empty frame (or when the events run out). */
  method CaptureLoop(sender: FrameSender, region: array<byte>, events: seq<CaptureEvent>)
      returns (frameCounter: int, prevNs: int)
    requires sender.Valid() && region.Length >= FrameLayout.HEADER_SIZE
    requires FramesFit(events, region.Length - FrameLayout.HEADER_SIZE)
    modifies sender, region
    ensures sender.Valid()
    ensures var final := Run(Initial(old(sender.fps), old(sender.fpsChanged), old(region[..])), events);
      && sender.fps == final.fps && sender.fpsChanged == final.fpsChanged
      && prevNs == final.prevNs && frameCounter == final.frameCounter
      && region[..] == final.segment
  {
    ghost var start := Initial(sender.fps, sender.fpsChanged, region[..]);
    ghost var written: seq<FrameLayout.FrameRecord> := [];
    prevNs := 0;
    frameCounter := 0;
    var i := 0;
    while i < |events|
      invariant 0 <= i <= |events| && IsU32(frameCounter) && sender.Valid()
      invariant FramesFit(events[i..], region.Length - FrameLayout.HEADER_SIZE)
      invariant Run(start, events)
             == Run(CaptureState(sender.fps, sender.fpsChanged, prevNs, frameCounter, region[..], written), events[i..])
      decreases |events| - i
    {
      var e := events[i];
      ghost var s := CaptureState(sender.fps, sender.fpsChanged, prevNs, frameCounter, region[..], written);
      assert events[i..][0] == e && events[i..][1..] == events[i + 1..];
      if e.EmptyFrame? {
        break;
      }
      match e {
        case FpsMessage(f) =>
          sender.SetFrameRate(f);
        case Frame(pixels, stampMs, checkNs, markNs) =>
          var rate := sender.GetFrameRate();
          if Accepts(checkNs - prevNs, rate) {
            prevNs := markNs;
            FrameLayout.WriteFrame(region, frameCounter, stampMs, pixels);
            written := written + [FrameLayout.FrameRecord(frameCounter, stampMs, pixels)];
            frameCounter := (frameCounter + 1) % U32_LIMIT;
          }
      }
      assert CaptureState(sender.fps, sender.fpsChanged, prevNs, frameCounter, region[..], written) == Step(s, e);
      i := i + 1;
    }
  }

  /** A capture run's accepted timestamps. */
  function Stamps(written: seq<FrameLayout.FrameRecord>): (stamps: seq<int>)
  {
    seq(|written|, j requires 0 <= j < |written| => written[j].stampMs)
  }

  /** One unfolding of Run at a non-empty event. */
  lemma RunFrom(s: CaptureState, events: seq<CaptureEvent>)
    requires IsU32(s.frameCounter) && |s.segment| >= FrameLayout.HEADER_SIZE
    requires FramesFit(events, |s.segment| - FrameLayout.HEADER_SIZE)
    requires events != [] && !events[0].EmptyFrame?
    ensures FramesFit(events[1..], |s.segment| - FrameLayout.HEADER_SIZE)
    ensures Run(s, events) == Run(Step(s, events[0]), events[1..])
  {
    FramesFitSlice(events, 1, |events|, |s.segment| - FrameLayout.HEADER_SIZE);
    assert events[1..|events|] == events[1..];
  }

  /** At 30 fps (interval 33.3 ms, accepted from 28.3 ms on), with the last
      write 40 ms before the first frame, frames at 0, 10, 20, 30 and 45 ms:
      only those at 0 and 30 ms are written; 45 ms is only 15 ms after the
      frame written at 30 ms. */
  lemma GateExample(s0: CaptureState, t0: int)
    requires s0 == CaptureState(30, false, t0 - 40_000_000, 0, [0,0,0,0,0,0,0,0,0,0,0,0], [])
    ensures var events := [Frame([], 0, t0, t0), Frame([], 10, t0 + 10_000_000, t0 + 10_000_000),
                           Frame([], 20, t0 + 20_000_000, t0 + 20_000_000),
                           Frame([], 30, t0 + 30_000_000, t0 + 30_000_000),
                           Frame([], 45, t0 + 45_000_000, t0 + 45_000_000)];
      Stamps(Run(s0, events).written) == [0, 30]
  {
    var e0 := Frame([], 0, t0, t0);
    var e1 := Frame([], 10, t0 + 10_000_000, t0 + 10_000_000);
    var e2 := Frame([], 20, t0 + 20_000_000, t0 + 20_000_000);
    var e3 := Frame([], 30, t0 + 30_000_000, t0 + 30_000_000);
    var e4 := Frame([], 45, t0 + 45_000_000, t0 + 45_000_000);
    var events := [e0, e1, e2, e3, e4];
    assert Accepts(40_000_000, Reciprocal(30));
    assert !Accepts(10_000_000, Reciprocal(30));
    assert !Accepts(20_000_000, Reciprocal(30));
    assert Accepts(30_000_000, Reciprocal(30));
    assert !Accepts(15_000_000, Reciprocal(30));
    var w1 := Write(s0, [], 0, t0);
    assert Step(s0, e0) == w1;
    assert Step(w1, e1) == w1 && Step(w1, e2) == w1;
    var w2 := Write(w1, [], 30, t0 + 30_000_000);
    assert Step(w1, e3) == w2;
    assert Step(w2, e4) == w2;
    RunFrom(s0, events);
    assert events[1..] == [e1, e2, e3, e4];
    RunFrom(w1, [e1, e2, e3, e4]);
    assert [e1, e2, e3, e4][1..] == [e2, e3, e4];
    RunFrom(w1, [e2, e3, e4]);
    assert [e2, e3, e4][1..] == [e3, e4];
    RunFrom(w1, [e3, e4]);
    assert [e3, e4][1..] == [e4];
    RunFrom(w2, [e4]);
    assert [e4][1..] == [];
    assert Run(s0, events) == w2;
    assert (0 + 1) % U32_LIMIT == 1 && w1.frameCounter == 1;
    assert w1.written == [FrameLayout.FrameRecord(0, 0, [])];
    assert w2.written == w1.written + [FrameLayout.FrameRecord(1, 30, [])];
  }

  /** At 30 fps, with the last write 40 ms before the first frame, frames
      at 0, 5 and 40 ms: those at 0 and 40 ms are written, the counter ends
      at 2 and the last write is the one at 40 ms. */
  lemma ThreeFrameExample(s0: CaptureState, t0: int)
    requires s0 == CaptureState(30, false, t0 - 40_000_000, 0, [0,0,0,0,0,0,0,0,0,0,0,0], [])
    ensures var events := [Frame([], 0, t0, t0), Frame([], 5, t0 + 5_000_000, t0 + 5_000_000),
                           Frame([], 40, t0 + 40_000_000, t0 + 40_000_000)];
      var final := Run(s0, events);
      Stamps(final.written) == [0, 40] && final.frameCounter == 2 && final.prevNs == t0 + 40_000_000
  {
    var e0 := Frame([], 0, t0, t0);
    var e1 := Frame([], 5, t0 + 5_000_000, t0 + 5_000_000);
    var e2 := Frame([], 40, t0 + 40_000_000, t0 + 40_000_000);
    var events := [e0, e1, e2];
    assert Accepts(40_000_000, Reciprocal(30));
    assert !Accepts(5_000_000, Reciprocal(30));
    var w1 := Write(s0, [], 0, t0);
    assert Step(s0, e0) == w1;
    assert Step(w1, e1) == w1;
    var w2 := Write(w1, [], 40, t0 + 40_000_000);
    assert Step(w1, e2) == w2;
    RunFrom(s0, events);
    assert events[1..] == [e1, e2];
    RunFrom(w1, [e1, e2]);
    assert [e1, e2][1..] == [e2];
    RunFrom(w1, [e2]);
    assert [e2][1..] == [];
    assert Run(s0, events) == w2;
    assert (0 + 1) % U32_LIMIT == 1 && w1.frameCounter == 1;
    assert w1.written == [FrameLayout.FrameRecord(0, 0, [])];
    assert w2.written == w1.written + [FrameLayout.FrameRecord(1, 40, [])];
  }
}
