/**
 * The blink detector (modules/blinkDetector.py): a two-state machine, eye open or eye
 * closed since a recorded start time, driven by one eye aspect ratio per frame. When the
 * eye reopens, the closure is classified by its duration as a long blink (counted and
 * reported to the data controller as a fatigue event), a normal blink (counted) or
 * neither (ignored).
 *
 * The pure functions give the semantics of one update; the class `BlinkDetector` holds
 * the state as the source does and its methods are proved to follow those functions.
 */
module BlinkDetection {
  import opened Wrappers
  import opened Config
  import opened Controllers
  import opened EarDetector

  /** The detector's state: the two counters and the start time of the closure in
      progress (None while the eye is open). */
  datatype BlinkState = BlinkState(blinkCounter: nat, longBlinkCounter: nat, blinkStartTime: Option<real>)

  /** The state of a freshly constructed detector. */
  const InitialBlinkState: BlinkState := BlinkState(0, 0, None)

  /** The state after one update and the events it handed to the data controller. */
  datatype BlinkStep = BlinkStep(state: BlinkState, logged: seq<Event>)

  /** The eye counts as closed strictly below the threshold. */
  predicate EyeClosed(ear: real)
  {
    ear < EarThreshold
  }

  /** `_update_blink_counter` at time `now`. */
  function UpdateBlink(s: BlinkState, ear: real, now: real): BlinkStep
  {
    if ear < EarThreshold then
      if s.blinkStartTime.None? then BlinkStep(s.(blinkStartTime := Some(now)), [])
      else BlinkStep(s, [])
    else if s.blinkStartTime.Some? then
      var duration := now - s.blinkStartTime.value;
      var counted :=
        if duration >= LongBlinkDurationSeconds then
          BlinkStep(s.(longBlinkCounter := s.longBlinkCounter + 1), [Event(FatigueEventType, duration)])
        else if MinBlinkDurationSeconds <= duration <= MaxNormalBlinkDurationSeconds then
          BlinkStep(s.(blinkCounter := s.blinkCounter + 1), [])
        else
          BlinkStep(s, []);
      BlinkStep(counted.state.(blinkStartTime := None), counted.logged)
    else
      BlinkStep(s, [])
  }

  /** The transitions of `UpdateBlink`. */
  lemma UpdateBlinkTransitions(s: BlinkState, ear: real, now: real)
    // the first closed frame records the start time; later ones change nothing
    ensures EyeClosed(ear) && s.blinkStartTime.None? ==>
      UpdateBlink(s, ear, now) == BlinkStep(s.(blinkStartTime := Some(now)), [])
    ensures EyeClosed(ear) && s.blinkStartTime.Some? ==> UpdateBlink(s, ear, now) == BlinkStep(s, [])
    // an open frame always leaves the eye open, and without a closure changes nothing
    ensures !EyeClosed(ear) ==> UpdateBlink(s, ear, now).state.blinkStartTime.None?
    ensures !EyeClosed(ear) && s.blinkStartTime.None? ==> UpdateBlink(s, ear, now) == BlinkStep(s, [])
    // reopening classifies the closure by its duration
    ensures !EyeClosed(ear) && s.blinkStartTime.Some? ==>
      var duration := now - s.blinkStartTime.value;
      (duration >= LongBlinkDurationSeconds ==>
         UpdateBlink(s, ear, now).state.longBlinkCounter == s.longBlinkCounter + 1 &&
         UpdateBlink(s, ear, now).state.blinkCounter == s.blinkCounter &&
         UpdateBlink(s, ear, now).logged == [Event(FatigueEventType, duration)]) &&
      (MinBlinkDurationSeconds <= duration <= MaxNormalBlinkDurationSeconds ==>
         UpdateBlink(s, ear, now).state.blinkCounter == s.blinkCounter + 1 &&
         UpdateBlink(s, ear, now).state.longBlinkCounter == s.longBlinkCounter &&
         UpdateBlink(s, ear, now).logged == []) &&
      (duration < MinBlinkDurationSeconds ||
       MaxNormalBlinkDurationSeconds < duration < LongBlinkDurationSeconds ==>
         UpdateBlink(s, ear, now).state.blinkCounter == s.blinkCounter &&
         UpdateBlink(s, ear, now).state.longBlinkCounter == s.longBlinkCounter &&
         UpdateBlink(s, ear, now).logged == [])
  {
  }

  /** The three kinds a finished closure can be classified as. */
  datatype BlinkKind = Ignored | Normal | Long

  /** Classification of a closure of `duration` seconds, read along the time axis:
      too short, normal, in the gap between normal and long, or long. */
  function ClassifyBlink(duration: real): (k: BlinkKind)
    ensures k == Long <==> duration >= LongBlinkDurationSeconds
    ensures k == Normal <==> MinBlinkDurationSeconds <= duration <= MaxNormalBlinkDurationSeconds
    ensures k == Ignored <==>
      duration < MinBlinkDurationSeconds ||
      MaxNormalBlinkDurationSeconds < duration < LongBlinkDurationSeconds
  {
    if duration < MinBlinkDurationSeconds then Ignored
    else if duration <= MaxNormalBlinkDurationSeconds then Normal
    else if duration < LongBlinkDurationSeconds then Ignored
    else Long
  }

  /** Reopening after a closure counts exactly the kind `ClassifyBlink` assigns to its
      duration, reports an event exactly for a long blink, and leaves the eye open. */
  lemma ReopenFollowsClassification(s: BlinkState, ear: real, now: real)
    requires !EyeClosed(ear) && s.blinkStartTime.Some?
    ensures var r := UpdateBlink(s, ear, now);
      var duration := now - s.blinkStartTime.value;
      var kind := ClassifyBlink(duration);
      r.state.blinkCounter == s.blinkCounter + (if kind == Normal then 1 else 0) &&
      r.state.longBlinkCounter == s.longBlinkCounter + (if kind == Long then 1 else 0) &&
      r.logged == (if kind == Long then [Event(FatigueEventType, duration)] else []) &&
      r.state.blinkStartTime.None?
  {
  }

  /** One update never lowers a counter, raises their sum by at most one, and reports
      an event exactly when it counts a long blink. */
  lemma UpdateBlinkCounts(s: BlinkState, ear: real, now: real)
    ensures var r := UpdateBlink(s, ear, now);
      s.blinkCounter <= r.state.blinkCounter &&
      s.longBlinkCounter <= r.state.longBlinkCounter &&
      r.state.blinkCounter + r.state.longBlinkCounter <= s.blinkCounter + s.longBlinkCounter + 1 &&
      |r.logged| == r.state.longBlinkCounter - s.longBlinkCounter &&
      (forall e :: e in r.logged ==>
         e.eventType == FatigueEventType && e.duration >= LongBlinkDurationSeconds)
  {
  }

  /** What the face mesh yields for one frame: no face, or the six landmarks of each eye
      in a frame of `height` by `width` pixels. */
  datatype EyeFrame = NoFace | Face(height: int, width: int, leftEye: EyeLandmarks, rightEye: EyeLandmarks)

  /** The reading a frame gives the state machine: None without a face, otherwise the
      mean of the two eyes' aspect ratios. */
  function FrameEar(frame: EyeFrame): (reading: Option<real>)
    ensures reading.None? <==> frame.NoFace?
    ensures reading.Some? ==> 0.0 <= reading.value
    ensures reading.Some? ==>
      (reading.value == 0.0 <==>
         CalculateEar(frame.leftEye, frame.height, frame.width) == 0.0 &&
         CalculateEar(frame.rightEye, frame.height, frame.width) == 0.0)
  {
    match frame
    case NoFace => None
    case Face(height, width, leftEye, rightEye) =>
      Some((CalculateEar(leftEye, height, width) + CalculateEar(rightEye, height, width)) / 2.0)
  }

  /** The state effect of `process_frame` on the frame's reading: without a face nothing
      changes, not even a pending start time; with a face the detector updates with the
      average EAR. */
  function ProcessBlinkReading(s: BlinkState, reading: Option<real>, now: real): BlinkStep
  {
    match reading
    case None => BlinkStep(s, [])
    case Some(ear) => UpdateBlink(s, ear, now)
  }

  /** A missing face leaves the state untouched and reports nothing, even in the middle
      of a closure; a reading updates the state as `_update_blink_counter` does. */
  lemma ProcessBlinkReadingEffect(s: BlinkState, reading: Option<real>, now: real)
    ensures reading.None? ==> ProcessBlinkReading(s, reading, now) == BlinkStep(s, [])
    ensures reading.Some? ==> ProcessBlinkReading(s, reading, now) == UpdateBlink(s, reading.value, now)
  {
  }

  /** A frame's reading together with the time it is processed at. */
  datatype TimedReading = TimedReading(reading: Option<real>, now: real)

  /** Processing a stream of readings in order: the final state and every event reported. */
  function RunBlink(s: BlinkState, frames: seq<TimedReading>): BlinkStep
    decreases |frames|
  {
    if frames == [] then BlinkStep(s, [])
    else
      var first := ProcessBlinkReading(s, frames[0].reading, frames[0].now);
      var rest := RunBlink(first.state, frames[1..]);
      BlinkStep(rest.state, first.logged + rest.logged)
  }

  /** Running two streams one after the other is running their concatenation. */
  lemma {:induction false} RunBlinkAppend(s: BlinkState, a: seq<TimedReading>, b: seq<TimedReading>)
    ensures var ra := RunBlink(s, a);
      var rb := RunBlink(ra.state, b);
      RunBlink(s, a + b) == BlinkStep(rb.state, ra.logged + rb.logged)
    decreases |a|
  {
    if a == [] {
      assert a + b == b;
    } else {
      assert (a + b)[0] == a[0];
      assert (a + b)[1..] == a[1..] + b;
      var first := ProcessBlinkReading(s, a[0].reading, a[0].now);
      RunBlinkAppend(first.state, a[1..], b);
      var ra := RunBlink(first.state, a[1..]);
      var rb := RunBlink(ra.state, b);
      assert first.logged + (ra.logged + rb.logged) == (first.logged + ra.logged) + rb.logged;
    }
  }

  /** Over any stream: counters never decrease, each frame counts at most one blink, and
      the events reported are exactly one fatigue event per long blink counted, each
      with a duration of at least the long-blink bound. */
  lemma {:induction false} RunBlinkReportsLongBlinks(s: BlinkState, frames: seq<TimedReading>)
    ensures var r := RunBlink(s, frames);
      s.blinkCounter <= r.state.blinkCounter &&
      s.longBlinkCounter <= r.state.longBlinkCounter &&
      r.state.blinkCounter + r.state.longBlinkCounter <= s.blinkCounter + s.longBlinkCounter + |frames| &&
      |r.logged| == r.state.longBlinkCounter - s.longBlinkCounter &&
      (forall i :: 0 <= i < |r.logged| ==>
         r.logged[i].eventType == FatigueEventType && r.logged[i].duration >= LongBlinkDurationSeconds)
    decreases |frames|
  {
    if frames != [] {
      var first := ProcessBlinkReading(s, frames[0].reading, frames[0].now);
      if frames[0].reading.Some? {
        UpdateBlinkCounts(s, frames[0].reading.value, frames[0].now);
      }
      RunBlinkReportsLongBlinks(first.state, frames[1..]);
      var rest := RunBlink(first.state, frames[1..]);
      forall i | 0 <= i < |first.logged + rest.logged|
        ensures (first.logged + rest.logged)[i].eventType == FatigueEventType
        ensures (first.logged + rest.logged)[i].duration >= LongBlinkDurationSeconds
      {
        if i < |first.logged| {
          assert (first.logged + rest.logged)[i] in first.logged;
        } else {
          assert (first.logged + rest.logged)[i] == rest.logged[i - |first.logged|];
        }
      }
    }
  }

  /** A reading in which the eye is seen closed, or no face is found. */
  predicate ClosedOrAbsent(reading: Option<real>)
  {
    reading.None? || EyeClosed(reading.value)
  }

  /** While a closure is in progress, closed-eye frames and frames without a face leave
      the state, including the start time, untouched and report nothing. */
  lemma {:induction false} PendingClosureKept(s: BlinkState, frames: seq<TimedReading>)
    requires s.blinkStartTime.Some?
    requires forall i :: 0 <= i < |frames| ==> ClosedOrAbsent(frames[i].reading)
    ensures RunBlink(s, frames) == BlinkStep(s, [])
  {
    if frames != [] {
      assert ClosedOrAbsent(frames[0].reading);
      PendingClosureKept(s, frames[1..]);
    }
  }

  /** A closure that starts at the first closed frame of `held` and lasts through frames
      that are closed or faceless, ended by an open-eye frame, is classified by the time
      from its first frame to the reopening frame: missing faces in between neither
      abort it nor restart its clock. */
  lemma HeldClosureClassified(s: BlinkState, held: seq<TimedReading>, reopen: TimedReading)
    requires s.blinkStartTime.None?
    requires |held| > 0 && held[0].reading.Some? && EyeClosed(held[0].reading.value)
    requires forall i :: 0 <= i < |held| ==> ClosedOrAbsent(held[i].reading)
    requires reopen.reading.Some? && !EyeClosed(reopen.reading.value)
    ensures var r := RunBlink(s, held + [reopen]);
      var duration := reopen.now - held[0].now;
      var kind := ClassifyBlink(duration);
      r.state.blinkCounter == s.blinkCounter + (if kind == Normal then 1 else 0) &&
      r.state.longBlinkCounter == s.longBlinkCounter + (if kind == Long then 1 else 0) &&
      r.state.blinkStartTime.None? &&
      r.logged == (if kind == Long then [Event(FatigueEventType, duration)] else [])
  {
    var started := ProcessBlinkReading(s, held[0].reading, held[0].now);
    assert started == BlinkStep(s.(blinkStartTime := Some(held[0].now)), []);
    PendingClosureKept(started.state, held[1..]);
    assert RunBlink(s, held) == BlinkStep(started.state, []);
    RunBlinkAppend(s, held, [reopen]);
    ReopenFollowsClassification(started.state, reopen.reading.value, reopen.now);
  }

  /** Worked cases with the configured bounds: a closure of 0.3 s is a normal blink, one
      of 1.2 s a long blink reported with its duration, one of 0.05 s is ignored, and one
      of 0.7 s falls in the gap between normal and long and is ignored too. */
  lemma BlinkScenarios()
    ensures UpdateBlink(BlinkState(0, 0, Some(0.0)), 0.3, 0.3) == BlinkStep(BlinkState(1, 0, None), [])
    ensures UpdateBlink(BlinkState(0, 0, Some(0.0)), 0.3, 1.2) ==
      BlinkStep(BlinkState(0, 1, None), [Event(FatigueEventType, 1.2)])
    ensures UpdateBlink(BlinkState(0, 0, Some(0.0)), 0.3, 0.05) == BlinkStep(BlinkState(0, 0, None), [])
    ensures UpdateBlink(BlinkState(0, 0, Some(0.0)), 0.3, 0.7) == BlinkStep(BlinkState(0, 0, None), [])
    ensures UpdateBlink(InitialBlinkState, EarThreshold, 0.0) == BlinkStep(InitialBlinkState, [])
  {
  }

  class BlinkDetector {
    var blinkCounter: nat
    var longBlinkCounter: nat
    var blinkStartTime: Option<real>
    const dataController: DataController
    /** The latest time the detector has been driven at. */
    ghost var lastTime: real

    /** A pending closure never starts after the latest time seen. */
    ghost predicate Valid()
      reads this
    {
      blinkStartTime.Some? ==> blinkStartTime.value <= lastTime
    }

    /** The detector's state as a value. */
    function State(): BlinkState
      reads this
    {
      BlinkState(blinkCounter, longBlinkCounter, blinkStartTime)
    }

    constructor (dataController: DataController)
      ensures Valid() && State() == InitialBlinkState
      ensures this.dataController == dataController && lastTime == 0.0
    {
      blinkCounter := 0;
      longBlinkCounter := 0;
      blinkStartTime := None;
      this.dataController := dataController;
      lastTime := 0.0;
    }

    /** `_update_blink_counter`, with the clock reading `now`. */
    method UpdateBlinkCounter(ear: real, now: real)
      requires Valid() && lastTime <= now
      modifies this, dataController
      ensures Valid() && lastTime == now
      ensures State() == UpdateBlink(old(State()), ear, now).state
      ensures dataController.events == old(dataController.events) + UpdateBlink(old(State()), ear, now).logged
    {
      if ear < EarThreshold {
        if blinkStartTime.None? {
          blinkStartTime := Some(now);
        }
      } else if blinkStartTime.Some? {
        var duration := now - blinkStartTime.value;
        if duration >= LongBlinkDurationSeconds {
          longBlinkCounter := longBlinkCounter + 1;
          dataController.AddEventToSession(FatigueEventType, duration);
        } else if MinBlinkDurationSeconds <= duration <= MaxNormalBlinkDurationSeconds {
          blinkCounter := blinkCounter + 1;
        }
        blinkStartTime := None;
      }
      lastTime := now;
    }

    /** `process_frame`: returns the two counters after the frame. */
    method ProcessFrame(frame: EyeFrame, now: real) returns (blinkCount: nat, longBlinkCount: nat)
      requires Valid() && lastTime <= now
      modifies this, dataController
      ensures Valid() && lastTime == now
      ensures State() == ProcessBlinkReading(old(State()), FrameEar(frame), now).state
      ensures dataController.events == old(dataController.events) + ProcessBlinkReading(old(State()), FrameEar(frame), now).logged
      ensures blinkCount == blinkCounter && longBlinkCount == longBlinkCounter
    {
      if frame.Face? {
        var leftEar := CalculateEar(frame.leftEye, frame.height, frame.width);
        var rightEar := CalculateEar(frame.rightEye, frame.height, frame.width);
        var averageEar := (leftEar + rightEar) / 2.0;
        UpdateBlinkCounter(averageEar, now);
      } else {
        lastTime := now;
      }
      blinkCount, longBlinkCount := blinkCounter, longBlinkCounter;
    }
  }
}
