/**
 * The yawn detector (modules/yawnDetector.py): the blink detector's two-state machine
 * with the comparison inverted (the mouth aspect ratio above the yawn threshold is the
 * active state) and a single duration floor. Unlike the blink detector, a frame whose
 * measurement cannot be trusted (no face, too few landmarks, an error while computing
 * the ratio) aborts a yawn in progress without counting it and marks the frame
 * unreliable.
 *
 * The mouth aspect ratio itself (utils/marDetector.py) is an input; the model keeps
 * only which landmarks its computation reads, because reading a missing one raises
 * the error this detector catches.
 */
module YawnDetection {
  import opened Wrappers
  import opened Controllers

  /** The configuration the detector reads: the yawn threshold, the shortest yawn in
      seconds, the landmark indexes of the mouth-ratio points (whose largest index
      decides whether a face has enough landmarks) and the mouth contour indexes that
      are collected for drawing. */
  datatype YawnConfig = YawnConfig(yawnThreshold: real, minYawnDurationSeconds: real,
                                   marCalcIndexes: seq<nat>, mouthIndexes: seq<nat>)

  /** Taking the largest of the ratio indexes needs at least one of them. */
  predicate ValidConfig(config: YawnConfig)
  {
    |config.marCalcIndexes| > 0
  }

  /** The landmarks `calculate_mar` reads directly: the two lip centres and the two
      mouth corners. */
  const MarLandmarkIndexes: seq<nat> := [13, 14, 78, 308]

  /** Python's `max` of a non-empty collection of indexes. */
  function MaxIndex(indexes: seq<nat>): (m: nat)
    requires |indexes| > 0
    ensures m in indexes
    ensures forall i :: i in indexes ==> i <= m
  {
    if |indexes| == 1 then indexes[0]
    else
      var rest := MaxIndex(indexes[1..]);
      assert forall i :: i in indexes ==> i == indexes[0] || i in indexes[1..];
      if indexes[0] >= rest then indexes[0] else rest
  }

  /** Every index in `indexes` names a landmark of a face with `count` landmarks. */
  predicate AllPresent(indexes: seq<nat>, count: nat)
  {
    forall i :: i in indexes ==> i < count
  }

  /** The guard of `process_frame`: more landmarks than the largest ratio index. It holds
      exactly when every landmark the ratio needs exists. */
  function LandmarksSufficient(config: YawnConfig, count: nat): (ok: bool)
    requires ValidConfig(config)
    ensures ok <==> AllPresent(config.marCalcIndexes, count)
  {
    count > MaxIndex(config.marCalcIndexes)
  }

  /** The detector's state: the yawn counter, the start time of the yawn in progress
      (None while the mouth is not yawning) and whether the last frame was measured
      reliably. */
  datatype YawnState = YawnState(yawnCounter: nat, yawnStartTime: Option<real>, detectionReliable: bool)

  /** The state of a freshly constructed detector. */
  const InitialYawnState: YawnState := YawnState(0, None, true)

  /** The state after one step and the events it handed to the data controller. */
  datatype YawnStep = YawnStep(state: YawnState, logged: seq<Event>)

  /** The mouth counts as yawning strictly above the threshold. */
  predicate Yawning(config: YawnConfig, mar: real)
  {
    mar > config.yawnThreshold
  }

  /** `_update_yawn_counter` at time `now`. */
  function UpdateYawn(config: YawnConfig, s: YawnState, mar: real, now: real): YawnStep
  {
    if mar > config.yawnThreshold then
      if s.yawnStartTime.None? then YawnStep(s.(yawnStartTime := Some(now)), [])
      else YawnStep(s, [])
    else if s.yawnStartTime.Some? then
      var duration := now - s.yawnStartTime.value;
      var counted :=
        if duration >= config.minYawnDurationSeconds then
          YawnStep(s.(yawnCounter := s.yawnCounter + 1), [Event(YawnEventType, duration)])
        else
          YawnStep(s, []);
      YawnStep(counted.state.(yawnStartTime := None), counted.logged)
    else
      YawnStep(s, [])
  }

  /** The transitions of `UpdateYawn`. */
  lemma UpdateYawnTransitions(config: YawnConfig, s: YawnState, mar: real, now: real)
    // the first yawning frame records the start time; later ones change nothing
    ensures Yawning(config, mar) && s.yawnStartTime.None? ==>
      UpdateYawn(config, s, mar, now) == YawnStep(s.(yawnStartTime := Some(now)), [])
    ensures Yawning(config, mar) && s.yawnStartTime.Some? ==>
      UpdateYawn(config, s, mar, now) == YawnStep(s, [])
    // a frame at or below the threshold always ends the yawn, and without one changes nothing
    ensures !Yawning(config, mar) ==> UpdateYawn(config, s, mar, now).state.yawnStartTime.None?
    ensures !Yawning(config, mar) && s.yawnStartTime.None? ==>
      UpdateYawn(config, s, mar, now) == YawnStep(s, [])
    // ending a yawn counts and reports it when it lasted long enough
    ensures !Yawning(config, mar) && s.yawnStartTime.Some? ==>
      var duration := now - s.yawnStartTime.value;
      (duration >= config.minYawnDurationSeconds ==>
         UpdateYawn(config, s, mar, now) ==
           YawnStep(YawnState(s.yawnCounter + 1, None, s.detectionReliable), [Event(YawnEventType, duration)])) &&
      (duration < config.minYawnDurationSeconds ==>
         UpdateYawn(config, s, mar, now) == YawnStep(s.(yawnStartTime := None), []))
  {
  }

  /** One update never lowers the counter, raises it by at most one, reports an event
      exactly when it counts a yawn, and leaves the reliability flag alone. */
  lemma UpdateYawnCounts(config: YawnConfig, s: YawnState, mar: real, now: real)
    ensures var r := UpdateYawn(config, s, mar, now);
      s.yawnCounter <= r.state.yawnCounter <= s.yawnCounter + 1 &&
      |r.logged| == r.state.yawnCounter - s.yawnCounter &&
      r.state.detectionReliable == s.detectionReliable &&
      (forall e :: e in r.logged ==>
         e.eventType == YawnEventType && e.duration >= config.minYawnDurationSeconds)
  {
  }

  /** What the face mesh yields for one frame: no face, or a face with `landmarkCount`
      landmarks whose mouth aspect ratio is `mar`. */
  datatype MouthFrame = NoFace | Face(landmarkCount: nat, mar: real)

  /** A frame `process_frame` measures reliably: a face with enough landmarks for the
      guard, for the landmarks `calculate_mar` reads, and for the mouth contour it
      collects for drawing. */
  predicate FrameReliable(config: YawnConfig, frame: MouthFrame)
    requires ValidConfig(config)
  {
    frame.Face? &&
    LandmarksSufficient(config, frame.landmarkCount) &&
    AllPresent(MarLandmarkIndexes, frame.landmarkCount) &&
    AllPresent(config.mouthIndexes, frame.landmarkCount)
  }

  /** A frame on which `process_frame` gets as far as updating the counter: a face that
      passes the guard and whose ratio can be computed. */
  predicate FrameUpdates(config: YawnConfig, frame: MouthFrame)
    requires ValidConfig(config)
  {
    frame.Face? &&
    LandmarksSufficient(config, frame.landmarkCount) &&
    AllPresent(MarLandmarkIndexes, frame.landmarkCount)
  }

  /** The state effect of `process_frame`. The reliability flag is set at the start of
      the frame and cleared, together with the start time, on each failure path: no
      face, too few landmarks, a missing landmark while computing the ratio (before the
      update), or a missing contour landmark while collecting the points to draw (after
      the update). */
  function ProcessYawnFrame(config: YawnConfig, s: YawnState, frame: MouthFrame, now: real): YawnStep
    requires ValidConfig(config)
  {
    var reset := s.(detectionReliable := true);
    var aborted := reset.(yawnStartTime := None, detectionReliable := false);
    match frame
    case NoFace => YawnStep(aborted, [])
    case Face(count, mar) =>
      if count > MaxIndex(config.marCalcIndexes) then
        if !AllPresent(MarLandmarkIndexes, count) then
          YawnStep(aborted, [])
        else
          var updated := UpdateYawn(config, reset, mar, now);
          if !AllPresent(config.mouthIndexes, count) then
            YawnStep(updated.state.(yawnStartTime := None, detectionReliable := false), updated.logged)
          else
            updated
      else
        YawnStep(aborted, [])
  }

  /** What one frame does: the flag ends up true exactly on a reliable frame; an
      unreliable frame always leaves no yawn in progress; a frame that does not reach
      the update counts and reports nothing; a reliable frame is exactly an update. */
  lemma ProcessYawnFrameEffect(config: YawnConfig, s: YawnState, frame: MouthFrame, now: real)
    requires ValidConfig(config)
    ensures var r := ProcessYawnFrame(config, s, frame, now);
      (r.state.detectionReliable <==> FrameReliable(config, frame)) &&
      (!FrameReliable(config, frame) ==> r.state.yawnStartTime.None?) &&
      (!FrameUpdates(config, frame) ==> r.state.yawnCounter == s.yawnCounter && r.logged == []) &&
      (FrameUpdates(config, frame) ==>
         r.state.yawnCounter == UpdateYawn(config, s, frame.mar, now).state.yawnCounter &&
         r.logged == UpdateYawn(config, s, frame.mar, now).logged) &&
      (FrameReliable(config, frame) ==>
         r == UpdateYawn(config, s.(detectionReliable := true), frame.mar, now))
  {
    if frame.Face? {
      UpdateYawnCounts(config, s, frame.mar, now);
      UpdateYawnCounts(config, s.(detectionReliable := true), frame.mar, now);
    }
  }

  /** The flag a frame starts from makes no difference: reliability is judged afresh on
      every frame. */
  lemma ReliabilityJudgedPerFrame(config: YawnConfig, s: YawnState, frame: MouthFrame, now: real, flag: bool)
    requires ValidConfig(config)
    ensures ProcessYawnFrame(config, s.(detectionReliable := flag), frame, now) ==
            ProcessYawnFrame(config, s, frame, now)
  {
  }

  /** A frame together with the time it is processed at. */
  datatype TimedMouthFrame = TimedMouthFrame(frame: MouthFrame, now: real)

  /** Processing a stream of frames in order: the final state and every event reported. */
  function RunYawn(config: YawnConfig, s: YawnState, frames: seq<TimedMouthFrame>): YawnStep
    requires ValidConfig(config)
    decreases |frames|
  {
    if frames == [] then YawnStep(s, [])
    else
      var first := ProcessYawnFrame(config, s, frames[0].frame, frames[0].now);
      var rest := RunYawn(config, first.state, frames[1..]);
      YawnStep(rest.state, first.logged + rest.logged)
  }

  /** Running two streams one after the other is running their concatenation. */
  lemma {:induction false} RunYawnAppend(config: YawnConfig, s: YawnState,
                                         a: seq<TimedMouthFrame>, b: seq<TimedMouthFrame>)
    requires ValidConfig(config)
    ensures var ra := RunYawn(config, s, a);
      var rb := RunYawn(config, ra.state, b);
      RunYawn(config, s, a + b) == YawnStep(rb.state, ra.logged + rb.logged)
    decreases |a|
  {
    if a == [] {
      assert a + b == b;
    } else {
      assert (a + b)[0] == a[0];
      assert (a + b)[1..] == a[1..] + b;
      var first := ProcessYawnFrame(config, s, a[0].frame, a[0].now);
      RunYawnAppend(config, first.state, a[1..], b);
      var ra := RunYawn(config, first.state, a[1..]);
      var rb := RunYawn(config, ra.state, b);
      assert first.logged + (ra.logged + rb.logged) == (first.logged + ra.logged) + rb.logged;
    }
  }

  /** Over any stream: the counter never decreases, each frame counts at most one yawn,
      and the events reported are exactly one yawn event per yawn counted, each with a
      duration of at least the configured floor. */
  lemma {:induction false} RunYawnReportsYawns(config: YawnConfig, s: YawnState, frames: seq<TimedMouthFrame>)
    requires ValidConfig(config)
    ensures var r := RunYawn(config, s, frames);
      s.yawnCounter <= r.state.yawnCounter <= s.yawnCounter + |frames| &&
      |r.logged| == r.state.yawnCounter - s.yawnCounter &&
      (forall i :: 0 <= i < |r.logged| ==>
         r.logged[i].eventType == YawnEventType && r.logged[i].duration >= config.minYawnDurationSeconds)
    decreases |frames|
  {
    if frames != [] {
      var first := ProcessYawnFrame(config, s, frames[0].frame, frames[0].now);
      ProcessYawnFrameEffect(config, s, frames[0].frame, frames[0].now);
      if frames[0].frame.Face? {
        UpdateYawnCounts(config, s, frames[0].frame.mar, frames[0].now);
      }
      RunYawnReportsYawns(config, first.state, frames[1..]);
      var rest := RunYawn(config, first.state, frames[1..]);
      forall i | 0 <= i < |first.logged + rest.logged|
        ensures (first.logged + rest.logged)[i].eventType == YawnEventType
        ensures (first.logged + rest.logged)[i].duration >= config.minYawnDurationSeconds
      {
        if i < |first.logged| {
          assert (first.logged + rest.logged)[i] in first.logged;
        } else {
          assert (first.logged + rest.logged)[i] == rest.logged[i - |first.logged|];
        }
      }
    }
  }

  /** A reliable frame in which the mouth is yawning. */
  predicate YawningFrame(config: YawnConfig, frame: MouthFrame)
    requires ValidConfig(config)
  {
    FrameReliable(config, frame) && Yawning(config, frame.mar)
  }

  /** While a yawn is in progress, further reliable yawning frames leave the counter and
      the start time untouched and report nothing. */
  lemma {:induction false} PendingYawnKept(config: YawnConfig, s: YawnState, frames: seq<TimedMouthFrame>)
    requires ValidConfig(config)
    requires s.yawnStartTime.Some? && s.detectionReliable
    requires forall i :: 0 <= i < |frames| ==> YawningFrame(config, frames[i].frame)
    ensures RunYawn(config, s, frames) == YawnStep(s, [])
    decreases |frames|
  {
    if frames != [] {
      assert YawningFrame(config, frames[0].frame);
      ProcessYawnFrameEffect(config, s, frames[0].frame, frames[0].now);
      PendingYawnKept(config, s, frames[1..]);
    }
  }

  /** A yawn held over reliable yawning frames and ended by a reliable frame at or below
      the threshold is counted, with one event, exactly when the time from its first
      frame to the ending frame reaches the floor. */
  lemma HeldYawnCounted(config: YawnConfig, s: YawnState, held: seq<TimedMouthFrame>, end: TimedMouthFrame)
    requires ValidConfig(config)
    requires s.yawnStartTime.None?
    requires |held| > 0
    requires forall i :: 0 <= i < |held| ==> YawningFrame(config, held[i].frame)
    requires FrameReliable(config, end.frame) && !Yawning(config, end.frame.mar)
    ensures var r := RunYawn(config, s, held + [end]);
      var duration := end.now - held[0].now;
      r.state.yawnStartTime.None? && r.state.detectionReliable &&
      (duration >= config.minYawnDurationSeconds ==>
         r.state.yawnCounter == s.yawnCounter + 1 && r.logged == [Event(YawnEventType, duration)]) &&
      (duration < config.minYawnDurationSeconds ==>
         r.state.yawnCounter == s.yawnCounter && r.logged == [])
  {
    assert YawningFrame(config, held[0].frame);
    var started := ProcessYawnFrame(config, s, held[0].frame, held[0].now);
    ProcessYawnFrameEffect(config, s, held[0].frame, held[0].now);
    assert started == YawnStep(YawnState(s.yawnCounter, Some(held[0].now), true), []);
    PendingYawnKept(config, started.state, held[1..]);
    assert RunYawn(config, s, held) == YawnStep(started.state, []);
    RunYawnAppend(config, s, held, [end]);
    ProcessYawnFrameEffect(config, started.state, end.frame, end.now);
  }

  /** A yawn in progress that is interrupted by a frame that fails before the update
      (no face, too few landmarks, a ratio that cannot be computed) is lost: a following
      reliable frame at or below the threshold counts nothing. */
  lemma UnreliableFrameAbortsYawn(config: YawnConfig, s: YawnState, broken: TimedMouthFrame, end: TimedMouthFrame)
    requires ValidConfig(config)
    requires s.yawnStartTime.Some?
    requires !FrameUpdates(config, broken.frame)
    requires FrameReliable(config, end.frame) && !Yawning(config, end.frame.mar)
    ensures var r := RunYawn(config, s, [broken, end]);
      r.state.yawnCounter == s.yawnCounter && r.logged == [] && r.state.yawnStartTime.None?
  {
    var first := ProcessYawnFrame(config, s, broken.frame, broken.now);
    ProcessYawnFrameEffect(config, s, broken.frame, broken.now);
    ProcessYawnFrameEffect(config, first.state, end.frame, end.now);
    var last := ProcessYawnFrame(config, first.state, end.frame, end.now);
    assert [broken, end][1..] == [end];
    assert RunYawn(config, first.state, [end]) == YawnStep(last.state, last.logged + []);
  }

  class YawnDetector {
    var yawnCounter: nat
    var yawnStartTime: Option<real>
    var detectionReliable: bool
    const config: YawnConfig
    const dataController: DataController
    /** The latest time the detector has been driven at. */
    ghost var lastTime: real

    /** The configuration is usable and a pending yawn never starts after the latest
        time seen. */
    ghost predicate Valid()
      reads this
    {
      ValidConfig(config) &&
      (yawnStartTime.Some? ==> yawnStartTime.value <= lastTime)
    }

    /** The detector's state as a value. */
    function State(): YawnState
      reads this
    {
      YawnState(yawnCounter, yawnStartTime, detectionReliable)
    }

    constructor (dataController: DataController, config: YawnConfig)
      requires ValidConfig(config)
      ensures Valid() && State() == InitialYawnState
      ensures this.dataController == dataController && this.config == config && lastTime == 0.0
    {
      yawnCounter := 0;
      yawnStartTime := None;
      detectionReliable := true;
      this.dataController := dataController;
      this.config := config;
      lastTime := 0.0;
    }

    /** `_update_yawn_counter`, with the clock reading `now`. */
    method UpdateYawnCounter(mar: real, now: real)
      requires Valid() && lastTime <= now
      modifies this, dataController
      ensures Valid() && lastTime == now
      ensures State() == UpdateYawn(config, old(State()), mar, now).state
      ensures dataController.events == old(dataController.events) + UpdateYawn(config, old(State()), mar, now).logged
    {
      if mar > config.yawnThreshold {
        if yawnStartTime.None? {
          yawnStartTime := Some(now);
        }
      } else if yawnStartTime.Some? {
        var duration := now - yawnStartTime.value;
        if duration >= config.minYawnDurationSeconds {
          yawnCounter := yawnCounter + 1;
          dataController.AddEventToSession(YawnEventType, duration);
        }
        yawnStartTime := None;
      }
      lastTime := now;
    }

    /** `process_frame`: returns the yawn counter after the frame. */
    method ProcessFrame(frame: MouthFrame, now: real) returns (yawnCount: nat)
      requires Valid() && lastTime <= now
      modifies this, dataController
      ensures Valid() && lastTime == now
      ensures State() == ProcessYawnFrame(config, old(State()), frame, now).state
      ensures dataController.events == old(dataController.events) + ProcessYawnFrame(config, old(State()), frame, now).logged
      ensures yawnCount == yawnCounter
    {
      detectionReliable := true;
      if frame.Face? {
        if frame.landmarkCount > MaxIndex(config.marCalcIndexes) {
          if !AllPresent(MarLandmarkIndexes, frame.landmarkCount) {
            // calculate_mar reads a landmark the face does not have
            yawnStartTime := None;
            detectionReliable := false;
          } else {
            UpdateYawnCounter(frame.mar, now);
            if !AllPresent(config.mouthIndexes, frame.landmarkCount) {
              // collecting the mouth contour for drawing reads a missing landmark
              yawnStartTime := None;
              detectionReliable := false;
            }
          }
        } else {
          yawnStartTime := None;
          detectionReliable := false;
        }
      } else {
        yawnStartTime := None;
        detectionReliable := false;
      }
      lastTime := now;
      yawnCount := yawnCounter;
    }
  }
}
