# Fatigue detector: blink and yawn state machines

A model of the per-frame classification core of a webcam fatigue detector. Each
video frame gives an eye aspect ratio (EAR) and a mouth aspect ratio (MAR), or no
face at all. Two detectors turn these per-frame values into events.

- The **blink detector** is a two-state machine: the eye is open, or closed since a
  recorded start time. "Closed" means the EAR is strictly below 0.22. When the eye
  reopens, the closure is classified by its duration:
  - a **long blink** (at least 1.0 s) is counted and reported to the data controller
    as a `"fatiga"` event;
  - a **normal blink** (0.1 s to 0.5 s inclusive) is counted;
  - anything else is ignored: shorter than 0.1 s, or in the gap between 0.5 s and 1.0 s.

  A frame without a face changes nothing. A closure in progress survives missing faces.
- The **yawn detector** is the same machine with the comparison inverted ("yawning"
  means the MAR is strictly above the yawn threshold) and a single duration floor. A
  yawn is counted and reported as a `"bostezo"` event. Unlike the blink detector, a
  frame that cannot be measured reliably aborts a yawn in progress without counting
  it, and clears the reliability flag. Such a frame has no face, has too few
  landmarks, or raises an error while the ratio is computed or the points are
  collected.
- **calculate_ear** is the EAR of one eye: the two vertical lid gaps over twice the
  eye width, or 0.0 when the width is zero. Every distance in it is the norm of a
  vector with one zero component. So it is an absolute difference of integer pixel
  coordinates, and the whole formula is exact over integers and reals.

Layout:

- `wrappers.dfy`: `Option`.
- `config.dfy`: the blink constants of config.py.
- `controllers.dfy`: the data controller, reduced to an append-only event log.
- `ear_detector.dfy`: the EAR formula, as functions and lemmas.
- `blink_detector.dfy`, `yawn_detector.dfy`: each has two parts.
  - Pure step functions (`UpdateBlink`, `ProcessBlinkReading`, `UpdateYawn`,
    `ProcessYawnFrame`), with lemmas about one step and about whole streams of frames
    (`RunBlink`, `RunYawn`).
  - Classes `BlinkDetector` and `YawnDetector`. They hold the source's fields, and
    their methods are proved to change those fields and the event log exactly as the
    step functions say.

Modelling choices:

- Time is a `real` parameter `now` (seconds), standing for `time.time()`. Each class
  keeps a ghost `lastTime` and requires `now` to be non-decreasing.
- Python floats are modelled as exact reals. Python's `int()` on a float is truncation
  toward zero (`EarDetector.Truncate`).
- `EAR_THRESHOLD` is assigned twice in config.py (lines 9 and 54). The later value,
  0.22, is the one in effect and the one modelled.
- config.py does not define `YAWN_THRESHOLD`, `MIN_YAWN_DURATION_SECONDS`,
  `MOUTH_INDEXES_FOR_MAR_CALC` or `MOUTH_INDEXES`. They form the `YawnConfig` passed
  to the yawn detector's constructor. `max()` of an empty index set would raise
  outside the `try`, so the ratio index list must be non-empty (`ValidConfig`).
- The MAR value is an input. What the model keeps of `calculate_mar`
  (utils/marDetector.py) is the landmarks it reads: 13, 14, 78 and 308. A face with
  too few landmarks for those raises `IndexError` inside the `try`, before the counter
  is updated. A face with too few landmarks for `MOUTH_INDEXES` raises while the
  drawing points are collected, which is after the update. In that case the update
  has already counted (and reported) any yawn it ended, and the start time is then
  cleared again.
- The blink detector does not reset a pending closure when no face is found
  (modules/blinkDetector.py:79-94). The model keeps this: a closure spanning faceless
  frames is classified by the time from its first closed frame to the reopening frame
  (`HeldClosureClassified`).

## Model

| member | source | states |
|---|---|---|
| `EarDetector.Truncate` | utils/earDetector.py:16-22 | Python `int()` of a float truncates toward zero: the result is within one of the input, on the same side of zero and no farther from zero |
| `EarDetector.AxisDistance` | utils/earDetector.py:26-28 | the distance between two points on one axis is zero exactly when the coordinates are equal |
| `EarDetector.AxisDistanceIsEuclidean` | utils/earDetector.py:26-28 | that distance is the Euclidean norm of the difference vector with a zero component, its square being the squared norm; it is symmetric |
| `EarDetector.EarFromPixels` | utils/earDetector.py:26-35 | the EAR is never negative; it is 0.0 when the eye width is zero; otherwise EAR times twice the width equals the sum of the two lid gaps; it is 0.0 exactly when the width is zero or both lid pairs coincide |
| `EarDetector.CalculateEar` | utils/earDetector.py:16-35 | on landmarks in normalised coordinates: non-negative; 0.0 when the corners fall on the same pixel column; 0.0 exactly when that happens or both lid pairs fall on the same pixel rows |
| `EarDetector.EarReadsSixCoordinates` | utils/earDetector.py:16-22 | the EAR depends only on the y of P2, P3, P5, P6 and the x of P1, P4 |
| `EarDetector.EarSymmetric` | utils/earDetector.py:26-28 | swapping P1 with P4, P2 with P6, or P3 with P5 leaves the EAR unchanged |
| `EarDetector.EarMonotoneInLidGap` | utils/earDetector.py:35 | with a non-zero width, widening one lid gap never lowers the EAR |
| `Controllers.DataController.constructor` | app/controllers.py:7-10 | a new controller has logged no events |
| `Controllers.DataController.AddEventToSession` | app/controllers.py:25-42 | adding an event appends exactly that event (type and duration) to the session's log |
| `BlinkDetection.UpdateBlinkTransitions` | modules/blinkDetector.py:31-67 | a closed frame (EAR strictly below the threshold) with the eye open records `now` as start; with a closure in progress it changes nothing; an open frame (threshold included) always leaves no closure pending, and with none pending changes nothing; on reopening, a duration of at least 1.0 s adds one long blink and one fatigue event with that duration, 0.1 s to 0.5 s adds one normal blink and no event, and below 0.1 s or between 0.5 s and 1.0 s changes no counter and reports nothing |
| `BlinkDetection.ClassifyBlink` | modules/blinkDetector.py:50-64 | a closure is long exactly when it lasts at least 1.0 s, normal exactly when it lasts 0.1 s to 0.5 s, and ignored exactly when it is shorter than 0.1 s or strictly between 0.5 s and 1.0 s |
| `BlinkDetection.ReopenFollowsClassification` | modules/blinkDetector.py:46-67 | reopening adds one to the counter of the kind the closure is classified as (none when ignored), reports one fatigue event exactly for a long blink, and leaves the eye open |
| `BlinkDetection.UpdateBlinkCounts` | modules/blinkDetector.py:51-64 | one update never lowers a counter and raises their sum by at most one; it reports as many events as long blinks it counts, each a fatigue event of at least 1.0 s |
| `BlinkDetection.FrameEar` | modules/blinkDetector.py:79-87 | a frame gives no reading exactly when it has no face; otherwise its reading is the non-negative mean of the two eyes' EAR, zero exactly when both are zero |
| `BlinkDetection.ProcessBlinkReadingEffect` | modules/blinkDetector.py:79-94 | without a face the state (a pending start time included) is untouched and nothing is reported; with one the detector updates with the average EAR |
| `BlinkDetection.RunBlinkAppend` | modules/blinkDetector.py:69-94 | processing two streams of frames one after the other is processing their concatenation |
| `BlinkDetection.RunBlinkReportsLongBlinks` | modules/blinkDetector.py:51-64 | over any stream of frames both counters never decrease, the counted blinks grow by at most one per frame, and the reported events are exactly one fatigue event per long blink counted, each lasting at least 1.0 s |
| `BlinkDetection.PendingClosureKept` | modules/blinkDetector.py:38-41 | while a closure is in progress, closed-eye and faceless frames leave the whole state untouched and report nothing |
| `BlinkDetection.HeldClosureClassified` | modules/blinkDetector.py:38-67 | a closure started by a closed frame, held through closed or faceless frames and ended by an open frame is classified by the time from its first frame to the reopening frame |
| `BlinkDetection.BlinkScenarios` | config.py:54-63 | with the configured bounds, closures of 0.3 s, 1.2 s, 0.05 s and 0.7 s give a normal blink, a long blink with a 1.2 s event, nothing, and nothing; an EAR equal to the threshold counts as open |
| `BlinkDetection.BlinkDetector.constructor` | modules/blinkDetector.py:24-29 | a new detector has both counters at zero, no closure pending, and holds the given data controller |
| `BlinkDetection.BlinkDetector.UpdateBlinkCounter` | modules/blinkDetector.py:31-67 | the fields change exactly as `UpdateBlink` says, the controller's log grows by exactly the events it reports, and a pending start time never lies after the latest time seen |
| `BlinkDetection.BlinkDetector.ProcessFrame` | modules/blinkDetector.py:69-94 | the fields and the log change exactly as `ProcessBlinkReading` on the frame's reading says, and the two returned counts are the counters after the frame |
| `YawnDetection.MaxIndex` | modules/yawnDetector.py:58-59 | the largest index is one of the indexes and no index exceeds it |
| `YawnDetection.LandmarksSufficient` | modules/yawnDetector.py:58-59 | the guard `len(landmarks) > max(required)` holds exactly when every required landmark exists |
| `YawnDetection.UpdateYawnTransitions` | modules/yawnDetector.py:24-41 | a frame strictly above the yawn threshold with no yawn pending records `now` as start; with one pending it changes nothing; a frame at or below it always leaves no yawn pending; ending a yawn of at least the floor adds one to the counter and reports one yawn event with that duration; a shorter one only clears the start time |
| `YawnDetection.UpdateYawnCounts` | modules/yawnDetector.py:31-41 | one update never lowers the counter and raises it by at most one; it reports exactly one yawn event (at least the floor long) per yawn counted, and leaves the reliability flag alone |
| `YawnDetection.ProcessYawnFrameEffect` | modules/yawnDetector.py:52-80 | after a frame the flag is true exactly when the frame is reliable; an unreliable frame leaves no yawn pending; a frame failing before the update (no face, too few landmarks, an error computing the ratio) counts and reports nothing; a frame that reaches the update counts as the update does; a reliable frame is exactly an update |
| `YawnDetection.ReliabilityJudgedPerFrame` | modules/yawnDetector.py:52 | the flag a frame starts from does not affect its outcome |
| `YawnDetection.RunYawnAppend` | modules/yawnDetector.py:43-87 | processing two streams of frames one after the other is processing their concatenation |
| `YawnDetection.RunYawnReportsYawns` | modules/yawnDetector.py:31-41 | over any stream the counter never decreases and grows by at most one per frame; the reported events are exactly one yawn event per yawn counted, each at least the floor long |
| `YawnDetection.PendingYawnKept` | modules/yawnDetector.py:28-30 | while a yawn is in progress, reliable yawning frames change nothing and report nothing |
| `YawnDetection.HeldYawnCounted` | modules/yawnDetector.py:28-41 | a yawn held over reliable yawning frames and ended by a reliable frame at or below the threshold is counted, with one event, exactly when it lasted at least the floor |
| `YawnDetection.UnreliableFrameAbortsYawn` | modules/yawnDetector.py:70-80 | a yawn in progress that meets a frame failing before the update is lost: the next reliable non-yawning frame counts and reports nothing |
| `YawnDetection.YawnDetector.constructor` | modules/yawnDetector.py:18-22 | a new detector has a zero counter, no yawn pending, the flag set, and holds the given controller and configuration |
| `YawnDetection.YawnDetector.UpdateYawnCounter` | modules/yawnDetector.py:24-41 | the fields change exactly as `UpdateYawn` says, and the controller's log grows by exactly the events it reports |
| `YawnDetection.YawnDetector.ProcessFrame` | modules/yawnDetector.py:43-87 | the fields and the log change exactly as `ProcessYawnFrame` says, and the returned count is the counter after the frame |

## Left out

- Face-mesh inference (MediaPipe), colour conversion and every OpenCV drawing call
  (`_draw_info`, `_draw_eye_landmarks`, `_draw_mouth_landmarks`, `_draw_alert_message`).
  These are foreign library calls and presentation. A frame is either "no face" or
  the values the mesh would yield. The only drawing step kept is the collection of
  `MOUTH_INDEXES` points, because it can raise inside the yawn detector's `try`.
- `close()` of both detectors: it releases the face-mesh model, which is not modelled.
- `calculate_mar` (utils/marDetector.py): it uses a Euclidean distance with a square
  root. The ratio is an input. Only the landmarks it reads are modelled.
- Other exceptions the yawn detector's `try` could catch: float errors in
  `calculate_mar`, and failures inside OpenCV. The model raises only for missing
  landmarks.
- main.py: the camera loop, window display and key handling. Streams of frames
  appear only as the specification functions `RunBlink` and `RunYawn`.
- The data controller's database session: starting and ending a session, commits,
  rollbacks, and dropping an event when no session is active or the commit fails.
  The controller is an append-only log of (type, duration) events.
- The event descriptions (text with the duration to two decimals) and every `print`.
- utils/beepAlert.py: audio synthesis on a background thread; nothing shown calls it.
- Wall-clock behaviour of `time.time()`: the model requires time never to go
  backwards. The step functions accept any `now`; a negative duration falls in the
  ignored range.
- Float rounding: thresholds and durations are exact reals. So a duration that
  floating point would round across a bound (0.1, 0.5, 1.0) is classified by its
  exact value.
- Signal smoothing, baseline calibration and the drowsiness-alert hysteresis. None of
  them exists in the source files modelled here.
