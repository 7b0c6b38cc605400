# Drowsiness monitor: a Dafny model of the detection state machine

The program watches a camera stream, counts for every frame how many eyes a face
detector finds, and raises a flashing full-screen alert once the eyes have been
missing for more than 35 consecutive frames. Underneath the video handling it is a
small state machine over three process-wide variables:

- `COUNTER`, the number of consecutive frames with fewer than two eyes;
- `ALARM_ON`, recomputed on every frame as `COUNTER > 35`;
- `FLASH_COUNTER`, the phase of a background flash driver that advances while the
  alarm is on and drops to 0 while it is off; the red wash is drawn on frames where
  the phase modulo 4 is below 2.

This project models that machine and proves its behaviour:

- `Eyes` — the detector's output as a list of per-face eye counts, their total
  (a recursive specification) and the accumulating loop that computes it.
- `Machine` — the three variables as a `State` value, the per-frame observe step,
  the flash tick, runs over lists of frame totals, and the lemmas on the threshold
  boundary (alarm off after 35 low frames, on after the 36th), instant recovery on a
  single open-eye frame, and the counter as a function of the frame history alone.
  `ScenarioTrace` follows the stream of 10 open, 40 closed and 5 open frames: the
  alarm is raised at frame 46, the 36th closed frame, where the counter first
  exceeds 35 (an account of this scenario that puts the flip at frame 47 does not
  match the code, which the model follows).
- `Render` — the render policy as a pure function returning which overlays a frame
  gets (the safe banner, or the drowsy banners and border with or without the wash).
- `Flash` — runs of flash ticks and the duty cycle: with the alarm on, every window
  of 4m ticks shows the wash on exactly 2m of them, in the pattern on, on, off, off.
- `Monitoring` — the running program's form: a `Monitor` class whose fields are the
  three variables, updated in place by `Observe` (one main-loop iteration) and
  `FlashTick` (one flash-driver iteration), and `Drive`, a loop that feeds the
  monitor one interleaving of frames and ticks, proved against the value model.

## Model

| member | source | states |
|---|---|---|
| `Eyes.Total` | csp.py:49-57 | a frame's eye total is 0 with no face and at least the eye count of every face |
| `Eyes.TotalAppend` | csp.py:49-57 | the total over the faces of two groups is the sum of the groups' totals |
| `Eyes.TwoFacesAddUp` | csp.py:51-57 | eyes found in two different faces add up, so one eye in each of two faces counts as open eyes |
| `Eyes.CountEyes` | csp.py:49-57 | the accumulation loop over the faces returns exactly the total of the per-face counts |
| `Machine.ObserveStep` | csp.py:63-92 | a low frame (fewer than 2 eyes) raises the counter by 1, any other frame resets counter to 0 and alarm to off; afterwards the alarm equals counter > 35; the flash phase is untouched |
| `Machine.TickStep` | csp.py:27-33 | a flash tick adds 1 to the phase when the alarm is on and sets it to 0 when off, leaving counter and alarm unchanged |
| `Machine.Run` | csp.py:39-92 | a run of frames never changes the flash phase, and after at least one frame (or from a consistent state) the alarm agrees with the counter |
| `Machine.RunAppend` | csp.py:39-66 | observing two streams one after the other is observing their concatenation |
| `Machine.LowFramesCount` | csp.py:63-64 | n consecutive low frames raise the counter by exactly n, from any state |
| `Machine.LowFramesFromStart` | csp.py:15-74 | from start-up, n low frames leave the counter at n and the alarm on exactly when n > 35 |
| `Machine.AlarmFirstRaisedAfterThresholdPlusOne` | csp.py:15-74 | from start-up the alarm is off after every prefix of up to 35 low frames (counter 35 alone does not raise it) and on after the 36th |
| `Machine.OpenFramesReset` | csp.py:65-92 | any non-empty run of open-eye frames leaves counter 0 and alarm off, whatever the state before |
| `Machine.OpenFramesIdempotent` | csp.py:65-92 | feeding more open-eye frames after open-eye frames changes nothing |
| `Machine.TrailingLow` | csp.py:63-66 | the trailing run of low frames is all low and is preceded by an open frame unless it is the whole stream |
| `Machine.CounterIsTrailingLowRun` | csp.py:63-66 | the counter after a stream is the length of its trailing run of low frames, plus the starting counter only when every frame was low |
| `Machine.HistoryDecides` | csp.py:63-74 | two monitors fed the same stream containing an open frame agree on counter and alarm, whatever their starting states |
| `Machine.ScenarioAfterClosed` | csp.py:63-74 | after 10 open and k closed frames from start-up the counter is k and the alarm is k > 35 |
| `Machine.ScenarioAfterReopened` | csp.py:65-92 | after the 40 closed frames, any of the following open frames returns the monitor to counter 0, alarm off |
| `Machine.ScenarioTrace` | csp.py:39-92 | on 10 open, 40 closed, 5 open frames: safe at frames 10 and 45 (counter 35), alarm at 46 (counter 36) and 50 (counter 40), safe at 51 and 55 |
| `Render.Decide` | csp.py:73-94 | the drowsy banners and border appear exactly when counter > 35, the safe banner exactly otherwise, and the red wash exactly when counter > 35 and the phase modulo 4 is below 2 |
| `Render.RenderFollowsAlarm` | csp.py:73-94 | on a consistent state the banners and border follow the alarm, the safe banner its negation, the two never appear together, and the wash appears only on the alarm's flash-on phases |
| `Flash.Ticks` | csp.py:27-33 | flash ticks never change the counter or the alarm |
| `Flash.TicksWhileAlarm` | csp.py:28-30 | with the alarm on, k ticks advance the phase by exactly k |
| `Flash.TicksWhileSafe` | csp.py:31-33 | with the alarm off, the phase is 0 after one tick and stays 0 |
| `Flash.OnCount` | csp.py:77 | the number of flash-on phases in a window is at most its length |
| `Flash.OnCountWindow` | csp.py:77 | any four consecutive phases hold exactly two flash-on phases |
| `Flash.OnCountSplit` | csp.py:77 | counting flash-on phases over a window splits over its two parts |
| `Flash.HalfOfEveryWindow` | csp.py:77 | any 4m consecutive phases hold exactly 2m flash-on phases |
| `Flash.WashedTicks` | csp.py:27-80 | the number of washed tick states among n is at most n |
| `Flash.WashedTicksArePhases` | csp.py:27-80 | with the alarm on, the tick states that render the wash are exactly those whose phase is flash-on |
| `Flash.DutyCycleIsHalf` | csp.py:27-80 | with the alarm on, exactly half of every 4m consecutive ticks render the red wash, from any phase |
| `Flash.DutyPattern` | csp.py:27-80 | from a reset phase, the k-th alarm tick renders the drowsy alert with the wash exactly when k mod 4 < 2: on, on, off, off, repeating |
| `Monitoring.Monitor.constructor` | csp.py:15-18 | the monitor starts with counter 0, alarm off and phase 0, with alarm and counter consistent |
| `Monitoring.Monitor.Observe` | csp.py:49-94 | one main-loop iteration returns the frame's eye total and updates the fields exactly as the observe step does, keeps alarm and counter consistent, and decides the overlays from the updated counter and the current phase |
| `Monitoring.Monitor.FlashTick` | csp.py:27-33 | one flash-driver iteration updates only the phase, exactly as the tick step does |
| `Monitoring.Apply` | csp.py:27-92 | a frame or a tick keeps the alarm consistent with the counter |
| `Monitoring.Replay` | csp.py:27-92 | any interleaving of frames and ticks keeps the alarm consistent with the counter |
| `Monitoring.FrameTotals` | csp.py:49-57 | an interleaving has no more frame totals than events |
| `Monitoring.Shown` | csp.py:73-94 | exactly one overlay decision is shown per frame event, none per tick |
| `Monitoring.Drive` | csp.py:39-99 | driving the monitor through an interleaving leaves it in the replayed state, returns the overlays of every frame in order, and keeps the monitor consistent |
| `Monitoring.TicksDoNotAffectDetection` | csp.py:27-33 | in any interleaving the counter and alarm are what the frames alone make them; the ticks do not influence them |
| `Monitoring.PhaseResetOneTickAfterRecovery` | csp.py:31-33 | after an open-eye frame, the next flash tick brings the phase back to 0 |
| `Monitoring.EmptyStream` | csp.py:39-42 | an empty stream shows no overlay and never raises the alarm |

## Left out

- capstone.py, the image-classification page: model loading and inference belong to a foreign library, and its only decision compares a floating-point probability.
- Camera capture, mirroring and colour conversion (csp.py:20-22, 40-45): device I/O. The end of the stream is modelled only as the end of the finite event list given to `Drive`.
- Face and eye detection (csp.py:48, 56): an external cascade classifier. Its output enters the model only as the list of per-face eye counts of each frame.
- Drawing and display (boxes, text, the 0.7/0.3 blending, `imshow`, csp.py:52-60, 69-96): I/O and floating point. Only the decision of which overlays a frame gets is modelled.
- The ESC-key exit (csp.py:98-99): keyboard I/O. A stream that stops early is a shorter event list.
- The flash thread, its sleeps of 0.2 and 0.1 seconds and the wall-clock cadence (csp.py:3-4, 30, 33, 36-37): concurrency and timing. Each run of the model is one sequential interleaving of frame steps and flash ticks, each step atomic; which interleavings the scheduler produces, and torn or stale reads, are not modelled.
- The startup and shutdown messages (csp.py:6-8, 103) and resource release (csp.py:101-102): console and device I/O.
