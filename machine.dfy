/** The drowsiness state machine as values: the three process-wide variables of the
    monitor, one observe step per processed frame, one tick per iteration of the
    flash driver, and runs of observe steps over a list of per-frame eye totals. */
module Machine {

  /** A frame counts towards drowsiness once more than this many consecutive
      frames have had too few eyes. */
  const EyesThreshold: nat := 35

  /** A frame with fewer eyes than this is a "low" frame (eyes presumed closed). */
  const EyesOpen: nat := 2

  /** `counter` is COUNTER (consecutive low frames), `alarmOn` is ALARM_ON and
      `flashCounter` is FLASH_COUNTER, the flash driver's phase. */
  datatype State = State(counter: nat, alarmOn: bool, flashCounter: nat)

  /** The state at start-up. */
  const Initial: State := State(0, false, 0)

  /** The alarm agrees with the counter: on exactly when the counter is above the threshold. */
  predicate Consistent(s: State) {
    s.alarmOn == (s.counter > EyesThreshold)
  }

  predicate Low(eyesDetected: nat) {
    eyesDetected < EyesOpen
  }

  predicate AllLow(frames: seq<nat>) {
    forall i :: 0 <= i < |frames| ==> Low(frames[i])
  }

  predicate AllOpen(frames: seq<nat>) {
    forall i :: 0 <= i < |frames| ==> !Low(frames[i])
  }

  /** One frame of the main loop: count a low frame or reset on an open one, then
      recompute the alarm from the counter just updated. The flash phase is not touched. */
  function ObserveStep(s: State, eyesDetected: nat): (r: State)
    ensures Consistent(r)
    ensures r.flashCounter == s.flashCounter
    ensures Low(eyesDetected) ==> r.counter == s.counter + 1
    ensures !Low(eyesDetected) ==> r == State(0, false, s.flashCounter)
  {
    var counter := if eyesDetected < EyesOpen then s.counter + 1 else 0;
    State(counter, counter > EyesThreshold, s.flashCounter)
  }

  /** One iteration of the flash driver: advance the phase while the alarm is on,
      reset it otherwise. The detection state is not touched. */
  function TickStep(s: State): (r: State)
    ensures r.counter == s.counter && r.alarmOn == s.alarmOn
    ensures s.alarmOn ==> r.flashCounter == s.flashCounter + 1
    ensures !s.alarmOn ==> r.flashCounter == 0
  {
    if s.alarmOn then s.(flashCounter := s.flashCounter + 1)
    else s.(flashCounter := 0)
  }

  /** The state after observing the frames (their eye totals) in order. */
  function Run(s: State, frames: seq<nat>): (r: State)
    ensures r.flashCounter == s.flashCounter
    ensures frames != [] || Consistent(s) ==> Consistent(r)
  {
    if frames == [] then s
    else ObserveStep(Run(s, frames[..|frames| - 1]), frames[|frames| - 1])
  }

  /** Observing `a` and then `b` is observing `a + b`. */
  lemma {:induction false} RunAppend(s: State, a: seq<nat>, b: seq<nat>)
    ensures Run(s, a + b) == Run(Run(s, a), b)
    decreases |b|
  {
    if b != [] {
      var b' := b[..|b| - 1];
      assert (a + b)[..|a + b| - 1] == a + b';
      assert (a + b)[|a + b| - 1] == b[|b| - 1];
      RunAppend(s, a, b');
    } else {
      assert a + b == a;
    }
  }

  /** Consecutive low frames raise the counter by exactly their number. */
  lemma {:induction false} LowFramesCount(s: State, frames: seq<nat>)
    requires AllLow(frames)
    ensures Run(s, frames).counter == s.counter + |frames|
  {
    if frames != [] {
      LowFramesCount(s, frames[..|frames| - 1]);
    }
  }

  /** From start-up, n low frames leave the counter at n and raise the alarm
      exactly when n is above the threshold. */
  lemma {:induction false} LowFramesFromStart(frames: seq<nat>)
    requires AllLow(frames)
    ensures Run(Initial, frames).counter == |frames|
    ensures Run(Initial, frames).alarmOn <==> |frames| > EyesThreshold
  {
    LowFramesCount(Initial, frames);
  }

  /** The boundary: after EyesThreshold + 1 low frames from start-up the alarm is on,
      and it was off after every shorter prefix, including the one whose counter
      equals the threshold. */
  lemma AlarmFirstRaisedAfterThresholdPlusOne(frames: seq<nat>)
    requires AllLow(frames) && |frames| == EyesThreshold + 1
    ensures Run(Initial, frames).alarmOn
    ensures Run(Initial, frames[..EyesThreshold]).counter == EyesThreshold
    ensures forall k :: 0 <= k < |frames| ==> !Run(Initial, frames[..k]).alarmOn
  {
    LowFramesFromStart(frames);
    forall k | 0 <= k < |frames|
      ensures !Run(Initial, frames[..k]).alarmOn
    {
      LowFramesFromStart(frames[..k]);
    }
  }

  /** Instant recovery: a non-empty run of open-eye frames ends with the counter at 0
      and the alarm off, whatever the state before. */
  lemma OpenFramesReset(s: State, frames: seq<nat>)
    requires frames != [] && AllOpen(frames)
    ensures Run(s, frames) == State(0, false, s.flashCounter)
  {
    assert !Low(frames[|frames| - 1]);
  }

  /** Feeding open-eye frames again to a monitor that has just seen open-eye frames
      changes nothing. */
  lemma OpenFramesIdempotent(s: State, frames: seq<nat>, again: seq<nat>)
    requires frames != [] && AllOpen(frames)
    requires AllOpen(again)
    ensures Run(Run(s, frames), again) == Run(s, frames)
  {
    OpenFramesReset(s, frames);
    if again != [] {
      OpenFramesReset(Run(s, frames), again);
    }
  }

  /** The number of low frames at the end of `frames`, stopping at the last open one. */
  function TrailingLow(frames: seq<nat>): (n: nat)
    ensures n <= |frames|
    ensures forall i :: |frames| - n <= i < |frames| ==> Low(frames[i])
    ensures n < |frames| ==> !Low(frames[|frames| - 1 - n])
  {
    if frames == [] || !Low(frames[|frames| - 1]) then 0
    else TrailingLow(frames[..|frames| - 1]) + 1
  }

  /** The counter is determined by the frame history alone: it is the number of
      trailing low frames, plus the starting counter only when no frame was open. */
  lemma {:induction false} CounterIsTrailingLowRun(s: State, frames: seq<nat>)
    ensures Run(s, frames).counter ==
      if TrailingLow(frames) == |frames| then s.counter + |frames| else TrailingLow(frames)
  {
    if frames != [] {
      CounterIsTrailingLowRun(s, frames[..|frames| - 1]);
    }
  }

  /** Two monitors fed the same history containing an open frame agree on the counter
      and on the alarm, whatever they started from. */
  lemma {:induction false} HistoryDecides(s: State, t: State, frames: seq<nat>)
    requires !AllLow(frames)
    ensures Run(s, frames).counter == Run(t, frames).counter
    ensures Run(s, frames).alarmOn == Run(t, frames).alarmOn
  {
    CounterIsTrailingLowRun(s, frames);
    CounterIsTrailingLowRun(t, frames);
  }

  /** `n` copies of one eye total. */
  function Repeat(eyesDetected: nat, n: nat): (frames: seq<nat>)
    ensures |frames| == n
    ensures forall i :: 0 <= i < n ==> frames[i] == eyesDetected
  {
    seq(n, _ => eyesDetected)
  }

  /** Ten open frames, forty closed, five open. */
  function Scenario(): seq<nat> {
    Repeat(2, 10) + Repeat(0, 40) + Repeat(2, 5)
  }

  /** After the ten open frames and `k` of the closed ones, the counter is `k`. */
  lemma ScenarioAfterClosed(k: nat)
    requires k <= 40
    ensures Run(Initial, Scenario()[..10 + k]) == State(k, k > EyesThreshold, 0)
  {
    var awake, asleep := Repeat(2, 10), Repeat(0, 40);
    assert Scenario()[..10 + k] == awake + asleep[..k];
    OpenFramesReset(Initial, awake);
    RunAppend(Initial, awake, asleep[..k]);
    LowFramesCount(Run(Initial, awake), asleep[..k]);
  }

  /** Any of the final open frames puts the monitor back to safe. */
  lemma ScenarioAfterReopened(k: nat)
    requires 1 <= k <= 5
    ensures Run(Initial, Scenario()[..50 + k]) == State(0, false, 0)
  {
    var all := Scenario();
    assert all[..50 + k] == all[..50] + Repeat(2, k);
    RunAppend(Initial, all[..50], Repeat(2, k));
    OpenFramesReset(Run(Initial, all[..50]), Repeat(2, k));
  }

  /** The state after each key prefix of Scenario(): safe through the first ten
      frames and the next 35 closed ones, alarm raised at frame 46 (the 36th closed
      frame, counter 36), still on at frame 50 (counter 40), and back to safe with
      counter 0 at frame 51 and at the end. */
  lemma ScenarioTrace()
    ensures Run(Initial, Scenario()[..10]) == State(0, false, 0)
    ensures Run(Initial, Scenario()[..45]) == State(35, false, 0)
    ensures Run(Initial, Scenario()[..46]) == State(36, true, 0)
    ensures Run(Initial, Scenario()[..50]) == State(40, true, 0)
    ensures Run(Initial, Scenario()[..51]) == State(0, false, 0)
    ensures Run(Initial, Scenario()) == State(0, false, 0)
  {
    ScenarioAfterClosed(0);
    ScenarioAfterClosed(35);
    ScenarioAfterClosed(36);
    ScenarioAfterClosed(40);
    ScenarioAfterReopened(1);
    ScenarioAfterReopened(5);
    assert Scenario()[..55] == Scenario();
  }
}
