/** The flash driver reduced to sequential ticks, and the duty cycle of the red wash
    it produces while the alarm stays on. */
module Flash {
  import opened Machine
  import opened Render

  /** The state after `k` iterations of the flash driver with no frame in between. */
  function Ticks(s: State, k: nat): (r: State)
    ensures r.counter == s.counter && r.alarmOn == s.alarmOn
  {
    if k == 0 then s else TickStep(Ticks(s, k - 1))
  }

  /** While the alarm stays on, every tick advances the phase by exactly one. */
  lemma {:induction false} TicksWhileAlarm(s: State, k: nat)
    requires s.alarmOn
    ensures Ticks(s, k).flashCounter == s.flashCounter + k
  {
    if k > 0 {
      TicksWhileAlarm(s, k - 1);
    }
  }

  /** While the alarm stays off, one tick is enough to bring the phase back to 0,
      and it stays there. */
  lemma {:induction false} TicksWhileSafe(s: State, k: nat)
    requires !s.alarmOn && k >= 1
    ensures Ticks(s, k).flashCounter == 0
  {
    if k > 1 {
      TicksWhileSafe(s, k - 1);
    }
  }

  /** How many of the phases start, start + 1, ..., start + n - 1 show the red wash. */
  function OnCount(start: nat, n: nat): (c: nat)
    ensures c <= n
  {
    if n == 0 then 0
    else OnCount(start, n - 1) + (if FlashPhaseOn(start + n - 1) then 1 else 0)
  }

  /** Any four consecutive phases hold exactly two flash-on phases. */
  lemma OnCountWindow(start: nat)
    ensures OnCount(start, 4) == 2
  {
    assert OnCount(start, 4) == OnCount(start, 3) + (if FlashPhaseOn(start + 3) then 1 else 0);
    assert OnCount(start, 3) == OnCount(start, 2) + (if FlashPhaseOn(start + 2) then 1 else 0);
    assert OnCount(start, 2) == OnCount(start, 1) + (if FlashPhaseOn(start + 1) then 1 else 0);
    assert OnCount(start, 1) == if FlashPhaseOn(start) then 1 else 0;
    var r := start % 4;
    assert (start + 1) % 4 == (r + 1) % 4;
    assert (start + 2) % 4 == (r + 2) % 4;
    assert (start + 3) % 4 == (r + 3) % 4;
  }

  /** Counting over `a + b` phases is counting over the first `a`, then the next `b`. */
  lemma {:induction false} OnCountSplit(start: nat, a: nat, b: nat)
    ensures OnCount(start, a + b) == OnCount(start, a) + OnCount(start + a, b)
  {
    if b > 0 {
      OnCountSplit(start, a, b - 1);
    }
  }

  /** Over any 4m consecutive phases exactly half show the red wash. */
  lemma {:induction false} HalfOfEveryWindow(start: nat, m: nat)
    ensures OnCount(start, 4 * m) == 2 * m
  {
    if m > 0 {
      HalfOfEveryWindow(start, m - 1);
      OnCountSplit(start, 4 * (m - 1), 4);
      OnCountWindow(start + 4 * (m - 1));
    }
  }

  /** How many of the first `n` tick states from `s` (before 0, 1, ..., n - 1 more ticks)
      would render with the red wash. */
  function WashedTicks(s: State, n: nat): (c: nat)
    ensures c <= n
  {
    if n == 0 then 0
    else
      var t := Ticks(s, n - 1);
      WashedTicks(s, n - 1) + (if ShowsRedWash(Decide(t.counter, t.flashCounter)) then 1 else 0)
  }

  /** With the alarm on, the washed tick states are exactly the flash-on phases. */
  lemma {:induction false} WashedTicksArePhases(s: State, n: nat)
    requires Consistent(s) && s.alarmOn
    ensures WashedTicks(s, n) == OnCount(s.flashCounter, n)
  {
    if n > 0 {
      WashedTicksArePhases(s, n - 1);
      TicksWhileAlarm(s, n - 1);
    }
  }

  /** The duty cycle: while the alarm stays on, exactly half of every 4m consecutive
      ticks render the red wash, whatever phase the driver was in. */
  lemma DutyCycleIsHalf(s: State, m: nat)
    requires Consistent(s) && s.alarmOn
    ensures WashedTicks(s, 4 * m) == 2 * m
  {
    WashedTicksArePhases(s, 4 * m);
    HalfOfEveryWindow(s.flashCounter, m);
  }

  /** From a reset phase, successive alarm ticks render wash on, on, off, off, and so on. */
  lemma DutyPattern(s: State, k: nat)
    requires Consistent(s) && s.alarmOn && s.flashCounter == 0
    ensures Decide(Ticks(s, k).counter, Ticks(s, k).flashCounter) == DrowsyAlert(k % 4 < 2)
  {
    TicksWhileAlarm(s, k);
  }
}
