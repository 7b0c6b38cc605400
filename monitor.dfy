/** The monitor as the running program holds it: one object with the three shared
    variables, updated in place by the main loop's frame step and by the flash
    driver's tick, and a driver loop that replays one interleaving of the two. */
module Monitoring {
  import opened Eyes
  import opened Machine
  import opened Render

  class Monitor {
    var counter: nat
    var alarmOn: bool
    var flashCounter: nat

    /** The current values of the three variables. */
    function Snapshot(): State
      reads this
    {
      State(counter, alarmOn, flashCounter)
    }

    /** The alarm agrees with the counter. */
    predicate Valid()
      reads this
    {
      Consistent(Snapshot())
    }

    /** Start-up: no low frame seen, alarm off, flash phase 0. */
    constructor ()
      ensures Snapshot() == Initial
      ensures Valid()
    {
      counter, alarmOn, flashCounter := 0, false, 0;
    }

    /** One iteration of the main loop for a frame in which the detector found faces
        with the given eye counts: total the eyes, update the counter, recompute the
        alarm and decide the overlays from the flash phase as it stands. */
    method Observe(perFace: seq<nat>) returns (eyesDetected: nat, overlay: Overlay)
      modifies this
      ensures eyesDetected == Total(perFace)
      ensures Snapshot() == ObserveStep(old(Snapshot()), eyesDetected)
      ensures Valid()
      ensures overlay == Decide(counter, flashCounter)
    {
      eyesDetected := CountEyes(perFace);
      if eyesDetected < EyesOpen {
        counter := counter + 1;
      } else {
        counter := 0;
      }
      if counter > EyesThreshold {
        alarmOn := true;
        overlay := DrowsyAlert(FlashPhaseOn(flashCounter));
      } else {
        alarmOn := false;
        overlay := SafeBanner;
      }
    }

    /** One iteration of the flash driver's loop. */
    method FlashTick()
      modifies this`flashCounter
      ensures Snapshot() == TickStep(old(Snapshot()))
    {
      if alarmOn {
        flashCounter := flashCounter + 1;
      } else {
        flashCounter := 0;
      }
    }
  }

  /** One step of an interleaving of the two loops: a processed frame (the eye counts
      of its faces) or one iteration of the flash driver. */
  datatype Event = Frame(perFace: seq<nat>) | FlashStep

  /** The state after one event. */
  function Apply(s: State, e: Event): (r: State)
    ensures Consistent(s) ==> Consistent(r)
  {
    match e
    case Frame(perFace) => ObserveStep(s, Total(perFace))
    case FlashStep => TickStep(s)
  }

  /** The state after the events, in order. */
  function Replay(s: State, events: seq<Event>): (r: State)
    ensures Consistent(s) ==> Consistent(r)
  {
    if events == [] then s
    else Apply(Replay(s, events[..|events| - 1]), events[|events| - 1])
  }

  /** The eye totals of the frame events, in order. */
  function FrameTotals(events: seq<Event>): (totals: seq<nat>)
    ensures |totals| <= |events|
  {
    if events == [] then []
    else
      var init := FrameTotals(events[..|events| - 1]);
      match events[|events| - 1]
      case Frame(perFace) => init + [Total(perFace)]
      case FlashStep => init
  }

  /** The overlays decided for the frame events, in order. */
  function Shown(s: State, events: seq<Event>): (overlays: seq<Overlay>)
    ensures |overlays| == |FrameTotals(events)|
  {
    if events == [] then []
    else
      var init := events[..|events| - 1];
      match events[|events| - 1]
      case Frame(perFace) =>
        var t := Apply(Replay(s, init), Frame(perFace));
        Shown(s, init) + [Decide(t.counter, t.flashCounter)]
      case FlashStep => Shown(s, init)
  }

  /** Drives the monitor through one interleaving of frames and flash ticks,
      collecting the overlays decided for each frame. */
  method Drive(m: Monitor, events: seq<Event>) returns (shown: seq<Overlay>)
    modifies m
    ensures m.Snapshot() == Replay(old(m.Snapshot()), events)
    ensures shown == Shown(old(m.Snapshot()), events)
    ensures old(m.Valid()) ==> m.Valid()
  {
    ghost var start := m.Snapshot();
    shown := [];
    for i := 0 to |events|
      invariant m.Snapshot() == Replay(start, events[..i])
      invariant shown == Shown(start, events[..i])
    {
      assert events[..i + 1][..i] == events[..i];
      match events[i]
      case Frame(perFace) =>
        var _, overlay := m.Observe(perFace);
        shown := shown + [overlay];
      case FlashStep =>
        m.FlashTick();
    }
    assert events[..|events|] == events;
  }

  /** The flash ticks never change the counter or the alarm: in any interleaving they
      are what the frames alone make them. */
  lemma {:induction false} TicksDoNotAffectDetection(s: State, events: seq<Event>)
    ensures Replay(s, events).counter == Run(s, FrameTotals(events)).counter
    ensures Replay(s, events).alarmOn == Run(s, FrameTotals(events)).alarmOn
  {
    if events != [] {
      var init := events[..|events| - 1];
      TicksDoNotAffectDetection(s, init);
      match events[|events| - 1]
      case Frame(perFace) =>
        var totals := FrameTotals(init) + [Total(perFace)];
        assert totals[..|totals| - 1] == FrameTotals(init);
      case FlashStep =>
    }
  }

  /** Once a frame with open eyes has been processed, the next flash tick brings the
      phase back to 0. */
  lemma PhaseResetOneTickAfterRecovery(s: State, events: seq<Event>, perFace: seq<nat>)
    requires Total(perFace) >= EyesOpen
    ensures Replay(s, events + [Frame(perFace), FlashStep]).flashCounter == 0
  {
    var all := events + [Frame(perFace), FlashStep];
    assert all[..|all| - 1] == events + [Frame(perFace)];
    assert (events + [Frame(perFace)])[..|events|] == events;
  }

  /** An empty input stream: no overlay is shown and the monitor stays in its
      start-up state, so no alarm is ever raised. */
  lemma EmptyStream()
    ensures Shown(Initial, []) == []
    ensures Replay(Initial, []) == Initial && !Replay(Initial, []).alarmOn
  {
  }
}
