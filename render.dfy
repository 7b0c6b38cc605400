/** The render policy of the main loop: which alert overlays a processed frame gets.
    Nothing is drawn here; the face and eye boxes and the counter readout, drawn on
    every frame, carry no decision and are not represented. */
module Render {
  import opened Machine

  /** The overlays decided for one frame. `DrowsyAlert` stands for the "DROWSY
      DETECTED" and "WAKE UP!!!" banners and the thick red border; `redWash` says
      whether the translucent full-frame red wash is laid under them. */
  datatype Overlay = SafeBanner | DrowsyAlert(redWash: bool)

  /** The flash phase shows the red wash in two ticks out of every four. */
  predicate FlashPhaseOn(flashCounter: nat) {
    flashCounter % 4 < 2
  }

  predicate ShowsDrowsyBanners(o: Overlay) { o.DrowsyAlert? }

  predicate ShowsBorder(o: Overlay) { o.DrowsyAlert? }

  predicate ShowsSafeBanner(o: Overlay) { o.SafeBanner? }

  predicate ShowsRedWash(o: Overlay) { o.DrowsyAlert? && o.redWash }

  /** The overlays for a frame whose updated counter is `counter`, sampled while the
      flash driver's phase is `flashCounter`. */
  function Decide(counter: nat, flashCounter: nat): (o: Overlay)
    ensures ShowsDrowsyBanners(o) && ShowsBorder(o) <==> counter > EyesThreshold
    ensures ShowsSafeBanner(o) <==> counter <= EyesThreshold
    ensures ShowsRedWash(o) <==> counter > EyesThreshold && FlashPhaseOn(flashCounter)
  {
    if counter > EyesThreshold then DrowsyAlert(FlashPhaseOn(flashCounter))
    else SafeBanner
  }

  /** On a consistent state the overlays follow the alarm: banners and border exactly
      when it is on, the safe banner exactly when it is off, never both, and the
      red wash only on the alarm's flash-on phases. */
  lemma RenderFollowsAlarm(s: State)
    requires Consistent(s)
    ensures ShowsDrowsyBanners(Decide(s.counter, s.flashCounter)) <==> s.alarmOn
    ensures ShowsSafeBanner(Decide(s.counter, s.flashCounter)) <==> !s.alarmOn
    ensures !(ShowsSafeBanner(Decide(s.counter, s.flashCounter)) && ShowsBorder(Decide(s.counter, s.flashCounter)))
    ensures ShowsRedWash(Decide(s.counter, s.flashCounter)) <==> s.alarmOn && FlashPhaseOn(s.flashCounter)
  {
  }
}
