/**
 * The long-press detector: the `longPress` interrupt runs on every level
 * change of the configuration button. A low level is a press, which records
 * the time and clears the flag; a high level is a release, which raises the
 * flag when the button was held for more than 1000 ms. Times are `millis()`
 * values, uint32_t, so the elapsed time is an unsigned difference that
 * survives the counter's wrap-around.
 */
module Button {
  import opened Uint

  /** The hold time a release must exceed, in milliseconds. */
  const LongPressMs: u32 := 1000

  /** lastPressTime and buttonLongPress. */
  datatype Press = Press(lastPressTime: u32, longPress: bool)

  /** Both globals are zero-initialised at boot. */
  const BootPress := Press(0, false)

  /** One run of the ISR; `released` is the pin level read (non-zero = released), `now` is millis(). */
  function LongPress(p: Press, released: bool, now: u32): (r: Press)
    ensures !released ==> r == Press(now, false)
    ensures released ==> r.lastPressTime == p.lastPressTime
    ensures released ==> (r.longPress <==> p.longPress || Sub32(now, p.lastPressTime) > LongPressMs)
  {
    if released then
      if Sub32(now, p.lastPressTime) > LongPressMs then p.(longPress := true) else p
    else
      Press(now, false)
  }

  /** A press followed by a release raises the flag exactly when the hold exceeded 1000 ms. */
  lemma PressThenRelease(p: Press, t0: u32, t1: u32)
    ensures LongPress(LongPress(p, false, t0), true, t1).longPress <==> Sub32(t1, t0) > LongPressMs
  {
  }

  /** A short press (at most 1000 ms, millis() not wrapping) never raises the flag, whatever it was. */
  lemma ShortPressIgnored(p: Press, t0: u32, t1: u32)
    requires t0 <= t1 && t1 as int - t0 as int <= LongPressMs as int
    ensures !LongPress(LongPress(p, false, t0), true, t1).longPress
  {
  }

  /** Holding for exactly 1000 ms is not enough: the comparison is strict. */
  lemma ThresholdIsStrict(p: Press, t0: u32)
    requires t0 as int + 1001 < U32Limit
    ensures !LongPress(LongPress(p, false, t0), true, t0 + 1000).longPress
    ensures LongPress(LongPress(p, false, t0), true, t0 + 1001).longPress
  {
  }

  /** A hold across the wrap of millis() is still measured correctly. */
  lemma HoldAcrossWrap(p: Press)
    ensures LongPress(LongPress(p, false, 0xFFFF_FF00), true, 0x400).longPress
  {
    assert Sub32(0x400, 0xFFFF_FF00) == 0x500;
  }

  /**
   * A raised flag stays raised through further releases and is cleared
   * only by the next press (or by the main loop consuming it).
   */
  lemma FlagClearedOnlyByPress(p: Press, released: bool, now: u32)
    requires p.longPress
    ensures LongPress(p, released, now).longPress <==> released
  {
  }
}
