/**
 * The "FLASH" blinker of the over-the-air update progress callback:
 * `flash_toggle` is a uint8_t that is pre-incremented and reset to 0 when
 * it reaches 6; the word is shown while `flash_toggle / 3` is non-zero, so
 * the display alternates three callbacks cleared and three callbacks on.
 */
module Flash {
  import opened Uint

  const Period: nat := 6

  /** `if (++flash_toggle == 6) flash_toggle = 0;` */
  function Step(t: u8): (r: u8)
    ensures t < 5 ==> r == t + 1
    ensures t == 5 ==> r == 0
    ensures t == 255 ==> r == 0
  {
    var n := Inc8(t);
    if n == 6 then 0 else n
  }

  /** The display shows "FLASH" when `flash_toggle / 3` is non-zero. */
  function Shows(t: u8): (b: bool)
    ensures b <==> t >= 3
  {
    t / 3 != 0
  }

  /** The counter after `k` progress callbacks, starting from the zero-initialised global. */
  function After(k: nat): (t: u8)
    decreases k
  {
    if k == 0 then 0 else Step(After(k - 1))
  }

  /** The counter stays in 0..5 and counts progress callbacks modulo 6. */
  lemma {:induction false} AfterIsMod(k: nat)
    ensures After(k) as int == k % Period
  {
    if k > 0 {
      AfterIsMod(k - 1);
      assert After(k - 1) as int == (k - 1) % Period;
    }
  }

  /** "FLASH" is shown for callbacks 3, 4 and 5 of every six and cleared for the other three. */
  lemma FlashDuty(k: nat)
    ensures Shows(After(k)) <==> k % Period >= 3
  {
    AfterIsMod(k);
  }

  /** The blinking repeats every six callbacks. */
  lemma FlashPeriodic(k: nat)
    ensures After(k + Period) == After(k)
  {
    AfterIsMod(k);
    AfterIsMod(k + Period);
  }
}
