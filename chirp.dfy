/**
 * The chirp handshake between the pulse interrupt and the main loop: the
 * interrupt only raises `chirp`; the loop consumes a raised flag by turning
 * the piezo on and starting `chirpTicker`, whose callback `chirpOff` stops
 * the ticker and turns the piezo off again.
 */
module Chirp {
  /** `chirp`, the piezo output and whether `chirpTicker` is running. */
  datatype Chirp = Chirp(pending: bool, piezoOn: bool, tickerRunning: bool)

  /** At boot nothing is pending and the piezo is silent. */
  const BootChirp := Chirp(false, false, false)

  /** The part of geigerCount that concerns the chirp: the flag is raised. */
  function Pulse(c: Chirp): (r: Chirp)
    ensures r.pending && r.piezoOn == c.piezoOn && r.tickerRunning == c.tickerRunning
  {
    c.(pending := true)
  }

  /** chirpOff: stop the ticker and silence the piezo; a pending flag is left for the loop. */
  function Off(c: Chirp): (r: Chirp)
    ensures !r.piezoOn && !r.tickerRunning && r.pending == c.pending
  {
    Chirp(c.pending, false, false)
  }

  /** The tail of loop(): a pending flag is cleared and the chirp started. */
  function Consume(c: Chirp): (r: Chirp)
    ensures !r.pending
    ensures c.pending ==> r.piezoOn && r.tickerRunning
    ensures !c.pending ==> r == c
  {
    if c.pending then Chirp(false, true, true) else c
  }

  /** Calling chirpOff twice leaves the same state as calling it once. */
  lemma OffIdempotent(c: Chirp)
    ensures Off(Off(c)) == Off(c)
  {
  }

  /** A second consume in a row does nothing: each flag is consumed once. */
  lemma ConsumeOnce(c: Chirp)
    ensures Consume(Consume(c)) == Consume(c)
  {
  }

  /** Pulses arriving within one loop iteration give a single chirp. */
  lemma PulsesCoalesce(c: Chirp)
    ensures Pulse(Pulse(c)) == Pulse(c)
    ensures Consume(Pulse(Pulse(c))) == Consume(Pulse(c)) == Chirp(false, true, true)
  {
  }

  /** The piezo is on after a loop iteration exactly when a pulse was pending or it was already sounding. */
  lemma PiezoAfterConsume(c: Chirp)
    ensures Consume(c).piezoOn <==> c.pending || c.piezoOn
    ensures Consume(c).tickerRunning <==> c.pending || c.tickerRunning
  {
  }

  /** A ticker that expires in the same iteration as a new pulse is restarted: off first, then on. */
  lemma OffThenConsume(c: Chirp)
    requires c.pending
    ensures Consume(Off(c)) == Chirp(false, true, true)
  {
  }
}
