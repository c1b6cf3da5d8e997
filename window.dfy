/**
 * The rolling one-minute window of the counter: six 10-second slots of
 * uint16_t pulse counts, the index of the slot being filled, the "window
 * full" latch and the running minimum and maximum of the one-minute total.
 * `Tick` is one run of `processCounts`, `Pulse` one run of the `geigerCount`
 * interrupt. This module states what they do as functions on values; the
 * class in module Firmware performs them in place and is proved against them.
 */
module Window {
  import opened Uint

  /** Number of slots: six 10-second intervals make the one-minute window. */
  const Slots: nat := 6

  /** minCount's initial value, 0xffff: "no minimum yet". */
  const MinSentinel: u16 := 0xffff

  datatype Window = Window(slots: seq<u16>, idx: nat, fullMin: bool, minCount: u16, maxCount: u16)
  {
    predicate Valid() {
      |slots| == Slots && idx < Slots
    }
  }

  /**
   * The state at boot: the globals are zero-initialised except for
   * minCount, which starts at 0xffff.
   */
  function Boot(): (w: Window)
    ensures w.Valid()
    ensures forall i :: 0 <= i < Slots ==> w.slots[i] == 0
    ensures w.idx == 0 && !w.fullMin && w.minCount == MinSentinel && w.maxCount == 0
  {
    Window([0, 0, 0, 0, 0, 0], 0, false, MinSentinel, 0)
  }

  /** The exact sum of the slots. */
  function Total(s: seq<u16>): nat {
    if s == [] then 0 else Total(s[..|s| - 1]) + s[|s| - 1] as nat
  }

  /** The sum as the loop `totCnt += counters[n]` computes it in a uint16_t. */
  function Sum16(s: seq<u16>): (r: u16)
    ensures r as int == Total(s) % U16Limit
  {
    if s == [] then 0 else Add16(Sum16(s[..|s| - 1]), s[|s| - 1])
  }

  /** What one run of `processCounts` produces besides the new window. */
  datatype TickResult = TickResult(
    next: Window,   // the window afterwards
    vacated: nat,   // prevIdx: the slot that was being filled until now
    total: u16,     // totCnt, handed to the display with the new min and max
    reading: u16)   // counters[prevIdx], handed to publishCount

  /**
   * processCounts: advance the active slot modulo 6 (latching fullMin when it
   * wraps to 0), sum all six slots in uint16_t arithmetic, lower the minimum
   * (only once the window is full) and raise the maximum, zero the new active
   * slot, and report the slot just vacated.
   */
  function Tick(w: Window): (r: TickResult)
    requires w.Valid()
    ensures r.next.Valid()
    ensures r.vacated == w.idx && r.next.idx == (w.idx + 1) % Slots && r.next.idx != r.vacated
    ensures r.next.fullMin <==> w.fullMin || r.next.idx == 0
    ensures r.total as int == Total(w.slots) % U16Limit
    ensures r.next.minCount <= w.minCount && r.next.maxCount >= w.maxCount
    ensures r.next.maxCount >= r.total && (r.next.fullMin ==> r.next.minCount <= r.total)
    ensures !r.next.fullMin ==> r.next.minCount == w.minCount
    ensures r.next.minCount == w.minCount || r.next.minCount == r.total
    ensures r.next.maxCount == w.maxCount || r.next.maxCount == r.total
    ensures r.next.slots[r.next.idx] == 0
    ensures forall i :: 0 <= i < Slots && i != r.next.idx ==> r.next.slots[i] == w.slots[i]
    ensures r.reading == w.slots[w.idx]
  {
    var prev := w.idx;
    var idx := if w.idx + 1 == Slots then 0 else w.idx + 1;
    var full := if w.idx + 1 == Slots then true else w.fullMin;
    var tot := Sum16(w.slots);
    var mn := if full && tot < w.minCount then tot else w.minCount;
    var mx := if tot > w.maxCount then tot else w.maxCount;
    var slots := w.slots[idx := 0];
    TickResult(Window(slots, idx, full, mn, mx), prev, tot, slots[prev])
  }

  /** geigerCount: one more pulse in the active slot (uint16_t, so it wraps). */
  function Pulse(w: Window): (r: Window)
    requires w.Valid()
    ensures r.Valid()
    ensures r.idx == w.idx && r.fullMin == w.fullMin
    ensures r.minCount == w.minCount && r.maxCount == w.maxCount
    ensures r.slots[w.idx] as int == (w.slots[w.idx] as int + 1) % U16Limit
    ensures forall i :: 0 <= i < Slots && i != w.idx ==> r.slots[i] == w.slots[i]
  {
    w.(slots := w.slots[w.idx := Inc16(w.slots[w.idx])])
  }

  /** What the window sees: a 10-second tick of the processing task, or a sensor pulse. */
  datatype Event = TickEvent | PulseEvent

  function Step(w: Window, e: Event): (r: Window)
    requires w.Valid()
    ensures r.Valid()
  {
    match e
    case TickEvent => Tick(w).next
    case PulseEvent => Pulse(w)
  }

  /** The window after a sequence of events, oldest first. */
  function Run(w: Window, evs: seq<Event>): (r: Window)
    requires w.Valid()
    ensures r.Valid()
    decreases |evs|
  {
    if evs == [] then w else Step(Run(w, evs[..|evs| - 1]), evs[|evs| - 1])
  }

  /** The number of ticks in a sequence of events. */
  function Ticks(evs: seq<Event>): nat {
    if evs == [] then 0
    else Ticks(evs[..|evs| - 1]) + (if evs[|evs| - 1] == TickEvent then 1 else 0)
  }

  // ---------------------------------------------------------------------
  // Single-step properties
  // ---------------------------------------------------------------------

  /** The slot sums change by removing the old value of one slot and adding its new value. */
  lemma {:induction false} TotalUpdate(s: seq<u16>, i: nat, v: u16)
    requires i < |s|
    ensures Total(s[i := v]) == Total(s) - s[i] as int + v as int
  {
    var n := |s| - 1;
    assert s[i := v][..n] == if i < n then s[..n][i := v] else s[..n];
    if i < n {
      TotalUpdate(s[..n], i, v);
    }
  }

  /** A pulse adds exactly one to the window's sum, unless the active slot wraps. */
  lemma PulseAddsOne(w: Window)
    requires w.Valid()
    requires (w.slots[w.idx] as int) < U16Limit - 1
    ensures Total(Pulse(w).slots) == Total(w.slots) + 1
  {
    TotalUpdate(w.slots, w.idx, Inc16(w.slots[w.idx]));
  }

  /** A tick drops from the sum exactly the oldest slot, which becomes the new active one. */
  lemma TickDropsOldest(w: Window)
    requires w.Valid()
    ensures var r := Tick(w); Total(r.next.slots) == Total(w.slots) - w.slots[r.next.idx] as int
  {
    TotalUpdate(w.slots, Tick(w).next.idx, 0);
  }

  /** The example of a tick over slots [5,3,8,2,0,0] before the window is full. */
  lemma TickExample()
    ensures var r := Tick(Window([5, 3, 8, 2, 0, 0], 0, false, MinSentinel, 0));
      r.total == 18 && r.next.minCount == MinSentinel && r.next.maxCount == 18 && r.reading == 5
  {
    TotalOfSix([5, 3, 8, 2, 0, 0]);
  }

  // ---------------------------------------------------------------------
  // Properties of every run
  // ---------------------------------------------------------------------

  /** Rotation is modulo 6: the index moves on by one per tick and pulses leave it alone. */
  lemma {:induction false} RunIndex(w: Window, evs: seq<Event>)
    requires w.Valid()
    ensures Run(w, evs).idx == (w.idx + Ticks(evs)) % Slots
    decreases |evs|
  {
    if evs != [] {
      RunIndex(w, evs[..|evs| - 1]);
    }
  }

  /**
   * The window is full after a run exactly when it was full before or the
   * index has wrapped past 5 at least once during the run.
   */
  lemma {:induction false} RunFull(w: Window, evs: seq<Event>)
    requires w.Valid()
    ensures Run(w, evs).fullMin <==> w.fullMin || w.idx + Ticks(evs) >= Slots
    decreases |evs|
  {
    if evs != [] {
      var init := evs[..|evs| - 1];
      RunFull(w, init);
      RunIndex(w, init);
    }
  }

  /** After exactly six ticks the index is back where it started and the window is full. */
  lemma SixTicks(w: Window, evs: seq<Event>)
    requires w.Valid()
    requires Ticks(evs) == Slots
    ensures Run(w, evs).idx == w.idx
    ensures Run(w, evs).fullMin
  {
    RunIndex(w, evs);
    RunFull(w, evs);
    assert (w.idx + Slots) % Slots == w.idx;
  }

  /** From boot, the window is full exactly when six or more ticks have happened. */
  lemma BootFull(evs: seq<Event>)
    ensures Run(Boot(), evs).fullMin <==> Ticks(evs) >= Slots
  {
    RunFull(Boot(), evs);
  }

  /**
   * The minimum never rises, the maximum never falls, and the minimum is not
   * touched as long as the window has not yet been full.
   */
  lemma {:induction false} RunMinMax(w: Window, evs: seq<Event>)
    requires w.Valid()
    ensures Run(w, evs).minCount <= w.minCount
    ensures Run(w, evs).maxCount >= w.maxCount
    ensures !Run(w, evs).fullMin ==> Run(w, evs).minCount == w.minCount
    ensures w.fullMin ==> Run(w, evs).fullMin
    decreases |evs|
  {
    if evs != [] {
      RunMinMax(w, evs[..|evs| - 1]);
    }
  }

  /** Before six ticks have happened since boot the minimum keeps its sentinel value. */
  lemma MinUnsetUntilFull(evs: seq<Event>)
    requires Ticks(evs) < Slots
    ensures Run(Boot(), evs).minCount == MinSentinel
  {
    BootFull(evs);
    RunMinMax(Boot(), evs);
  }

  // ---------------------------------------------------------------------
  // The window holds the last six intervals
  // ---------------------------------------------------------------------

  /**
   * The pulse counts of the 10-second intervals since boot, oldest first;
   * the last entry is the interval still being counted.
   */
  function Intervals(evs: seq<Event>): (h: seq<nat>)
    ensures |h| == Ticks(evs) + 1
  {
    if evs == [] then [0]
    else
      var h := Intervals(evs[..|evs| - 1]);
      match evs[|evs| - 1]
      case TickEvent => h + [0]
      case PulseEvent => h[|h| - 1 := h[|h| - 1] + 1]
  }

  /** The count of the interval k steps back from the current one (0 before boot). */
  function Past(h: seq<nat>, k: nat): nat {
    if k < |h| then h[|h| - 1 - k] else 0
  }

  /** Pulses counted over the current interval and the five before it: one minute. */
  function LastMinute(h: seq<nat>): nat {
    Past(h, 0) + Past(h, 1) + Past(h, 2) + Past(h, 3) + Past(h, 4) + Past(h, 5)
  }

  /** The slot k intervals behind the active one holds that interval's count modulo 2^16. */
  predicate Tracks(w: Window, h: seq<nat>) {
    && w.Valid()
    && forall k :: 0 <= k < Slots ==> w.slots[(w.idx + Slots - k) % Slots] as int == Past(h, k) % U16Limit
  }

  /** A tick shifts every interval one slot further back and starts an empty one. */
  lemma TracksTick(w: Window, h: seq<nat>)
    requires Tracks(w, h)
    ensures Tracks(Tick(w).next, h + [0])
  {
    var w' := Tick(w).next;
    var h' := h + [0];
    forall k | 0 <= k < Slots
      ensures w'.slots[(w'.idx + Slots - k) % Slots] as int == Past(h', k) % U16Limit
    {
      if k == 0 {
        assert (w'.idx + Slots - 0) % Slots == w'.idx;
        assert Past(h', 0) == 0;
      } else {
        var j := (w.idx + Slots - (k - 1)) % Slots;
        assert (w'.idx + Slots - k) % Slots == j;
        assert j != w'.idx;
        assert Past(h', k) == Past(h, k - 1);
      }
    }
  }

  /** A pulse adds one to the current interval and to the active slot alike. */
  lemma TracksPulse(w: Window, h: seq<nat>)
    requires Tracks(w, h) && |h| > 0
    ensures Tracks(Pulse(w), h[|h| - 1 := h[|h| - 1] + 1])
  {
    var w' := Pulse(w);
    var h' := h[|h| - 1 := h[|h| - 1] + 1];
    forall k | 0 <= k < Slots
      ensures w'.slots[(w'.idx + Slots - k) % Slots] as int == Past(h', k) % U16Limit
    {
      if k == 0 {
        assert (w.idx + Slots - 0) % Slots == w.idx;
        assert Past(h', 0) == Past(h, 0) + 1;
        ModSucc(Past(h, 0));
      } else {
        assert (w.idx + Slots - k) % Slots != w.idx;
        assert Past(h', k) == Past(h, k);
      }
    }
  }

  /** From boot, the slots always hold the last six intervals' counts. */
  lemma {:induction false} TracksRun(evs: seq<Event>)
    ensures Tracks(Run(Boot(), evs), Intervals(evs))
    decreases |evs|
  {
    if evs == [] {
      assert forall k :: 0 <= k < Slots ==> Past([0], k) == 0;
    } else {
      var init := evs[..|evs| - 1];
      TracksRun(init);
      match evs[|evs| - 1]
      case TickEvent => TracksTick(Run(Boot(), init), Intervals(init));
      case PulseEvent => TracksPulse(Run(Boot(), init), Intervals(init));
    }
  }

  lemma ModSucc(a: nat)
    ensures (a % U16Limit + 1) % U16Limit == (a + 1) % U16Limit
  {
  }

  lemma ModAdd(a: int, b: int)
    ensures (a % U16Limit + b) % U16Limit == (a + b) % U16Limit
  {
  }

  lemma TotalOfSix(s: seq<u16>)
    requires |s| == 6
    ensures Total(s) == s[0] as int + s[1] as int + s[2] as int + s[3] as int + s[4] as int + s[5] as int
  {
    assert s[..5][..4] == s[..4];
    assert s[..4][..3] == s[..3];
    assert s[..3][..2] == s[..2];
    assert s[..2][..1] == s[..1];
    assert s[..1][..0] == [];
    assert Total(s[..1]) == s[0] as int;
    assert Total(s[..2]) == s[0] as int + s[1] as int;
    assert Total(s[..3]) == Total(s[..2]) + s[2] as int;
    assert Total(s[..4]) == Total(s[..3]) + s[3] as int;
    assert Total(s[..5]) == Total(s[..4]) + s[4] as int;
  }

  /** Six congruences modulo 2^16 add up to one. */
  lemma ModSumSix(x0: int, x1: int, x2: int, x3: int, x4: int, x5: int,
                  p0: int, p1: int, p2: int, p3: int, p4: int, p5: int)
    requires x0 == p0 % U16Limit && x1 == p1 % U16Limit && x2 == p2 % U16Limit
    requires x3 == p3 % U16Limit && x4 == p4 % U16Limit && x5 == p5 % U16Limit
    ensures (x0 + x1 + x2 + x3 + x4 + x5) % U16Limit == (p0 + p1 + p2 + p3 + p4 + p5) % U16Limit
  {
    ModAdd(p0, x1 + x2 + x3 + x4 + x5);
    ModAdd(p1, p0 + x2 + x3 + x4 + x5);
    ModAdd(p2, p0 + p1 + x3 + x4 + x5);
    ModAdd(p3, p0 + p1 + p2 + x4 + x5);
    ModAdd(p4, p0 + p1 + p2 + p3 + x5);
    ModAdd(p5, p0 + p1 + p2 + p3 + p4);
  }

  /** The slot sum read starting from any slot and going backwards round the ring. */
  lemma RotatedTotal(s: seq<u16>, i: nat)
    requires |s| == 6 && i < 6
    ensures Total(s) == s[(i + 6) % 6] as int + s[(i + 5) % 6] as int + s[(i + 4) % 6] as int
                      + s[(i + 3) % 6] as int + s[(i + 2) % 6] as int + s[(i + 1) % 6] as int
  {
    TotalOfSix(s);
  }

  /** A tick over a window that tracks a history reports that history's last minute. */
  lemma TickOfTracked(w: Window, h: seq<nat>)
    requires Tracks(w, h)
    ensures Tick(w).total as int == LastMinute(h) % U16Limit
    ensures Tick(w).reading as int == Past(h, 0) % U16Limit
  {
    var i := w.idx;
    RotatedTotal(w.slots, i);
    var x0 := w.slots[(i + Slots - 0) % Slots] as int;
    var x1 := w.slots[(i + Slots - 1) % Slots] as int;
    var x2 := w.slots[(i + Slots - 2) % Slots] as int;
    var x3 := w.slots[(i + Slots - 3) % Slots] as int;
    var x4 := w.slots[(i + Slots - 4) % Slots] as int;
    var x5 := w.slots[(i + Slots - 5) % Slots] as int;
    assert Total(w.slots) == x0 + x1 + x2 + x3 + x4 + x5;
    ModSumSix(x0, x1, x2, x3, x4, x5, Past(h, 0), Past(h, 1), Past(h, 2), Past(h, 3), Past(h, 4), Past(h, 5));
    assert (i + Slots - 0) % Slots == i;
  }

  /**
   * The rolling total: whatever pulses and ticks have happened since boot,
   * the total the next tick reports is the number of pulses of the last
   * minute (the interval just ending and the five before it) modulo 2^16,
   * and the reading it publishes is the count of the interval just ending.
   */
  lemma TickReportsLastMinute(evs: seq<Event>)
    ensures var h := Intervals(evs); var r := Tick(Run(Boot(), evs));
      r.total as int == LastMinute(h) % U16Limit && r.reading as int == Past(h, 0) % U16Limit
  {
    TracksRun(evs);
    TickOfTracked(Run(Boot(), evs), Intervals(evs));
  }

  /**
   * Pulse conservation: from boot, a run of n pulses with no tick and no
   * uint16_t wrap leaves exactly n pulses in the window.
   */
  lemma PulsesConserved(evs: seq<Event>)
    requires Ticks(evs) == 0
    requires |evs| < U16Limit
    ensures Total(Run(Boot(), evs).slots) == |evs|
  {
    TracksRun(evs);
    PulseOnlyIntervals(evs);
    RunIndex(Boot(), evs);
    OnlyActiveHolds(Run(Boot(), evs), [|evs|]);
  }

  /** With a one-interval history, only the active slot can be non-zero. */
  lemma OnlyActiveHolds(w: Window, h: seq<nat>)
    requires Tracks(w, h) && |h| == 1 && w.idx == 0 && h[0] < U16Limit
    ensures Total(w.slots) == h[0]
  {
    RotatedTotal(w.slots, 0);
    assert Past(h, 1) == 0 && Past(h, 2) == 0 && Past(h, 3) == 0 && Past(h, 4) == 0 && Past(h, 5) == 0;
    assert Past(h, 0) == h[0] && h[0] % U16Limit == h[0];
    assert w.slots[(0 + Slots - 1) % Slots] == 0 && w.slots[(0 + Slots - 2) % Slots] == 0;
    assert w.slots[(0 + Slots - 3) % Slots] == 0 && w.slots[(0 + Slots - 4) % Slots] == 0;
    assert w.slots[(0 + Slots - 5) % Slots] == 0 && w.slots[(0 + Slots - 0) % Slots] as int == h[0];
  }

  /** Without ticks the history is a single interval holding every pulse. */
  lemma {:induction false} PulseOnlyIntervals(evs: seq<Event>)
    requires Ticks(evs) == 0
    ensures Intervals(evs) == [|evs|]
    decreases |evs|
  {
    if evs != [] {
      PulseOnlyIntervals(evs[..|evs| - 1]);
    }
  }
}
