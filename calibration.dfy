/** Pulse-width capture and auto-range calibration: the pin-change handler
    of main.cpp:135-164 and update_divider (main.cpp:77-82), per input
    channel, as functions of the channel's state.

    All arithmetic is AVR `unsigned int` arithmetic (16 bits, wrapping),
    which is what `uint16_t - uint16_t` is on a target whose `int` is 16
    bits wide; a store into a `uint8_t` keeps the low 8 bits. */
module Calibration {
  import opened Bits
  import opened Word

  /** Input channels (pins PB0..PB2). */
  const CHANNELS: nat := 3

  /** Pulses shorter than this many timer-1 ticks are ignored. */
  const MIN_PULSE: u16 := 100

  /** The bound range main.cpp's settings mode starts calibration from
      (main.cpp:355-356). */
  const DEFAULT_MIN: u16 := 2000
  const DEFAULT_MAX: u16 := 2256

  /** The per-channel globals: signal_min, signal_max, signal_divider,
      signal_start and signal_value at one index. */
  datatype Channel = Channel(min: u16, max: u16, divider: u8, start: u16, value: u8)

  /** A word written to EEPROM by the handler: a new lower or upper bound. */
  datatype EepromWrite = MinWord(channel: nat, word: u16) | MaxWord(channel: nat, word: u16)


  /** update_divider: the bound span, 16-bit wrapping, divided by 256 and
      floored at 1. The divider is the largest `d >= 1` with `256 * d` not
      above the span. */
  function Divider(min: u16, max: u16): (d: u8)
    ensures d >= 1
  {
    var q := Low8(Sub16(max, min) / 256);
    if q < 1 then 1 else q
  }

  /** The divider is the span in units of 256 ticks, rounded down, and 1
      for a span under 256 ticks. */
  lemma DividerFloor(min: u16, max: u16)
    ensures var span, d := Sub16(max, min), Divider(min, max);
            if span < 256 then d == 1 else 256 * d <= span < 256 * (d + 1)
  {
  }

  /** The value a measured pulse stores: its offset above the lower bound
      in units of the divider, kept to the low byte. */
  function Scale(signal: u16, min: u16, divider: u8): (r: u8)
    requires divider >= 1
    ensures Sub16(signal, min) < 256 * divider ==> r == Sub16(signal, min) / divider
  {
    var q := Sub16(signal, min) / divider;
    if Sub16(signal, min) < 256 * divider then
      QuotientBelow(Sub16(signal, min), divider);
      Low8(q)
    else Low8(q)
  }

  /** Ticks between the rising edge recorded in `start` and `now`. */
  function PulseLength(c: Channel, now: u16): u16
  {
    Sub16(now, c.start)
  }

  /** A falling edge at timer-1 count `now` (main.cpp:145-158). */
  function OnFalling(c: Channel, now: u16): (r: Channel)
    requires c.divider >= 1
    ensures r.divider >= 1 && r.start == c.start
    ensures r.min <= c.min && r.max >= c.max
  {
    var signal := PulseLength(c, now);
    if signal < MIN_PULSE then c
    else
      var b := Widen(c, signal);
      b.(value := Scale(signal, b.min, b.divider))
  }

  /** The bounds after a measured pulse: a pulse below the lower bound or
      above the upper bound becomes that bound, and the divider follows. */
  function Widen(c: Channel, signal: u16): (b: Channel)
    requires c.divider >= 1
    ensures b.divider >= 1
  {
    if signal < c.min then c.(min := signal, divider := Divider(signal, c.max))
    else if signal > c.max then c.(max := signal, divider := Divider(c.min, signal))
    else c
  }

  /** The handler's work for one channel: nothing unless its pin changed;
      a rising edge records the start time, a falling edge measures. */
  function OnEdge(c: Channel, changed: bool, high: bool, now: u16): (r: Channel)
    requires c.divider >= 1
    ensures r.divider >= 1 && r.min <= c.min && r.max >= c.max
    ensures !changed ==> r == c
  {
    if !changed then c
    else if high then c.(start := now)
    else OnFalling(c, now)
  }

  /** The EEPROM writes one channel's edge causes (main.cpp:151, 155). */
  function EdgeWrites(i: nat, c: Channel, changed: bool, high: bool, now: u16): (w: seq<EepromWrite>)
    ensures |w| <= 1
    ensures w != [] ==> changed && !high && PulseLength(c, now) >= MIN_PULSE
  {
    var signal := PulseLength(c, now);
    if !changed || high || signal < MIN_PULSE then []
    else if signal < c.min then [MinWord(i, signal)]
    else if signal > c.max then [MaxWord(i, signal)]
    else []
  }

  predicate IsChannels(cs: seq<Channel>)
  {
    |cs| == CHANNELS && forall i :: 0 <= i < CHANNELS ==> cs[i].divider >= 1
  }

  /** The pins PB0..PB2 of a PINB snapshot. */
  function Pins(pinb: bv8): bv8
  {
    pinb & 0x07
  }

  /** Channel `i` after the handler's pass for it, given the changed pins
      `diff` and the new pin levels `curr`. */
  function EdgeAt(cs: seq<Channel>, diff: bv8, curr: bv8, now: u16, i: nat): Channel
    requires IsChannels(cs) && i < CHANNELS
  {
    OnEdge(cs[i], Bit(diff, i), Bit(curr, i), now)
  }

  /** The EEPROM writes of the handler's pass for channel `i`. */
  function WritesAt(cs: seq<Channel>, diff: bv8, curr: bv8, now: u16, i: nat): seq<EepromWrite>
    requires IsChannels(cs) && i < CHANNELS
  {
    EdgeWrites(i, cs[i], Bit(diff, i), Bit(curr, i), now)
  }

  /** A pass depends on its own channel only. */
  lemma PassIsLocal(cs: seq<Channel>, ds: seq<Channel>, diff: bv8, curr: bv8, now: u16, i: nat)
    requires IsChannels(cs) && IsChannels(ds) && i < CHANNELS && cs[i] == ds[i]
    ensures EdgeAt(cs, diff, curr, now, i) == EdgeAt(ds, diff, curr, now, i)
    ensures WritesAt(cs, diff, curr, now, i) == WritesAt(ds, diff, curr, now, i)
  {
  }

  /** The whole pin-change handler on all three channels; `last` is the
      handler's remembered pin state, which becomes `Pins(pinb)`. */
  function PinChange(cs: seq<Channel>, last: bv8, pinb: bv8, now: u16): (r: seq<Channel>)
    requires IsChannels(cs)
  {
    var curr := Pins(pinb);
    seq(CHANNELS, i requires 0 <= i < CHANNELS => EdgeAt(cs, last ^ curr, curr, now, i))
  }

  /** The handler's effect once its loop has handled channels 0..n-1. */
  function PinChangeUpTo(cs: seq<Channel>, diff: bv8, curr: bv8, now: u16, n: nat): (r: seq<Channel>)
    requires IsChannels(cs) && n <= CHANNELS
    ensures |r| == CHANNELS
  {
    if n == 0 then cs
    else PinChangeUpTo(cs, diff, curr, now, n - 1)[n - 1 := EdgeAt(cs, diff, curr, now, n - 1)]
  }

  /** Channels the loop has not reached yet are untouched. */
  lemma {:induction false} PinChangeUpToLater(cs: seq<Channel>, diff: bv8, curr: bv8, now: u16, n: nat, j: nat)
    requires IsChannels(cs) && n <= j < CHANNELS
    ensures PinChangeUpTo(cs, diff, curr, now, n)[j] == cs[j]
  {
    if n > 0 {
      PinChangeUpToLater(cs, diff, curr, now, n - 1, j);
    }
  }

  /** After its last pass the loop has computed the whole handler. */
  lemma PinChangeUpToAll(cs: seq<Channel>, last: bv8, pinb: bv8, now: u16)
    requires IsChannels(cs)
    ensures PinChangeUpTo(cs, last ^ Pins(pinb), Pins(pinb), now, CHANNELS) == PinChange(cs, last, pinb, now)
  {
    var curr := Pins(pinb);
    var diff := last ^ curr;
    var r1 := PinChangeUpTo(cs, diff, curr, now, 1);
    var r2 := PinChangeUpTo(cs, diff, curr, now, 2);
    var r3 := PinChangeUpTo(cs, diff, curr, now, 3);
    assert r1[0] == EdgeAt(cs, diff, curr, now, 0);
    assert r2 == r1[1 := EdgeAt(cs, diff, curr, now, 1)];
    assert r3 == r2[2 := EdgeAt(cs, diff, curr, now, 2)];
  }

  /** The EEPROM log `log` followed by the writes of channels 0..n-1, in
      the handler's order. */
  function LogUpTo(log: seq<EepromWrite>, cs: seq<Channel>, diff: bv8, curr: bv8, now: u16, n: nat): seq<EepromWrite>
    requires IsChannels(cs) && n <= CHANNELS
  {
    if n == 0 then log else LogUpTo(log, cs, diff, curr, now, n - 1) + WritesAt(cs, diff, curr, now, n - 1)
  }

  /** The writes of one pin-change interrupt, channels 0, 1 and 2 in
      order, appended to the log. */
  function PinWrites(log: seq<EepromWrite>, cs: seq<Channel>, last: bv8, pinb: bv8, now: u16): seq<EepromWrite>
    requires IsChannels(cs)
  {
    var curr := Pins(pinb);
    log + WritesAt(cs, last ^ curr, curr, now, 0) + WritesAt(cs, last ^ curr, curr, now, 1)
        + WritesAt(cs, last ^ curr, curr, now, 2)
  }

  /** After its last pass the loop has logged the whole handler's writes. */
  lemma LogUpToAll(log: seq<EepromWrite>, cs: seq<Channel>, last: bv8, pinb: bv8, now: u16)
    requires IsChannels(cs)
    ensures LogUpTo(log, cs, last ^ Pins(pinb), Pins(pinb), now, CHANNELS) == PinWrites(log, cs, last, pinb, now)
  {
    var curr := Pins(pinb);
    var diff := last ^ curr;
    assert LogUpTo(log, cs, diff, curr, now, 1) == log + WritesAt(cs, diff, curr, now, 0);
    assert LogUpTo(log, cs, diff, curr, now, 2) == LogUpTo(log, cs, diff, curr, now, 1) + WritesAt(cs, diff, curr, now, 1);
  }

  // ---------------------------------------------------------------------
  // Properties of one falling edge

  /** A pulse under 100 ticks (16-bit wrapping difference) changes nothing. */
  lemma ShortPulseRejected(c: Channel, now: u16)
    requires c.divider >= 1
    requires PulseLength(c, now) < MIN_PULSE
    ensures OnFalling(c, now) == c
  {
  }

  /** An accepted pulse only widens the bounds, one of them at most, by
      snapping it to the pulse length; the divider is recomputed from the
      new bounds when one changed, and the start time is kept. */
  lemma BoundsOnlyWiden(c: Channel, now: u16)
    requires c.divider >= 1
    requires PulseLength(c, now) >= MIN_PULSE
    ensures var r, signal := OnFalling(c, now), PulseLength(c, now);
            && r.start == c.start
            && r.min <= c.min && r.max >= c.max
            && (r.min == c.min || r.max == c.max)
            && (r.min != c.min ==> r.min == signal)
            && (r.max != c.max ==> r.max == signal)
            && (r.min == c.min && r.max == c.max ==> r.divider == c.divider)
            && (r.min != c.min || r.max != c.max ==> r.divider == Divider(r.min, r.max))
  {
  }

  /** After an accepted pulse the lower bound is at most the pulse length;
      when the bounds were ordered before, the pulse lies between the new
      bounds and they are still ordered. */
  lemma BoundsStayOrdered(c: Channel, now: u16)
    requires c.divider >= 1
    requires PulseLength(c, now) >= MIN_PULSE
    ensures OnFalling(c, now).min <= PulseLength(c, now)
    ensures c.min <= c.max ==>
              var r := OnFalling(c, now);
              r.min <= PulseLength(c, now) <= r.max && r.min <= r.max
  {
  }

  /** The stored value is the offset of the pulse above the new lower
      bound, divided by the new divider, reduced modulo 256 by the store
      into a `uint8_t`; a pulse that lowers the bound therefore stores 0. */
  lemma ValueFormula(c: Channel, now: u16)
    requires c.divider >= 1
    requires PulseLength(c, now) >= MIN_PULSE
    ensures var r, signal := OnFalling(c, now), PulseLength(c, now);
            && r.value == ((signal - r.min) / r.divider) % 256
            && (signal < c.min ==> r.value == 0)
  {
    var signal := PulseLength(c, now);
    var b := Widen(c, signal);
    assert OnFalling(c, now) == b.(value := Scale(signal, b.min, b.divider));
    BoundsStayOrdered(c, now);
    assert Sub16(signal, b.min) == signal - b.min;
    if signal < c.min {
      assert b.min == signal;
      assert (signal - b.min) / b.divider == 0;
    }
  }

  /** Where the quotient fits in 8 bits the value is the plain quotient. */
  lemma ValueInRange(c: Channel, now: u16)
    requires c.divider >= 1
    requires PulseLength(c, now) >= MIN_PULSE
    requires var r := OnFalling(c, now);
             PulseLength(c, now) - r.min < 256 * r.divider
    ensures var r, signal := OnFalling(c, now), PulseLength(c, now);
            r.value == (signal - r.min) / r.divider
  {
    var r, signal := OnFalling(c, now), PulseLength(c, now);
    ValueFormula(c, now);
    BoundsStayOrdered(c, now);
    QuotientBelow(signal - r.min, r.divider);
  }

  lemma QuotientBelow(x: int, d: int)
    requires d >= 1 && 0 <= x < 256 * d
    ensures 0 <= x / d < 256
  {
    assert (x / d) * d <= x;
  }

  /** The value is truncated, not clamped: with the settings-mode default
      bounds 2000..2256 (divider 1), a pulse of exactly the upper bound
      stores 256 mod 256 = 0, the darkest value, and a pulse one tick
      shorter stores 255. */
  lemma TopOfRangeWraps()
    ensures Divider(DEFAULT_MIN, DEFAULT_MAX) == 1
    ensures var c := Channel(DEFAULT_MIN, DEFAULT_MAX, 1, 0, 0);
            && OnFalling(c, DEFAULT_MAX) == c.(value := 0)
            && OnFalling(c, DEFAULT_MAX - 1) == c.(value := 255)
  {
  }

  /** Timer 1 counts 0..49999 (clear on compare with OCR1A = 49999,
      main.cpp:344-345), but the pulse length is a 16-bit difference. A
      12000-tick pulse that starts at count 45000 and ends after the
      reset, at 7000, is measured as 27536 ticks and widens the default
      upper bound to that length. */
  lemma PulseAcrossTimerReset()
    ensures var c := Channel(DEFAULT_MIN, DEFAULT_MAX, 1, 45000, 0);
            && PulseLength(c, 7000) == 12000 + (WORD - 50000)
            && OnFalling(c, 7000).max == 27536
  {
  }

  /** Bounds that cover a pulse length are stable: once a pulse has been
      accepted (from ordered bounds), a second pulse of the same length,
      whenever it starts, leaves bounds, divider and value as they are. */
  lemma RepeatedPulseIsStable(c: Channel, now: u16, start2: u16)
    requires c.divider >= 1 && c.min <= c.max
    requires PulseLength(c, now) >= MIN_PULSE
    ensures var r := OnFalling(c, now);
            var r2 := OnFalling(r.(start := start2), Add16(start2, PulseLength(c, now)));
            r2.min == r.min && r2.max == r.max && r2.divider == r.divider && r2.value == r.value
  {
    BoundsStayOrdered(c, now);
    AddSub16(start2, PulseLength(c, now));
  }

  /** The ordering premise of RepeatedPulseIsStable is needed: from bounds
      5000..1000 a 3000-tick pulse lowers the minimum only (the upper
      bound is tested only when the lower one did not match), and the
      same pulse again then raises the maximum to 3000. */
  lemma UnorderedRepeatMovesMax()
    ensures var c := Channel(5000, 1000, 1, 0, 0);
            var r := OnFalling(c, 3000);
            && r.min == 3000 && r.max == 1000
            && OnFalling(r.(start := 0), 3000).max == 3000
  {
  }

  // ---------------------------------------------------------------------
  // Properties of the whole handler

  /** Edge bookkeeping: a channel whose pin did not change is untouched; a
      rising edge only records the start time; a falling edge never touches
      the start time. */
  lemma EdgeBookkeeping(cs: seq<Channel>, last: bv8, pinb: bv8, now: u16, i: nat)
    requires IsChannels(cs) && i < CHANNELS
    ensures var r, curr := PinChange(cs, last, pinb, now), Pins(pinb);
            && |r| == CHANNELS
            && (!Bit(last ^ curr, i) ==> r[i] == cs[i])
            && (Bit(last ^ curr, i) && Bit(curr, i) ==> r[i] == cs[i].(start := now))
            && (Bit(last ^ curr, i) && !Bit(curr, i) ==> r[i] == OnFalling(cs[i], now))
            && r[i].start == if Bit(last ^ curr, i) && Bit(curr, i) then now else cs[i].start
  {
  }

  /** The handler keeps every divider at least 1. */
  lemma PinChangeKeepsChannels(cs: seq<Channel>, last: bv8, pinb: bv8, now: u16)
    requires IsChannels(cs)
    ensures IsChannels(PinChange(cs, last, pinb, now))
  {
    var r := PinChange(cs, last, pinb, now);
    forall i | 0 <= i < CHANNELS
      ensures r[i].divider >= 1
    {
      assert r[i] == EdgeAt(cs, last ^ Pins(pinb), Pins(pinb), now, i);
    }
  }

  /** Every channel's bounds are ordered. */
  predicate Ordered(cs: seq<Channel>)
  {
    forall i :: 0 <= i < |cs| ==> cs[i].min <= cs[i].max
  }

  /** The handler keeps every channel's bounds ordered. */
  lemma PinChangeKeepsOrder(cs: seq<Channel>, last: bv8, pinb: bv8, now: u16)
    requires IsChannels(cs)
    ensures Ordered(cs) ==> Ordered(PinChange(cs, last, pinb, now))
  {
    var r := PinChange(cs, last, pinb, now);
    forall i | 0 <= i < CHANNELS && Ordered(cs)
      ensures r[i].min <= r[i].max
    {
      EdgeBookkeeping(cs, last, pinb, now, i);
      if PulseLength(cs[i], now) >= MIN_PULSE {
        BoundsStayOrdered(cs[i], now);
      }
    }
  }

  /** A second interrupt with the same pin snapshot sees no edge and
      changes nothing. */
  lemma SameSnapshotNoChange(cs: seq<Channel>, pinb: bv8, now: u16)
    requires IsChannels(cs)
    ensures PinChange(cs, Pins(pinb), pinb, now) == cs
  {
    var r := PinChange(cs, Pins(pinb), pinb, now);
    forall i | 0 <= i < CHANNELS
      ensures r[i] == cs[i]
    {
      assert Pins(pinb) ^ Pins(pinb) == 0;
    }
  }

  /** Bounds are persisted exactly when they change: one channel's edge
      writes one word when a bound moves (the new bound) and none
      otherwise. */
  lemma WritesExactlyChangedBounds(i: nat, c: Channel, changed: bool, high: bool, now: u16)
    requires c.divider >= 1
    ensures var r, w := OnEdge(c, changed, high, now), EdgeWrites(i, c, changed, high, now);
            && |w| == (if r.min != c.min || r.max != c.max then 1 else 0)
            && (r.min != c.min ==> w == [MinWord(i, r.min)])
            && (r.max != c.max ==> w == [MaxWord(i, r.max)])
  {
  }

  /** The EEPROM writes a channel's new state calls for: the lower bound
      when it moved, else the upper bound when it moved, else none. */
  function BoundWrites(i: nat, c: Channel, r: Channel): seq<EepromWrite>
  {
    if r.min != c.min then [MinWord(i, r.min)]
    else if r.max != c.max then [MaxWord(i, r.max)]
    else []
  }

  /** A channel's edge writes exactly the bound its edge moved. */
  lemma WritesAreMovedBound(cs: seq<Channel>, diff: bv8, curr: bv8, now: u16, i: nat)
    requires IsChannels(cs) && i < CHANNELS
    ensures WritesAt(cs, diff, curr, now, i) == BoundWrites(i, cs[i], EdgeAt(cs, diff, curr, now, i))
  {
    var changed, high := Bit(diff, i), Bit(curr, i);
    WritesExactlyChangedBounds(i, cs[i], changed, high, now);
    if changed && !high && PulseLength(cs[i], now) >= MIN_PULSE {
      BoundsOnlyWiden(cs[i], now);
    }
  }

  /** One pin-change interrupt appends to the log, channel by channel in
      order 0, 1, 2, exactly the bounds that interrupt moved. */
  lemma PinWritesAreMovedBounds(log: seq<EepromWrite>, cs: seq<Channel>, last: bv8, pinb: bv8, now: u16)
    requires IsChannels(cs)
    ensures var r := PinChange(cs, last, pinb, now);
            PinWrites(log, cs, last, pinb, now)
              == log + BoundWrites(0, cs[0], r[0]) + BoundWrites(1, cs[1], r[1]) + BoundWrites(2, cs[2], r[2])
  {
    var curr := Pins(pinb);
    var diff := last ^ curr;
    WritesAreMovedBound(cs, diff, curr, now, 0);
    WritesAreMovedBound(cs, diff, curr, now, 1);
    WritesAreMovedBound(cs, diff, curr, now, 2);
  }
}
