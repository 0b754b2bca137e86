/** The firmware's state and its event handlers (main.cpp). The globals
    that main.cpp updates in place are arrays of one `Controller`; the
    configuration read from EEPROM at boot, never written afterwards by
    this code, is kept as sequences; the `static` locals of the two
    handlers and the PORTA/OCR0A registers are fields. */
module Firmware {
  import opened Word
  import opened Bits
  import opened BitPlanes
  import Bcm
  import opened Calibration
  import opened Animation

  /** The bit-plane buffer after one LED's step. */
  function PlanesAfterStep(p: seq<bv8>, led: nat, s: Step, shown: bv8, dark: bv8): (r: seq<bv8>)
    requires IsPlanes(p) && led < 8
    ensures IsPlanes(r)
  {
    match s
    case ShowSource => WriteColumn(p, led, shown)
    case ShowOff => WriteColumn(p, led, dark)
    case _ => p
  }

  /** The tick counter after one LED's step. */
  function TimerAfterStep(t: u16, s: Step): u16
  {
    if s == ResetTimer then 0 else t
  }

  /** The buffer after the main loop's first `n` update_led calls, LED
      `led` taking step `steps[led]` with source brightness `shown[led]`
      and dark brightness `dark`. */
  function PassUpTo(p: seq<bv8>, steps: seq<Step>, shown: seq<bv8>, dark: bv8, n: nat): (r: seq<bv8>)
    requires IsPlanes(p) && |steps| == LEDS && |shown| == LEDS && n <= LEDS
    ensures IsPlanes(r)
  {
    if n == 0 then p
    else PlanesAfterStep(PassUpTo(p, steps, shown, dark, n - 1), n - 1, steps[n - 1], shown[n - 1], dark)
  }

  /** What an LED shows after its step, from brightness `current`. */
  function Shows(s: Step, shown: bv8, dark: bv8, current: bv8): bv8
  {
    match s
    case ShowSource => shown
    case ShowOff => dark
    case _ => current
  }

  /** The LEDs do not interfere: after the first `n` calls, the column of
      each LED below `n` is what its own step shows, and every other
      column is as it was. */
  lemma {:induction false} PassColumns(p: seq<bv8>, steps: seq<Step>, shown: seq<bv8>, dark: bv8, n: nat, c: nat)
    requires IsPlanes(p) && |steps| == LEDS && |shown| == LEDS && n <= LEDS && c < 8
    ensures Column(PassUpTo(p, steps, shown, dark, n), c)
         == if c < n then Shows(steps[c], shown[c], dark, Column(p, c)) else Column(p, c)
  {
    if n > 0 {
      var q := PassUpTo(p, steps, shown, dark, n - 1);
      PassColumns(p, steps, shown, dark, n - 1, c);
      match steps[n - 1]
      case ShowSource => ColumnOfWrite(q, n - 1, shown[n - 1]);
      case ShowOff => ColumnOfWrite(q, n - 1, dark);
      case _ =>
    }
  }

  /** Writing the column of an LED below 7 keeps bit 7 of every plane, the
      bit that holds the button's pull-up on whenever a plane is on PORTA. */
  lemma WriteKeepsPullUp(p: seq<bv8>, led: nat, x: bv8)
    requires IsPlanes(p) && led < 7
    requires forall i :: 0 <= i < PLANES ==> Bit(p[i], 7)
    ensures forall i :: 0 <= i < PLANES ==> Bit(WriteColumn(p, led, x)[i], 7)
  {
    forall i | 0 <= i < PLANES
      ensures Bit(WriteColumn(p, led, x)[i], 7)
    {
      WriteColumnBit(p, led, x, i, 7);
    }
  }

  /** A pass of the main loop keeps the pull-up bit in every plane. */
  lemma {:induction false} PassKeepsPullUp(p: seq<bv8>, steps: seq<Step>, shown: seq<bv8>, dark: bv8, n: nat)
    requires IsPlanes(p) && |steps| == LEDS && |shown| == LEDS && n <= LEDS
    requires forall i :: 0 <= i < PLANES ==> Bit(p[i], 7)
    ensures forall i :: 0 <= i < PLANES ==> Bit(PassUpTo(p, steps, shown, dark, n)[i], 7)
  {
    if n > 0 {
      var q := PassUpTo(p, steps, shown, dark, n - 1);
      PassKeepsPullUp(p, steps, shown, dark, n - 1);
      WriteKeepsPullUp(q, n - 1, shown[n - 1]);
      WriteKeepsPullUp(q, n - 1, dark);
    }
  }

  class Controller {
    /** exponential() of exponential.h, the perceptual brightness curve;
        its table is not part of this model, so it is any function. */
    const curve: bv8 -> bv8

    /** leds[8]: the bit planes. */
    const leds: array<bv8>
    /** signal_min, signal_max, signal_divider, signal_start, signal_value. */
    const signalMin: array<u16>
    const signalMax: array<u16>
    const signalDivider: array<u8>
    const signalStart: array<u16>
    const signalValue: array<u8>
    /** timer[7]: the per-LED tick counters. */
    const timer: array<u16>

    /** leds_brightness_mode, leds_brightness, leds_mode, leds_time. */
    const brightnessMode: seq<u8>
    const brightness: seq<bv8>
    const ledMode: seq<u8>
    const ledTime: seq<u16>

    /** The compare handler's `static uint8_t mode`. */
    var phase: nat
    /** The pin-change handler's `static uint8_t last`. */
    var last: bv8
    /** The PORTA and OCR0A registers. */
    var portA: bv8
    var ocr0A: bv8
    /** The bound words written to EEPROM, oldest first. */
    ghost var eepromLog: seq<EepromWrite>

    /** Array sizes, configuration sizes, and no two globals sharing storage. */
    ghost predicate Shaped()
      reads this
    {
      && leds.Length == PLANES && timer.Length == LEDS
      && signalMin.Length == CHANNELS && signalMax.Length == CHANNELS
      && signalDivider.Length == CHANNELS && signalStart.Length == CHANNELS
      && signalValue.Length == CHANNELS
      && |brightnessMode| == LEDS && |brightness| == LEDS
      && |ledMode| == LEDS && |ledTime| == LEDS
      && signalDivider != signalValue
      && signalMin != signalMax && signalMin != signalStart && signalMin != timer
      && signalMax != signalStart && signalMax != timer && signalStart != timer
    }

    /** The invariant every handler keeps: the compare phase is 0..6 and
        OCR0A holds the count at which that phase's compare fires, and
        every divider is at least 1. */
    ghost predicate Valid()
      reads this, signalDivider
    {
      && Shaped()
      && phase < Bcm.PHASES && ocr0A == Bcm.CompareAt(phase)
      && forall i :: 0 <= i < CHANNELS ==> signalDivider[i] >= 1
    }

    /** Bit 7 is set in PORTA and in every plane, so the button's pull-up
        stays on whatever plane the BCM handlers copy to PORTA. */
    ghost predicate ButtonPullUp()
      reads this, leds
    {
      leds.Length == PLANES && Bit(portA, 7) && forall i :: 0 <= i < PLANES ==> Bit(leds[i], 7)
    }

    /** Input channel `i`'s globals. */
    ghost function ChannelAt(i: nat): Channel
      reads this, signalMin, signalMax, signalDivider, signalStart, signalValue
      requires Shaped() && i < CHANNELS
    {
      Channel(signalMin[i], signalMax[i], signalDivider[i], signalStart[i], signalValue[i])
    }

    ghost function Channels(): (cs: seq<Channel>)
      reads this, signalMin, signalMax, signalDivider, signalStart, signalValue
      requires Shaped()
      ensures |cs| == CHANNELS
      ensures forall i :: 0 <= i < CHANNELS ==> cs[i] == ChannelAt(i)
    {
      [ChannelAt(0), ChannelAt(1), ChannelAt(2)]
    }

    /** Entry `i` of Channels() is channel `i`'s globals: the single
        instance of Channels()'s quantified postcondition that a handler
        for channel `i` needs, stated for the solver at the handler's entry
        state so that it does not search the quantifier in every heap. */
    lemma ChannelsEntry(i: nat)
      requires Shaped() && i < CHANNELS
      ensures Channels()[i] == ChannelAt(i)
    {
    }

    /** Boot (main.cpp:317-340 and 389-391, the settings branch left out):
        the button pull-up, the EEPROM configuration and bounds, the
        dividers from the bounds, OCR0A = 1, the boot bit planes, and the
        tick counters cleared. The `static` locals start at 0. */
    constructor (curve: bv8 -> bv8, brightnessModeEe: seq<u8>, brightnessEe: seq<bv8>,
                 ledModeEe: seq<u8>, ledTimeEe: seq<u16>, minEe: seq<u16>, maxEe: seq<u16>)
      requires |brightnessModeEe| == LEDS && |brightnessEe| == LEDS
      requires |ledModeEe| == LEDS && |ledTimeEe| == LEDS
      requires |minEe| == CHANNELS && |maxEe| == CHANNELS
      ensures Valid() && ButtonPullUp()
      ensures fresh(leds) && fresh(signalMin) && fresh(signalMax) && fresh(signalDivider)
      ensures fresh(signalStart) && fresh(signalValue) && fresh(timer)
      ensures this.curve == curve
      ensures brightnessMode == brightnessModeEe && brightness == brightnessEe
      ensures ledMode == ledModeEe && ledTime == ledTimeEe
      ensures signalMin[..] == minEe && signalMax[..] == maxEe
      ensures forall i :: 0 <= i < CHANNELS ==> signalDivider[i] == Divider(minEe[i], maxEe[i])
      ensures forall i :: 0 <= i < CHANNELS ==> signalStart[i] == 0 && signalValue[i] == 0
      ensures leds[..] == seq(PLANES, _ => BOOT_PLANE)
      ensures forall i :: 0 <= i < LEDS ==> timer[i] == 0
      ensures phase == 0 && last == 0 && portA == 0x80 && ocr0A == 1
      ensures eepromLog == []
    {
      this.curve := curve;
      portA := 0x80;
      brightnessMode, brightness := brightnessModeEe, brightnessEe;
      ledMode, ledTime := ledModeEe, ledTimeEe;
      signalMin := new u16[CHANNELS](i requires 0 <= i < CHANNELS => minEe[i]);
      signalMax := new u16[CHANNELS](i requires 0 <= i < CHANNELS => maxEe[i]);
      signalDivider := new u8[CHANNELS](_ => 0);
      signalStart := new u16[CHANNELS](_ => 0);
      signalValue := new u8[CHANNELS](_ => 0);
      leds := new bv8[PLANES](_ => 0);
      timer := new u16[LEDS](_ => 0);
      ocr0A := 1;
      phase, last := 0, 0;
      eepromLog := [];
      new;
      InitDividers();
      InitPlanes();
      ResetTimers();
    }

    /** Boot's divider loop (main.cpp:327-329). */
    method InitDividers()
      requires Shaped()
      modifies signalDivider
      ensures forall j :: 0 <= j < CHANNELS ==> signalDivider[j] == Divider(signalMin[j], signalMax[j])
    {
      for i := 0 to CHANNELS
        invariant forall j :: 0 <= j < i ==> signalDivider[j] == Divider(signalMin[j], signalMax[j])
      {
        UpdateDivider(i);
      }
    }

    /** Boot's bit-plane loop (main.cpp:338-340): every plane drives the
        LEDs low and keeps the button's pull-up on. */
    method InitPlanes()
      requires Shaped()
      modifies leds
      ensures forall j :: 0 <= j < PLANES ==> leds[j] == BOOT_PLANE
    {
      for i := 0 to PLANES
        invariant forall j :: 0 <= j < i ==> leds[j] == BOOT_PLANE
      {
        leds[i] := BOOT_PLANE;
      }
    }

    /** Boot's tick-counter loop (main.cpp:389-391). */
    method ResetTimers()
      requires Shaped()
      modifies timer
      ensures forall j :: 0 <= j < LEDS ==> timer[j] == 0
    {
      for i := 0 to LEDS
        invariant forall j :: 0 <= j < i ==> timer[j] == 0
      {
        timer[i] := 0;
      }
    }

    /** set_brightness (main.cpp:66-75): column `led` of the planes becomes
        the corrected brightness `curve(b)`, bit by bit. */
    method SetBrightness(led: nat, b: bv8)
      requires Shaped() && led < 8
      modifies leds
      ensures leds[..] == WriteColumn(old(leds[..]), led, curve(b))
    {
      var e := curve(b);
      ghost var p := leds[..];
      for i := 0 to PLANES
        invariant forall k :: 0 <= k < PLANES ==> leds[k] == if k < i then SetBit(p[k], led, Bit(e, k)) else p[k]
      {
        if Bit(e, i) {
          leds[i] := SetBit(leds[i], led, true);
        } else {
          leds[i] := SetBit(leds[i], led, false);
        }
      }
    }

    /** update_divider (main.cpp:77-82). */
    method UpdateDivider(i: nat)
      requires Shaped() && i < CHANNELS
      modifies signalDivider
      ensures signalDivider[i] == Divider(signalMin[i], signalMax[i])
      ensures forall j :: 0 <= j < CHANNELS && j != i ==> signalDivider[j] == old(signalDivider[j])
    {
      signalDivider[i] := Low8(Sub16(signalMax[i], signalMin[i]) / 256);
      if signalDivider[i] < 1 {
        signalDivider[i] := 1;
      }
    }

    /** The timer-0 compare-match handler (main.cpp:84-123). */
    method OnCompareMatch()
      requires Valid()
      modifies this`portA, this`ocr0A, this`phase
      ensures Valid()
      ensures portA == leds[Bcm.PlaneOf(old(phase))]
      ensures ocr0A == Bcm.Reload(old(phase))
      ensures phase == Bcm.NextPhase(old(phase))
      ensures old(ButtonPullUp()) ==> ButtonPullUp()
    {
      if phase == 0 {
        portA := leds[1]; ocr0A := 3; phase := phase + 1;
      } else if phase == 1 {
        portA := leds[2]; ocr0A := 7; phase := phase + 1;
      } else if phase == 2 {
        portA := leds[3]; ocr0A := 15; phase := phase + 1;
      } else if phase == 3 {
        portA := leds[4]; ocr0A := 31; phase := phase + 1;
      } else if phase == 4 {
        portA := leds[5]; ocr0A := 63; phase := phase + 1;
      } else if phase == 5 {
        portA := leds[6]; ocr0A := 127; phase := phase + 1;
      } else {
        portA := leds[7]; ocr0A := 1; phase := 0;
      }
    }

    /** The timer-0 overflow handler (main.cpp:125-127). */
    method OnOverflow()
      requires Valid()
      modifies this`portA
      ensures Valid()
      ensures portA == leds[0]
      ensures old(ButtonPullUp()) ==> ButtonPullUp()
    {
      portA := leds[0];
    }

    /** The timer-1 compare handler (main.cpp:129-133): every tick counter
        advances by one, wrapping at 2^16. */
    method OnTick()
      requires Shaped()
      modifies timer
      ensures forall i :: 0 <= i < LEDS ==> timer[i] == Add16(old(timer[i]), 1)
    {
      for i := 0 to LEDS
        invariant forall k :: 0 <= k < i ==> timer[k] == Add16(old(timer[k]), 1)
        invariant forall k :: i <= k < LEDS ==> timer[k] == old(timer[k])
      {
        timer[i] := Add16(timer[i], 1);
      }
    }

    /** The pin-change handler (main.cpp:135-164), for the PINB snapshot
        `pinb` and the timer-1 count `tcnt1` it reads. */
    method OnPinChange(pinb: bv8, tcnt1: u16)
      requires Valid()
      modifies this`last, this`eepromLog
      modifies signalMin, signalMax, signalDivider, signalStart, signalValue
      ensures Valid()
      ensures Channels() == PinChange(old(Channels()), old(last), pinb, tcnt1)
      ensures last == Pins(pinb)
      ensures eepromLog == PinWrites(old(eepromLog), old(Channels()), old(last), pinb, tcnt1)
      ensures Ordered(old(Channels())) ==> Ordered(Channels())
    {
      var curr := Pins(pinb);
      var diff := last ^ curr;
      ghost var before, log0 := Channels(), eepromLog;
      HandleChannels(diff, curr, tcnt1);
      PinChangeUpToAll(before, last, pinb, tcnt1);
      LogUpToAll(log0, before, last, pinb, tcnt1);
      PinChangeKeepsOrder(before, last, pinb, tcnt1);
      last := curr;
    }

    /** The pin-change handler's loop over channels 0..2 (main.cpp:140-161),
        for the changed pins `diff` and the new pin levels `curr`. */
    method HandleChannels(diff: bv8, curr: bv8, tcnt1: u16)
      requires Valid()
      modifies this`eepromLog, signalMin, signalMax, signalDivider, signalStart, signalValue
      ensures Valid()
      ensures Channels() == PinChangeUpTo(old(Channels()), diff, curr, tcnt1, CHANNELS)
      ensures eepromLog == LogUpTo(old(eepromLog), old(Channels()), diff, curr, tcnt1, CHANNELS)
    {
      ghost var before, log0 := Channels(), eepromLog;
      for i := 0 to CHANNELS
        invariant Valid()
        invariant Channels() == PinChangeUpTo(before, diff, curr, tcnt1, i)
        invariant eepromLog == LogUpTo(log0, before, diff, curr, tcnt1, i)
      {
        PinChangeUpToLater(before, diff, curr, tcnt1, i, i);
        PassIsLocal(Channels(), before, diff, curr, tcnt1, i);
        OnChannelEdge(i, diff, curr, tcnt1);
      }
    }

    /** One pass of the pin-change handler's loop, for channel `i`, the
        changed pins `diff` and the new pin levels `curr`. The `continue`
        of a short pulse is the early return of OnFallingEdge. */
    method OnChannelEdge(i: nat, diff: bv8, curr: bv8, tcnt1: u16)
      requires Valid() && i < CHANNELS
      modifies this`eepromLog, signalMin, signalMax, signalDivider, signalStart, signalValue
      ensures Valid()
      ensures Channels() == old(Channels())[i := EdgeAt(old(Channels()), diff, curr, tcnt1, i)]
      ensures eepromLog == old(eepromLog) + WritesAt(old(Channels()), diff, curr, tcnt1, i)
    {
      ChannelsEntry(i);
      if Bit(diff, i) {
        if Bit(curr, i) {
          OnRisingEdge(i, tcnt1);
        } else {
          OnFallingEdge(i, tcnt1);
        }
      }
    }

    /** A rising edge on channel `i` (main.cpp:142-143): the pulse starts. */
    method OnRisingEdge(i: nat, tcnt1: u16)
      requires Valid() && i < CHANNELS
      modifies signalStart
      ensures Valid()
      ensures ChannelAt(i) == old(ChannelAt(i)).(start := tcnt1)
      ensures forall j :: 0 <= j < CHANNELS && j != i ==> ChannelAt(j) == old(ChannelAt(j))
    {
      signalStart[i] := tcnt1;
    }

    /** A falling edge on channel `i` (main.cpp:145-158): a pulse too short
        is ignored (the loop's `continue`); otherwise a pulse outside the
        bounds moves the bound to it, logs the bound's EEPROM word and
        recomputes the divider, and the value is then scaled. */
    method OnFallingEdge(i: nat, tcnt1: u16)
      requires Valid() && i < CHANNELS
      modifies this`eepromLog, signalMin, signalMax, signalDivider, signalValue
      ensures Valid()
      ensures ChannelAt(i) == OnFalling(old(ChannelAt(i)), tcnt1)
      ensures forall j :: 0 <= j < CHANNELS && j != i ==> ChannelAt(j) == old(ChannelAt(j))
      ensures eepromLog == old(eepromLog) + EdgeWrites(i, old(ChannelAt(i)), true, false, tcnt1)
    {
      ghost var c := ChannelAt(i);
      var signal := Sub16(tcnt1, signalStart[i]);
      assert signal == PulseLength(c, tcnt1);
      if signal < MIN_PULSE {
        return;
      }
      WidenBounds(i, signal);
      ghost var b := ChannelAt(i);
      signalValue[i] := Scale(signal, signalMin[i], signalDivider[i]);
      assert ChannelAt(i) == b.(value := Scale(signal, b.min, b.divider));
    }

    /** The bound update of a falling edge on channel `i` (main.cpp:149-156). */
    method WidenBounds(i: nat, signal: u16)
      requires Valid() && i < CHANNELS
      modifies this`eepromLog, signalMin, signalMax, signalDivider
      ensures Valid()
      ensures ChannelAt(i) == Widen(old(ChannelAt(i)), signal)
      ensures forall j :: 0 <= j < CHANNELS && j != i ==> ChannelAt(j) == old(ChannelAt(j))
      ensures eepromLog == old(eepromLog) + (if signal < old(signalMin[i]) then [MinWord(i, signal)]
                  else if signal > old(signalMax[i]) then [MaxWord(i, signal)] else [])
    {
      if signal < signalMin[i] {
        signalMin[i] := signal;
        eepromLog := eepromLog + [MinWord(i, signal)];
        UpdateDivider(i);
      } else if signal > signalMax[i] {
        signalMax[i] := signal;
        eepromLog := eepromLog + [MaxWord(i, signal)];
        UpdateDivider(i);
      }
    }

    /** update_brightness (main.cpp:281-287). */
    method UpdateBrightness(led: nat)
      requires Shaped() && led < LEDS && ValidSource(brightnessMode[led])
      modifies leds
      ensures leds[..] == WriteColumn(old(leds[..]), led,
                curve(SourceBrightness(brightnessMode[led], brightness[led], signalValue[..])))
    {
      if brightnessMode[led] == CONSTANT {
        SetBrightness(led, brightness[led]);
      } else {
        SetBrightness(led, signalValue[brightnessMode[led]] as bv8);
      }
    }

    /** Every LED whose animation can show its source brightness has a
        source the firmware can read. */
    ghost predicate SourcesValid()
      reads this
    {
      |ledMode| == LEDS && |brightnessMode| == LEDS
      && forall led :: 0 <= led < LEDS && ledMode[led] <= 2 ==> ValidSource(brightnessMode[led])
    }

    /** The step update_led takes for each LED at the current tick counts. */
    ghost function Steps(): (steps: seq<Step>)
      reads this, timer
      requires Shaped()
      ensures |steps| == LEDS
    {
      seq(LEDS, led reads this, timer requires 0 <= led < LEDS => LedStep(ledMode[led], timer[led], ledTime[led]))
    }

    /** The corrected source brightness of each LED (0 for an LED whose
        animation never shows it). */
    ghost function Shown(): (shown: seq<bv8>)
      reads this, signalValue
      requires Shaped()
      ensures |shown| == LEDS
    {
      seq(LEDS, led reads this, signalValue requires 0 <= led < LEDS =>
        if ValidSource(brightnessMode[led])
        then curve(SourceBrightness(brightnessMode[led], brightness[led], signalValue[..]))
        else 0)
    }

    /** One pass of the main loop (main.cpp:393-397): update_led for LEDs
        0..6 in order. Each LED takes the step its own counter decides and
        resets only its own counter. */
    method UpdatePass()
      requires Shaped() && SourcesValid()
      modifies leds, timer
      ensures leds[..] == PassUpTo(old(leds[..]), old(Steps()), Shown(), curve(0), LEDS)
      ensures forall led :: 0 <= led < LEDS ==> timer[led] == TimerAfterStep(old(timer[led]), old(Steps())[led])
      ensures old(ButtonPullUp()) ==> ButtonPullUp()
    {
      ghost var p, steps, shown := leds[..], Steps(), Shown();
      for i := 0 to LEDS
        invariant leds[..] == PassUpTo(p, steps, shown, curve(0), i)
        invariant forall j :: 0 <= j < LEDS ==> timer[j] == if j < i then TimerAfterStep(old(timer[j]), steps[j]) else old(timer[j])
      {
        UpdateLed(i);
      }
      if old(ButtonPullUp()) {
        PassKeepsPullUp(p, steps, shown, curve(0), LEDS);
      }
    }

    /** update_led (main.cpp:289-313): the LED's step, decided from its
        mode, tick counter and period, applied to the planes and counter. */
    method UpdateLed(led: nat)
      requires Shaped() && led < LEDS
      requires ledMode[led] <= 2 ==> ValidSource(brightnessMode[led])
      modifies leds, timer
      ensures var s := LedStep(ledMode[led], old(timer[led]), ledTime[led]);
              && (s == ShowSource ==> leds[..] == WriteColumn(old(leds[..]), led,
                    curve(SourceBrightness(brightnessMode[led], brightness[led], signalValue[..]))))
              && (s == ShowOff ==> leds[..] == WriteColumn(old(leds[..]), led, curve(0)))
              && (s == ResetTimer || s == Idle ==> leds[..] == old(leds[..]))
              && timer[led] == TimerAfterStep(old(timer[led]), s)
      ensures forall j :: 0 <= j < LEDS && j != led ==> timer[j] == old(timer[j])
    {
      var mode := ledMode[led];
      if mode == 0 {
        UpdateBrightness(led);
      } else if mode == 1 {
        if timer[led] < ledTime[led] {
          SetBrightness(led, 0);
        } else if timer[led] < Double16(ledTime[led]) {
          UpdateBrightness(led);
        } else {
          timer[led] := 0;
        }
      } else if mode == 2 {
        if timer[led] < ledTime[led] {
          UpdateBrightness(led);
        } else if timer[led] < Double16(ledTime[led]) {
          SetBrightness(led, 0);
        } else {
          timer[led] := 0;
        }
      }
    }
  }
}
