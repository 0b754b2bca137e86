/** The LED animation step: update_brightness and update_led
    (main.cpp:281-313), as a decision on one LED's configuration and tick
    counter. */
module Animation {
  import opened Word

  /** Output LEDs (PA0..PA6). */
  const LEDS: nat := 7

  /** `leds_brightness_mode` value that selects the constant brightness. */
  const CONSTANT: u8 := 10

  /** Brightness modes the firmware can read without leaving its arrays:
      one of the three input channels, or the constant. */
  predicate ValidSource(mode: u8)
  {
    mode < 3 || mode == CONSTANT
  }

  /** update_brightness's choice of brightness: the LED's constant, or the
      latest value of the input channel the mode names. */
  function SourceBrightness(mode: u8, constant: bv8, values: seq<u8>): bv8
    requires |values| == 3 && ValidSource(mode)
  {
    if mode == CONSTANT then constant else values[mode] as bv8
  }

  /** What update_led does to one LED in one pass. */
  datatype Step =
    | ShowSource   // set_brightness with update_brightness's brightness
    | ShowOff      // set_brightness(led, 0)
    | ResetTimer   // timer[led] = 0, no brightness write
    | Idle         // an animation mode the switch has no case for

  /** `2*leds_time[led]`, computed in 16-bit `unsigned int`. */
  function Double16(period: u16): u16
  {
    (2 * period) % WORD
  }

  /** update_led's switch on the animation mode, for tick counter `t` and
      configured period `period`. */
  function LedStep(mode: u8, t: u16, period: u16): (s: Step)
    ensures s == Idle <==> mode > 2
    ensures s == ResetTimer ==> t >= period
  {
    match mode
    case 0 => ShowSource
    case 1 =>
      if t < period then ShowOff
      else if t < Double16(period) then ShowSource
      else ResetTimer
    case 2 =>
      if t < period then ShowSource
      else if t < Double16(period) then ShowOff
      else ResetTimer
    case _ => Idle
  }

  /** Mode 0 shows the source brightness on every pass; modes other than
      0, 1 and 2 do nothing at all. */
  lemma DirectAndUnknownModes(mode: u8, t: u16, period: u16)
    ensures mode == 0 ==> LedStep(mode, t, period) == ShowSource
    ensures mode > 2 ==> LedStep(mode, t, period) == Idle
    ensures LedStep(mode, t, period) == Idle <==> mode > 2
  {
  }

  /** Mode 1 (inverse blink), for a period whose double fits in 16 bits:
      dark while `t < T`, the source brightness while `T <= t < 2T`, and
      a reset of the counter once `t >= 2T`. */
  lemma InverseBlinkPhases(t: u16, period: u16)
    requires 2 * period < WORD
    ensures LedStep(1, t, period) == ShowOff <==> t < period
    ensures LedStep(1, t, period) == ShowSource <==> period <= t < 2 * period
    ensures LedStep(1, t, period) == ResetTimer <==> t >= 2 * period
  {
  }

  /** A step with its two brightness halves exchanged. */
  function Swapped(s: Step): Step
  {
    match s
    case ShowSource => ShowOff
    case ShowOff => ShowSource
    case _ => s
  }

  /** Mode 2 (blink) is mode 1 with the two halves swapped, for every
      counter and period. */
  lemma BlinkMirrorsInverseBlink(t: u16, period: u16)
    ensures LedStep(2, t, period) == Swapped(LedStep(1, t, period))
    ensures LedStep(1, t, period) == Swapped(LedStep(2, t, period))
  {
  }

  /** Mode 2, for a period whose double fits in 16 bits: the source
      brightness while `t < T`, dark while `T <= t < 2T`, then a reset. */
  lemma BlinkPhases(t: u16, period: u16)
    requires 2 * period < WORD
    ensures LedStep(2, t, period) == ShowSource <==> t < period
    ensures LedStep(2, t, period) == ShowOff <==> period <= t < 2 * period
    ensures LedStep(2, t, period) == ResetTimer <==> t >= 2 * period
  {
    BlinkMirrorsInverseBlink(t, period);
    InverseBlinkPhases(t, period);
  }

  /** With a period of 32768 ticks or more the 16-bit double wraps below
      the period, so mode 1 never shows the source brightness and mode 2
      is never dark: each resets the counter as soon as `t >= period`. */
  lemma LongPeriodSkipsSecondHalf(t: u16, period: u16)
    requires 2 * period >= WORD
    ensures LedStep(1, t, period) != ShowSource
    ensures LedStep(2, t, period) != ShowOff
    ensures t >= period ==> LedStep(1, t, period) == ResetTimer && LedStep(2, t, period) == ResetTimer
  {
  }

  /** The counter is reset to 0, not reduced by `2T`: with `T = 10` a
      counter of 25 ends the cycle, and the next cycle begins dark at 0. */
  lemma ResetIsNotPhasePreserving()
    ensures LedStep(1, 25, 10) == ResetTimer
    ensures LedStep(1, 0, 10) == ShowOff
    ensures LedStep(1, 10, 10) == ShowSource && LedStep(1, 19, 10) == ShowSource
    ensures LedStep(1, 20, 10) == ResetTimer
  {
  }
}
