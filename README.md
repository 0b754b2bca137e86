# avr-rc-led-20ma firmware core, in Dafny

This project models `main.cpp` of the avr-rc-led-20ma firmware. The firmware runs on an ATtiny that reads three RC-receiver pulse channels and drives seven LEDs. Each LED uses binary-coded modulation (BCM) and has a per-LED animation. The model and its proofs cover these parts:

- **Bit planes** (`bits.dfy`, `bitplanes.dfy`). `leds[8]` hold one bit of every LED's corrected brightness per plane. `set_brightness` writes one LED's column. Reading a column back gives the written byte, and the other columns are untouched.
- **BCM frame** (`bcm.dfy`). The timer-0 overflow and compare-match handlers step through seven compare phases. Each phase outputs one plane and reloads OCR0A. Event timing follows the AVR 8-bit timer: the compare flag is set on the clock after the count equals OCR0A. The proofs show the following:
  - the phases cycle with period 7;
  - plane `q >= 1` is on the port for 2^q timer counts, and plane 0 for 2;
  - an LED is therefore lit for its stored brightness, or one count more when bit 0 is set, out of a 256-count frame.
- **Pulse capture and auto-ranging calibration** (`calibration.dfy`). The pin-change handler measures each channel's pulse with 16-bit wrapping arithmetic and rejects pulses under 100 ticks. A pulse outside the bounds widens the bounds to it and writes the new bound to EEPROM. The divider is recomputed, and the value is stored as `(signal - min) / divider` truncated to 8 bits. The handler keeps every divider at least 1, and it keeps the bounds ordered when they were ordered before.
- **Animation** (`animation.dfy`). `update_led` chooses a step for a mode, tick counter and period:
  - mode 0 shows the source brightness;
  - modes 1 and 2 are inverse blink and blink;
  - any other mode does nothing.
- **The firmware** (`word.dfy` for the AVR integer widths; `firmware.dfy`). The globals that `main.cpp` updates in place are the arrays of a `Controller` class: `leds`, `signal_*` and `timer`. The handlers, boot and one pass of the main loop are methods on it. Each method is proved against the functions above.
  - The pin-change method's proof shows that the three channels' passes do not interfere. The main-loop pass's proof shows the same for the seven LEDs.
  - Every handler keeps the button's pull-up bit (bit 7 of every plane and of PORTA) set.

These inputs are method parameters: the PINB snapshot and the TCNT1 count read by the pin-change handler, and the EEPROM contents read at boot. The `exponential()` brightness curve is a field of arbitrary function type. EEPROM writes are recorded in a ghost log.

Some behaviour of `main.cpp` is easy to misread, and these lemmas state it:

- `signal_value` is the quotient modulo 256, not clamped, because it is stored into a `uint8_t`: `TopOfRangeWraps`.
- A pulse outside the bounds moves that bound onto the pulse in one step: `BoundsOnlyWiden`.
- The blink modes reset the tick counter to 0 at the end of a cycle: `ResetIsNotPhasePreserving`.
- A pulse that spans a timer-1 reset is measured 15536 ticks too long: `PulseAcrossTimerReset`.

## Model

| member | source | states |
|---|---|---|
| Bits.SetBitBits | main.cpp:69-73 | SETBIT/CLEARBIT sets bit `i` to the chosen level and keeps every other bit |
| BitPlanes.WriteColumn | main.cpp:66-75 | set_brightness's effect on the buffer: eight planes again, column `c` replaced bit by bit (its meaning is stated by WriteColumnBit and ColumnOfWrite) |
| BitPlanes.WriteColumnBit | main.cpp:66-75 | after writing `x` into column `c`, bit `c` of plane `i` is bit `i` of `x`; every other bit of every plane is unchanged |
| BitPlanes.ColumnBits | main.cpp:41 | the column read back from the planes has, as its bit `i`, bit `c` of plane `i` |
| BitPlanes.ColumnOfWrite | main.cpp:66-75 | reading column `c` after writing `x` into it gives `x`, and every other LED's column reads as before |
| BitPlanes.ColumnsDetermine | main.cpp:41 | two plane buffers whose eight columns agree are equal, so the columns are a complete view of `leds` |
| BitPlanes.BootColumns | main.cpp:338-340 | the boot planes show brightness 0 on LEDs 0..6 |
| Bcm.NextPhase | main.cpp:90-120 | the compare phase advances modulo 7, staying in 0..6 |
| Bcm.PhaseAfterIsModular | main.cpp:84-122 | after `k` compare events from phase `m` the phase is `(m + k) mod 7` |
| Bcm.SevenCompares | main.cpp:84-122 | seven compares return to the starting phase; from phase 0 they output planes 1..7 in order |
| Bcm.Reload | main.cpp:84-122 | the compare handler of phase m loads OCR0A with 2^(m+2) − 1, and the last phase loads 1 |
| Bcm.PlaneDurations | main.cpp:84-127 | the planes tile one 256-count frame with no gap or overlap; plane q ≥ 1 lasts 2^q counts, and plane 0 lasts 2 |
| Bcm.ByteValue | main.cpp:68-69 | a byte's value is the sum of 2^k over its set bits, the weights the planes give each bit |
| Bcm.LitUpToLow | main.cpp:84-127 | planes 0..n-1 light an LED for the value of the low n bits of its column, plus 1 when bit 0 is set |
| Bcm.LitCountsIsColumn | main.cpp:84-127 | an LED is lit for its column's brightness in counts per 256-count frame, plus 1 when bit 0 is set |
| Calibration.Divider | main.cpp:77-82 | the divider is never 0 |
| Calibration.DividerFloor | main.cpp:77-82 | the divider is the wrapped span in units of 256 rounded down, or 1 for a span under 256 |
| Calibration.Widen | main.cpp:149-156 | the bound update keeps the divider at least 1 |
| Calibration.Scale | main.cpp:158 | the stored value: the offset of the pulse above the lower bound in divider units, kept exact whenever it is below 256 |
| Calibration.OnFalling | main.cpp:145-158 | a falling edge on one channel: the divider stays at least 1, the start time is kept, and the bounds only widen (exact values in BoundsOnlyWiden and ValueFormula) |
| Calibration.OnEdge | main.cpp:141-159 | one channel's pass: nothing unless its pin changed; the divider stays at least 1 and the bounds only widen |
| Calibration.EdgeWrites | main.cpp:149-156 | one channel's pass writes at most one EEPROM word, and only for an accepted falling edge |
| Calibration.ShortPulseRejected | main.cpp:145-148 | a pulse that measures under 100 ticks (wrapping difference) leaves the channel exactly as it was |
| Calibration.BoundsOnlyWiden | main.cpp:149-156 | an accepted pulse only widens the bounds, and at most one of them: the moved bound equals the pulse; the divider is recomputed from the new bounds exactly when one moved; the start time is kept |
| Calibration.BoundsStayOrdered | main.cpp:149-156 | after an accepted pulse, min ≤ pulse; from ordered bounds, min ≤ pulse ≤ max and the bounds stay ordered |
| Calibration.ValueFormula | main.cpp:158 | the stored value is (pulse − new min) / new divider, mod 256; a pulse that lowers the bound stores 0 |
| Calibration.ValueInRange | main.cpp:158 | when the quotient is below 256 the stored value is the quotient itself |
| Calibration.TopOfRangeWraps | main.cpp:158 | from the settings defaults 2000/2256 (divider 1), a pulse of 2256 ticks stores 0 and one of 2255 stores 255 |
| Calibration.RepeatedPulseIsStable | main.cpp:145-158 | from ordered bounds, a second pulse of the same length leaves bounds, divider and value unchanged, whenever it starts |
| Calibration.UnorderedRepeatMovesMax | main.cpp:149-156 | without ordered bounds that fails: from 5000..1000 a 3000-tick pulse lowers only the min, and a second one raises the max to 3000 |
| Calibration.EdgeBookkeeping | main.cpp:140-145 | an unchanged pin leaves its channel alone; a rising edge only records the start time; a falling edge measures and keeps the start time |
| Calibration.PinChangeKeepsChannels | main.cpp:135-164 | the whole handler keeps every channel's divider at least 1 |
| Calibration.PinChangeKeepsOrder | main.cpp:135-164 | when min ≤ max holds on all three channels, the whole handler keeps it on all three |
| Calibration.PulseAcrossTimerReset | main.cpp:145 | the 16-bit pulse difference is 15536 ticks too long for a pulse that spans timer 1's reset at 49999: 12000 real ticks measure 27536 and widen the default upper bound to 27536 |
| Calibration.SameSnapshotNoChange | main.cpp:136-138 | an interrupt that sees the same pins as the last one changes no channel |
| Calibration.WritesExactlyChangedBounds | main.cpp:149-156 | one channel's edge writes one EEPROM word exactly when a bound moved, namely the new bound, and none otherwise |
| Calibration.WritesAreMovedBound | main.cpp:141-158 | each channel's pass writes exactly the bound its edge moved |
| Calibration.PinWritesAreMovedBounds | main.cpp:140-161 | one interrupt appends to EEPROM, in channel order 0, 1, 2, exactly the bounds it moved |
| Calibration.PinChangeUpToLater | main.cpp:140 | channels the handler's loop has not reached yet are untouched |
| Calibration.PinChangeUpToAll | main.cpp:140-161 | the loop over channels 0..2 computes the whole handler |
| Calibration.LogUpToAll | main.cpp:140-161 | the loop over channels 0..2 logs the whole handler's writes, channel by channel |
| Animation.LedStep | main.cpp:289-313 | update_led's decision: it does nothing exactly for modes above 2, and it resets the counter only once the counter has reached the period |
| Animation.DirectAndUnknownModes | main.cpp:290-312 | mode 0 always shows the source; exactly the modes above 2 do nothing |
| Animation.InverseBlinkPhases | main.cpp:294-302 | mode 1, period T: dark iff t < T; source iff T ≤ t < 2T; counter reset iff t ≥ 2T (2T below 2^16) |
| Animation.BlinkMirrorsInverseBlink | main.cpp:294-311 | mode 2 is mode 1 with the dark and lit halves swapped, for every counter and period |
| Animation.BlinkPhases | main.cpp:303-311 | mode 2, period T: source iff t < T; dark iff T ≤ t < 2T; reset iff t ≥ 2T (2T below 2^16) |
| Animation.LongPeriodSkipsSecondHalf | main.cpp:297-306 | with T ≥ 32768 the 16-bit `2*T` wraps: mode 1 never shows the source, mode 2 is never dark, and t ≥ T resets |
| Animation.ResetIsNotPhasePreserving | main.cpp:300 | the counter restarts at 0 rather than at t − 2T (T = 10: 25 resets, and 0 is dark again) |
| Firmware.WriteKeepsPullUp | main.cpp:66-75 | writing an LED column below 7 keeps bit 7 (the button pull-up) set in every plane |
| Firmware.PassUpTo | main.cpp:393-397 | the planes after the first n update_led calls of a pass, still eight planes (its meaning is stated by PassColumns) |
| Firmware.PassColumns | main.cpp:393-397 | after the first n update_led calls each LED below n shows what its own step chose, and every other column is unchanged |
| Firmware.PassKeepsPullUp | main.cpp:393-397 | a main-loop pass keeps bit 7 set in every plane |
| Firmware.Controller.Channels | main.cpp:57-62 | the channel view has one entry per input channel, entry i built from index i of the five signal arrays |
| Firmware.Controller.constructor | main.cpp:317-391 | boot: EEPROM configuration and bounds loaded, dividers computed from the bounds, planes 0x80, OCR0A = 1, counters and statics 0, PORTA pull-up set; the invariant and the pull-up hold |
| Firmware.Controller.InitDividers | main.cpp:327-329 | every channel's divider is Divider of its bounds |
| Firmware.Controller.InitPlanes | main.cpp:338-340 | every plane holds the boot value 0x80 |
| Firmware.Controller.ResetTimers | main.cpp:389-391 | every tick counter is 0 |
| Firmware.Controller.SetBrightness | main.cpp:66-75 | the loop leaves the planes equal to `WriteColumn` of the old planes with `curve(b)` |
| Firmware.Controller.UpdateDivider | main.cpp:77-82 | channel i's divider becomes Divider of its bounds; the other dividers are unchanged |
| Firmware.Controller.OnCompareMatch | main.cpp:84-123 | PORTA gets the plane of the phase, OCR0A its reload, and the phase advances; the invariant (OCR0A is the current phase's compare count) and the pull-up are kept |
| Firmware.Controller.OnOverflow | main.cpp:125-127 | PORTA gets plane 0; invariant and pull-up kept |
| Firmware.Controller.OnTick | main.cpp:129-133 | every tick counter advances by 1 modulo 2^16 |
| Firmware.Controller.OnPinChange | main.cpp:135-164 | the channels become `PinChange` of the old channels, `last` the new pins, and the EEPROM log gains `PinWrites`; dividers stay at least 1, and bounds ordered on all channels stay ordered |
| Firmware.Controller.HandleChannels | main.cpp:140-161 | the loop leaves the channels as the handler's passes over channels 0..2 compute them, and appends their writes in order |
| Firmware.Controller.OnChannelEdge | main.cpp:141-160 | one loop pass changes only channel i, to its `OnEdge` result, and appends that edge's writes |
| Firmware.Controller.OnRisingEdge | main.cpp:142-143 | channel i records the start time; nothing else changes |
| Firmware.Controller.OnFallingEdge | main.cpp:144-159 | channel i becomes `OnFalling`, the other channels are unchanged, and the log gains the edge's writes |
| Firmware.Controller.WidenBounds | main.cpp:149-156 | channel i's bounds and divider become `Widen`, and the log gains the new min word, the new max word, or nothing |
| Firmware.Controller.UpdateBrightness | main.cpp:281-287 | LED led's column becomes the corrected constant or channel value its brightness mode selects |
| Firmware.Controller.UpdateLed | main.cpp:289-313 | the planes and the LED's counter follow `LedStep`: source, dark, counter reset, or nothing; other counters are unchanged |
| Firmware.Controller.UpdatePass | main.cpp:393-397 | one pass leaves the planes equal to `PassUpTo` of the steps chosen from the old counters, each counter reset only by its own step, and keeps the pull-up |

## Left out

- Settings mode and its menus (settings.cpp and main.cpp:166-279, 350-382): this is the configuration UI, not the running core. Its default bounds appear only as `DEFAULT_MIN`/`DEFAULT_MAX` in `TopOfRangeWraps` and `PulseAcrossTimerReset`.
- Hardware register setup (DDRA, TIMSK0/1, TCCR0B/1B, OCR1A, GIMSK, PCMSK1) is not state of the model. The `Bcm` frame schedule relies on it: timer 0 in normal mode (TCCR0A left at 0, TCCR0B at main.cpp:337 selecting the clock) with both of its interrupts enabled (main.cpp:335). OCR0A's boot value is modelled.
- Bcm.PlaneDurations: the timing is the AVR timer's clock-level flag timing, idealised. The overflow flag is set as the count goes from 255 to 0, and the compare flag on the clock after the count equals OCR0A. Interrupt latency is the same for both events and is left out.
- Timer hardware: timer 0's counting appears only as the frame schedule in `Bcm`. PINB and TCNT1 are parameters of `OnPinChange`. The 6.25 ms tick period is not modelled.
- Firmware.Controller.OnPinChange: one `tcnt1` stands for all TCNT1 reads of one interrupt. The code reads TCNT1 afresh on each channel's pass (main.cpp:143, 145), so channels handled later in the same interrupt see a slightly later count.
- Timer 1 only counts 0..49999 (clear on compare at OCR1A = 49999, main.cpp:344-345). Like the code, the model measures a pulse by 16-bit wrapping difference, so a pulse that spans the reset is measured 15536 ticks too long (`PulseAcrossTimerReset`).
- Interrupt concurrency: each handler is one atomic method. The model does not capture a handler preempting the main loop inside `set_brightness`, or torn reads of the 16-bit `timer` and `signal_*` globals.
- The main loop runs forever; the model has one pass of it (`UpdatePass`).
- EEPROM: reads at boot are constructor parameters. Writes go into the ghost `eepromLog`, with no timing and no cell layout.
- `exponential()` is any function `bv8 -> bv8`, because its table (exponential.h) is not part of this model.
- Animation.SourceBrightness has no contract of its own. Its meaning is the `UpdateBrightness` postcondition.
- Calibration.PinChange and Calibration.PinWrites have no contract of their own. Their meaning is stated by `EdgeBookkeeping`, `PinChangeKeepsChannels`, `PinChangeKeepsOrder` and `PinWritesAreMovedBounds`.
- Ordering of the bounds at boot: the EEPROM bounds are taken as given, so `OnPinChange` promises `min <= max` after the interrupt only when it held on all three channels before.
- Calibration.Divider: its own ensures states only `d >= 1`. The floor property is `DividerFloor`.
- Firmware.Controller.SetBrightness: requires `led < 8`. With a larger `led` the C shift goes past the byte, and every caller passes 0..6.
- Firmware.Controller.UpdateBrightness: requires a brightness mode of 0..2 or 10 (`ValidSource`). With another mode, `signal_value[mode]` reads outside the array; settings.cpp only stores these modes.
- Firmware.Controller.UpdateLed: requires a valid brightness mode only for animation modes 0..2, the ones that read it, for the same reason.
- Firmware.Controller.UpdatePass: requires `SourcesValid`, the same condition for every LED.
- Firmware.Controller.OnCompareMatch: `phase` is an unbounded natural kept below 7 by the invariant. The switch's missing default (a `mode` of 7 or more) cannot arise.
- The 8-bit loop counters and the compare handler's `uint8_t` static `mode` (`phase`) are unbounded naturals; no loop reaches their width, and `phase` stays below 7. The pin-change handler's static `last` is a `bv8`.
