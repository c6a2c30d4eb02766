# LED candle controller, modelled and verified in Dafny

This project models the firmware of TobleMiner's LED candle (`src/candle.c`),
an ATtiny controller for a battery-powered artificial flame. A push button
toggles the light with a debounce window of three watchdog ticks. While the
light is on, the PWM compare value is re-randomised once per tick. Every 77
ticks of "on" time the battery is sampled, and a raw ADC code below 698
switches the device off.

The model has three files:

- `candle_spec.dfy` (module `CandleSpec`): the globals `state`, `adcstate`,
  `messCnt`, `antiBounceCnt`, `flags` and the hardware lines the firmware
  writes, as one record `Regs`. Each entry point is a function from the record
  before it runs to the record after it, and each function's contract says what
  that entry point promises.
- `candle_runs.dfy` (module `CandleRuns`): interrupts and foreground passes as
  atomic events, and runs as sequences of events. The lemmas cover the
  invariant of reachable states, the legal moves of the ADC state machine, the
  sampling cadence, the debounce window, and the fact that a switched-off
  device stays off until the button is pressed.
- `candle.dfy` (module `CandleDevice`): the firmware as a class `Controller`.
  Its fields are the globals and registers. Its methods are `setState`, `off`,
  `on`, `toggle`, the three interrupt handlers, the sleep-mode choice and one
  pass of the main loop, written as imperative code over the fields. Each
  method ensures that the new field values are what the matching `CandleSpec`
  function gives for the old values. `Valid()` is the invariant
  `CandleRuns.Inv`. Every method except `AdcInterrupt` keeps it: `SetState`,
  `PowerOff` and `PowerOn` keep it when it held before, and the others require
  it and ensure it. `AdcInterrupt` is the handler alone. It runs after the
  hardware has cleared ADSC, and `ConversionEnds` models the two together and
  keeps `Valid()`. `BatteryCheck` drives a `Controller` through one whole
  sample: the pass that starts a conversion, its end, and the pass that
  evaluates it.

How the hardware is represented:

- `pb0` is PORTB0. It powers the battery voltage divider.
- `pb1` is PORTB1, the LED pin as a port bit.
- `pwm` stands for the three timer-0 registers TCCR0A, TCCR0B and TIMSK0. It
  is true when they hold the PWM configuration and false when they are zero.
- `adcEnabled` and `adcStarted` are the ADEN and ADSC bits of ADCSRA.
- `ocr0b` is OCR0B, the PWM compare register.
- `messCnt`, `antiBounceCnt`, `flags` and `ocr0b` have type `uint8`, so the
  `messCnt++` on a `uint8_t` wraps from 255 to 0 explicitly (`Inc8`).
- `flags` is a `uint8`. `flags |= FLAGS_WDT` sets bit 0 and keeps the other
  bits (`RaiseTickFlag`). `(flags & FLAGS_WDT) > 0` tests bit 0 (`TickFlag`).
- The ADC result register is a `uint16` parameter of the foreground pass.
- `rand()` is a `nat` parameter. Its result is never negative, so C's `%` and
  Dafny's `%` agree on it.

Details of the code that the model keeps:

- The branch for a finished conversion (`src/candle.c:147`) clears only ADEN
  and ADSC. PORTB0 stays high until `off()` clears it (`src/candle.c:81`).
  `EvaluateSample` and `LowBatteryCutoff` therefore state that a sample at or
  above 698 leaves `pb0` as it was.
- `off()` sends any ADC phase back to OFF (`src/candle.c:84`). So besides
  OFF→CONV→FINISHED→OFF, `LegalAdcMove` allows a move from any phase to OFF,
  and only into a state where the device is off.
- The foreground pass tests `state` once, at `src/candle.c:132`. A pass in
  which the low-battery cutoff switches the device off still writes a new
  flicker value (`FlickerAfterCutoff`).

## Model

| member | source | states |
|---|---|---|
| CandleSpec.SetState | src/candle.c:66-86 | ON: state ON, PWM timer on; counters, ADC phase, divider and ADC lines unchanged. OFF: state OFF, timer off, both outputs low, ADC disabled and not started, messCnt 0, adcstate OFF; debounce counter, flags and OCR0B unchanged |
| CandleRuns.SetStateIdempotent | src/candle.c:66-86 | applying setState twice with the same argument equals applying it once |
| CandleSpec.Toggle | src/candle.c:98-108 | the new state is the inverse of the old one, and the result is exactly setState(inverse of old state) |
| CandleSpec.ButtonEdge | src/candle.c:157-165 | pin high: nothing changes; pin low: antiBounceCnt becomes 0, the state flips iff antiBounceCnt >= 3 beforehand (then the result is toggle with the counter reset), otherwise only the counter changes |
| CandleSpec.WatchdogTick | src/candle.c:167-174 | tick bit set, other flag bits kept; messCnt + 1 mod 256 while ON, unchanged while OFF; antiBounceCnt + 1 only below 3, so it stays <= 3; nothing else changes |
| CandleSpec.Inc8 | src/candle.c:171 | uint8_t increment: (x + 1) mod 256, 255 wraps to 0 |
| CandleSpec.RaiseTickFlag | src/candle.c:169 | setting FLAGS_WDT in flags: bit 0 set, the higher bits unchanged |
| CandleSpec.AdcComplete | src/candle.c:176-179 | adcstate becomes FINISHED and nothing else changes |
| CandleSpec.SleepModeFor | src/candle.c:126-129 | power-down iff state OFF, idle iff state ON |
| CandleRuns.SleepModeMatchesPeripherals | src/candle.c:126-129 | in a reachable state, power-down is chosen only with timer 0 and the ADC stopped, idle only with timer 0 running |
| CandleSpec.StartConversion | src/candle.c:134-140 | with messCnt > 76 and adcstate OFF: messCnt 0, divider on, ADC enabled and started, adcstate CONV, nothing else changed; otherwise nothing changes |
| CandleSpec.EvaluateSample | src/candle.c:141-149 | adcstate FINISHED: ADC disabled and idle, device off iff sample < 698 (then the result is off() followed by the ADC reset), otherwise only the ADC bits and phase change and the divider stays as it was; other phases: nothing changes |
| CandleSpec.FlickerLevel | src/candle.c:151 | 128 + rand mod 128, always within [128, 255] |
| CandleSpec.LoopPass | src/candle.c:132-153 | flags 0 after every pass; OFF at the start: only flags change; ON with the tick bit: OCR0B becomes FlickerLevel(rand); OFF or no tick bit: OCR0B untouched; debounce counter never changed, LED pin never driven |
| CandleRuns.ConversionTrigger | src/candle.c:134-140 | a pass that starts ON with messCnt > 76 and adcstate OFF ends with messCnt 0, divider on, ADC enabled and started, adcstate CONV, still ON; without that condition no conversion is started and a running one is left alone |
| CandleRuns.LowBatteryCutoff | src/candle.c:141-149 | a pass that starts ON with adcstate FINISHED ends OFF iff sample < 698, always with the ADC disabled, not started and idle; a good sample leaves the divider as it was |
| CandleRuns.FlickerAfterCutoff | src/candle.c:132-151 | when the cutoff switches the device off in a pass that sees the tick bit, OCR0B is still rewritten in that pass |
| CandleRuns.TickConsumedOnce | src/candle.c:150-153 | a tick followed by a pass sets OCR0B once (when ON) and clears the flags; a second pass without a new tick leaves OCR0B alone |
| CandleRuns.BootInv | src/candle.c:46-62 | the initial values of the globals and registers satisfy the invariant |
| CandleRuns.StepInv | src/candle.c:66-179 | every interrupt and every foreground pass keeps the invariant: debounce counter <= 3, LED pin never driven, OFF implies messCnt 0, ADC idle, divider and timer off, ON implies timer on, the ADC bits match the ADC phase, OCR0B is 0 or in [128, 255] |
| CandleRuns.RunInv | src/candle.c:124-179 | every state reachable by any sequence of events from a state satisfying the invariant satisfies it |
| CandleRuns.StepAdcMove | src/candle.c:134-179 | one event moves adcstate only OFF→CONV (a pass while ON with messCnt > 76), CONV→FINISHED (the ADC interrupt), FINISHED→OFF, or any→OFF with the device off |
| CandleRuns.TraceAdcMoves | src/candle.c:132-179 | along every run, every consecutive pair of states is such a legal ADC move |
| CandleRuns.TicksAdvance | src/candle.c:167-174 | n ticks: state kept, tick bit set, messCnt + n mod 256 while ON and unchanged while OFF, antiBounceCnt = min(3, antiBounceCnt + n), nothing else changes |
| CandleRuns.CadenceQuiet | src/candle.c:132-174 | while ON with no conversion and no falling edge, as long as at most 76 ticks have been counted: messCnt is the number of ticks, the device stays ON and no pass starts a conversion, whatever passes, rising edges and ADC events come between |
| CandleRuns.SampleCadence | src/candle.c:134-140 | from a reset counter while ON, a run with 76 ticks mixed with any passes and non-falling events starts no conversion, and the first pass after the 77th tick starts one |
| CandleRuns.DebounceCount | src/candle.c:157-174 | without a falling edge, antiBounceCnt grows by the number of ticks up to 3, whatever other events come between |
| CandleRuns.DebounceWindow | src/candle.c:157-174 | after a falling edge and any events other than falling edges, the next falling edge changes the state iff at least 3 ticks came between, and resets antiBounceCnt to 0 |
| CandleRuns.OffUntilPressed | src/candle.c:124-179 | while no falling edge arrives, a device that is off stays off with messCnt 0, ADC phase OFF and the ADC disabled |
| CandleDevice.Controller.constructor | src/candle.c:46-62 | the globals at their initial values, and Valid() |
| CandleDevice.Controller.SetState | src/candle.c:66-86 | the new fields are CandleSpec.SetState of the old ones; Valid() is kept when it held |
| CandleDevice.Controller.PowerOff | src/candle.c:88-91 | the new fields are setState(OFF) of the old ones; Valid() is kept when it held |
| CandleDevice.Controller.PowerOn | src/candle.c:93-96 | the new fields are setState(ON) of the old ones; Valid() is kept when it held |
| CandleDevice.Controller.Toggle | src/candle.c:98-108 | the new fields are CandleSpec.Toggle of the old ones, the state is inverted, Valid() is kept |
| CandleDevice.Controller.ButtonInterrupt | src/candle.c:157-165 | the new fields are CandleSpec.ButtonEdge of the old ones, Valid() is kept |
| CandleDevice.Controller.WatchdogInterrupt | src/candle.c:167-174 | the new fields are CandleSpec.WatchdogTick of the old ones, Valid() is kept |
| CandleDevice.Controller.AdcInterrupt | src/candle.c:176-179 | the new fields are CandleSpec.AdcComplete of the old ones |
| CandleDevice.Controller.ConversionEnds | src/candle.c:176-179 | the hardware clearing ADSC followed by the handler: the new fields are CandleRuns.Step of the end of a conversion, a running conversion becomes FINISHED, Valid() is kept |
| CandleDevice.Controller.ChooseSleepMode | src/candle.c:126-129 | returns power-down iff the state is OFF and idle iff it is ON |
| CandleDevice.Controller.ForegroundPass | src/candle.c:132-153 | the new fields are CandleSpec.LoopPass of the old ones, Valid() is kept |
| CandleDevice.BatteryCheck | src/candle.c:132-179 | a pass with messCnt past 76, the end of the conversion and a second pass leave the device OFF iff the sample is below 698, with the ADC idle and disabled, messCnt 0 and Valid() kept |

## Left out

- Register bit layouts and peripheral setup (`src/candle.c:113-122`) are not modelled. Timer 0, the port bits and the ADC control bits are abstract booleans, and the boot state `Boot` holds the values that setup leaves in them.
- `srand(seed)`, `rand()` and the `.noinit` seed (`src/candle.c:64`, `src/candle.c:112`) are not modelled. They are a C library and uninitialised memory, so the result of `rand()` is a parameter of the pass.
- `sleep_enable()` and `sleep_cpu()` (`src/candle.c:130-131`) are not modelled. Only the choice of sleep mode is (`SleepModeFor`, `ChooseSleepMode`). Waking up is the arrival of the next event.
- Interrupts preempting the foreground pass part-way through are not modelled. Each handler and each pass is one atomic event. Concurrency at that level of detail is out of scope.
- The ADC's electrical behaviour and the calibration of 698 to 3000 mV at the 1.1 V reference are not modelled. The sample is any `uint16`.
- When the ADC interrupt fires is up to the hardware. In `CandleRuns.Step` the event `ConversionComplete` takes effect only while ADSC is set, and it clears ADSC, as the ADC does when a conversion ends. `Controller.ConversionEnds` does the same on the class. `Controller.AdcInterrupt` models the handler alone and therefore does not promise `Valid()`.
- The empty timer-compare handler `TIM0_COMPB_vect` (`src/candle.c:181`) has no effect and is not modelled.
- The pull-up on PB2 and the button wiring are not modelled. The button handler gets the level read from PINB2 as the boolean `pinLow`.
