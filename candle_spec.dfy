/** The LED-candle controller as values: the firmware's globals and the
    hardware lines it drives form one record, and every entry point of the
    firmware (the power-state routines, the three interrupt handlers and one
    pass of the foreground loop) is a function from the record before it runs
    to the record after it. */
module CandleSpec {

  /** The C integer types the firmware uses. */
  newtype uint8 = x: int | 0 <= x < 256
  newtype uint16 = x: int | 0 <= x < 65536

  /** Raw ADC code below which the battery counts as empty (BATTLOW). */
  const BattLow: uint16 := 698
  /** Watchdog ticks of "on" time between two battery samples (CNT10S). */
  const Cnt10s: uint8 := 76
  /** Watchdog ticks a button edge must be apart from the previous one (ANTIBOUNCE). */
  const AntiBounce: uint8 := 3

  /** STATE_OFF / STATE_ON */
  datatype Power = Off | On

  /** STATE_ADC_OFF / STATE_ADC_CONV / STATE_ADC_FINISHED */
  datatype AdcPhase = AdcOff | AdcConv | AdcFinished

  /** The two sleep modes the foreground loop chooses between. */
  datatype SleepMode = PowerDown | Idle

  /** The globals of the firmware together with the hardware outputs it writes:
      `pb0` is the divider-enable output PORTB0, `pb1` the LED output PORTB1,
      `pwm` stands for timer 0 running in PWM mode with its compare interrupt
      (TCCR0A, TCCR0B, TIMSK0), `adcEnabled` and `adcStarted` are the ADEN and
      ADSC bits of ADCSRA, and `ocr0b` is the PWM compare register. */
  datatype Regs = Regs(
    state: Power,
    adcstate: AdcPhase,
    messCnt: uint8,
    antiBounceCnt: uint8,
    flags: uint8,
    pb0: bool,
    pb1: bool,
    pwm: bool,
    adcEnabled: bool,
    adcStarted: bool,
    ocr0b: uint8)

  /** The values the globals and registers hold when the foreground loop is
      first entered: every global at its initialiser, PORTB0/1 low, timer 0
      stopped, the ADC configured but not enabled. */
  const Boot: Regs := Regs(Off, AdcOff, 0, 0, 0, false, false, false, false, false, 0)

  function Invert(p: Power): (q: Power)
    ensures q != p
  {
    if p.On? then Off else On
  }

  /** uint8_t increment, wrapping from 255 to 0. */
  function Inc8(x: uint8): (y: uint8)
    ensures y as int == (x as int + 1) % 256
    ensures x < 255 ==> y == x + 1
    ensures x == 255 ==> y == 0
  {
    if x == 255 then 0 else x + 1
  }

  /** `(flags & FLAGS_WDT) > 0`: the tick bit, bit 0, is set. */
  predicate TickFlag(flags: uint8) {
    flags % 2 == 1
  }

  /** `flags | FLAGS_WDT`: set bit 0 and keep the others. */
  function RaiseTickFlag(flags: uint8): (f: uint8)
    ensures TickFlag(f)
    ensures f / 2 == flags / 2
  {
    if flags % 2 == 1 then flags else flags + 1
  }

  /** setState: ON starts the PWM timer and touches nothing else; OFF stops
      the timer, drives both outputs low, switches the ADC off and resets the
      battery-sampling cycle. */
  function SetState(s: Regs, st: Power): (r: Regs)
    ensures r.state == st
    ensures st.On? ==> r.pwm
    ensures st.On? ==> r.messCnt == s.messCnt && r.adcstate == s.adcstate
                         && r.antiBounceCnt == s.antiBounceCnt && r.flags == s.flags
                         && r.pb0 == s.pb0 && r.pb1 == s.pb1
                         && r.adcEnabled == s.adcEnabled && r.adcStarted == s.adcStarted
                         && r.ocr0b == s.ocr0b
    ensures st.Off? ==> !r.pwm && !r.pb0 && !r.pb1 && !r.adcEnabled && !r.adcStarted
                          && r.messCnt == 0 && r.adcstate.AdcOff?
    ensures st.Off? ==> r.antiBounceCnt == s.antiBounceCnt && r.flags == s.flags
                          && r.ocr0b == s.ocr0b
  {
    if st.On? then
      s.(pwm := true, state := On)
    else
      s.(state := Off, pwm := false, pb0 := false, pb1 := false,
         adcEnabled := false, adcStarted := false, messCnt := 0, adcstate := AdcOff)
  }

  /** toggle: switch to the opposite of the current power state. */
  function Toggle(s: Regs): (r: Regs)
    ensures r.state == Invert(s.state)
    ensures r == SetState(s, Invert(s.state))
  {
    if s.state.On? then SetState(s, Off) else SetState(s, On)
  }

  /** PCINT0_vect: on a falling edge (pin read low) toggle if at least
      ANTIBOUNCE ticks have passed since the previous edge, and restart the
      debounce window in any case; a rising edge changes nothing. */
  function ButtonEdge(s: Regs, pinLow: bool): (r: Regs)
    ensures !pinLow ==> r == s
    ensures pinLow ==> r.antiBounceCnt == 0
    ensures pinLow && s.antiBounceCnt >= AntiBounce ==>
              r == Toggle(s).(antiBounceCnt := 0)
    ensures pinLow && s.antiBounceCnt < AntiBounce ==> r == s.(antiBounceCnt := 0)
    ensures pinLow ==> (r.state != s.state <==> s.antiBounceCnt >= AntiBounce)
  {
    if pinLow then
      var t := if s.antiBounceCnt >= AntiBounce then Toggle(s) else s;
      t.(antiBounceCnt := 0)
    else
      s
  }

  /** WDT_vect: record the tick, count "on" time with uint8_t wrap-around,
      and advance the debounce counter up to ANTIBOUNCE. */
  function WatchdogTick(s: Regs): (r: Regs)
    ensures TickFlag(r.flags) && r.flags == RaiseTickFlag(s.flags)
    ensures s.state.On? ==> r.messCnt as int == (s.messCnt as int + 1) % 256
    ensures s.state.Off? ==> r.messCnt == s.messCnt
    ensures s.antiBounceCnt < AntiBounce ==> r.antiBounceCnt == s.antiBounceCnt + 1
    ensures s.antiBounceCnt >= AntiBounce ==> r.antiBounceCnt == s.antiBounceCnt
    ensures s.antiBounceCnt <= AntiBounce ==> r.antiBounceCnt <= AntiBounce
    ensures r.(flags := s.flags, messCnt := s.messCnt, antiBounceCnt := s.antiBounceCnt) == s
  {
    s.(flags := RaiseTickFlag(s.flags),
       messCnt := if s.state.On? then Inc8(s.messCnt) else s.messCnt,
       antiBounceCnt := if s.antiBounceCnt < AntiBounce then s.antiBounceCnt + 1 else s.antiBounceCnt)
  }

  /** ADC_vect: record that the conversion has finished; nothing else. */
  function AdcComplete(s: Regs): (r: Regs)
    ensures r.adcstate.AdcFinished?
    ensures r.(adcstate := s.adcstate) == s
  {
    s.(adcstate := AdcFinished)
  }

  /** The sleep mode chosen before sleeping: power-down while off (only the
      button and the watchdog can wake the chip), idle while on (so that timer
      0 and the ADC keep running). */
  function SleepModeFor(st: Power): (m: SleepMode)
    ensures m.PowerDown? <==> st.Off?
    ensures m.Idle? <==> st.On?
  {
    if st.Off? then PowerDown else Idle
  }

  /** First step of an "on" pass: start a battery conversion once more than
      CNT10S ticks have passed and no conversion is under way. */
  function StartConversion(s: Regs): (r: Regs)
    ensures s.messCnt > Cnt10s && s.adcstate.AdcOff? ==>
              r == s.(messCnt := 0, pb0 := true, adcEnabled := true, adcStarted := true,
                      adcstate := AdcConv)
    ensures !(s.messCnt > Cnt10s && s.adcstate.AdcOff?) ==> r == s
  {
    if s.messCnt > Cnt10s && s.adcstate.AdcOff? then
      s.(messCnt := 0, pb0 := true, adcEnabled := true, adcStarted := true,
         adcstate := AdcConv)
    else
      s
  }

  /** Second step of an "on" pass: evaluate a finished conversion, switching
      off when the sample is below BATTLOW, then stop the ADC and return to
      the idle phase. The divider output is left as it was unless the device
      was switched off. */
  function EvaluateSample(s: Regs, sample: uint16): (r: Regs)
    ensures !s.adcstate.AdcFinished? ==> r == s
    ensures s.adcstate.AdcFinished? ==> r.adcstate.AdcOff? && !r.adcEnabled && !r.adcStarted
    ensures s.adcstate.AdcFinished? ==> (r.state.Off? <==> sample < BattLow || s.state.Off?)
    ensures s.adcstate.AdcFinished? && sample >= BattLow ==>
              r == s.(adcEnabled := false, adcStarted := false, adcstate := AdcOff)
    ensures s.adcstate.AdcFinished? && sample < BattLow ==>
              r == SetState(s, Off)
  {
    if s.adcstate.AdcFinished? then
      var t := if sample < BattLow then SetState(s, Off) else s;
      t.(adcEnabled := false, adcStarted := false, adcstate := AdcOff)
    else
      s
  }

  /** The new PWM compare value: 128 plus the random number modulo 128. */
  function FlickerLevel(rand: nat): (v: uint8)
    ensures 128 <= v <= 255
    ensures v as int - 128 == rand % 128
  {
    (128 + rand % 128) as uint8
  }

  /** One foreground pass after waking (the body of the main loop after the
      sleep instruction). The power state is tested once, at the start: the
      battery check may switch the device off and the flicker value is still
      written in the same pass. `flags` is cleared at the end in every case.
      `sample` is what the ADC result register reads and `rand` what rand()
      returns. */
  function LoopPass(s: Regs, sample: uint16, rand: nat): (r: Regs)
    ensures r.flags == 0
    ensures r.antiBounceCnt == s.antiBounceCnt && (r.pb1 ==> s.pb1)
    ensures s.state.Off? ==> r == s.(flags := 0)
    ensures s.state.On? && TickFlag(s.flags) ==> r.ocr0b == FlickerLevel(rand)
    ensures s.state.Off? || !TickFlag(s.flags) ==> r.ocr0b == s.ocr0b
  {
    if s.state.On? then
      var t := EvaluateSample(StartConversion(s), sample);
      var u := if TickFlag(s.flags) then t.(ocr0b := FlickerLevel(rand)) else t;
      u.(flags := 0)
    else
      s.(flags := 0)
  }
}
