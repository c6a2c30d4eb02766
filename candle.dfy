/** The firmware itself: one object whose fields are the volatile globals
    and the hardware outputs, and whose methods are the power-state routines,
    the interrupt handlers and one pass of the foreground loop, each run as
    one atomic step. Every method is specified by the function of the same
    entry point in CandleSpec, and all but the bare ADC handler keep the
    invariant of reachable states. */
module CandleDevice {
  import opened CandleSpec
  import CandleRuns

  class Controller {
    var state: Power
    var adcstate: AdcPhase
    var messCnt: uint8
    var antiBounceCnt: uint8
    var flags: uint8
    /** PORTB0, the divider-enable output. */
    var pb0: bool
    /** PORTB1, the LED output. */
    var pb1: bool
    /** Timer 0 in PWM mode with its compare interrupt enabled. */
    var pwm: bool
    /** ADEN and ADSC of ADCSRA. */
    var adcEnabled: bool
    var adcStarted: bool
    /** OCR0B, the PWM compare value. */
    var ocr0b: uint8

    /** The fields as one value. */
    function Model(): Regs
      reads this
    {
      Regs(state, adcstate, messCnt, antiBounceCnt, flags, pb0, pb1, pwm,
           adcEnabled, adcStarted, ocr0b)
    }

    ghost predicate Valid()
      reads this
    {
      CandleRuns.Inv(Model())
    }

    /** The state at the top of the main loop. */
    constructor ()
      ensures Model() == Boot && Valid()
    {
      state, adcstate := Off, AdcOff;
      messCnt, antiBounceCnt, flags := 0, 0, 0;
      pb0, pb1, pwm, adcEnabled, adcStarted := false, false, false, false, false;
      ocr0b := 0;
    }

    method SetState(st: Power)
      modifies this
      ensures Model() == CandleSpec.SetState(old(Model()), st)
      ensures old(Valid()) ==> Valid()
    {
      if st.On? {
        pwm := true;
        state := On;
      } else {
        state := Off;
        pwm := false;
        pb0, pb1 := false, false;
        adcEnabled, adcStarted := false, false;
        messCnt := 0;
        adcstate := AdcOff;
      }
    }

    /** off() */
    method PowerOff()
      modifies this
      ensures Model() == CandleSpec.SetState(old(Model()), Off)
      ensures old(Valid()) ==> Valid()
    {
      SetState(Off);
    }

    /** on() */
    method PowerOn()
      modifies this
      ensures Model() == CandleSpec.SetState(old(Model()), On)
      ensures old(Valid()) ==> Valid()
    {
      SetState(On);
    }

    method Toggle()
      requires Valid()
      modifies this
      ensures Model() == CandleSpec.Toggle(old(Model()))
      ensures state == Invert(old(state))
      ensures Valid()
    {
      if state.On? {
        PowerOff();
      } else {
        PowerOn();
      }
    }

    /** PCINT0_vect, with `pinLow` the level read from PINB2. */
    method ButtonInterrupt(pinLow: bool)
      requires Valid()
      modifies this
      ensures Model() == ButtonEdge(old(Model()), pinLow)
      ensures Valid()
    {
      CandleRuns.StepInv(Model(), CandleRuns.PinChange(pinLow));
      if pinLow {
        if antiBounceCnt >= AntiBounce {
          Toggle();
        }
        antiBounceCnt := 0;
      }
    }

    /** WDT_vect */
    method WatchdogInterrupt()
      requires Valid()
      modifies this
      ensures Model() == WatchdogTick(old(Model()))
      ensures Valid()
    {
      CandleRuns.StepInv(Model(), CandleRuns.WatchdogTimeout);
      flags := RaiseTickFlag(flags);
      if state.On? {
        messCnt := Inc8(messCnt);
      }
      if antiBounceCnt < AntiBounce {
        antiBounceCnt := antiBounceCnt + 1;
      }
    }

    /** ADC_vect. It runs when the hardware has finished a conversion and
        cleared ADSC; see ConversionEnds. */
    method AdcInterrupt()
      modifies this
      ensures Model() == AdcComplete(old(Model()))
    {
      adcstate := AdcFinished;
    }

    /** The end of a conversion as the hardware performs it: if one is under
        way, the ADC clears ADSC and then raises ADC_vect. */
    method ConversionEnds()
      requires Valid()
      modifies this
      ensures Model() == CandleRuns.Step(old(Model()), CandleRuns.ConversionComplete)
      ensures old(adcstate).AdcConv? ==> adcstate.AdcFinished? && !adcStarted
      ensures Valid()
    {
      CandleRuns.StepInv(Model(), CandleRuns.ConversionComplete);
      if adcStarted {
        adcStarted := false;
        AdcInterrupt();
      }
    }

    /** The sleep mode chosen at the top of the main loop. */
    method ChooseSleepMode() returns (m: SleepMode)
      ensures m.PowerDown? <==> state.Off?
      ensures m.Idle? <==> state.On?
    {
      if state.Off? {
        m := PowerDown;
      } else {
        m := Idle;
      }
    }

    /** The main loop after waking: `sample` is the ADC result register and
        `rand` the value rand() returns. */
    method ForegroundPass(sample: uint16, rand: nat)
      requires Valid()
      modifies this
      ensures Model() == LoopPass(old(Model()), sample, rand)
      ensures Valid()
    {
      ghost var s := Model();
      CandleRuns.StepInv(s, CandleRuns.Wake(sample, rand));
      if state.On? {
        if messCnt > Cnt10s && adcstate.AdcOff? {
          messCnt := 0;
          pb0 := true;
          adcEnabled, adcStarted := true, true;
          adcstate := AdcConv;
        }
        if adcstate.AdcFinished? {
          if sample < BattLow {
            PowerOff();
          }
          adcEnabled, adcStarted := false, false;
          adcstate := AdcOff;
        }
        if TickFlag(flags) {
          ocr0b := (128 + rand % 128) as uint8;
        }
      }
      flags := 0;
    }
  }

  /** One battery check as the firmware performs it while on: the pass that
      finds the tick counter past CNT10S starts a conversion, the ADC ends it,
      and the next pass reads `sample` and switches the device off iff it is
      below BATTLOW. Between the two passes the ADC is the only event. */
  method BatteryCheck(c: Controller, sample: uint16, rand1: nat, rand2: nat)
    requires c.Valid() && c.state.On? && c.adcstate.AdcOff? && c.messCnt > Cnt10s
    modifies c
    ensures c.Valid()
    ensures c.state.Off? <==> sample < BattLow
    ensures c.adcstate.AdcOff? && !c.adcEnabled && !c.adcStarted && c.messCnt == 0
    ensures c.flags == 0
  {
    c.ForegroundPass(0, rand1);
    assert c.adcstate.AdcConv? && c.adcStarted && c.state.On?;
    c.ConversionEnds();
    c.ForegroundPass(sample, rand2);
  }
}
