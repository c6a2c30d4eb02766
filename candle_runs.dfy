/** Runs of the controller: every interrupt and every foreground pass is one
    atomic event, and a run applies a sequence of events to the record of
    globals and registers. The lemmas here state what holds on every run:
    the invariant of reachable states, the legal moves of the battery
    sampler, the cadence of the tick counter and the debounce window. */
module CandleRuns {
  import opened CandleSpec

  /** The events that drive the firmware. `ConversionComplete` is the ADC
      finishing a conversion and raising ADC_vect; `Wake` is one foreground
      pass with the ADC result and the value rand() returns. */
  datatype Event =
    | PinChange(pinLow: bool)
    | WatchdogTimeout
    | ConversionComplete
    | Wake(sample: uint16, rand: nat)

  /** One event. The ADC raises its interrupt only at the end of a
      conversion it was started on, and clears ADSC as it does; without a
      conversion in progress the event does nothing. */
  function Step(s: Regs, e: Event): (r: Regs)
    ensures e.PinChange? ==> r == ButtonEdge(s, e.pinLow)
    ensures e.WatchdogTimeout? ==> r == WatchdogTick(s)
    ensures e.Wake? ==> r == LoopPass(s, e.sample, e.rand)
    ensures e.ConversionComplete? && !s.adcStarted ==> r == s
    ensures e.ConversionComplete? && s.adcStarted ==> r == AdcComplete(s.(adcStarted := false))
  {
    match e
    case PinChange(low) => ButtonEdge(s, low)
    case WatchdogTimeout => WatchdogTick(s)
    case ConversionComplete => if s.adcStarted then AdcComplete(s.(adcStarted := false)) else s
    case Wake(sample, rand) => LoopPass(s, sample, rand)
  }

  /** The record after applying the events in order. */
  function Run(s: Regs, evs: seq<Event>): Regs
    decreases |evs|
  {
    if evs == [] then s else Run(Step(s, evs[0]), evs[1..])
  }

  /** The records a run passes through: the start, then the record after
      each event; the last one is where the run ends. */
  function Trace(s: Regs, evs: seq<Event>): (t: seq<Regs>)
    ensures |t| == |evs| + 1
    ensures t[0] == s && t[|evs|] == Run(s, evs)
    decreases |evs|
  {
    if evs == [] then [s] else [s] + Trace(Step(s, evs[0]), evs[1..])
  }

  /** `n` watchdog ticks in a row. */
  function Ticks(n: nat): (evs: seq<Event>)
    ensures |evs| == n
    ensures forall i :: 0 <= i < n ==> evs[i] == WatchdogTimeout
  {
    if n == 0 then [] else [WatchdogTimeout] + Ticks(n - 1)
  }

  /** What holds of every state the firmware reaches: the debounce counter
      never passes ANTIBOUNCE; the LED port bit is never driven (the LED is
      lit through the PWM unit only); while off, the tick counter is 0, no
      conversion is under way, and timer 0 and the divider are off; while on,
      timer 0 runs; the ADC is enabled exactly while a conversion is under
      way or waiting to be evaluated, started only while converting, and the
      divider is powered whenever the ADC is; the flicker level is either the
      reset value 0 or in the upper half of the PWM range. */
  predicate Inv(s: Regs) {
    && s.antiBounceCnt <= AntiBounce
    && !s.pb1
    && (s.state.Off? ==> s.messCnt == 0 && s.adcstate.AdcOff? && !s.pb0 && !s.pwm)
    && (s.state.On? ==> s.pwm)
    && (s.adcstate.AdcOff? ==> !s.adcEnabled && !s.adcStarted)
    && (s.adcstate.AdcConv? ==> s.adcEnabled && s.adcStarted && s.pb0)
    && (s.adcstate.AdcFinished? ==> s.adcEnabled && !s.adcStarted && s.pb0)
    && (s.ocr0b == 0 || 128 <= s.ocr0b)
  }

  lemma BootInv()
    ensures Inv(Boot)
  {
  }

  /** Every event keeps the invariant. */
  lemma StepInv(s: Regs, e: Event)
    ensures Inv(s) ==> Inv(Step(s, e))
  {
  }

  /** Every state reachable from one satisfying `Inv` satisfies it. */
  lemma {:induction false} RunInv(s: Regs, evs: seq<Event>)
    requires Inv(s)
    ensures Inv(Run(s, evs))
    decreases |evs|
  {
    if evs != [] {
      StepInv(s, evs[0]);
      RunInv(Step(s, evs[0]), evs[1..]);
    }
  }

  /** Running two sequences of events one after the other. */
  lemma {:induction false} RunAppend(s: Regs, a: seq<Event>, b: seq<Event>)
    ensures Run(s, a + b) == Run(Run(s, a), b)
    decreases |a|
  {
    if a != [] {
      assert (a + b)[0] == a[0];
      assert (a + b)[1..] == a[1..] + b;
      assert Run(s, a + b) == Run(Step(s, a[0]), a[1..] + b);
      assert Run(s, a) == Run(Step(s, a[0]), a[1..]);
      RunAppend(Step(s, a[0]), a[1..], b);
    } else {
      assert a + b == b;
    }
  }

  /** The moves the battery sampler may make in one event: stay, start a
      conversion, finish it, evaluate it, or drop back to idle because the
      device was switched off. */
  predicate LegalAdcMove(s: Regs, t: Regs) {
    || t.adcstate == s.adcstate
    || (s.adcstate.AdcOff? && t.adcstate.AdcConv?)
    || (s.adcstate.AdcConv? && t.adcstate.AdcFinished?)
    || (s.adcstate.AdcFinished? && t.adcstate.AdcOff?)
    || (t.adcstate.AdcOff? && t.state.Off?)
  }

  /** One event moves the sampler legally; a conversion is started only by a
      foreground pass with the device on, and finished only by the ADC. */
  lemma StepAdcMove(s: Regs, e: Event)
    requires Inv(s)
    ensures LegalAdcMove(s, Step(s, e))
    ensures !s.adcstate.AdcConv? && Step(s, e).adcstate.AdcConv? ==>
              e.Wake? && s.state.On? && s.adcstate.AdcOff? && s.messCnt > Cnt10s
    ensures !s.adcstate.AdcFinished? && Step(s, e).adcstate.AdcFinished? ==>
              e.ConversionComplete? && s.adcstate.AdcConv?
  {
  }

  /** Along any run from a state satisfying `Inv`, the sampler moves only
      along OFF -> CONV -> FINISHED -> OFF, or to OFF when switched off; it
      never goes from OFF straight to FINISHED and never back from FINISHED
      to CONV. */
  lemma {:induction false} TraceAdcMoves(s: Regs, evs: seq<Event>)
    requires Inv(s)
    ensures forall i :: 0 <= i < |evs| ==> LegalAdcMove(Trace(s, evs)[i], Trace(s, evs)[i + 1])
    decreases |evs|
  {
    if evs != [] {
      var s' := Step(s, evs[0]);
      StepInv(s, evs[0]);
      StepAdcMove(s, evs[0]);
      TraceAdcMoves(s', evs[1..]);
      var t := Trace(s, evs);
      assert t == [s] + Trace(s', evs[1..]);
      forall i | 0 <= i < |evs|
        ensures LegalAdcMove(t[i], t[i + 1])
      {
        if i > 0 {
          assert t[i] == Trace(s', evs[1..])[i - 1];
          assert t[i + 1] == Trace(s', evs[1..])[i];
        }
      }
    }
  }

  /** `n` ticks: the tick flag is raised, the tick counter advances by `n`
      modulo 256 while on and not at all while off, the debounce counter
      climbs to ANTIBOUNCE and stays there, and nothing else changes. */
  lemma {:induction false} TicksAdvance(s: Regs, n: nat)
    requires s.antiBounceCnt <= AntiBounce
    ensures var r := Run(s, Ticks(n));
      && r.state == s.state
      && (n > 0 ==> r.flags == RaiseTickFlag(s.flags))
      && (s.state.On? ==> r.messCnt as int == (s.messCnt as int + n) % 256)
      && (s.state.Off? ==> r.messCnt == s.messCnt)
      && r.antiBounceCnt as int == (if s.antiBounceCnt as int + n < 3 then s.antiBounceCnt as int + n else 3)
      && r.(flags := s.flags, messCnt := s.messCnt, antiBounceCnt := s.antiBounceCnt) == s
    decreases n
  {
    if n > 0 {
      var s' := WatchdogTick(s);
      assert Ticks(n)[0] == WatchdogTimeout && Ticks(n)[1..] == Ticks(n - 1);
      assert Run(s, Ticks(n)) == Run(s', Ticks(n - 1));
      TicksAdvance(s', n - 1);
    }
  }

  /** The number of watchdog ticks among `evs`. */
  function TickCount(evs: seq<Event>): (n: nat)
    ensures n <= |evs|
    decreases |evs|
  {
    if evs == [] then 0 else (if evs[0].WatchdogTimeout? then 1 else 0) + TickCount(evs[1..])
  }

  /** No falling edge of the button among `evs`. */
  predicate NoPress(evs: seq<Event>) {
    forall i :: 0 <= i < |evs| ==> evs[i] != PinChange(true)
  }

  /** While on and below CNT10S, ticks count "on" time and nothing else moves
      the battery sampler: passes in between start no conversion, and rising
      edges and ADC events change nothing that matters here. */
  lemma {:induction false} CadenceQuiet(s: Regs, evs: seq<Event>)
    requires Inv(s) && s.state.On? && s.adcstate.AdcOff?
    requires NoPress(evs)
    requires s.messCnt as int + TickCount(evs) <= Cnt10s as int
    ensures var r := Run(s, evs);
      && Inv(r) && r.state.On? && r.adcstate.AdcOff?
      && r.messCnt as int == s.messCnt as int + TickCount(evs)
    decreases |evs|
  {
    if evs != [] {
      StepInv(s, evs[0]);
      var s' := Step(s, evs[0]);
      assert s'.state.On? && s'.adcstate.AdcOff?;
      assert s'.messCnt as int == s.messCnt as int + (if evs[0].WatchdogTimeout? then 1 else 0);
      CadenceQuiet(s', evs[1..]);
    }
  }

  /** The battery is sampled after more than CNT10S ticks of "on" time: from
      a freshly reset counter, no pass in a run holding 76 ticks (together with
      any passes, rising edges and ADC events) starts a conversion, and the
      first pass after the 77th tick does. */
  lemma SampleCadence(s: Regs, pre: seq<Event>, sample: uint16, rand: nat)
    requires Inv(s) && s.state.On? && s.adcstate.AdcOff? && s.messCnt == 0
    requires NoPress(pre) && TickCount(pre) == Cnt10s as int
    ensures Run(s, pre).adcstate.AdcOff? && Run(s, pre).messCnt == Cnt10s
    ensures var r := Run(s, pre + [WatchdogTimeout, Wake(sample, rand)]);
      r.adcstate.AdcConv? && r.adcStarted && r.pb0 && r.messCnt == 0 && r.state.On?
  {
    CadenceQuiet(s, pre);
    var m := Run(s, pre);
    RunAppend(s, pre, [WatchdogTimeout, Wake(sample, rand)]);
    assert Run(m, [WatchdogTimeout, Wake(sample, rand)])
        == Run(Step(m, WatchdogTimeout), [Wake(sample, rand)]);
  }

  /** Without a falling edge the debounce counter counts ticks up to
      ANTIBOUNCE, whatever passes, rising edges and ADC events come between. */
  lemma {:induction false} DebounceCount(s: Regs, evs: seq<Event>)
    requires s.antiBounceCnt <= AntiBounce
    requires NoPress(evs)
    ensures var c := s.antiBounceCnt as int + TickCount(evs);
      Run(s, evs).antiBounceCnt as int == if c < AntiBounce as int then c else AntiBounce as int
    decreases |evs|
  {
    if evs != [] {
      var s' := Step(s, evs[0]);
      assert s'.antiBounceCnt <= AntiBounce;
      assert evs[0].WatchdogTimeout? ==> s'.antiBounceCnt == WatchdogTick(s).antiBounceCnt;
      assert !evs[0].WatchdogTimeout? ==> s'.antiBounceCnt == s.antiBounceCnt;
      DebounceCount(s', evs[1..]);
    }
  }

  /** The button is debounced over ANTIBOUNCE ticks: after a falling edge,
      with any events but falling edges in between, the next falling edge
      toggles iff three or more ticks came between the two, and it restarts
      the window either way. */
  lemma DebounceWindow(s: Regs, mid: seq<Event>)
    requires NoPress(mid)
    ensures var before := Run(s, [PinChange(true)] + mid);
      var after := Step(before, PinChange(true));
      && (after.state != before.state <==> TickCount(mid) >= AntiBounce as int)
      && after.antiBounceCnt == 0
  {
    var first := Step(s, PinChange(true));
    assert Run(s, [PinChange(true)]) == first;
    RunAppend(s, [PinChange(true)], mid);
    DebounceCount(first, mid);
  }

  /** A device that is off stays off, with the tick counter at 0 and no
      conversion, until the button is pressed: ticks, passes and ADC events
      do not wake it. */
  lemma {:induction false} OffUntilPressed(s: Regs, evs: seq<Event>)
    requires Inv(s) && s.state.Off?
    requires NoPress(evs)
    ensures var r := Run(s, evs);
      r.state.Off? && r.messCnt == 0 && r.adcstate.AdcOff? && !r.adcEnabled
    decreases |evs|
  {
    if evs != [] {
      StepInv(s, evs[0]);
      OffUntilPressed(Step(s, evs[0]), evs[1..]);
    }
  }

  /** A foreground pass while on, with the tick counter past CNT10S and no
      conversion under way, resets the counter, powers the divider and starts
      the ADC; otherwise it starts nothing. */
  lemma ConversionTrigger(s: Regs, sample: uint16, rand: nat)
    requires s.state.On?
    ensures var r := LoopPass(s, sample, rand);
      s.messCnt > Cnt10s && s.adcstate.AdcOff? ==>
        r.messCnt == 0 && r.pb0 && r.adcEnabled && r.adcStarted && r.adcstate.AdcConv?
        && r.state.On?
    ensures var r := LoopPass(s, sample, rand);
      !(s.messCnt > Cnt10s && s.adcstate.AdcOff?) ==>
        r.adcStarted == (s.adcStarted && !s.adcstate.AdcFinished?)
        && (!s.adcstate.AdcFinished? ==> r.messCnt == s.messCnt && r.adcstate == s.adcstate)
  {
  }

  /** A foreground pass while on that finds a finished conversion switches
      the device off exactly when the sample is below BATTLOW, always leaves
      the ADC disabled and idle, and starts no new conversion. */
  lemma LowBatteryCutoff(s: Regs, sample: uint16, rand: nat)
    requires s.state.On? && s.adcstate.AdcFinished?
    ensures var r := LoopPass(s, sample, rand);
      && (r.state.Off? <==> sample < BattLow)
      && !r.adcEnabled && !r.adcStarted && r.adcstate.AdcOff?
    ensures sample >= BattLow ==> LoopPass(s, sample, rand).pb0 == s.pb0
  {
  }

  /** The power state is read once per pass: when the cutoff switches the
      device off, the flicker value of that pass is still written. */
  lemma FlickerAfterCutoff(s: Regs, sample: uint16, rand: nat)
    requires s.state.On? && s.adcstate.AdcFinished? && sample < BattLow
    requires TickFlag(s.flags)
    ensures var r := LoopPass(s, sample, rand);
      r.state.Off? && r.ocr0b == FlickerLevel(rand) && 128 <= r.ocr0b
  {
  }

  /** Each tick is used once: a pass after a tick consumes the flag, so a
      second pass without a tick in between keeps the flicker level. */
  lemma TickConsumedOnce(s: Regs, sample1: uint16, rand1: nat, sample2: uint16, rand2: nat)
    ensures var t := Run(s, [WatchdogTimeout, Wake(sample1, rand1)]);
      && t.flags == 0
      && (s.state.On? ==> t.ocr0b == FlickerLevel(rand1))
      && Run(t, [Wake(sample2, rand2)]).ocr0b == t.ocr0b
  {
    var u := WatchdogTick(s);
    var t := LoopPass(u, sample1, rand1);
    var evs := [WatchdogTimeout, Wake(sample1, rand1)];
    assert evs[1..] == [Wake(sample1, rand1)] && evs[1..][1..] == [];
    assert Run(s, evs) == Run(u, evs[1..]);
    assert Run(u, evs[1..]) == Run(t, []);
    assert [Wake(sample2, rand2)][1..] == [];
    assert Run(t, [Wake(sample2, rand2)]) == LoopPass(t, sample2, rand2);
  }

  /** The sleep mode matches the peripherals: power-down only with timer 0
      and the ADC stopped, idle only with timer 0 running. */
  lemma SleepModeMatchesPeripherals(s: Regs)
    requires Inv(s)
    ensures SleepModeFor(s.state) == PowerDown ==> !s.pwm && !s.adcEnabled && !s.adcStarted
    ensures SleepModeFor(s.state) == Idle ==> s.pwm
  {
  }

  /** setState is idempotent: applying it twice with the same argument has
      the effect of applying it once. */
  lemma SetStateIdempotent(s: Regs, st: Power)
    ensures SetState(SetState(s, st), st) == SetState(s, st)
  {
  }
}
