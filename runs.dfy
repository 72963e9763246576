/** Properties of many consecutive passes of the loop. */
module Runs {
  import opened Timing
  import opened Events
  import opened Command
  import opened BedScale

  datatype Trace = Trace(window: Window, events: seq<Event>)

  /** The passes of the loop over `inputs`, one per element, in order. */
  function Run(w: Window, inputs: seq<Inputs>): Trace
    decreases |inputs|
  {
    if inputs == [] then Trace(w, [])
    else
      var o := Next(w, inputs[0]);
      var rest := Run(o.window, inputs[1..]);
      Trace(rest.window, o.events + rest.events)
  }

  /** How many passes read the tare button low. */
  function LowPasses(inputs: seq<Inputs>): nat
  {
    if inputs == [] then 0
    else (if inputs[0].button == Low then 1 else 0) + LowPasses(inputs[1..])
  }

  /** How many passes received the exact tare command. */
  function TareCommandPasses(inputs: seq<Inputs>): nat
  {
    if inputs == [] then 0
    else
      var m := inputs[0].inbound;
      (if m.Some? && m.value.topic == TOPIC_CMD && m.value.payload == TARE_BYTES then 1 else 0)
      + TareCommandPasses(inputs[1..])
  }

  /** The window invariant holds after any number of passes. */
  lemma {:induction false} RunKeepsWindowOk(w: Window, inputs: seq<Inputs>)
    requires WindowOk(w)
    ensures WindowOk(Run(w, inputs).window)
    decreases |inputs|
  {
    if inputs != [] {
      NextKeepsWindowOk(w, inputs[0]);
      RunKeepsWindowOk(Next(w, inputs[0]).window, inputs[1..]);
    }
  }

  /** Over a run, tare is requested once for every pass with the button held
      low (holding it re-tares on every pass) and once for every exact tare
      command, and never otherwise. */
  lemma {:induction false} RunTareCount(w: Window, inputs: seq<Inputs>)
    ensures TareCount(Run(w, inputs).events) == LowPasses(inputs) + TareCommandPasses(inputs)
    decreases |inputs|
  {
    if inputs != [] {
      var o := Next(w, inputs[0]);
      TareRequests(w, inputs[0]);
      RunTareCount(o.window, inputs[1..]);
      TareCountAppend(o.events, Run(o.window, inputs[1..]).events);
    }
  }

  /** A pass under a steady reading `c` keeps "the sum is `c` times the count"
      and, while the last published value is within PRECISION of `c`,
      publishes no mass and keeps the last published value. */
  lemma SteadyPass(w: Window, input: Inputs, c: real)
    requires WindowOk(w) && w.avg == w.samples as real * c
    requires Abs(c - w.oldAvg) <= PRECISION
    requires input.reading == c
    ensures var o := Next(w, input);
      WindowOk(o.window) && o.window.avg == o.window.samples as real * c
      && MassValues(o.events) == [] && o.window.oldAvg == w.oldAvg
  {
    var o := Next(w, input);
    NextKeepsWindowOk(w, input);
    MassPublishIff(w, input);
    if !GateOpen(input.sampleGateAt, w.timer, SAMPLE_PERIOD) {
      SampleGate(w, input);
    } else if w.samples == 2 {
      BatchOnThirdTick(w, input);
      assert o.tested.value == (2.0 * c + c) / 3.0 == c;
    } else {
      BatchOnThirdTick(w, input);
      assert o.window.samples as int == w.samples as int + 1;
      assert o.window.avg == w.avg + c;
    }
  }

  /** Every pass of `inputs` reads `c` from the load cell. */
  predicate SteadyReadings(inputs: seq<Inputs>, c: real)
  {
    forall i :: 0 <= i < |inputs| ==> inputs[i].reading == c
  }

  lemma SteadyReadingsTail(inputs: seq<Inputs>, c: real)
    requires inputs != [] && SteadyReadings(inputs, c)
    ensures inputs[0].reading == c && SteadyReadings(inputs[1..], c)
  {
  }

  /** A run's events are its first pass's followed by the rest's. */
  lemma RunUnfold(w: Window, inputs: seq<Inputs>)
    requires inputs != []
    ensures Run(w, inputs).events == Next(w, inputs[0]).events + Run(Next(w, inputs[0]).window, inputs[1..]).events
    ensures Run(w, inputs).window == Run(Next(w, inputs[0]).window, inputs[1..]).window
  {
  }

  /** Under a steady reading within PRECISION of the last published value,
      no run publishes a mass value again. */
  lemma {:induction false} SteadyLoadNoRepublish(w: Window, inputs: seq<Inputs>, c: real)
    requires WindowOk(w) && w.avg == w.samples as real * c
    requires Abs(c - w.oldAvg) <= PRECISION
    requires SteadyReadings(inputs, c)
    ensures MassValues(Run(w, inputs).events) == []
    ensures Run(w, inputs).window.oldAvg == w.oldAvg
    decreases |inputs|
  {
    if inputs != [] {
      var first := Next(w, inputs[0]);
      var rest := inputs[1..];
      SteadyReadingsTail(inputs, c);
      SteadyPass(w, inputs[0], c);
      SteadyLoadNoRepublish(first.window, rest, c);
      RunUnfold(w, inputs);
      MassValuesAppend(first.events, Run(first.window, rest).events);
    }
  }

  /** A quiet pass at time `t`: button high, a reading of 12.3, no message,
      and a heartbeat gate that stays closed. */
  function QuietPass(t: u32): Inputs
  {
    Inputs(High, t, 12.3, t, None, 0, 0)
  }

  /** From power-up, six sample ticks 100 ms apart under a steady load of
      12.3 publish 12.3 once, after the first three, and never again. */
  lemma SteadyLoadScenario()
    ensures MassValues(Run(INITIAL, [QuietPass(100), QuietPass(200), QuietPass(300),
                                    QuietPass(400), QuietPass(500), QuietPass(600)]).events) == [12.3]
  {
    var ins := [QuietPass(100), QuietPass(200), QuietPass(300), QuietPass(400), QuietPass(500), QuietPass(600)];
    var o1 := Next(INITIAL, ins[0]);
    var o2 := Next(o1.window, ins[1]);
    var o3 := Next(o2.window, ins[2]);
    assert o1.window == Window(100, 0, 1, 12.3, 0.0);
    assert o2.window == Window(200, 0, 2, 24.6, 0.0);
    assert o3.window == Window(300, 0, 0, 0.0, 12.3);
    assert MassValues(o1.events) == [] && MassValues(o2.events) == [];
    MassPublishIff(o2.window, ins[2]);
    assert MassValues(o3.events) == [12.3];
    assert ins[3..] == [QuietPass(400), QuietPass(500), QuietPass(600)];
    SteadyLoadNoRepublish(o3.window, ins[3..], 12.3);
    assert Run(INITIAL, ins).events == o1.events + (o2.events + (o3.events + Run(o3.window, ins[3..]).events));
    MassValuesAppend(o3.events, Run(o3.window, ins[3..]).events);
    MassValuesAppend(o2.events, o3.events + Run(o3.window, ins[3..]).events);
    MassValuesAppend(o1.events, o2.events + (o3.events + Run(o3.window, ins[3..]).events));
  }
}
