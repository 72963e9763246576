/** One pass of the firmware's `loop()`: the manual tare button, the sample
    tick that feeds the three-sample aggregation window, the batch decision
    (change threshold, then near-zero clamp), the inbound command, and the
    "online" heartbeat. */
module BedScale {
  import opened Timing
  import opened Events
  import opened Command

  const NUM_SAMPLES: int := 3
  const SAMPLE_PERIOD: u32 := 100
  const HEARTBEAT_PERIOD: u32 := 1500
  /** Smallest change of the batch mean that is published. */
  const PRECISION: real := 0.1
  /** Batch means at or below this are published as 0. */
  const ZERO_CLAMP: real := 0.5

  /** The `uint8_t` sample counter. */
  newtype u8 = x: int | 0 <= x < 256

  /** `samples++` on a `uint8_t`. */
  function Increment(n: u8): (r: u8)
    ensures n < 255 ==> r as int == n as int + 1
    ensures n == 255 ==> r == 0
  {
    ((n as int + 1) % 256) as u8
  }

  datatype Option<T> = None | Some(value: T)

  /** The level `digitalRead` returns for the tare button (pulled high). */
  datatype Level = Low | High

  /** A message the message-bus client hands to the callback. */
  datatype Message = Message(topic: string, payload: seq<byte>)

  /** What one pass reads from the outside: the tare button, up to four
      `millis()` readings (the sample gate and the heartbeat gate on every
      pass; after sampling and after the heartbeat only when that gate
      opens), the load-cell reading taken on a sample tick, and the message,
      if any, that `client.loop()` delivers. */
  datatype Inputs = Inputs(
    button: Level,
    sampleGateAt: u32,
    reading: real,
    sampleDoneAt: u32,
    inbound: Option<Message>,
    availGateAt: u32,
    availDoneAt: u32)

  /** The static locals of `loop()`. */
  datatype Window = Window(timer: u32, availTimer: u32, samples: u8, avg: real, oldAvg: real)

  /** All five statics start at zero. */
  const INITIAL: Window := Window(0, 0, 0, 0.0, 0.0)

  /** The sample count stays below the batch size between passes. */
  predicate WindowOk(w: Window)
  {
    w.samples as int < NUM_SAMPLES
  }

  function Abs(x: real): real
  {
    if x > 0.0 then x else -x
  }

  datatype Decision = Emit(value: real) | Hold

  /** The batch decision: publish only on a change above PRECISION from the
      last published value, and only then clamp a mean at or below 0.5
      (negative ones included) to 0. */
  function BatchDecision(mean: real, oldAvg: real): (d: Decision)
    ensures d.Emit? <==> Abs(mean - oldAvg) > PRECISION
    ensures d.Emit? ==> d.value == 0.0 || d.value > ZERO_CLAMP
    ensures d.Emit? && mean > ZERO_CLAMP ==> d.value == mean
    ensures d.Emit? && mean <= ZERO_CLAMP ==> d.value == 0.0
  {
    if Abs(mean - oldAvg) > PRECISION then
      Emit(if mean <= ZERO_CLAMP then 0.0 else mean)
    else
      Hold
  }

  /** The new window, the events, and the batch mean tested on this pass (if any). */
  datatype Outcome = Outcome(window: Window, events: seq<Event>, tested: Option<real>)

  /** The sample-tick block of the loop. */
  function Sample(w: Window, input: Inputs): Outcome
  {
    if !GateOpen(input.sampleGateAt, w.timer, SAMPLE_PERIOD) then
      Outcome(w, [], None)
    else
      var sum := w.avg + input.reading;
      var n := Increment(w.samples);
      if n as int >= NUM_SAMPLES then
        var mean := sum / n as real;
        match BatchDecision(mean, w.oldAvg)
        case Emit(v) =>
          Outcome(Window(input.sampleDoneAt, w.availTimer, 0, 0.0, v), [Publish(TOPIC_MASS, Mass(v))], Some(mean))
        case Hold =>
          Outcome(Window(input.sampleDoneAt, w.availTimer, 0, 0.0, w.oldAvg), [], Some(mean))
      else
        Outcome(Window(input.sampleDoneAt, w.availTimer, n, sum, w.oldAvg), [], None)
  }

  function ButtonEvents(button: Level): seq<Event>
  {
    if button == Low then [Tare] else []
  }

  function CommandEvents(inbound: Option<Message>): seq<Event>
  {
    if inbound.Some? && IsTareCommand(inbound.value.topic, inbound.value.payload) then [Tare] else []
  }

  function HeartbeatEvents(open: bool): seq<Event>
  {
    if open then [Publish(TOPIC_AVAIL, Text(ONLINE))] else []
  }

  /** One whole pass of the loop: button, sample tick, command, heartbeat, in that order. */
  function Next(w: Window, input: Inputs): Outcome
  {
    var s := Sample(w, input);
    var open := GateOpen(input.availGateAt, s.window.availTimer, HEARTBEAT_PERIOD);
    Outcome(
      if open then s.window.(availTimer := input.availDoneAt) else s.window,
      ButtonEvents(input.button) + s.events + CommandEvents(input.inbound) + HeartbeatEvents(open),
      s.tested)
  }

  function Sum(xs: seq<real>): real
  {
    if xs == [] then 0.0 else Sum(xs[..|xs| - 1]) + xs[|xs| - 1]
  }

  // ----- Properties of one pass -----

  lemma PieceCounts(w: Window, input: Inputs, open: bool)
    ensures MassValues(ButtonEvents(input.button)) == []
    ensures TareCount(ButtonEvents(input.button)) == (if input.button == Low then 1 else 0)
    ensures HeartbeatCount(ButtonEvents(input.button)) == 0
    ensures TareCount(Sample(w, input).events) == 0 && HeartbeatCount(Sample(w, input).events) == 0
    ensures MassValues(CommandEvents(input.inbound)) == [] && HeartbeatCount(CommandEvents(input.inbound)) == 0
    ensures TareCount(CommandEvents(input.inbound)) == |CommandEvents(input.inbound)|
    ensures MassValues(HeartbeatEvents(open)) == [] && TareCount(HeartbeatEvents(open)) == 0
    ensures HeartbeatCount(HeartbeatEvents(open)) == (if open then 1 else 0)
  {
  }

  /** The events of a pass, filtered three ways. */
  lemma NextEvents(w: Window, input: Inputs)
    ensures MassValues(Next(w, input).events) == MassValues(Sample(w, input).events)
    ensures TareCount(Next(w, input).events) ==
      (if input.button == Low then 1 else 0) + |CommandEvents(input.inbound)|
    ensures HeartbeatCount(Next(w, input).events) ==
      (if GateOpen(input.availGateAt, w.availTimer, HEARTBEAT_PERIOD) then 1 else 0)
  {
    var s := Sample(w, input);
    assert s.window.availTimer == w.availTimer;
    var open := GateOpen(input.availGateAt, w.availTimer, HEARTBEAT_PERIOD);
    var b, c, h := ButtonEvents(input.button), CommandEvents(input.inbound), HeartbeatEvents(open);
    assert Next(w, input).events == b + s.events + c + h;
    PieceCounts(w, input, open);
    FilterAppend4(b, s.events, c, h);
  }

  /** The sample count never reaches the batch size between passes. */
  lemma NextKeepsWindowOk(w: Window, input: Inputs)
    requires WindowOk(w)
    ensures WindowOk(Next(w, input).window)
  {
  }

  /** A batch is decided exactly on the third sample tick, on the mean of
      the sum accumulated so far plus this reading; the window is then reset. */
  lemma BatchOnThirdTick(w: Window, input: Inputs)
    requires WindowOk(w)
    ensures Next(w, input).tested.Some? <==>
      GateOpen(input.sampleGateAt, w.timer, SAMPLE_PERIOD) && w.samples == 2
    ensures Next(w, input).tested.Some? ==>
      Next(w, input).tested.value == (w.avg + input.reading) / 3.0
      && Next(w, input).window.samples == 0 && Next(w, input).window.avg == 0.0
  {
  }

  /** A mass publish happens iff a batch was decided and its mean moved by
      more than PRECISION from the last published value; otherwise nothing is
      published on the mass topic and the last published value is kept. When
      it happens, exactly one value is published and becomes the new last
      published value: 0 for a mean at or below 0.5, the mean otherwise. */
  lemma MassPublishIff(w: Window, input: Inputs)
    requires WindowOk(w)
    ensures var o := Next(w, input);
      MassValues(o.events) != [] <==> o.tested.Some? && Abs(o.tested.value - w.oldAvg) > PRECISION
    ensures var o := Next(w, input);
      MassValues(o.events) == [] ==> o.window.oldAvg == w.oldAvg
    ensures var o := Next(w, input);
      MassValues(o.events) != [] ==>
        o.tested.Some? && MassValues(o.events) == [o.window.oldAvg]
        && o.window.oldAvg == (if o.tested.value <= ZERO_CLAMP then 0.0 else o.tested.value)
  {
    NextEvents(w, input);
    var s := Sample(w, input);
    if s.events != [] {
      assert MassValues(s.events) == [s.window.oldAvg] + MassValues([]);
    }
  }

  /** A pass whose sample gate is closed leaves the aggregation window and
      the sample timer alone and publishes no mass. A pass whose gate is open
      sets the sample timer to the clock read after sampling. */
  lemma SampleGate(w: Window, input: Inputs)
    ensures var o := Next(w, input);
      !GateOpen(input.sampleGateAt, w.timer, SAMPLE_PERIOD) ==>
        o.window.(availTimer := w.availTimer) == w && o.tested == None && MassValues(o.events) == []
    ensures GateOpen(input.sampleGateAt, w.timer, SAMPLE_PERIOD) ==>
      Next(w, input).window.timer == input.sampleDoneAt
  {
    NextEvents(w, input);
  }

  /** The reading after sampling is used only when the sample gate opens, and
      the reading after the heartbeat only when the heartbeat gate opens. */
  lemma AfterReadingsOnlyOnOpenGates(w: Window, input: Inputs, a: u32, b: u32)
    ensures !GateOpen(input.sampleGateAt, w.timer, SAMPLE_PERIOD) ==>
      Next(w, input.(sampleDoneAt := a)) == Next(w, input)
    ensures !GateOpen(input.availGateAt, w.availTimer, HEARTBEAT_PERIOD) ==>
      Next(w, input.(availDoneAt := b)) == Next(w, input)
  {
    assert Sample(w, input.(availDoneAt := b)) == Sample(w, input);
  }

  /** One heartbeat is published iff its gate is open, and only then is the
      heartbeat timer moved, to the clock read after publishing. */
  lemma HeartbeatGate(w: Window, input: Inputs)
    ensures HeartbeatCount(Next(w, input).events) ==
      (if GateOpen(input.availGateAt, w.availTimer, HEARTBEAT_PERIOD) then 1 else 0)
    ensures Next(w, input).window.availTimer ==
      (if GateOpen(input.availGateAt, w.availTimer, HEARTBEAT_PERIOD) then input.availDoneAt else w.availTimer)
  {
    NextEvents(w, input);
  }

  /** A tare is requested on every pass where the button reads low (there is
      no edge detection), plus one for an exact tare command; a high button
      requests none. */
  lemma TareRequests(w: Window, input: Inputs)
    ensures TareCount(Next(w, input).events) ==
      (if input.button == Low then 1 else 0)
      + (if input.inbound.Some? && input.inbound.value.topic == TOPIC_CMD
              && input.inbound.value.payload == TARE_BYTES then 1 else 0)
  {
    NextEvents(w, input);
    if input.inbound.Some? {
      TareCommandExact(input.inbound.value.topic, input.inbound.value.payload);
    }
  }

  /** Because the threshold is tested before the clamp, a mean that stays
      near zero but more than PRECISION away from it (for instance 0.3, or any
      mean below -0.1) is published as 0 on every batch: the stored value
      becomes 0 again and the next such batch passes the threshold again. */
  lemma NearZeroMeanRepublishesZero(w: Window, input: Inputs)
    requires WindowOk(w) && w.oldAvg == 0.0
    requires Next(w, input).tested.Some?
    requires Abs(Next(w, input).tested.value) > PRECISION
    requires Next(w, input).tested.value <= ZERO_CLAMP
    ensures MassValues(Next(w, input).events) == [0.0]
    ensures Next(w, input).window.oldAvg == 0.0
  {
    MassPublishIff(w, input);
  }

  // ----- The loop's state, updated in place -----

  class ScaleLoop {
    var timer: u32
    var availTimer: u32
    var samples: u8
    var avg: real
    var oldAvg: real
    /** The readings summed into `avg` since the last batch decision. */
    ghost var batch: seq<real>

    ghost predicate Valid()
      reads this
    {
      samples as int < NUM_SAMPLES && |batch| == samples as int && avg == Sum(batch)
    }

    function Snapshot(): Window
      reads this
    {
      Window(timer, availTimer, samples, avg, oldAvg)
    }

    /** The zero-initialised statics. */
    constructor ()
      ensures Valid() && Snapshot() == INITIAL && batch == []
    {
      timer, availTimer, samples, avg, oldAvg := 0, 0, 0, 0.0, 0.0;
      batch := [];
    }

    /** The sample-tick block: accumulate one reading and, on the third,
        decide the batch and reset the window. */
    method SampleTick(input: Inputs) returns (massEvents: seq<Event>)
      requires Valid()
      modifies this
      ensures Valid()
      ensures Snapshot() == Sample(old(Snapshot()), input).window
      ensures massEvents == Sample(old(Snapshot()), input).events
      ensures var t := Sample(old(Snapshot()), input).tested;
        t.Some? ==> |old(batch)| + 1 == NUM_SAMPLES && t.value == Sum(old(batch) + [input.reading]) / 3.0
      ensures batch ==
        if !GateOpen(input.sampleGateAt, old(timer), SAMPLE_PERIOD) then old(batch)
        else if |old(batch)| + 1 == NUM_SAMPLES then []
        else old(batch) + [input.reading]
    {
      massEvents := [];
      if GateOpen(input.sampleGateAt, timer, SAMPLE_PERIOD) {
        assert (batch + [input.reading])[..|batch|] == batch;
        avg := avg + input.reading;
        batch := batch + [input.reading];
        samples := Increment(samples);

        if samples as int >= NUM_SAMPLES {
          avg := avg / samples as real;
          if Abs(avg - oldAvg) > PRECISION {
            if avg <= ZERO_CLAMP {
              avg := 0.0;
            }
            massEvents := [Publish(TOPIC_MASS, Mass(avg))];
            oldAvg := avg;
          }
          avg := 0.0;
          samples := 0;
          batch := [];
        }

        timer := input.sampleDoneAt;
      }
    }

    /** One call of `loop()`, with the message-bus connection assumed up. */
    method Step(input: Inputs) returns (events: seq<Event>)
      requires Valid()
      modifies this
      ensures Valid()
      ensures Snapshot() == Next(old(Snapshot()), input).window
      ensures events == Next(old(Snapshot()), input).events
      ensures var t := Next(old(Snapshot()), input).tested;
        t.Some? ==> |old(batch)| + 1 == NUM_SAMPLES && t.value == Sum(old(batch) + [input.reading]) / 3.0
      ensures batch ==
        if !GateOpen(input.sampleGateAt, old(timer), SAMPLE_PERIOD) then old(batch)
        else if |old(batch)| + 1 == NUM_SAMPLES then []
        else old(batch) + [input.reading]
    {
      events := [];
      if input.button == Low {
        events := [Tare];
      }

      var massEvents := SampleTick(input);
      events := events + massEvents;

      var commandEvents: seq<Event> := [];
      if input.inbound.Some? {
        var m := input.inbound.value;
        var tare := Callback(m.topic, m.payload, |m.payload|);
        assert m.payload[..|m.payload|] == m.payload;
        if tare {
          commandEvents := [Tare];
        }
      }
      events := events + commandEvents;

      if GateOpen(input.availGateAt, availTimer, HEARTBEAT_PERIOD) {
        events := events + [Publish(TOPIC_AVAIL, Text(ONLINE))];
        availTimer := input.availDoneAt;
      }
    }
  }
}
