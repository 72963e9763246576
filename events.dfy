/** What one pass of the firmware's loop does to the outside world: publishes
    on the fixed message-bus topics and tare requests to the load-cell driver. */
module Events {

  const TOPIC_BASE: string := "ESP/BedScale"
  const TOPIC_MASS: string := TOPIC_BASE + "/mass"
  const TOPIC_CMD: string := TOPIC_BASE + "/cmd"
  const TOPIC_AVAIL: string := TOPIC_BASE + "/available"

  /** The liveness payload published on the availability topic. */
  const ONLINE: string := "online"

  /** A mass publish carries its numeric value; the 5-character fixed-point
      text the firmware actually sends is not modelled. */
  datatype Payload = Mass(value: real) | Text(text: string)

  datatype Event =
    | Publish(topic: string, payload: Payload)
    | Tare

  predicate IsMassPublish(e: Event)
  {
    e.Publish? && e.topic == TOPIC_MASS && e.payload.Mass?
  }

  predicate IsHeartbeat(e: Event)
  {
    e == Publish(TOPIC_AVAIL, Text(ONLINE))
  }

  /** The values published on the mass topic, in order. */
  function MassValues(es: seq<Event>): seq<real>
  {
    if es == [] then []
    else (if IsMassPublish(es[0]) then [es[0].payload.value] else []) + MassValues(es[1..])
  }

  /** How many times tare was requested. */
  function TareCount(es: seq<Event>): nat
  {
    if es == [] then 0
    else (if es[0] == Tare then 1 else 0) + TareCount(es[1..])
  }

  /** How many "online" heartbeats were published. */
  function HeartbeatCount(es: seq<Event>): nat
  {
    if es == [] then 0
    else (if IsHeartbeat(es[0]) then 1 else 0) + HeartbeatCount(es[1..])
  }

  lemma {:induction false} MassValuesAppend(a: seq<Event>, b: seq<Event>)
    ensures MassValues(a + b) == MassValues(a) + MassValues(b)
  {
    if a == [] {
      assert a + b == b;
    } else {
      assert (a + b)[1..] == a[1..] + b;
      MassValuesAppend(a[1..], b);
    }
  }

  lemma {:induction false} TareCountAppend(a: seq<Event>, b: seq<Event>)
    ensures TareCount(a + b) == TareCount(a) + TareCount(b)
  {
    if a == [] {
      assert a + b == b;
    } else {
      assert (a + b)[1..] == a[1..] + b;
      TareCountAppend(a[1..], b);
    }
  }

  lemma {:induction false} HeartbeatCountAppend(a: seq<Event>, b: seq<Event>)
    ensures HeartbeatCount(a + b) == HeartbeatCount(a) + HeartbeatCount(b)
  {
    if a == [] {
      assert a + b == b;
    } else {
      assert (a + b)[1..] == a[1..] + b;
      HeartbeatCountAppend(a[1..], b);
    }
  }

  lemma FilterAppend4(a: seq<Event>, b: seq<Event>, c: seq<Event>, d: seq<Event>)
    ensures MassValues(a + b + c + d) == MassValues(a) + MassValues(b) + MassValues(c) + MassValues(d)
    ensures TareCount(a + b + c + d) == TareCount(a) + TareCount(b) + TareCount(c) + TareCount(d)
    ensures HeartbeatCount(a + b + c + d) == HeartbeatCount(a) + HeartbeatCount(b) + HeartbeatCount(c) + HeartbeatCount(d)
  {
    MassValuesAppend(a, b);
    MassValuesAppend(a + b, c);
    MassValuesAppend(a + b + c, d);
    TareCountAppend(a, b);
    TareCountAppend(a + b, c);
    TareCountAppend(a + b + c, d);
    HeartbeatCountAppend(a, b);
    HeartbeatCountAppend(a + b, c);
    HeartbeatCountAppend(a + b + c, d);
  }
}
