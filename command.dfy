/** The inbound command filter: the message-bus callback copies the received
    payload bytes into a string and requests a tare when the message came on
    the command topic and the payload reads "tare". */
module Command {
  import opened Events

  newtype byte = x: int | 0 <= x < 256

  /** The payload bytes of the one recognised command, "tare" in ASCII. */
  const TARE_BYTES: seq<byte> := [0x74, 0x61, 0x72, 0x65]

  /** Each byte read as one character, as the `(char)message[i]` cast does. */
  function Chars(bs: seq<byte>): (s: string)
    ensures |s| == |bs|
  {
    seq(|bs|, i requires 0 <= i < |bs| => bs[i] as char)
  }

  /** Reference definition of the filter: the topic and the whole payload
      must match exactly. */
  predicate IsTareCommand(topic: string, payload: seq<byte>)
  {
    topic == TOPIC_CMD && Chars(payload) == "tare"
  }

  lemma CharsInjective(a: seq<byte>, b: seq<byte>)
    requires Chars(a) == Chars(b)
    ensures a == b
  {
    assert |a| == |b|;
    forall i | 0 <= i < |a| ensures a[i] == b[i] {
      assert Chars(a)[i] == Chars(b)[i];
    }
  }

  /** The filter accepts the four bytes of "tare" and nothing else: no other
      case, no padding, no longer or shorter payload. */
  lemma TareCommandExact(topic: string, payload: seq<byte>)
    ensures IsTareCommand(topic, payload) <==> topic == TOPIC_CMD && payload == TARE_BYTES
  {
    assert Chars(TARE_BYTES) == "tare";
    if Chars(payload) == "tare" {
      CharsInjective(payload, TARE_BYTES);
    }
  }

  /** The near misses "Tare", " tare", "tare " and "taree" request nothing. */
  lemma NearMissesIgnored()
    ensures !IsTareCommand(TOPIC_CMD, [0x54, 0x61, 0x72, 0x65])
    ensures !IsTareCommand(TOPIC_CMD, [0x20, 0x74, 0x61, 0x72, 0x65])
    ensures !IsTareCommand(TOPIC_CMD, [0x74, 0x61, 0x72, 0x65, 0x20])
    ensures !IsTareCommand(TOPIC_CMD, [0x74, 0x61, 0x72, 0x65, 0x65])
    ensures !IsTareCommand(TOPIC_BASE + "/mass", TARE_BYTES)
  {
    TareCommandExact(TOPIC_CMD, [0x54, 0x61, 0x72, 0x65]);
    TareCommandExact(TOPIC_CMD, [0x20, 0x74, 0x61, 0x72, 0x65]);
    TareCommandExact(TOPIC_CMD, [0x74, 0x61, 0x72, 0x65, 0x20]);
    TareCommandExact(TOPIC_CMD, [0x74, 0x61, 0x72, 0x65, 0x65]);
  }

  /** Builds `messageTemp` from `message[0..length)` one character at a time. */
  method AssemblePayload(message: seq<byte>, length: nat) returns (messageTemp: string)
    requires length <= |message|
    ensures messageTemp == Chars(message[..length])
  {
    messageTemp := "";
    var i := 0;
    while i < length
      invariant 0 <= i <= length
      invariant |messageTemp| == i
      invariant forall k :: 0 <= k < i ==> messageTemp[k] == message[k] as char
    {
      messageTemp := messageTemp + [message[i] as char];
      i := i + 1;
    }
  }

  /** The callback, with the exact payload match the firmware evidently intends.
      `length` is the payload length the message-bus client passes; it never
      exceeds the received buffer. */
  method Callback(topic: string, message: seq<byte>, length: nat) returns (tare: bool)
    requires length <= |message|
    ensures tare == IsTareCommand(topic, message[..length])
    ensures tare <==> topic == TOPIC_CMD && message[..length] == TARE_BYTES
  {
    var messageTemp := AssemblePayload(message, length);
    tare := topic == TOPIC_CMD && messageTemp == "tare";
    TareCommandExact(topic, message[..length]);
  }

  // ----- The comparison as the Arduino String class performs it -----

  /** The text a NUL-terminated buffer holds: everything before the first NUL. */
  function CString(s: string): (r: string)
    ensures |r| <= |s| && r == s[..|r|]
    ensures '\0' !in r
    ensures |r| < |s| ==> s[|r|] == '\0'
  {
    if s == [] || s[0] == '\0' then [] else [s[0]] + CString(s[1..])
  }

  /** `messageTemp == "tare"` on an Arduino `String`: `String::equals` compares
      with `strcmp`, so the comparison stops at the first NUL byte although
      the string's own length counts the bytes after it. */
  predicate StringEqualsAsWritten(s: string, literal: string)
  {
    if |s| == 0 then literal == "" else CString(s) == literal
  }

  predicate IsTareCommandAsWritten(topic: string, payload: seq<byte>)
  {
    topic == TOPIC_CMD && StringEqualsAsWritten(Chars(payload), "tare")
  }

  /** The callback as written, with the `String` comparison of the Arduino core. */
  method CallbackAsWritten(topic: string, message: seq<byte>, length: nat) returns (tare: bool)
    requires length <= |message|
    ensures tare == IsTareCommandAsWritten(topic, message[..length])
  {
    var messageTemp := AssemblePayload(message, length);
    tare := topic == TOPIC_CMD && StringEqualsAsWritten(messageTemp, "tare");
  }

  /** As written, the filter also accepts "tare" followed by a NUL byte and
      any further bytes. */
  lemma AsWrittenAcceptsNulSuffix(payload: seq<byte>)
    ensures IsTareCommandAsWritten(TOPIC_CMD, payload) <==>
      payload == TARE_BYTES || (|payload| > 4 && payload[..4] == TARE_BYTES && payload[4] == 0)
  {
    var s := Chars(payload);
    var c := CString(s);
    if StringEqualsAsWritten(s, "tare") {
      assert c == "tare";
      assert s[..4] == "tare";
      assert Chars(payload[..4]) == s[..4];
      CharsInjective(payload[..4], TARE_BYTES);
      if |payload| > 4 {
        assert s[4] == '\0';
        assert payload[4] as char == '\0';
      } else {
        assert payload == payload[..4];
      }
    }
    if payload == TARE_BYTES {
      assert s == "tare";
      assert CString(s[3..]) == "e";
      assert c == "tare";
    } else if |payload| > 4 && payload[..4] == TARE_BYTES && payload[4] == 0 {
      assert s[..5] == "tare\0";
      assert CString(s[4..]) == "";
      assert CString(s[3..]) == "e";
      assert c == "tare";
    }
  }

  /** The input that separates the two: "tare", NUL, "x". */
  lemma NulSuffixDiscrepancy()
    ensures IsTareCommandAsWritten(TOPIC_CMD, [0x74, 0x61, 0x72, 0x65, 0x00, 0x78])
    ensures !IsTareCommand(TOPIC_CMD, [0x74, 0x61, 0x72, 0x65, 0x00, 0x78])
  {
    var p: seq<byte> := [0x74, 0x61, 0x72, 0x65, 0x00, 0x78];
    AsWrittenAcceptsNulSuffix(p);
    assert p[..4] == TARE_BYTES;
    TareCommandExact(TOPIC_CMD, p);
  }
}
