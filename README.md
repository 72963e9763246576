# ESP bed scale: verified model of the sampling loop and the command filter

The firmware runs on an ESP8266. It reads a load cell, averages three samples, and publishes the mean on the MQTT topic `ESP/BedScale/mass` when it has changed. It also publishes an "online" heartbeat on `ESP/BedScale/available` and re-zeroes (tares) the scale when the tare button is held low or when `tare` arrives on `ESP/BedScale/cmd`. This project models the two pieces of decision logic in `Firmware/src/main.cpp`:

- **One pass of `loop()`**. The five static locals (`timer`, `avail_timer`, `samples`, `avg`, `oldAvg`) are the fields of the class `BedScale.ScaleLoop`. `Step` runs one pass, and its new state and emitted events equal the pure specification `BedScale.Next`. A ghost field `batch` records the readings summed into `avg` so far. The pass keeps the source's order:
  1. the tare button;
  2. the 100 ms sample gate, accumulation, and on the third sample the mean, the 0.1 change threshold, and only then the clamp of means `<= 0.5` (negative ones too) to 0;
  3. the inbound message;
  4. the 1500 ms heartbeat gate.
- **`callback()`**. `Command.AssemblePayload` copies `message[0..length)` into a string in a loop. `Command.Callback` requests a tare exactly when the topic is `ESP/BedScale/cmd` and the payload is the four bytes of `tare`. This is the corrected exact match. `Command.CallbackAsWritten` models the `String` comparison as written (see Findings).

Design choices:
- **Clock.** `millis()` is the 32-bit newtype `Timing.u32`. Both gates use the explicit mod-2^32 subtraction `Timing.Elapsed`. `Timing.ElapsedAcrossWrap` proves that this subtraction gives the true elapsed time across a counter wrap-around.
- **Clock readings.** The source calls `millis()` up to four times per pass. Lines 239 and 292 run on every pass. Lines 277 and 295 run only when their gate opens. Time runs between the calls, so `Inputs` carries four readings, and the two after-readings are used only when their gate opens (`BedScale.AfterReadingsOnlyOnOpenGates`).
- **Sample counter.** `samples` is a `uint8_t`, modelled as `BedScale.u8` with an explicit wrapping increment. The wrap can never happen, because the window invariant keeps `samples < 3`.
- **Float arithmetic** is modelled with `real`.
- **Driver calls become inputs and outputs.** The load-cell reading is an input. `tare()` and each `client.publish` become `Events.Event` values, recorded in order. A mass publish records its numeric value.

Two behaviours of the code may be unexpected. The model keeps both as written:

- One might expect the near-zero clamp to come before the change threshold, and to apply only to means between 0 and 0.5. The code tests the 0.1 threshold first (main.cpp:254) and clamps only after it passes (main.cpp:256). It clamps negative means too.
- The heartbeat is not sent on a fixed 1500 ms schedule. It is gated on the time elapsed since the previous heartbeat, read from a later `millis()` call (main.cpp:292-295).

A consequence of testing the threshold first is `BedScale.NearZeroMeanRepublishesZero`. Take a steady mean more than 0.1 from zero and at most 0.5, for example 0.3 or -0.4. Such a mean is published as 0 on every batch, because the stored value is set back to 0 each time.

## Model

| member | source | states |
|---|---|---|
| `Timing.Elapsed` | Firmware/src/main.cpp:239 | unsigned 32-bit `now - since`: the plain difference when `since <= now`, otherwise the difference plus 2^32 |
| `Timing.ElapsedAcrossWrap` | Firmware/src/main.cpp:239 | if less than 2^32 ms truly elapsed between two `millis()` readings, the wrap-around difference of the readings is exactly the true elapsed time, even when the counter wrapped in between |
| `Timing.GateOpenAcrossWrap` | Firmware/src/main.cpp:292 | an interval gate `millis() - t >= period` opens iff the true elapsed time reaches the period, across wrap-around |
| `Command.AssemblePayload` | Firmware/src/main.cpp:120-125 | the string built by the copy loop is exactly `message[0..length)`, one character per byte |
| `Command.Callback` | Firmware/src/main.cpp:115-137 | a tare is requested iff the topic equals `ESP/BedScale/cmd` and the first `length` payload bytes are exactly `t`,`a`,`r`,`e` (exact match, as intended; see Findings) |
| `Command.TareCommandExact` | Firmware/src/main.cpp:129-134 | the command predicate holds iff the topic is the command topic and the payload is the four bytes of "tare", nothing more or less |
| `Command.NearMissesIgnored` | Firmware/src/main.cpp:131 | "Tare", " tare", "tare ", "taree", and "tare" on another topic request no tare |
| `Command.CallbackAsWritten` | Firmware/src/main.cpp:115-137 | the callback with the Arduino `String` comparison: a tare is requested iff the topic matches and the payload up to its first NUL byte reads "tare" |
| `Command.AsWrittenAcceptsNulSuffix` | Firmware/src/main.cpp:131 | as written, the command topic accepts exactly "tare" and "tare" followed by a NUL byte and any further bytes |
| `Command.NulSuffixDiscrepancy` | Firmware/src/main.cpp:131 | the payload "tare", NUL, "x" is accepted as written and rejected by the exact match |
| `BedScale.Increment` | Firmware/src/main.cpp:242 | `samples++` on a `uint8_t` adds one below 255 and wraps to 0 at 255 |
| `BedScale.BatchDecision` | Firmware/src/main.cpp:254-259 | publish iff the mean differs from the last published value by more than 0.1. A published value is either 0 or above 0.5: the mean itself above 0.5, and 0 for any mean at or below 0.5, negative means included |
| `BedScale.NextEvents` | Firmware/src/main.cpp:223-296 | filtering a pass's events by kind: its mass values are those of the sample block, its tare count is the button's plus the command's, and it holds one heartbeat iff the heartbeat gate is open |
| `BedScale.NextKeepsWindowOk` | Firmware/src/main.cpp:241-274 | after every pass the sample count is in `[0, 3)` |
| `BedScale.BatchOnThirdTick` | Firmware/src/main.cpp:241-274 | a batch is decided iff the sample gate is open and two samples were already summed. The tested mean is (accumulated sum + this reading) / 3, and the sum and the count are then reset to 0 |
| `BedScale.MassPublishIff` | Firmware/src/main.cpp:254-269 | a mass publish happens iff a batch was decided and abs(mean - last published) > 0.1. Without one, the last published value is unchanged. With one, exactly one value is published and that value becomes the new last published value: 0 if the mean is at or below 0.5, the mean otherwise |
| `BedScale.SampleGate` | Firmware/src/main.cpp:239-277 | with the sample gate closed, the timer, sum, count and last published value are unchanged, and no batch or mass publish happens. With it open, the timer becomes the clock read after sampling |
| `BedScale.AfterReadingsOnlyOnOpenGates` | Firmware/src/main.cpp:239-296 | the clock reading after sampling matters only when the sample gate opens, and the reading after the heartbeat only when the heartbeat gate opens (`millis()` at lines 277 and 295 runs only inside those branches) |
| `BedScale.HeartbeatGate` | Firmware/src/main.cpp:292-296 | one "online" heartbeat is published iff the heartbeat gate is open, and only then does the heartbeat timer move, to the clock read after publishing |
| `BedScale.TareRequests` | Firmware/src/main.cpp:231-235 | a pass requests one tare if the button reads low (on every such pass, since there is no edge detection) plus one for an exact tare command; a high button requests none |
| `BedScale.NearZeroMeanRepublishesZero` | Firmware/src/main.cpp:254-268 | from a last published value of 0, a batch mean at most 0.5 and more than 0.1 from 0 (including means below -0.1) publishes 0 and leaves the stored value at 0, so the next such batch publishes 0 again |
| `BedScale.ScaleLoop.constructor` | Firmware/src/main.cpp:225-229 | the five statics start at zero, with an empty batch |
| `BedScale.ScaleLoop.SampleTick` | Firmware/src/main.cpp:238-278 | the sample block updated in place. Its new state and events equal the specification `Sample`. The tested mean is the sum of exactly the three batch readings divided by 3, and the batch is extended, reset, or left alone to match |
| `BedScale.ScaleLoop.Step` | Firmware/src/main.cpp:223-296 | one call of `loop()`, with the command step using the corrected exact-match `Command.Callback` (see Findings and "## Left out"): it keeps the window invariant, its new statics and its emitted events equal `Next`, and the mean it tests is the sum of its three batch readings divided by 3 |
| `Runs.RunKeepsWindowOk` | Firmware/src/main.cpp:241-274 | the sample count stays in `[0, 3)` over any number of passes |
| `Runs.RunTareCount` | Firmware/src/main.cpp:231-235 | over a run, the tare requests number exactly the passes with the button low plus the passes that received the exact tare command |
| `Runs.SteadyPass` | Firmware/src/main.cpp:241-268 | under a steady reading within 0.1 of the last published value, a pass keeps the sum equal to reading x count and publishes nothing |
| `Runs.SteadyLoadNoRepublish` | Firmware/src/main.cpp:254-269 | under a steady reading within 0.1 of the last published value, no run of any length publishes a mass value, and the last published value is kept |
| `Runs.SteadyLoadScenario` | Firmware/src/main.cpp:239-274 | from power-up, six ticks with a steady 12.3 publish 12.3 exactly once |

## Left out

- Wi-Fi association (`init_WiFi`), the blocking MQTT reconnect loop (`MQTT_Reconnect`) and `init_MQTT` are I/O only. `Step` assumes the reconnect returns. A publish is recorded as requested, whether or not the broker gets it.
- `client.loop()` is represented only by the message it may hand to the callback. At most one message arrives per pass.
- `init_OTA`, `httpServer.handleClient()`, `ArduinoOTA.handle()` and mDNS are outside the model. They are foreign update and discovery services.
- The HX711 driver (`init_Scale`, `get_units`, `tare`) is outside the model. The reading is an input and `tare` is an event. The effect of a tare on later readings is not modelled.
- `dtostrf` formatting to 5 characters with 1 decimal place is a library call and is not modelled. The published numeric value is recorded instead. So the model does not capture a buffer overflow. The firmware's buffer `char result[RESULT_WIDTH + 1]` (main.cpp:248) holds 6 bytes, but a mean of 999.95 or more formats as "1000.0" plus a NUL, which is 7 bytes.
- IEEE single-precision rounding in the sum, the mean and the comparisons is not modelled; `real` is exact.
- LED writes, `delay` and `Serial` output are left out. They have no effect on the logic. The time that `delay` uses shows up only through the separate clock readings.
- Heartbeat periodicity over a time window (about one heartbeat per 1500 ms, give or take one) is not stated. It depends on how long passes take, which the model does not know. Each heartbeat gate is modelled exactly.
- The globals `AVAIL_PUB_INTERVAL` and `lastAvailPubTime` are unused by the code, which uses the literal 1500. The model's constant for that literal is `BedScale.HEARTBEAT_PERIOD`.
- BedScale.ScaleLoop.Step: the command step uses the corrected `Command.Callback`, and so do `BedScale.Next`, `BedScale.TareRequests` and `Runs.RunTareCount`. The firmware as written accepts a payload of "tare" followed by a NUL byte and any further bytes (`Command.AsWrittenAcceptsNulSuffix`). For such a payload the firmware requests a tare and the model requests none.

## Findings

| source | as written | input that shows it | evidently intended | confidence | as-written member | corrected member |
|---|---|---|---|---|---|---|
| Firmware/src/main.cpp:131 | `messageTemp == "tare"` uses the Arduino core's `String::equals`. That function compares with `strcmp`, which stops at the first NUL byte, while the loop at lines 122-125 copies every payload byte, NUL included | payload bytes `74 61 72 65 00 78` ("tare", NUL, "x") on `ESP/BedScale/cmd` request a tare | only the exact payload "tare" requests a tare | medium; not executed. The finding rests on the Arduino core's `String` implementation, which is not part of this model | `Command.CallbackAsWritten` (`Command.NulSuffixDiscrepancy`) | `Command.Callback` |
