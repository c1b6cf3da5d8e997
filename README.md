# GeigerCounter core, modelled in Dafny

This project models the core of the GeigerCounter firmware for an ESP8266.
The firmware counts pulses from a Geiger tube in six 10-second slots that
form a rolling one-minute window. It shows the total with its minimum and
maximum on a PCD8544 display. It publishes readings and a Home Assistant
style discovery message over MQTT. It enters its Wi-Fi configuration portal
on a long press of the configuration button.

The model has one module per concern:

- `Uint`: the `uint8_t`, `uint16_t` and `uint32_t` values of the firmware, and C's wrap-around arithmetic on them.
- `Decimal`: `itoa(v, buf, 10)` and the `%d` conversion, with a digit reader (`Value`) as the inverse of `itoa`.
- `Format`: the `%s`/`%d` subset of `sprintf` the firmware uses, as a function from a format and arguments to the text written.
- `Window`: the rolling window as values. `Tick` is `processCounts` and `Pulse` is the `geigerCount` interrupt. These are the specification the `Firmware` class is proved against. Lemmas cover whole runs of ticks and pulses from boot.
- `Button`: the `longPress` interrupt as a function on `(lastPressTime, buttonLongPress)`.
- `Chirp`: the handshake between the pulse interrupt, the tail of `loop()` and `chirpOff`.
- `Flash`: the `flash_toggle` counter of the over-the-air progress callback.
- `Display`: the layout `displayCounts` draws.
- `Mqtt`: three parts.
  - The topics, payloads, client name and error messages built with `sprintf`/`itoa`, and the fixed buffers they go into.
  - A reader for the discovery payload's `state_topic` field.
  - The `publishMes`/`reconnect` decision, as a function on a `Session` and as the class `MqttLink` proved against it.
- `Firmware`: the class `Firmware`, holding the globals of `src/main.cpp`. Its methods update them in place: `processCounts`, the two interrupt routines, `chirpOff`, one pass of `loop()` and the OTA progress callback. Each is proved against the value-level functions above.

Assumptions:

- **Interrupts are atomic.** Each interrupt service routine is a method the environment may call between any two main-loop steps.
- **The MQTT client's answers are inputs.** A `Net` value gives the result of `connect`, the broker's acceptance of each publish and the `state()` code.
- **Times and pin levels are inputs.** `millis()` and the button's pin level are parameters.
- **Ticker firing is an input.** Whether each Ticker's period has elapsed is a `Due` parameter. A ticker whose `running` flag is false does not fire.

Three behaviours of the code a reader might not expect:

- **State payload.** It is `{"count":` + digits + `}`, with no space after the colon (`src/mqtt.cpp:37`).
- **Pulses in the window.** The window does not hold every pulse of a minute-long run. Each tick zeroes the slot that becomes active, which is the oldest interval. So the window holds the current interval and the five before it. `Window.TickReportsLastMinute` states this, and `Window.PulsesConserved` states conservation for pulses with no tick between them.
- **Button.** The detector keeps no Idle/Pressed state: every level change is judged only by the level read (`src/main.cpp:298-311`). `Button.LongPress` does the same.

## Model

| member | source | states |
|---|---|---|
| Uint.Add16 | src/main.cpp:269 | `totCnt += counters[n]` on uint16_t: the sum modulo 2^16, split into the no-wrap and wrap cases |
| Uint.Inc16 | src/main.cpp:293 | `counters[cntIdx]++`: one more, or 0 from 0xffff |
| Uint.Inc8 | src/main.cpp:177 | `++flash_toggle` on uint8_t: the successor modulo 2^8, that is one more, or 0 from 255 |
| Uint.Sub32 | src/main.cpp:302 | `millis() - lastPressTime` on uint32_t: the difference modulo 2^32, also across the wrap of millis() |
| Decimal.Itoa | src/mqtt.cpp:87 | itoa base 10 gives NumDigits(n) characters, all digits, with no leading zero |
| Decimal.ValueOfItoa | src/display.cpp:102-103 | reading itoa's digits back gives the number |
| Decimal.ItoaInjective | src/display.cpp:102-103 | different values never print the same way |
| Decimal.NumDigitsExact | src/display.cpp:91-98 | values from 10^(k-1) to 10^k - 1 have exactly k digits |
| Decimal.U16Digits | src/mqtt.cpp:85-87 | every uint16_t prints in at most 5 digits |
| Decimal.FormatInt | src/mqtt.cpp:49 | `%d` prints a minus sign then itoa of the magnitude for a negative value, and itoa of a non-negative one |
| Decimal.I32Width | src/mqtt.cpp:48-49 | every int32_t prints in at most 11 characters |
| Decimal.FormatIntReadsBack | src/mqtt.cpp:49 | `%d` output starts with '-' exactly for a negative value, and its digits read back as the magnitude |
| Decimal.FormatIntInjective | src/mqtt.cpp:49 | different values never print the same way under `%d` |
| Format.NoConversion | src/mqtt.cpp:36 | a text without '%' is a literal format |
| Format.Sprintf | src/mqtt.cpp:49-100 | with no arguments, a format is written exactly when it holds no conversion |
| Format.SprintfLiteralPrefix | src/mqtt.cpp:76 | a literal prefix of a format is copied ahead of the rest of the output |
| Format.SprintfLiteral | src/mqtt.cpp:76 | a format with no conversion is copied unchanged |
| Format.SprintfOneString | src/mqtt.cpp:88 | `sprintf(buf, "<a>%s<b>", s)` writes a + s + b |
| Format.SprintfOneInt | src/mqtt.cpp:49 | `sprintf(buf, "<a>%d<b>", i)` writes a + decimal(i) + b |
| Format.SprintfStrHead | src/mqtt.cpp:79 | a leading `%s` inserts the first argument before the rest |
| Format.SprintfTwoStrings | src/mqtt.cpp:76-79 | `sprintf(buf, "<a>%s<m>%s<b>", s, t)` writes a + s + m + t + b |
| Format.SprintfMidString | src/mqtt.cpp:79 | `sprintf` of `<m>%s<b>` with one argument t writes m + t + b |
| Window.Boot | src/main.cpp:33-47 | at boot the slots are 0, the index is 0, the window is not full, min is 0xffff and max is 0 |
| Window.Sum16 | src/main.cpp:267-270 | the uint16_t loop sum equals the exact slot sum modulo 2^16 |
| Window.Tick | src/main.cpp:258-282 | processCounts: index +1 mod 6, and prevIdx differs from the new index; fullMin latches exactly when the index wraps to 0; total is the slot sum mod 2^16; min only falls and only once full; max only rises; only the new slot is zeroed; the reading is the vacated slot's count |
| Window.Pulse | src/main.cpp:292-295 | geigerCount changes only the active slot, by +1 with uint16_t wrap |
| Window.Step | src/main.cpp:258-295 | a tick or a pulse keeps the window well formed |
| Window.Run | src/main.cpp:258-295 | a run of ticks and pulses keeps the window well formed |
| Window.TotalUpdate | src/main.cpp:279 | changing one slot changes the sum by the new value minus the old one |
| Window.PulseAddsOne | src/main.cpp:293 | without wrap, a pulse raises the slot sum by exactly 1 |
| Window.TickDropsOldest | src/main.cpp:279 | a tick removes exactly the oldest slot's count from the sum |
| Window.TickExample | src/main.cpp:258-282 | slots [5,3,8,2,0,0] before the window is full: total 18, min stays 0xffff, max 18, reading 5 |
| Window.RunIndex | src/main.cpp:259-265 | after any run the index is (start + number of ticks) mod 6 |
| Window.RunFull | src/main.cpp:261-265 | fullMin holds after a run exactly when it held before or the index passed 5 |
| Window.SixTicks | src/main.cpp:259-265 | after exactly six ticks the index is back where it started, and fullMin holds |
| Window.BootFull | src/main.cpp:37 | from boot, fullMin holds exactly when six or more ticks have happened |
| Window.RunMinMax | src/main.cpp:272-278 | over any run min never rises, max never falls, min is unchanged while not full, and fullMin is never cleared |
| Window.MinUnsetUntilFull | src/main.cpp:272-274 | before six ticks from boot the minimum is still 0xffff |
| Window.Intervals | src/main.cpp:258-295 | the pulse history has one entry per tick plus the current interval |
| Window.TracksTick | src/main.cpp:259-279 | a tick shifts each interval's slot one place back and starts an empty one |
| Window.TracksPulse | src/main.cpp:292-295 | a pulse adds one to the current interval and to the active slot |
| Window.TracksRun | src/main.cpp:258-295 | from boot, slot k places behind the active one holds interval k's count mod 2^16 |
| Window.TickOfTracked | src/main.cpp:267-282 | a tick over a tracking window reports the last six intervals' total and the current interval's count |
| Window.TickReportsLastMinute | src/main.cpp:267-282 | after any run from boot, the next tick's total is the last minute's pulses mod 2^16, and its reading is the interval just ending |
| Window.PulsesConserved | src/main.cpp:292-295 | from boot, n pulses with no tick and no wrap leave exactly n in the slots |
| Window.PulseOnlyIntervals | src/main.cpp:292-295 | without ticks the history is one interval holding every pulse |
| Button.LongPress | src/main.cpp:297-314 | a press records now and clears the flag; a release keeps the time, and sets the flag exactly when it was set or now - lastPressTime > 1000 (uint32_t) |
| Button.PressThenRelease | src/main.cpp:297-314 | a press then a release sets the flag exactly when the hold exceeded 1000 ms |
| Button.ShortPressIgnored | src/main.cpp:302 | a hold of at most 1000 ms never sets the flag |
| Button.ThresholdIsStrict | src/main.cpp:302 | 1000 ms exactly is not enough and 1001 ms is |
| Button.HoldAcrossWrap | src/main.cpp:302 | a hold across the wrap of millis() is measured correctly |
| Button.FlagClearedOnlyByPress | src/main.cpp:300-311 | a raised flag survives releases and is cleared by the next press |
| Chirp.Pulse | src/main.cpp:294 | the pulse ISR raises chirp and leaves the piezo and the ticker alone |
| Chirp.Off | src/main.cpp:253-256 | chirpOff stops the ticker and silences the piezo, leaving the flag pending |
| Chirp.Consume | src/main.cpp:244-249 | a pending chirp is cleared and the piezo and ticker started; nothing changes otherwise |
| Chirp.OffIdempotent | src/main.cpp:253-256 | calling chirpOff twice equals calling it once |
| Chirp.ConsumeOnce | src/main.cpp:244-249 | a consumed flag is not consumed again |
| Chirp.PulsesCoalesce | src/main.cpp:244-249 | a second pulse before the loop's tail finds the flag already raised and changes nothing (`Pulse(Pulse(c)) == Pulse(c)`), so any number of pulses within one loop pass gives a single chirp |
| Chirp.PiezoAfterConsume | src/main.cpp:244-249 | after the loop's tail the piezo is on exactly when a chirp was pending or it was already on |
| Chirp.OffThenConsume | src/main.cpp:239-249 | a ticker expiring in the same pass as a new pulse is restarted |
| Flash.Step | src/main.cpp:177-178 | t < 5 gives t + 1; 5 gives 0; 255 wraps to 0 |
| Flash.Shows | src/main.cpp:181-185 | "FLASH" is shown exactly when flash_toggle is 3 or more |
| Flash.AfterIsMod | src/main.cpp:177-178 | after k progress callbacks from 0, flash_toggle is k mod 6 |
| Flash.FlashDuty | src/main.cpp:181-185 | "FLASH" is shown on callbacks 3, 4 and 5 of every six and cleared on the others |
| Flash.FlashPeriodic | src/main.cpp:177-185 | the blinking repeats every six callbacks |
| Display.XCord | src/display.cpp:91-98 | the x of the big number is one of 36, 30, 24 and 18 |
| Display.DisplayCounts | src/display.cpp:82-121 | the big number starts at XCord(cur) in size 2, and the three texts read back as cur, min and max |
| Display.Layout | src/display.cpp:88-118 | "Count:" at (9,0) in size 2, the total at y 16, the min label at (0,40), min at (12,40), the max label at (48,40) and max at (60,40), whatever the three values |
| Display.XCordByDigits | src/display.cpp:91-98 | xcord is 36 - 6 * (digits - 1) for 1 to 4 digits; 5 digits share 18 with 4 |
| Display.XCordMonotone | src/display.cpp:91-98 | a larger total never starts further right |
| Display.TotalCentred | src/display.cpp:91-103 | totals of 1 to 4 digits are centred on the 84-pixel screen; 5 digits sit 6 pixels right and end by x 78 |
| Display.CounterBufferFits | src/display.cpp:101-118 | cur, min and max each fit `counter[6]` with the terminator |
| Mqtt.ConfigJsonShape | src/mqtt.cpp:36 | configJson is a literal prefix, `%s/%s` and a literal suffix; it has 124 characters, so the uint8_t configLen is exact |
| Mqtt.ConfigPartsLiteral | src/mqtt.cpp:36 | the text of configJson around its two `%s` holds no other conversion |
| Mqtt.ConfigLengths | src/mqtt.cpp:36 | configJson's prefix has 41 characters, its suffix 78 and the whole format 124 |
| Mqtt.FormatTopic | src/mqtt.cpp:79 | `sprintf(topic, "%s/%s", t, leaf)` writes t + "/" + leaf |
| Mqtt.StateTopic | src/mqtt.cpp:91 | the state topic is `<topic>/state` |
| Mqtt.ConfigTopic | src/mqtt.cpp:79 | the config topic is `<topic>/config` |
| Mqtt.StatePayload | src/mqtt.cpp:84-88 | the state payload is `{"count":` + decimal(count) + `}`, at most 15 characters |
| Mqtt.ConfigPayload | src/mqtt.cpp:73-76 | the config payload has configLen + len + 1 characters: the two `%s` give way to the topic and "state" |
| Mqtt.ConfigPayloadText | src/mqtt.cpp:73-76 | the config payload is configJson's prefix, `<topic>/state` and configJson's suffix |
| Mqtt.SubName | src/mqtt.cpp:100 | the client name is "geigercounter-" followed by the MAC string from index 9 |
| Mqtt.ConnectError | src/mqtt.cpp:48-49 | reconnect's message is "MQTT Connection failed, rc=" + decimal(rc) |
| Mqtt.PublishError | src/mqtt.cpp:63-64 | publishMes's message is "MQTT Publish failed, rc=" + decimal(rc) |
| Mqtt.BuffersFit | src/mqtt.cpp:74-91 | for a topic under 40 characters: len + 7 and len + 8 bytes fit the 50-byte topic buffer; configLen + len + 2 fits the config payload buffer; the count fits num[10] and the state payload fits payload[30] |
| Mqtt.SubNameFits | src/mqtt.cpp:100 | a 17-character MAC gives a 22-character name, which fits subName[25] |
| Mqtt.ErrorMessagesFit | src/mqtt.cpp:48-64 | both messages fit errorMes[50] for every int rc |
| Mqtt.Find | src/mqtt.cpp:36 | the first occurrence at or after from: it matches, none lies before it, and None means there is none |
| Mqtt.FindSkips | src/mqtt.cpp:36 | the search moves over positions that do not start the pattern |
| Mqtt.UntilQuoteReads | src/mqtt.cpp:36 | a quote-free stretch followed by a quote is read exactly |
| Mqtt.ValueBetween | src/mqtt.cpp:36 | a quote-free value placed right before a quote is read back exactly |
| Mqtt.FirstMatchAfter | src/mqtt.cpp:36 | a key whose second character occurs neither before it nor as its own first character is found first right after the text before it |
| Mqtt.StateTopicKeyFound | src/mqtt.cpp:36 | in configJson's prefix the `"state_topic": "` key is found first at position 25 |
| Mqtt.StateTopicValueRead | src/mqtt.cpp:36 | whatever quote-free text sits between configJson's prefix and suffix is read back as the state_topic field |
| Mqtt.StateTopicPlain | src/mqtt.cpp:91 | a topic JSON reads literally gives a state topic `<topic>/state` JSON reads literally |
| Mqtt.ConfigNamesStateTopic | src/mqtt.cpp:73-82 | for a topic JSON reads literally, the discovery payload's state_topic is exactly the topic publishCount publishes to, and that value needs no unescaping |
| Mqtt.ConfigExample | src/mqtt.cpp:73-82 | topic "geiger1" announces state topic "geiger1/state" |
| Mqtt.ConfigMessage | src/mqtt.cpp:73-82 | the discovery message is retained, goes to `<topic>/config`, and its payload has configLen + len + 1 characters |
| Mqtt.CountMessage | src/mqtt.cpp:84-93 | the reading is not retained, goes to `<topic>/state`, and carries `{"count":` + decimal(count) + `}` |
| Mqtt.Send | src/mqtt.cpp:62-70 | one publish appended to what was sent; the connection is untouched; an error is reported exactly when the broker rejects, and then it is "MQTT Publish failed, rc=" + rc |
| Mqtt.AfterReconnect | src/mqtt.cpp:43-54 | one connect attempt; connected afterwards exactly when connect succeeded |
| Mqtt.AfterPublishMes | src/mqtt.cpp:56-71 | publishes only append to what was sent; a true result means connected, with the message accepted as the last publish |
| Mqtt.ReconnectPublishesConfigOnlyOnSuccess | src/mqtt.cpp:43-54 | on success exactly the discovery message is published; on failure nothing is published and the rc is reported, with no retry |
| Mqtt.PublishReconnectsOnce | src/mqtt.cpp:56-60 | publishMes reconnects exactly once when disconnected and never when connected |
| Mqtt.PublishResult | src/mqtt.cpp:56-71 | it returns true exactly when connected after the one attempt and the broker accepts |
| Mqtt.PublishGivesUpWhenDown | src/mqtt.cpp:57-60 | still disconnected: it returns false, publishes nothing and reports the connect failure; the second `if` runs whatever its indentation suggests |
| Mqtt.PublishSendsOnce | src/mqtt.cpp:62-70 | the message is published once, after the discovery message if the call reconnected; a rejection is reported and not retried |
| Mqtt.ConfigPublishedTwiceOnReconnect | src/mqtt.cpp:43-82 | the hourly publishConfig on a dropped link sends the discovery message twice: once from reconnect, once itself |
| Mqtt.MqttLink.constructor | src/mqtt.cpp:96-101 | initMQTT keeps server, port and topic, sets subName, and starts disconnected with nothing sent |
| Mqtt.MqttLink.SetPortal | src/main.cpp:149-151 | the portal's server, port (atoi's result narrowed to uint16_t) and topic replace mqttServer, mqttPort and mqttTopic; the session and subName are unchanged |
| Mqtt.MqttLink.ConnectionLost | src/mqtt.cpp:57 | the client reports not connected; nothing else changes |
| Mqtt.MqttLink.Reconnect | src/mqtt.cpp:43-54 | the new session is AfterReconnect of the old one |
| Mqtt.MqttLink.PublishMes | src/mqtt.cpp:56-71 | the new session and the result are AfterPublishMes of the old session |
| Mqtt.MqttLink.PublishConfig | src/mqtt.cpp:73-82 | publishMes of the retained discovery message on `<topic>/config` |
| Mqtt.MqttLink.PublishCount | src/mqtt.cpp:84-93 | publishMes of the non-retained state payload on `<topic>/state` |
| Firmware.LoopPublishOrder | src/main.cpp:238-240 | with both due on a connected client, the reading goes first and the discovery message second, with no reconnect |
| Firmware.LoopSession | src/main.cpp:238-240 | a pass only appends to the outbox, at most two publishes per callback that runs, and changes nothing when neither callback runs |
| Firmware.Firmware.constructor | src/main.cpp:205-230 | boot and setup(): the window is Window.Boot, the flags are clear, the processer and mqttConfSender tickers run, and the client is configured |
| Firmware.Firmware.SumSlots | src/main.cpp:267-270 | the uint16_t loop sum of the six slots equals Window.Sum16 and the exact sum mod 2^16 |
| Firmware.Firmware.Rotate | src/main.cpp:259-279 | the in-place update leaves exactly Window.Tick's next window, and returns its total and the vacated index |
| Firmware.Firmware.ProcessCounts | src/main.cpp:258-286 | the window becomes Window.Tick of the old one; the display gets (total, min, max); the vacated slot's count goes to publishCount; the client's topic, server, port and name are kept |
| Firmware.Firmware.GeigerCount | src/main.cpp:292-295 | the window becomes Window.Pulse of the old one, and chirp is raised |
| Firmware.Firmware.LongPress | src/main.cpp:297-314 | (lastPressTime, buttonLongPress) becomes Button.LongPress of the old pair |
| Firmware.Firmware.ChirpOff | src/main.cpp:253-256 | the chirp state becomes Chirp.Off of the old one |
| Firmware.Firmware.OtaProgress | src/main.cpp:174-186 | flash_toggle becomes Flash.Step of the old value, and "FLASH" is shown exactly when flash_toggle / 3 is non-zero |
| Firmware.Firmware.Loop | src/main.cpp:232-251 | the flag is cleared and the portal's server, port and topic adopted if it was set (else all three are unchanged, and subName always is); the window ticks if processer fired; the publishes match LoopSession; the panel shows the counts if processer fired, else is cleared if the portal ran, else is unchanged; the chirp state becomes Consume of (Off if chirpTicker fired) |
| Firmware.Firmware.ServeLongPress | src/main.cpp:233-236 | a raised long-press flag adopts the portal's server, port and topic (callWFM, lines 149-151), clears the display (line 156) and is cleared; otherwise nothing changes; the session and subName are unchanged either way |
| Firmware.Firmware.RunTickers | src/main.cpp:238-240 | the three ticker callbacks run in order, each only if running and due; the panel shows the counts exactly when processer ran |
| Firmware.Firmware.ConsumeChirp | src/main.cpp:244-249 | the chirp state becomes Chirp.Consume of the old one; window, press, flash counter and panel are unchanged |

## Left out

- Ticker library: firing after the period elapses is not modelled. Whether a ticker is due is an input, a ticker that is not running does not fire, and only the `start`/`stop` calls of main.cpp change the `running` flags.
- Interrupt preemption: interrupts are atomic steps between main-loop steps. A pulse that lands in the middle of `processCounts` (counted into a slot that is summed or zeroed at that moment) is an accepted inaccuracy of the firmware and is not modelled. Worse, while `cntIdx` briefly holds 6 between `++cntIdx` and `cntIdx=0` (`src/main.cpp:260-263`), a pulse runs `counters[cntIdx]++` (`src/main.cpp:293`) on `counters[6]`, one element past the end of `counters[6]` (`src/main.cpp:33`): that pulse lands in no slot and the write changes the memory after the array. This is an observation from reading the source, not executed.
- Firmware.Firmware.Loop: it is one atomic step. Interrupts taken during the pass, and `ArduinoOTA.handle()` (whose progress callback is `OtaProgress`), are separate calls.
- Configuration portal and storage: `callWFM`, `configModeCallback`, `readEEPROM`, `writeEEPROM` and `ESP.restart` are outside the model. The portal's result reaches the model only as the `Portal` value (server, port after `atoi`, topic) given to `Loop`. How `atoi` parses the port text is not modelled: the port is given as a 16-bit value. `setServer` runs only in `initMQTT` (`src/mqtt.cpp:97`), so which server and port the client uses after the portal depends on PubSubClient, which is not part of this model; the model keeps the session as it was.
- Mqtt.MqttLink.SetPortal, Mqtt.MqttLink.constructor, Firmware.Firmware.constructor, Firmware.Firmware.Loop and Firmware.Firmware.ServeLongPress: each requires a topic shorter than 40 characters (`TopicOk`). `strncpy(mqttTopic, …, MQTT_TOPIC_LENGTH)` in `readEEPROM` (`src/main.cpp:88`) and in `callWFM` (`src/main.cpp:150`) leaves the buffer unterminated for a 40-character entry, and that case is not modelled.
- OTA: everything in `otaSetup` except the `flash_toggle` arithmetic is left out. The progress and total arguments of the callback are unused by the code and are not parameters.
- Serial logging: all `Serial` output is left out.
- Mqtt.AfterPublishMes and Mqtt.MqttLink.PublishMes: the link cannot drop during one publishMes call, because `connected()` changes in the model only through `connect` and `ConnectionLost`. Two paths of the source are therefore not modelled: (a) the link is up at the check on `src/mqtt.cpp:57` and has dropped by the check on line 59, where the source returns false with no publish and no error; (b) `reconnect` connects, then the link drops before the nested check on line 57 reached through reconnect, publishConfig and publishMes, which reconnects again, so that in the source the recursion has no bound. `Mqtt.PublishResult`, `Mqtt.PublishReconnectsOnce` and the termination measures rely on this. Path (b) is an observation about the source from reading it, not executed.
- MQTT transport: PubSubClient and WiFiClient are outside the model. The answers of `connect`, `publish` and `state()` are the `Net` input, and a dropped link is `MqttLink.ConnectionLost`. The discovery message sent during `reconnect` is answered by `Net.configAccepted`. `mqttCallback` only logs and is left out.
- Display driver: drawing is modelled as the positioned texts (`Display.Screen`). `Firmware.panel` records what main.cpp itself draws last: the counts screen of `processCounts`, "FLASH" or a clear screen from the OTA callback, and the `clear_display()` that ends `callWFM` (`src/main.cpp:156`) after a long press. The `error_display` calls of mqtt.cpp are recorded in `MqttLink.errors` instead, not on the panel. `initDisplay`, `conf_display` and the pixel rendering are left out.
- Mqtt.ConfigNamesStateTopic: requires a topic that JSON reads literally (`JsonPlain`: no double quote, no backslash, no control character), because the firmware escapes nothing. `StringField` copies raw characters and decodes no escape sequence, so it matches a JSON parser only on such text. For other topics the model does not say what a consumer reads.
- Format.Sprintf: only `%s` and `%d` are modelled, the only conversions in the firmware's formats. Every other conversion (`%%`, `%u`, `%x`, …) is not modelled and gives `None`, and so does a missing or mismatched argument.
- Hardware: `digitalRead`, `pinMode`, `attachInterrupt`, `digitalWrite` and `millis()` are left out. The pin level and the time are parameters, and the piezo output is a boolean.
