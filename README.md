# EspHomeClient in Dafny

A model of the `EspHomeClient` class, an Arduino library for ESP8266/ESP32
boards. The class keeps a board connected to Wi-Fi and to an MQTT broker,
and offers publish, subscribe and unsubscribe on a per-client topic
namespace. The model proves properties of it.

The pure parts of the library are functions with lemmas:

- `topics.dfy` builds `<kind>/<client name>/<topic>` topics and parses them back.
- `matcher.dfy` is the library's one-wildcard topic matcher. It matches in the
  code's own terms: Arduino `String` semantics, and prefix and suffix may
  overlap.
- `inbound.dfy` is the payload-truncation rule of the message callback.
- `registry.dfy` holds the subscription list and what a message delivered to
  it calls.
- `ticks.dfy` holds the two connection controllers and the supervisory `loop`.
  Each is a function from the controller state and what the tick observes to
  the new state, the "changed" result, and the calls made.

`client.dfy` is the class itself. Its fields mirror the header. Its methods
update those fields step by step as the C++ does, and append every call into
Wi-Fi, the MQTT library or the application to an `effects` log. Each method is
proved to perform the corresponding function of the other modules.

The outside world is made of parameters:

- A tick receives an `Env`: the time in milliseconds, the Wi-Fi status, whether
  the MQTT library holds a session, and what the blocking connect call returns.
- `publish`, `subscribe` and `unsubscribe` receive what the library's call
  returns.
- The message callback receives the delivered payload bytes and the library's
  buffer size.
- Callbacks are opaque ids. Calling one is an entry in the log.

## Model

| member | source | states |
|---|---|---|
| Topics.Prefix | EspHomeClient.cpp:560-572 | each kind's first segment is five characters ending in '/' |
| Topics.BuildFullTopic | EspHomeClient.cpp:558-575 | the full topic is the prefix, the client name, "/" and the topic; its length is the sum of theirs plus one |
| Topics.KindOf | EspHomeClient.h:23-28 | recovers the one kind with a given prefix; the three prefixes are distinct |
| Topics.ParseBuild | EspHomeClient.cpp:558-575 | parsing a built topic gives back its kind and relative topic |
| Topics.BuildParse | EspHomeClient.cpp:558-575 | every topic that parses is the topic built from its parts |
| Topics.BuildInjective | EspHomeClient.cpp:558-575 | distinct kinds or relative topics give distinct full topics |
| Topics.RadarTelemetryTopic | examples/radar/src/radar.cpp:28 | the radar device "office_radar_1" publishes "present" on "tele/office_radar_1/present" |
| Matcher.IndexOf | EspHomeClient.cpp:492 | `indexOf`: -1 iff the character is absent, else its first position |
| Matcher.Substring | EspHomeClient.cpp:494-495 | `substring` is the slice when the bounds are ordered and in range |
| Matcher.SubstringFrom | EspHomeClient.cpp:495 | `substring(i)` is the suffix from i |
| Matcher.StartsWith | EspHomeClient.cpp:496 | `startsWith`: the string begins with the given text |
| Matcher.EndsWith | EspHomeClient.cpp:497 | `endsWith`: the string ends with the given text |
| Matcher.Ends | EspHomeClient.cpp:496-506 | the prefix-and-suffix test of both wildcard branches, where an empty part always passes |
| Matcher.TopicMatch | EspHomeClient.cpp:488-518 | `mqttTopicMatch`: the '#' branch, else the '+' branch with its no-'/' middle test, else equality; its meaning is stated by the Match lemmas below |
| Matcher.MatchExact | EspHomeClient.cpp:512-515 | without '#' or '+' a pattern matches iff it equals the topic |
| Matcher.MatchMultiLevel | EspHomeClient.cpp:492-499 | with A and B around the first '#', a topic matches iff it starts with A and ends with B; any '+' is ignored |
| Matcher.MatchSingleLevel | EspHomeClient.cpp:500-511 | with A and B around the first '+' (no '#'), a topic matches iff it starts with A, ends with B, and the text between (bounds swapped on overlap) has no '/' |
| Matcher.LoneHashMatchesAll | EspHomeClient.cpp:492-499 | "#" matches every topic |
| Matcher.LonePlusMatchesOneLevel | EspHomeClient.cpp:500-511 | "+" matches exactly the topics without '/' |
| Matcher.OverlapMatches | EspHomeClient.cpp:496-498 | prefix and suffix may overlap: "xy#yx" matches "xyx" |
| Matcher.HashSpansLevels | EspHomeClient.cpp:492-499 | "root/#" matches every topic under "root/" at any depth |
| Matcher.PlusSpansOneLevel | EspHomeClient.cpp:500-511 | "sensors/+/outdoor" matches "sensors/temp/outdoor" |
| Matcher.PlusRejectsTwoLevels | EspHomeClient.cpp:500-511 | "sensors/+/outdoor" rejects "sensors/a/b/outdoor" |
| Inbound.MaybeTruncated | EspHomeClient.cpp:526 | truncation is suspected when topic length, payload length and 9 reach the buffer size |
| Inbound.TerminationPosAsWritten | EspHomeClient.cpp:525-534 | the code's terminator position: length-1 (32-bit unsigned) when truncation is suspected, else length |
| Inbound.EmptyPayloadUnderflows | EspHomeClient.cpp:526-528 | an empty payload with a topic that nearly fills the buffer puts the terminator at 0xFFFFFFFF |
| Inbound.TerminationPos | EspHomeClient.cpp:525-534 | the corrected position is within the payload, at most one byte early, and early exactly when truncation is suspected on a non-empty payload |
| Inbound.TerminationPosAgrees | EspHomeClient.cpp:525-534 | the corrected position equals the code's for every non-empty payload |
| Inbound.UntilNul | EspHomeClient.cpp:538 | the `String` made from the bytes is their longest NUL-free prefix |
| Inbound.PayloadString | EspHomeClient.cpp:525-538 | the payload string is a NUL-free prefix of the payload that ends at the terminator or at the first NUL byte before it; without NUL bytes it is the whole payload, or all but the last byte when truncation is suspected |
| Inbound.NoNulKeepsAll | EspHomeClient.cpp:538 | NUL-free bytes convert to the same string |
| Registry.AddIfAbsent | EspHomeClient.cpp:147-156 | after subscribe the topic is present; a present topic leaves the list unchanged; a new topic gets the given record appended at the end; unique topics stay unique |
| Registry.RemoveTopic | EspHomeClient.cpp:193-213 | the list after unsubscribe is no longer than before |
| Registry.CountTopic | EspHomeClient.cpp:193-196 | the number of records on a topic is at most the list's length |
| Registry.PatchLast | EspHomeClient.cpp:171-173 | the topic-callback subscribe gives only the last record the callback; topics and payload callbacks are kept, and unique topics stay unique |
| Registry.PatchTopic | EspHomeClient.cpp:169-177 | the reference the topic-callback overload is compared against: it gives the topic callback to exactly the records on the topic and keeps everything else |
| Registry.PatchTopicAttaches | EspHomeClient.cpp:169-177 | after a subscribe, the reference leaves a record on the topic holding the topic callback |
| Registry.PatchLastAgreesWhenFresh | EspHomeClient.cpp:169-177 | on a new topic the code's patch and the reference agree |
| Registry.PatchLastMissesTopic | EspHomeClient.cpp:169-177 | on a topic already subscribed, when another record is last, the code gives that other record the callback and leaves the topic's record as it was |
| Registry.CountTopicZero | EspHomeClient.cpp:193-196 | no record is counted iff no record has the topic |
| Registry.UniqueCountAtMostOne | EspHomeClient.cpp:147-155 | with unique topics at most one record carries a topic |
| Registry.RemoveTopicKeepsOthers | EspHomeClient.cpp:193-213 | removal keeps exactly the records on other topics and drops as many records as are counted |
| Registry.RemoveTopicMembers | EspHomeClient.cpp:193-213 | a record remains iff it was there and is on another topic |
| Registry.RemoveTopicLength | EspHomeClient.cpp:193-213 | removed plus kept records number the list's length |
| Registry.RemoveTopicAppend | EspHomeClient.cpp:193-213 | removal is a filter: it distributes over concatenation, so order is kept |
| Registry.RemoveTopicUnique | EspHomeClient.cpp:193-213 | removal keeps unique topics unique |
| Registry.SubscribeTwiceOneRecord | EspHomeClient.cpp:147-155 | subscribing twice to a topic leaves exactly one record for it, the first one |
| Registry.UnsubscribeUndoesSubscribe | EspHomeClient.cpp:131-216 | removing a topic after adding it leaves what removing it alone leaves |
| Registry.RecordEffects | EspHomeClient.cpp:548-554 | one record's calls: none unless its pattern matches, else the payload callback and then the topic callback, each when held |
| Registry.DispatchEffects | EspHomeClient.cpp:546-555 | the dispatch loop's calls, record by record in list order |
| Registry.HolderCount | EspHomeClient.cpp:546-555 | the number of matching records holding a payload callback; at most the list's length |
| Registry.TopicHolderCount | EspHomeClient.cpp:546-555 | the number of matching records holding a topic callback; at most the list's length |
| Registry.HeldCallbacks | EspHomeClient.cpp:546-555 | the number of callbacks held by matching records |
| Registry.RecordEffectsLength | EspHomeClient.cpp:548-554 | a record makes one call per callback it holds when it matches, none otherwise |
| Registry.DispatchCountsCallback | EspHomeClient.cpp:546-555 | a payload callback is called exactly as many times as there are matching records holding it |
| Registry.DispatchCountsTopicCallback | EspHomeClient.cpp:546-555 | a topic callback is called exactly as many times as there are matching records holding it |
| Registry.DispatchLength | EspHomeClient.cpp:546-555 | the dispatch makes exactly one call per callback held by a matching record, and no other |
| Registry.DispatchAppend | EspHomeClient.cpp:546-555 | dispatch follows list order: for a + b it calls a's callbacks, then b's |
| Registry.RecordCallsCallback | EspHomeClient.cpp:548-551 | a record calls its payload callback iff its pattern matches and it holds that callback |
| Registry.RecordCallsTopicCallback | EspHomeClient.cpp:548-553 | a record calls its topic callback iff its pattern matches and it holds that callback |
| Registry.DispatchCallsCallback | EspHomeClient.cpp:546-555 | a payload callback is called iff a matching record holds it |
| Registry.DispatchCallsTopicCallback | EspHomeClient.cpp:546-555 | a topic callback is called iff a matching record holds it |
| Registry.DispatchNoMatch | EspHomeClient.cpp:546-555 | a message no pattern matches calls nothing |
| Ticks.Initial | EspHomeClient.cpp:28-51 | the constructor's controller values: first attempt at 500 ms, delays 60 s and 15 s, nothing connected, count 0, drastic mode off, default callback |
| Ticks.WifiBranch | EspHomeClient.cpp:242-288 | the four Wi-Fi branches change only the attempt fields and the next MQTT attempt, and make only disconnect and begin calls |
| Ticks.WifiEstablished | EspHomeClient.cpp:243-253 | on a new link the attempt ends, nothing is called, and the broker is first tried at now+500 |
| Ticks.WifiAttemptAborts | EspHomeClient.cpp:256-268 | an attempt in progress is abandoned, with a radio reset and a retry at now+500, iff the radio reports failure or the attempt delay has passed; otherwise nothing changes |
| Ticks.WifiLostReschedules | EspHomeClient.cpp:271-277 | on a lost link a client managing Wi-Fi resets the radio and retries at now+500; any other client does nothing |
| Ticks.WifiAttemptStarts | EspHomeClient.cpp:281-287 | the radio is asked to connect iff Wi-Fi is managed, no attempt is in progress, the recorded link state is the observed one and the scheduled time has come; the attempt then starts now with nothing scheduled |
| Ticks.WifiIdle | EspHomeClient.cpp:242-288 | a quiet tick (no attempt in progress, the link as recorded, no attempt due or Wi-Fi not managed) changes nothing and calls nothing |
| Ticks.WifiTick | EspHomeClient.cpp:225-298 | the first managed tick resets the radio, schedules at now+500 and reports a change; otherwise the tick reports a change iff the observation differs from the recorded state, and records it |
| Ticks.FailedAttempt | EspHomeClient.cpp:333-366 | a failed connect retries after the MQTT delay and changes only the next Wi-Fi attempt besides the escalation; drastic mode is kept |
| Ticks.MqttBranch | EspHomeClient.cpp:310-367 | after the three MQTT branches the session is up iff it was or has just come up |
| Ticks.MqttEstablished | EspHomeClient.cpp:311-315 | a new session is recorded as up and the count grows, with no change reported; the schedule, the failure count and Wi-Fi are left alone; the library is pumped, then the established callback called |
| Ticks.MqttIdle | EspHomeClient.cpp:303-367 | a quiet tick (the session as recorded, no attempt due) only pumps the library, changes nothing and reports no change |
| Ticks.MqttLostReschedules | EspHomeClient.cpp:318-322 | a lost session is reported as a change, recorded as down, and the next broker attempt is scheduled at now + the MQTT delay; only the library pump is called |
| Ticks.MqttTick | EspHomeClient.cpp:300-377 | starts by pumping the library; reports a change iff a recorded session was lost (the established transition is not reported); records the observation |
| Ticks.LoopTick | EspHomeClient.cpp:75-89 | `loop()`: the Wi-Fi tick, then the MQTT tick only when the Wi-Fi tick reported no change |
| Ticks.LoopGating | EspHomeClient.cpp:75-89 | when the Wi-Fi tick reports a change the MQTT tick does not run; otherwise it runs |
| Ticks.ConnectOnlyOverLink | EspHomeClient.cpp:325-328 | the broker is only tried when the radio reports a link the client has recorded, with the configured arguments |
| Ticks.FailedConnectEscalates | EspHomeClient.cpp:333-366 | a failed connect adds one to the count and retries at now + delay; at 8 Wi-Fi is reset and rescheduled at now+500, and the count becomes 0 unless drastic; at 12 in drastic mode the board restarts, with Wi-Fi left alone |
| Ticks.SucceededConnectResets | EspHomeClient.cpp:328-332 | a successful connect sets the count and the next attempt to 0 and leaves the rest of the MQTT state and Wi-Fi alone |
| Ticks.EstablishedCallbackOnTransition | EspHomeClient.cpp:311-315 | the established callback is called, and the count grows, exactly on the established transition |
| Ticks.MqttTickBounded | EspHomeClient.cpp:333-366 | the MQTT tick keeps the escalation invariant (count below 8, or at most 12 in drastic mode) |
| Ticks.LoopTickBounded | EspHomeClient.cpp:333-366 | the loop keeps the invariant and the drastic flag; without drastic mode the count is at most 7 after every tick |
| Ticks.RestartEndsTick | EspHomeClient.cpp:355-364 | a restart is the last call of its tick |
| Ticks.Run | EspHomeClient.cpp:75-89 | the state after one `loop()` per observation, stopping at a restart |
| Ticks.RunEffects | EspHomeClient.cpp:75-89 | the calls made over such a run, tick after tick |
| Ticks.RunBounded | EspHomeClient.cpp:333-366 | over any run of ticks the invariant holds; without drastic mode the count stays at most 7 |
| Ticks.RestartIsLast | EspHomeClient.cpp:355-364 | over any run the board restarts at most once, as its last call |
| Client.UnsubscribeCalls | EspHomeClient.cpp:193-198 | n unsubscribe calls, all on the full topic |
| Client.EspHomeClient.IsWifiConnected | EspHomeClient.h:110 | reads the recorded Wi-Fi state |
| Client.EspHomeClient.IsMqttConnected | EspHomeClient.h:111 | reads the recorded MQTT state |
| Client.EspHomeClient.IsConnected | EspHomeClient.h:109 | holds iff Wi-Fi and MQTT are both recorded as up |
| Client.EspHomeClient.constructor | EspHomeClient.cpp:12-52 | stores the credentials; the client name defaults to "ESP8266" and the port to 1883; Wi-Fi is handled iff an SSID is given; the state is the initial one, clean session, no last will, no subscriptions |
| Client.EspHomeClient.Anonymous | EspHomeClient.h:75-80 | the same client without MQTT user name and password |
| Client.EspHomeClient.EnableMqttPersistence | EspHomeClient.cpp:61-64 | the connect arguments change only in asking for a persistent session |
| Client.EspHomeClient.EnableLastWillMessage | EspHomeClient.cpp:66-71 | the connect arguments change only in the will topic, message and retain flag |
| Client.EspHomeClient.EnableDrasticResetOnConnectionFailures | EspHomeClient.h:95 | only the drastic flag changes, to true; the invariant is kept |
| Client.EspHomeClient.SetOnConnectionEstablishedCallback | EspHomeClient.h:114 | only the established callback changes |
| Client.EspHomeClient.Loop | EspHomeClient.cpp:75-89 | performs the loop tick on the fields and the log, and keeps the invariant |
| Client.EspHomeClient.HandleWifi | EspHomeClient.cpp:225-298 | performs the Wi-Fi tick |
| Client.EspHomeClient.HandleWifiState | EspHomeClient.cpp:237-288 | performs the Wi-Fi branch |
| Client.EspHomeClient.OnWifiConnectionLost | EspHomeClient.cpp:454-464 | resets the radio iff the client manages Wi-Fi |
| Client.EspHomeClient.ConnectToWifi | EspHomeClient.cpp:380-392 | makes the one connection request |
| Client.EspHomeClient.HandleMqtt | EspHomeClient.cpp:300-377 | performs the MQTT tick |
| Client.EspHomeClient.HandleMqttState | EspHomeClient.cpp:305-367 | performs the MQTT branch |
| Client.EspHomeClient.HandleFailedConnection | EspHomeClient.cpp:333-366 | performs the failed-connection escalation |
| Client.EspHomeClient.OnMqttConnectionEstablished | EspHomeClient.cpp:466-470 | adds one to the established count and calls the established callback |
| Client.EspHomeClient.ConnectToMqttBroker | EspHomeClient.cpp:395-400 | makes one connect call with the stored arguments and last-will QoS 0, and returns its result |
| Client.EspHomeClient.Publish | EspHomeClient.cpp:104-129 | `retain` defaults to false; when not connected: false and no call; otherwise one publish on the full topic, returning the library's result |
| Client.EspHomeClient.Subscribe | EspHomeClient.cpp:131-167 | `qos` defaults to 0; when not connected: false, no call, no change; otherwise one subscribe on the command topic, and on success the record is added unless the topic is there; unique topics are kept |
| Client.EspHomeClient.SubscribeWithTopic | EspHomeClient.cpp:169-177 | `qos` defaults to 0; subscribes without a payload callback, then on success gives the last record the topic callback |
| Client.EspHomeClient.Unsubscribe | EspHomeClient.cpp:179-216 | when not connected: false, no call, no change; otherwise, when the library acknowledges, every record on the command topic is removed after its own call and the result is true; when it does not, the first such record stops the walk with false and nothing is removed; with no such record: true and no call |
| Client.EspHomeClient.EraseSubscriptions | EspHomeClient.cpp:193-215 | the erase loop performs the removal and its calls, as Unsubscribe states |
| Client.EspHomeClient.OnMessage | EspHomeClient.cpp:520-556 | calls the matching records' callbacks in list order with the payload string; the list is unchanged |
| Client.EspHomeClient.Deliver | EspHomeClient.cpp:548-554 | one record's calls: the payload callback, then the topic callback, each when present and the pattern matches |

## Left out

- Serial logging and `enableDebuggingMessages`, with the log text and float-second formatting: they are diagnostics only.
- `setMaxPacketSize` and `setKeepAlive`: thin wrappers over the MQTT library.
- The Wi-Fi mode and hostname setup in `connectToWifi`: driver calls. The model makes one `WifiBegin` call.
- The `state()` reason switch of `connectToMqttBroker`: log text only.
- The Wi-Fi, PubSubClient and WiFiClient libraries. Their results are parameters (`Env`, `transportOk`, `ack`, `bufferSize`). Their calls are entries in the log.
- `onWiFiConnectionEstablished` and `onMQTTConnectionLost`: they only log.
- `ESP.reset()`/`ESP.restart()`: modelled as a `restarted` flag. The rest of the tick's code still runs in the model. `Loop` requires a board that has not restarted, and `Run` stops at the restart.
- `millis()` wrap-around: time is a `nat` that never decreases. `Loop` and `HandleWifi` require that the last Wi-Fi attempt is not in the future.
- Client.EspHomeClient.Subscribe: the `byte` index of the loop that looks for the topic (EspHomeClient.cpp:151) is unbounded here. In the source it wraps at 256, so with 256 or more records it never reaches `size()`, and a subscribe to a topic that is not in the list never ends.
- Client.EspHomeClient.OnMessage: the `byte` index of the dispatch loop (EspHomeClient.cpp:546) is unbounded here. In the source it wraps at 256, so with 256 or more records every dispatch never ends.
- Client.EspHomeClient.OnMessage: the payload string is the corrected one (`Inbound.TerminationPos`). On the input of the finding below it hands "" to the callbacks. The code instead writes the NUL outside the payload (on a 32-bit board the address wraps to the byte before the payload) and then builds the string from bytes that no NUL terminates.
- Ticks.WifiBranch: its contract states only what may change. The result of each branch is stated by `WifiEstablished`, `WifiAttemptAborts`, `WifiLostReschedules`, `WifiAttemptStarts`, and `WifiIdle` for the tick where no branch applies.
- Ticks.MqttBranch: its contract states only the session outcome. The result of each branch is stated at the level of the tick: `MqttEstablished`, `MqttLostReschedules`, the connect attempt by `ConnectOnlyOverLink`, `FailedConnectEscalates` and `SucceededConnectResets`, and `MqttIdle` for the tick where no branch applies.
- One `now` and one Wi-Fi status per tick. The source reads `millis()` again after the blocking connect call (EspHomeClient.cpp:336, 350) and reads `WiFi.status()` a second time in the connecting branch (EspHomeClient.cpp:258). The model uses the tick's one `Env` for all of these reads.
- `first_loop_call` is a function-local `static` (EspHomeClient.cpp:228), so every instance of the class shares it. The model keeps it per client. With two clients that manage Wi-Fi, only the first one to tick gets the radio reset in the source.
- `unsigned int` counters (failed attempts, established connections): unbounded here. They never get near 2^32 in the source's use.
- Client.EspHomeClient.OnMessage: the library calls the message callback (registered at EspHomeClient.cpp:44) only from inside its pump, `mqtt_client_.loop()` (EspHomeClient.cpp:303), so in the source a dispatch happens only within an MQTT tick, right after the pump. The model lets `OnMessage` run between any two ticks.
- Callbacks are ids. A callback that re-enters the client (subscribes or unsubscribes during dispatch) is not modelled. Dispatch walks the list as it was when the message came in.
- Client.EspHomeClient.Unsubscribe: one `ack` value stands for the result of every library unsubscribe call in one invocation. Mixed results are not modelled.
- The payload buffer: the NUL byte written into it is not modelled. The payload is a sequence of the delivered bytes, and the string is a prefix of it.
- `strlen(topic)` is taken as the topic's length, so the topic has no NUL byte.
- The radar example application (GPIO reads, `delay`, `sprintf`): only the topic it publishes on is stated.

## Findings

| source | as written | input that shows it | evidently intended | confidence | as-written member | corrected member |
|---|---|---|---|---|---|---|
| EspHomeClient.cpp:526-537 | when truncation is suspected the terminator goes at `length - 1` in unsigned arithmetic, then `payload[str_termination_pos] = '\0'` | a message with an empty payload on a 247-character topic, with the library's default 256-byte buffer: `length - 1` wraps to 0xFFFFFFFF, and the write lands outside the payload, and the string is then read from bytes no NUL terminates | put the terminator one byte early only when there is a byte to give up, never before the payload | not executed | Inbound.TerminationPosAsWritten, Inbound.EmptyPayloadUnderflows | Inbound.TerminationPos |
