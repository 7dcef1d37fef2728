# BugC ESP-NOW link: a verified model

This project models the receiver ("obeyer") side of the BugC robot link: an
M5StickC driving a BugC hat, paired with a controller over ESP-NOW. It covers three
parts of the repository.

- **BugComm** (`lib/BugComm/BugComm.cpp`), the link library. The receive callback
  fills a single-slot mailbox (latest datagram wins). It classifies each datagram by
  exact length, then checks the signature and version. The pairing step drains that
  mailbox while unpaired. On a valid discovery packet it marks the link connected,
  echoes the packet to the broadcast address, takes the sender as peer, deletes the
  broadcast peer and re-registers the sender as unicast peer on the same channel.
  It also has the status reply and the getters over the stored command.
- **BugCControl** (`lib/BugCControl/BugCControl.cpp`, `.h`), the actuator state. It
  holds four motor speed slots (int8_t values stored as uint8_t) and two 32-bit light
  colours, written to the hat over I2C.
- **The older single-file receiver** (`src/main.cpp`). A length-only receive
  callback, a one-way `connected` latch, and the loop's drain step. The drain step
  replies and applies the stored datagram.

Each class keeps the source's static fields as fields. The `BugComm` and `main.cpp`
methods are proved to compute a pure step function of the old state (`Received`,
`PairingStep`, `Replied`, `Drained`, ...). The protocol properties are lemmas about
those functions, including lemmas over arbitrary sequences of events (`Run`).
`BugCControl` keeps `speeds` and `lights` as arrays. Its methods state every slot
they write and every slot they leave alone.

Modelling choices:
- **Header constants.** `BugComm.h`, `bugC.h`, `BugCommunications.h` and the MAC
  address header are not part of this model. So the packet sizes, the signature, the
  version, the broadcast address, `sizeof(struct_message)` and the controller's
  address are fields of a `Config`. Every result holds for all values of them, under the
  premises each lemma states. The worked runs `PairingScenario` and `EndToEnd`
  also assume a Discovery size below 256. `response_len` is a `uint8_t`, so a
  Discovery struct of 256 bytes or more could never pass the length check at
  `lib/BugComm/BugComm.cpp:80`.
- **Received bytes.** The callbacks copy the received bytes into C structs with
  `memcpy`. The model takes the datagram already read through the two struct layouts
  (`asCommand`, `asResponse`) plus its length. For a datagram shorter than a struct,
  those values are arbitrary.
- **Transport.** WiFi and ESP-NOW become a ghost log (`RadioOp`). Their success
  results are parameters (`Outcomes`, `initOk`, `addPeerOk`). The I2C bus becomes a
  ghost log of writes. The actuator calls and replies in `src/main.cpp` become an
  output log.
- **Pairing poll.** The sequence model only polls the pairing step while unpaired, as
  the comment at `lib/BugComm/BugComm.cpp:75-76` describes. The caller that does the
  polling is not part of this model.
- **Integer widths.** `response_len` is a `uint8_t`, so the stored length is the
  received length modulo 256.

Behaviour of the code worth noting:
- The callback already validates each datagram; it is not left to the drain.
- The pairing step echoes the received response buffer as it is (its status byte
  included). It does not build a fresh "OK" response.
- In `src/main.cpp` the drain applies the stored datagram even when the latest
  arrival was rejected. That datagram is the last correctly sized one, so a rejected
  datagram still never changes what reaches the actuators.
- While connected, the `BugComm` callback copies every datagram into the command
  buffer before it validates it. So the getters serve the bytes of a rejected
  command too (`ArrivalFillsMailbox`).
- In `src/main.cpp` a wrongly sized datagram that arrives with nothing pending gets
  no reply at all. It only clears `data_valid`, and the next pass of `loop` does
  nothing (`WrongSizeOnlyClearsValid`, `IdleLoopChangesNothing`).

Quirks kept as written:
- The callback checks against `sizeof(BugComm_Response)`; the pairing step checks
  against `sizeof(BugComm_Discovery)`.
- The pairing diagnostic compares the length with the Response size. When the two
  sizes differ it can report "Coding error" (`DiagnosticCodingError`).
- `get_light_color(2)` returns the right colour.

## Model

| member | source | states |
|---|---|---|
| MachineInts.ToUInt8 | lib/BugComm/BugComm.cpp:70 | the conversion to `uint8_t` gives the byte congruent to the value modulo 256, and is the identity on 0..255 |
| MachineInts.AsInt8 | lib/BugCControl/BugCControl.cpp:46 | reading a stored byte as `int8_t` gives the two's-complement value: negative exactly for bytes of 0x80 and above |
| MachineInts.Int8RoundTrip | lib/BugCControl/BugCControl.h:36 | an `int8_t` stored in a `uint8_t` slot and read back is unchanged |
| MachineInts.UInt8RoundTrip | lib/BugCControl/BugCControl.h:32 | a byte read as `int8_t` and stored again is the same byte |
| BugCControlLib.Clamp | lib/BugCControl/BugCControl.cpp:11 | the stored speed lies in -100..100, equals the input inside that range and saturates at 100 / -100 outside it |
| BugCControlLib.ClampIsNearest | lib/BugCControl/BugCControl.h:11 | no speed in -100..100 is closer to the input than its clamp: saturation, not wrap-around |
| BugCControlLib.ClampIdempotent | lib/BugCControl/BugCControl.cpp:20 | clamping twice equals clamping once |
| BugCControlLib.ClampMonotone | lib/BugCControl/BugCControl.cpp:11 | clamping preserves the order of speeds |
| BugCControlLib.ColorOut | lib/BugCControl/BugCControl.cpp:27-31 | the four bytes sent per light are the light index followed by three bytes that recombine to the colour's low 24 bits |
| BugCControlLib.ColorBytesRecombine | lib/BugCControl/BugCControl.cpp:29-31 | the red, green and blue bytes are the base-256 digits of the colour modulo 2^24 |
| BugCControlLib.ColorOutDeterminesColor | lib/BugCControl/BugCControl.cpp:35-38 | two colours that send the same bytes agree on their low 24 bits |
| BugCControlLib.BugCControl.constructor | lib/BugCControl/BugCControl.cpp:4-5 | the state is exactly four speed bytes and two light colours, all zero at start, and every stored speed lies in -100..100 (the invariant every method keeps) |
| BugCControlLib.BugCControl.SetSpeed | lib/BugCControl/BugCControl.cpp:9-14 | an index of 4 or more changes nothing; otherwise only that slot changes, to the clamped speed, and one byte write goes to the hat |
| BugCControlLib.BugCControl.SetAllSpeeds | lib/BugCControl/BugCControl.cpp:17-23 | slot i holds the clamp of the i-th argument for every i in 0..3, lights are unchanged, and the four stored bytes are sent in one write |
| BugCControlLib.BugCControl.SetLights | lib/BugCControl/BugCControl.cpp:26-41 | lights[0] is the left colour and lights[1] the right, speeds are unchanged, and the two 4-byte colour writes go out left first |
| BugCControlLib.BugCControl.GetSpeed | lib/BugCControl/BugCControl.cpp:44-47 | 0 for an index of 4 or more, otherwise the slot read back as `int8_t`; always within -100..100, since the state invariant keeps every stored speed clamped |
| BugCControlLib.BugCControl.ComeToHalt | lib/BugCControl/BugCControl.cpp:82-84 | afterwards all four speeds and both lights are 0, after three bus writes: lights off, then motors stopped |
| BugCControlLib.SetSpeedThenGetSpeed | lib/BugCControl/BugCControl.cpp:9-47 | `set_speed(p, s)` followed by `get_speed(p)` yields the clamp of s for a motor index, and 0 otherwise |
| BugCommLib.BugComm.constructor | lib/BugComm/BugComm.cpp:5-16 | all flags false, channel and length 0, addresses and buffers zero, nothing sent |
| BugCommLib.BugComm.InitializeEspNow | lib/BugComm/BugComm.cpp:19-42 | records the channel, restarts the radio on it, adds the given peer on that channel only when ESP-NOW came up, and reports success only when both steps succeeded |
| BugCommLib.BugComm.OnDataReceived | lib/BugComm/BugComm.cpp:55-72 | the new state is the receive step `Received` of the old one |
| BugCommLib.BugComm.ProcessPairingResponse | lib/BugComm/BugComm.cpp:78-108 | the new state is `PairingStep` of the old one, and the returned diagnostic is the message the step prints |
| BugCommLib.BugComm.SendResponse | lib/BugComm/BugComm.cpp:113-117 | the new state is `Replied`: the status is stored and the response is sent to the peer |
| BugCommLib.BugComm.GetLightColor | lib/BugComm/BugComm.cpp:122-125 | 0 for an index above 2, the left colour for 0, and the right colour for both 1 and 2 |
| BugCommLib.BugComm.GetMotorSpeed | lib/BugComm/BugComm.cpp:130-138 | the stored speed byte of motor p for p in 0..3, and 0 otherwise |
| BugCommLib.BugComm.GetButton | lib/BugComm/BugComm.cpp:143-145 | the button byte of the stored command |
| BugCommProofs.ValidityWhileConnected | lib/BugComm/BugComm.cpp:57-61 | when connected, a datagram is valid iff its length is the Command size and its signature and version match; a wrong length rejects it whatever its header |
| BugCommProofs.ValidityWhileUnpaired | lib/BugComm/BugComm.cpp:63-67 | when not connected, the same rule applies with the Response size |
| BugCommProofs.ArrivalFillsMailbox | lib/BugComm/BugComm.cpp:69-71 | every arrival, valid or not, records the sender and the length and sets the ready flag; the bytes go to the Command buffer when connected and to the Response buffer before; connection, peer, channel and transport are untouched |
| BugCommProofs.MailboxKeepsLatest | lib/BugComm/BugComm.cpp:55-72 | two arrivals before a drain leave the same state as the second alone: the mailbox holds only the latest |
| BugCommProofs.PairingValidity | lib/BugComm/BugComm.cpp:79-82 | the pairing step always clears the ready flag, and sets the valid flag iff the length is the Discovery size and signature and version match |
| BugCommProofs.PairingOnValidDiscovery | lib/BugComm/BugComm.cpp:83-98 | on a valid discovery: connected, the peer is the sender, and the channel is unchanged. The packet is echoed once to the broadcast address and the broadcast peer is deleted. Only if the delete succeeds is ESP-NOW re-initialised on the same channel with the sender as peer |
| BugCommProofs.PairingOnInvalid | lib/BugComm/BugComm.cpp:100-107 | on anything else only the two flags are cleared: connection, peer and transport are unchanged |
| BugCommProofs.DiagnosticOrder | lib/BugComm/BugComm.cpp:100-106 | no message for a valid packet or an empty slot; otherwise the size message comes first, then signature, then version, and "Coding error" only for a Response-sized packet whose header matches |
| BugCommProofs.DiagnosticIsAccurate | lib/BugComm/BugComm.cpp:102-105 | when the Discovery and Response sizes agree, every rejection message names a check that failed |
| BugCommProofs.DiagnosticCodingError | lib/BugComm/BugComm.cpp:80-106 | when the sizes differ, a Response-sized packet with the right header is rejected and reported as a coding error |
| BugCommProofs.ReplyGoesToPeer | lib/BugComm/BugComm.cpp:113-117 | a reply sends the stored response with the new status to the peer and changes nothing else |
| BugCommProofs.ResponseAddressIsLatestSender | lib/BugComm/BugComm.cpp:69 | after any events, `responseAddress` is the sender of the latest arrival |
| BugCommProofs.StaysPaired | lib/BugComm/BugComm.cpp:83-98 | once connected, every later event keeps the connection, the peer and the channel; the peer table is never touched again and every packet goes to the peer |
| BugCommProofs.UnguardedPollRepairs | lib/BugComm/BugComm.cpp:78-98 | the pairing step does not test `connected`: polled after pairing with a stale discovery-sized packet still buffered, it re-pairs with the latest sender and echoes to broadcast again; the guarded `Step` leaves the state unchanged |
| BugCommProofs.ConnectedPersists | lib/BugComm/BugComm.cpp:85 | a prefix of events that ends connected means the whole run ends connected |
| BugCommProofs.PairsExactlyOnce | lib/BugComm/BugComm.cpp:83-98 | from an unpaired state, at most one event pairs, and it is a pairing poll. The run ends connected iff that event exists. That event is one pairing step, and the peer afterwards is the sender of the latest datagram before it |
| BugCommProofs.PeerIsDiscoverySender | lib/BugComm/BugComm.cpp:88 | a run that ends paired has a pairing event whose preceding latest sender is the peer |
| BugCommProofs.PairingScenario | lib/BugComm/BugComm.cpp:78-98 | after a wrongly sized packet, a packet with a bad signature and a valid discovery, the receiver is paired with the third sender. The log holds exactly one echo to broadcast, the broadcast-peer delete and the unicast peer on the same channel |
| BugCommProofs.EndToEnd | lib/BugComm/BugComm.cpp:19-117 | continuing that run, a valid command is stored as valid and the reply goes to the new peer |
| MainSketch.Receiver.constructor | src/main.cpp:13-18 | no datagram received, not valid, not connected, zero datagram |
| MainSketch.Receiver.OnDataRecv | src/main.cpp:59-76 | the new state is the receive step `Received` of the old one |
| MainSketch.Receiver.SendResponse | src/main.cpp:79-83 | one response with the given status goes to the controller address |
| MainSketch.Receiver.Loop | src/main.cpp:113-126 | the new state is the drain step `Drained` of the old one |
| MainSketchProofs.WrongSizeOnlyClearsValid | src/main.cpp:60-61 | a wrongly sized datagram only clears `data_valid`; datagram, received flag and connection are unchanged |
| MainSketchProofs.RightSizeIsStored | src/main.cpp:61-67 | a correctly sized datagram sets `data_received` and `connected` and replaces the stored datagram |
| MainSketchProofs.IdleLoopChangesNothing | src/main.cpp:114 | with nothing received, a pass of loop changes no state and sends nothing |
| MainSketchProofs.DrainRepliesAndApplies | src/main.cpp:114-118 | a drain clears the flag, replies NOERR to the controller iff `data_valid`, and applies exactly the stored colours and four speeds |
| MainSketchProofs.DrainedOnce | src/main.cpp:114-115 | draining twice is draining once: each arrival is handled once |
| MainSketchProofs.InvalidAfterValid | src/main.cpp:60-118 | an invalid arrival after an undrained valid one makes the drain reply ERROR while still applying the valid datagram |
| MainSketchProofs.ConnectedLatches | src/main.cpp:63-66 | after any events, `connected` holds iff it held before or some correctly sized datagram arrived: it latches and is never reset |
| MainSketchProofs.DatagramIsLastAccepted | src/main.cpp:61-67 | after any events, the stored datagram is the last correctly sized one (or the initial one) |
| MainSketchProofs.OutputOnlyGrows | src/main.cpp:116-118 | the log of replies and actuator calls is only ever extended |
| MainSketchProofs.ActuatorsGetLastAccepted | src/main.cpp:116-118 | whatever came before, a drain applies the colours and speeds of the last correctly sized datagram, so a rejected datagram never changes actuator state |

## Left out

- Serial logging, the send-complete callbacks (`on_data_sent`, `OnDataSent`), and all
  LCD output (`display_speed`, `DisplaySpeed`, `print_mac_address`). They are output
  only. `come_to_halt`'s `digitalWrite` of the LED and its four `display_speed` calls
  are left out for the same reason.
- The WiFi calls in `initialize_esp_now` (`disconnect`, `softAP`, `mode`) are one
  `RadioRestart(channel)` entry in the log. Callback registration is folded into
  `EspNowInit`. The result of `esp_now_send` is only printed, so it is not modelled.
- `BugCControl::get_color`: it returns no value when the index is in range, so its
  result is undefined and there is nothing to specify.
- The battery-voltage refresh in `loop` (floating point and `millis()`), `setup()` of
  `src/main.cpp` (board start-up and registration of the controller peer), and
  `lastBatteryUpdate`, the refresh's timer.
- The byte layout of the packet structs, the over-read of a short datagram, and the
  fields of `struct_message` and `struct_response` that the drain does not read.
  The headers that define them are not part of this model.
- Preemption of the main loop by the receive callback. The callback and the drain are
  separate sequential steps on the same state; torn reads of the mailbox are not
  modelled.
- StaysPaired and PairsExactlyOnce hold only for callers that poll
  `process_pairing_response` while unpaired, which is the `Step` guard. The function
  does not test `connected` itself, and `UnguardedPollRepairs` shows it re-pairs
  when polled later.
- The caller that polls `process_pairing_response` and uses the getters (the sketch
  built on the library) is not part of this model.
