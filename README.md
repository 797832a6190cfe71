# Webasto LoRa remote control — a Dafny model

This project models the control logic of a LoRa remote control for a
Webasto parking heater. The system has three parts:

- a **sender**, a handheld with a button menu and a serial console;
- a **receiver**, which sits on the heater's W-BUS, deep-sleeps while the
  heater is off and forwards commands;
- a **heater simulator**, which answers on the W-BUS like a heater.

Each module below models one part of the firmware and proves its
properties:

| module | file | firmware part |
|---|---|---|
| `WBus`, `WBusTypes` | `wbus_simple.dfy`, `wbus_types.dfy` | The W-BUS driver. A frame builder (header, length, command, data, XOR checksum). A byte-driven framer (`FindHeader → ReadLength → ReadPayload`) with a single-slot queue. The TLV multi-status decoder, with its lookahead rule for the ambiguous tags. The requests built on `sendCommand`. |
| `Simulator` | `simulator.dfy` | The heater-side responder: `sendFrame`, opcode codes, the status pages, the bounded multi-status encoder and the `handlePacket` dispatch. |
| `Protocol` | `protocol.dfy` | The packed LoRa packet: header, 32-byte payload union and CRC. The enumeration codes, `calcCrc` and `validate`. |
| `Crypto` | `encryption.dfy` | The nonce layout and the counter-mode transform, with the AES keystream abstract. `setKey`. |
| `LoRaLinkLayer` | `lora_link.dfy` | The byte layout `send` writes, and the size check, zero-fill and validate-then-decrypt sequence of `recv`. |
| `Receiver` | `receiver.dfy` | The receiver firmware: command de-duplication with a sequence number kept across deep sleep, and dispatch onto the bus. The idle-listen-then-sleep policy. Periodic polling with the cached TLV-support probe and the simple-page fallback. |
| `Sender` | `sender.dfy` | The sender firmware: the acknowledged, retrying command send, the serial line reader, console parsing and menu selection. |
| `Menu` | `menu.dfy` | The one-button menu: debounce, short/long press, timeout. |
| `StatusLight` | `status_led.dfy` | The status LED. |
| `MqttBridge` | `mqtt.dfy` | Topic and payload to command decoding, the freshness check and the publish gating. |
| `Bytes`, `Text`, `Search`, `Wrappers`, `Config` | | Byte and integer helpers, string helpers (`trim`, `toInt`/`atoi`), first-match search, `Option`, and the build constants. |

Every stateful component has two parts:

- a pure state datatype with transition functions, about which the lemmas
  are proved;
- a `class` whose fields are the C++ members or globals. Each of its
  methods is proved to perform the same transition:
  `Snapshot() == Step(old(Snapshot()), …)`.

Loops in the source are `while` loops in the methods, with invariants.
Examples are the checksum accumulation, the framer, the TLV cursor, the
simulator's multi-status encoder, the acknowledged-send loop and the line
reader.

Every source of input is a parameter:

- clock readings (`now`);
- the bytes on the serial ports;
- the buffers the radio delivers within a listen window;
- the bus frames that arrive within a response window;
- whether the radio came up after a wake.

Wall-clock timeouts become finite input sequences.

Some functions the link layer calls are defined in none of the files
modelled here. Each becomes a field of the `Protocol.Externals`
record, and `Sound` states what the model assumes of them:

- `crc16_ccitt`, left uninterpreted;
- `getPayloadSize`;
- `encryptPacket` and `decryptPacket`. `Sound` requires that decryption
  undoes encryption under the same header and keeps the union's size.

`LoRaLinkLayer.CtrCipherSound` proves that a cipher built from
`Crypto.Transform` satisfies `Sound`.

Where the source files disagree with each other or with their own
comments, the model follows the code that runs:

- **Header fields.** `src/sender/main.cpp:51` and
  `src/receiver/main.cpp:35` write a combined `magic_version` field, but
  `lib/common/protocol.h:30-37` declares separate `magic` (32-bit) and
  `version` fields, and `validate` (`protocol.h:78-82`) checks both. The model uses the two-field layout
  of `protocol.h`.
- **Status payload.** `StatusPayload.lastCmdSeq` is used at
  `src/receiver/main.cpp:256, 367, 419` and `src/sender/main.cpp:108` but
  missing from `lib/common/protocol.h:44-57`. The model places it
  at offset 6 of a 14-byte payload. This agrees with the 26-byte maximum
  stated in the comment at `lib/common/lora_link.cpp:277` (10 + 14 + 2).
- **CRC tail.** `calcCrc` (`lib/common/protocol.h:74-76`) covers all 32
  union bytes, but `send` (`lib/common/lora_link.cpp:175, 193-198`)
  transmits only `getPayloadSize` of them and `recv`
  (`lib/common/lora_link.cpp:304-311`) zero-fills the rest. A packet is
  therefore guaranteed to pass `validate` at the far end when the
  encrypted union is zero beyond the payload size; otherwise it passes
  only if the 16-bit CRC happens to agree. `LoRaLinkLayer.SendRecvRoundTrip`
  and `LoRaLinkLayer.ParseWireBytes` take the zero tail as a precondition;
  the converse is not proved. `LoRaLinkLayer.CtrTailIsKeyStream`
  shows that a plain counter-mode cipher over the whole union does not
  leave that tail zero.
- **Unreachable size check.** The second size check in `recv`
  (`lib/common/lora_link.cpp:295-298`) can never fail after the first one.
- **Dead failure branches.** `sendCommand`
  (`lib/common/wbus_simple.cpp:65-92`) always returns true, so the
  remaining failure branches cannot be taken:
  - a failed `stop`/`startParkingHeater` in the receiver;
  - a failed W-BUS request.

  Only an unknown command kind reaches `Error`.
- **Undefined menu item.** `MenuItem::QueryStatus` and
  `CommandKind::QueryStatus` are used at `src/sender/main.cpp:249-250`, but
  neither `MenuItem` (`lib/common/menu_handler.h:12-21`) nor `CommandKind`
  (`lib/common/protocol.h:16-20`) lists them, and no other file modelled
  here defines them. The menu has six items.
- **Undefined MQTT command type.** `MQTTCommand::QUERY_STATUS` is assigned
  at `lib/common/mqtt_client.cpp:377`, but `MQTTCommand::Type`
  (`lib/common/mqtt_client.h:17-22`) has no such member. The model adds
  it as `QueryStatusCommand`.

Two consequences of the code are proved as lemmas:

- `WBus.MaybeU16Misreads`: the lookahead rule for tags 0x57/0x5F/0x78/0x89
  can choose a two-byte value and then fail the whole decode, where a
  one-byte reading would have succeeded.
- `Sender.RetryBurstNearClockWrap`: when `now + 1000` wraps, the resend
  deadline wraps too, so the next pass 10 ms later transmits again.

## Model

| member | source | states |
|---|---|---|
| `Bytes.Be16` | lib/common/wbus_simple.cpp:5-7 | the big-endian word has `hi` as its high byte and `lo` as its low byte |
| `Bytes.Be16OfSplit` | src/simulator/main.cpp:26-33 | `be16` of the two bytes `putBe16` writes gives back the word |
| `Bytes.SetHighBit` | src/simulator/main.cpp:612 | OR-ing in 0x80 gives a byte with the high bit set and keeps the low seven bits |
| `Bytes.ToI8` | src/receiver/main.cpp:41-42 | the `(int8_t)` cast agrees with its argument modulo 256 |
| `Bytes.Elapsed` | lib/common/status_led.h:63 | unsigned 32-bit `now - since` is the true difference, or that plus 2^32 after a wrap |
| `Bytes.XorAllAppend` | lib/common/wbus_simple.h:86-96 | the XOR over a concatenation is the XOR of the two parts' XORs |
| `Bytes.FromLe16OfLe16` | lib/common/protocol.h:30-37 | a 16-bit field stored little-endian reads back as itself |
| `Bytes.Le16OfFromLe16` | lib/common/protocol.h:30-37 | every two bytes are the little-endian image of the field read from them |
| `Bytes.FromLe32OfLe32` | lib/common/protocol.h:30-37 | a 32-bit field stored little-endian reads back as itself |
| `Bytes.Le32OfFromLe32` | lib/common/protocol.h:30-37 | every four bytes are the little-endian image of the field read from them |
| `Bytes.I8RoundTrip` | lib/common/protocol.h:44-57 | a signed byte stored as two's complement reads back as itself |
| `Bytes.I16RoundTrip` | lib/common/protocol.h:44-57 | a signed 16-bit field stored as two's complement reads back as itself |
| `Bytes.Wrap8` | lib/common/wbus_simple.cpp:74 | truncation to 8 bits keeps values that fit |
| `Bytes.Wrap16` | src/receiver/main.cpp:39 | truncation to 16 bits keeps values that fit |
| `Bytes.Wrap32` | src/sender/main.cpp:88 | truncation to 32 bits keeps values that fit |
| `Bytes.XorBytesInvolutive` | lib/common/encryption.cpp:38 | XORing with the same bytes twice gives back the data |
| `WBus.MakeHeader` | lib/common/wbus_simple.cpp:9-11 | the header holds the source address in its high nibble and the destination in its low nibble |
| `WBus.HeaderDirections` | lib/common/wbus_simple.cpp:13-19 | controller→heater is 0xF4 and heater→controller is 0x4F |
| `WBus.Frame` | lib/common/wbus_simple.cpp:71-87 | a frame is header, `dataLen+2` (8 bits), cmd, the data, then the XOR of every preceding byte; it is 4 bytes longer than the data |
| `WBus.FrameChecksum` | lib/common/wbus_simple.cpp:76-80 | the accumulation loop yields the XOR of header, length, cmd and all data bytes |
| `WBus.WBusSimple.SendCommand` | lib/common/wbus_simple.cpp:65-92 | appends exactly `Frame(0xF4, cmd, data)` to the port, marks the break as sent, and always returns true |
| `WBus.WBusSimple.StartParkingHeater` | lib/common/wbus_simple.cpp:366-368 | sends command 0x21 with `[minutes]` and succeeds |
| `WBus.WBusSimple.Stop` | lib/common/wbus_simple.cpp:370-372 | sends command 0x10 with no data and succeeds |
| `WBus.WBusSimple.RequestStatusMulti` | lib/common/wbus_simple.cpp:400-408 | succeeds iff 1..64 ids are given; then sends 0x50 with `0x30·ids`; otherwise writes nothing |
| `WBus.WBusSimple.SendKeepAlive` | lib/common/wbus_simple.cpp:410-415 | sends command 0x44 with `[0x2A, 0x00]` and succeeds |
| `WBus.WBusSimple.Begin` | lib/common/wbus_simple.cpp:52-63 | resets the framer to `FindHeader`, index 0, empty slot; clears the break flag |
| `WBus.WBusSimple.constructor` | lib/common/wbus_simple.h:164-169 | a new driver's framer is the initial framer, nothing sent |
| `WBus.InitialFramer` | lib/common/wbus_simple.h:164-169 | the framer starts in `FindHeader` with index 0 and no packet queued |
| `WBus.Step` | lib/common/wbus_simple.cpp:98-150 | one byte keeps the framer invariant: while reading a payload, the index is below the announced length, which is at least 2 |
| `WBus.FeedAll` | lib/common/wbus_simple.cpp:94-152 | any run of bytes keeps the framer invariant |
| `WBus.FeedAllAppend` | lib/common/wbus_simple.cpp:95-96 | feeding `a+b` equals feeding `a` and then `b`: the framer does not depend on how input is split between `poll` calls |
| `WBus.DiscardsNonHeaders` | lib/common/wbus_simple.cpp:99-108 | in `FindHeader`, bytes other than 0xF4 and 0x4F change nothing |
| `WBus.HeaderStartsFrame` | lib/common/wbus_simple.cpp:99-108 | a header byte starts a fresh packet with that header and moves to `ReadLength`, leaving the slot alone |
| `WBus.ShortLengthRejected` | lib/common/wbus_simple.cpp:110-119 | a length byte below 2 returns to `FindHeader` without publishing |
| `WBus.PublishOnlyOnGoodChecksum` | lib/common/wbus_simple.cpp:130-147 | the slot changes only when the last payload byte arrives and the packet's checksum equals that byte; the new slot content is that packet |
| `WBus.PayloadByte` | lib/common/wbus_simple.cpp:130-147 | a payload byte is stored at the index; the packet is published or dropped on the last byte, according to its checksum |
| `WBus.FeedPayload` | lib/common/wbus_simple.cpp:130-147 | feeding the rest of a payload fills it in order and returns to `FindHeader` after exactly `length` bytes; the packet is published, overwriting any unread one, iff its checksum matches |
| `WBus.HeaderAndLength` | lib/common/wbus_simple.cpp:99-128 | a header then a length ≥ 2 starts reading a payload of that length |
| `WBus.FramePacket` | lib/common/wbus_simple.cpp:125-132 | the packet read from a frame has the frame's header, `length == payloadLen == dataLen+2` and payload `cmd·data·csum` |
| `WBus.FilledFrame` | lib/common/wbus_simple.h:86-96 | the packet assembled from a built frame has a checksum equal to its last byte |
| `WBus.FrameRoundTrip` | lib/common/wbus_simple.cpp:65-152 | feeding a built frame from `FindHeader` publishes exactly the packet of that frame and returns to `FindHeader` |
| `WBus.ResyncAfterGarbage` | lib/common/wbus_simple.cpp:99-152 | a frame preceded by any non-header bytes is still received intact |
| `WBus.StrayHeaderSwallowsFrame` | lib/common/wbus_simple.cpp:99-128 | a stray 0xF4 before a frame makes the framer take the frame's header as a length, so the frame is not published |
| `WBus.PopSlot` | lib/common/wbus_simple.cpp:154-159 | popping yields the queued packet iff one is queued, and always empties the slot |
| `WBus.PopExactlyOnce` | lib/common/wbus_simple.cpp:154-159 | a queued packet is handed out once; a second pop yields nothing and changes nothing |
| `WBus.WBusSimple.PopPacket` | lib/common/wbus_simple.cpp:154-159 | performs `PopSlot` on the driver and leaves `out` untouched when the slot is empty |
| `WBus.WBusSimple.Poll` | lib/common/wbus_simple.cpp:94-152 | the loop over available bytes performs `FeedAll` on the driver's framer fields |
| `WBus.WBusSimple.PollByte` | lib/common/wbus_simple.cpp:96-150 | the switch performs one framer `Step` |
| `WBus.FirstOpState` | lib/common/wbus_simple.cpp:382-396 | finds a value iff some response is heater→controller with `payloadLen ≥ 4`, `payload[0] & 0x7F == 0x50` and `payload[1] == 0x07`; the value is `payload[2]` of the first such response |
| `WBus.ScanOpState` | lib/common/wbus_simple.cpp:382-396 | the response loop finds an opcode iff one matches, and returns that of the first match |
| `WBus.WBusSimple.ReadOperatingState` | lib/common/wbus_simple.cpp:374-398 | sends 0x50 `[0x07]`; succeeds iff a response matches and then returns its opcode, else leaves the opcode unchanged |
| `WBus.MaybeU16` | lib/common/wbus_simple.cpp:218-239 | a successful lookahead advances the cursor within the end; a two-byte read is big-endian, a one-byte read is that byte |
| `WBus.MaybeU16Choice` | lib/common/wbus_simple.cpp:218-239 | two bytes are taken when the byte after them is a known tag or the end; one byte only under the same test after one byte; otherwise the lookahead fails |
| `WBus.MaybeU16Misreads` | lib/common/wbus_simple.cpp:218-239 | for `57 05 01 07` the lookahead reads 0x0501 and the decode then fails on the truncated 0x07 field |
| `WBus.DecodeField` | lib/common/wbus_simple.cpp:241-348 | one field fails on an unknown tag and otherwise advances the cursor, staying within the end |
| `WBus.ParseField` | lib/common/wbus_simple.cpp:243-347 | the tag switch succeeds iff the field decodes, with the same cursor and status |
| `WBus.StatusTlv` | lib/common/wbus_simple.cpp:161-354 | a decode succeeds only for `payloadLen ≥ 4`, `payload[0] & 0x7F == 0x50` and `payload[1] == 0x30`, and its result has `valid` set |
| `WBus.TryParseStatusTlv` | lib/common/wbus_simple.cpp:161-354 | the cursor loop succeeds iff the decode does; `out` is written only on success, with `valid` set |
| `WBus.ParseFromLocal` | lib/common/wbus_simple.cpp:171-174 | the decode depends only on the bytes before `payloadLen - 1` |
| `WBus.StatusTlvIgnoresChecksum` | lib/common/wbus_simple.cpp:171-174 | the checksum byte does not influence the decode |
| `WBus.UnknownTagFails` | lib/common/wbus_simple.cpp:344-347 | an unknown tag fails the whole decode |
| `WBus.TruncatedFieldFails` | lib/common/wbus_simple.cpp:245-322 | a fixed-width field that would run past the end fails the whole decode |
| `WBus.ExampleDecodes` | lib/common/wbus_simple.cpp:262-285 | `D0 30 0C 4B 0E 30 68 11 02 BC cs` decodes to 25 °C, 12392 mV and power 700, everything else default |
| `WBusTypes.EmptyPacket` | lib/common/wbus_simple.h:80-84 | a default packet has header, length and payload length 0 and an all-zero payload |
| `WBusTypes.Checksum` | lib/common/wbus_simple.h:86-96 | the loop computes the XOR of header, length and all payload bytes but the last; `header ^ length` for an empty payload |
| `WBusTypes.ChecksumIgnoresLastByte` | lib/common/wbus_simple.h:93-94 | the checksum byte itself is excluded from the checksum |
| `WBusTypes.DefaultStatus` | lib/common/wbus_simple.h:41-78 | a default status is not valid, has temperature `INT16_MIN` and every other field 0 |
| `Simulator.OpStateCode` | src/simulator/main.cpp:107-126 | Off is 0x04, Starting and flame-out restart 0x01, Running and overshoot 0x06, Cooling 0x02, Error 0xFF, in both directions |
| `Simulator.HeaterSimulator.SendFrame` | src/simulator/main.cpp:35-55 | writes exactly `Frame(0x4F, cmdAck, data)` |
| `Simulator.ReplyAccepted` | src/simulator/main.cpp:35-51 | every reply the simulator frames is received intact by the W-BUS framer |
| `Simulator.FlagByte` | src/simulator/main.cpp:321 | the flame flag is sent as 1 or 0 |
| `Simulator.Page05Data` | src/simulator/main.cpp:305-327 | page 0x05 carries the raw temperature byte, big-endian voltage, flame flag, big-endian power and the opcode |
| `Simulator.Page0FData` | src/simulator/main.cpp:329-344 | page 0x0F carries glow 80/10, pump 60/0, and fan rpm/100 capped at 255 |
| `Simulator.FlagsData` | src/simulator/main.cpp:346-355 | the flags byte is one of the state bits, and zero exactly outside Running/Starting/Cooling/Error |
| `Simulator.Page03Data` | src/simulator/main.cpp:358-375 | page 0x03 flags are 0x51 when running, 0x30 when starting, else 0 |
| `Simulator.Page04Data` | src/simulator/main.cpp:378-402 | page 0x04 has glow 80 when starting and pump 150 when running at bytes 5 and 6, zeros in the unknown bytes |
| `Simulator.Page06Data` | src/simulator/main.cpp:405-430 | page 0x06 carries the fixed counters 123 h 45 min, 456 h 30 min and 789 starts, big-endian |
| `Simulator.PageData` | src/simulator/main.cpp:585-606 | every page reply starts with its index; 0x07 is `[0x07, opcode]`; an unknown page is `[idx]` |
| `Simulator.SimIdsMatchDecoder` | src/simulator/main.cpp:447-510 | the simulator's one-byte and two-byte id lists are exactly the decoder's known tags |
| `Simulator.Width` | src/simulator/main.cpp:444-529 | an id takes 0 bytes iff unknown, and never more than 3 |
| `Simulator.Encode` | src/simulator/main.cpp:445-527 | a known id's field starts with the id and has the id's width |
| `Simulator.EncodeAllAppend` | src/simulator/main.cpp:444-529 | encoding a concatenation of id lists concatenates the encodings |
| `Simulator.Kept` | src/simulator/main.cpp:444-532 | the ids the bounded loop writes are all known and no more than were asked for |
| `Simulator.KeptFits` | src/simulator/main.cpp:437-531 | the encoder never writes past `out[220]` |
| `Simulator.ShortRequestFullyAnswered` | src/simulator/main.cpp:531 | when the room left exceeds three bytes per id, every known id is answered |
| `Simulator.KnownIdAnswered` | src/simulator/main.cpp:444-529 | a request with a known id gets a non-empty TLV list |
| `Simulator.MultiStatusData` | src/simulator/main.cpp:436-535 | the answer is `0x30` followed by the fields of the kept ids and fits the buffer |
| `Simulator.MultiStatusReply` | src/simulator/main.cpp:432-535 | a reply is sent iff `payloadLen ≥ 4` and `payload[1] == 0x30`, with cmdAck 0xD0 and the multi-status data |
| `Simulator.HeaterSimulator.RespondMultiStatus` | src/simulator/main.cpp:432-536 | writes exactly the framed multi-status reply, or nothing |
| `Simulator.HeaterSimulator.MultiStatusAnswer` | src/simulator/main.cpp:436-532 | the array-filling loop produces the multi-status data for the request's ids |
| `Simulator.HeaterSimulator.PutRequestedIds` | src/simulator/main.cpp:444-532 | after the id loop the buffer prefix is the multi-status data |
| `Simulator.HeaterSimulator.PutField` | src/simulator/main.cpp:445-527 | one id appends its encoding and advances the length by its width |
| `Simulator.HeaterSimulator.WordReading` | src/simulator/main.cpp:481-516 | the word value read for a two-byte id is the one the encoder specifies |
| `Simulator.HeaterSimulator.constructor` | src/simulator/main.cpp:75-98 | the model starts Off with 12400 mV, 1800 mΩ glow resistance, no flame and nothing sent |
| `Simulator.DecodeEncoded` | src/simulator/main.cpp:445-527 | the decoder reads one encoded field back as that id's value |
| `Simulator.ParseEncoded` | src/simulator/main.cpp:444-529 | the decoder reads an encoded id list back as the status with all those fields set |
| `Simulator.MultiStatusRoundTrip` | src/simulator/main.cpp:432-535 | the framed multi-status answer decodes to the sim's values for every kept id, and is rejected iff no id was kept |
| `Simulator.AnswerDecoded` | src/simulator/main.cpp:518-535 | any packet carrying 0xD0 and an encoded list decodes to the encoded values |
| `Simulator.ApplyAllMeasurements` | src/simulator/main.cpp:463-487 | after decoding, temperature, voltage and power are the sim's values iff their ids were in the list |
| `Simulator.ApplyLateWins` | src/simulator/main.cpp:463-487 | a later occurrence of a measurement id decides its value |
| `Simulator.HandleFrame` | src/simulator/main.cpp:538-615 | a frame that is not controller→heater, or has `payloadLen < 2`, is ignored; every reply fits the frame buffer |
| `Simulator.StatusReply` | src/simulator/main.cpp:576-607 | a status request always replies with cmdAck 0xD0 except a short multi-status request; page requests reply with the page data |
| `Simulator.StartCommand` | src/simulator/main.cpp:546-566 | 0x21/0x22 with `payloadLen ≥ 3` set the minutes and Starting and echo the minutes with the ack bit; shorter frames get no reply |
| `Simulator.StopCommand` | src/simulator/main.cpp:568-573 | 0x10 moves to Cooling unless Off and replies 0x90 with no data |
| `Simulator.OtherCommandsAcknowledged` | src/simulator/main.cpp:575-613 | any other command changes nothing and replies with the command's ack code (high bit set) and no data |
| `Simulator.MultiStatusRequestHandled` | src/simulator/main.cpp:576-584 | a multi-status request is answered with the multi-status data, state unchanged |
| `Simulator.RequestReadBack` | src/simulator/main.cpp:442-444 | the simulator reads back exactly the ids that `requestStatusMulti` framed |
| `Simulator.OpStateSeenByReceiver` | src/simulator/main.cpp:300-303 | the receiver reads the simulator's opcode reply as that opcode, and maps it to Off iff the sim is Off |
| `Simulator.Page05SeenByReceiver` | src/receiver/main.cpp:450-458 | the receiver's fallback reads the simulator's page 0x05 as its temperature and voltage |
| `Simulator.ReceiverPollAnswered` | src/receiver/main.cpp:115-145 | the receiver's 29-id snapshot request is answered, and the answer sets temperature, voltage and power to the sim's values |
| `Simulator.PollAnsweredFor` | src/simulator/main.cpp:432-535 | the same for any list of 1..64 known ids containing 0x0C, 0x0E and 0x11 |
| `Simulator.SnapshotAccepted` | src/receiver/main.cpp:129-142 | the receiver accepts a fully kept multi-status answer and copies the three measurements |
| `Simulator.StatusIdsMeasured` | src/receiver/main.cpp:116-120 | the receiver's id list asks for temperature, voltage and power |
| `Protocol.PacketSizeLimits` | lib/common/protocol.h:29-70 | the packed packet is 44 bytes, within 64, and both payloads fit the union |
| `Protocol.MsgTypeOf` | lib/common/protocol.h:10-14 | decoding a message type code gives the type with that code; codes other than 1..3 are rejected |
| `Protocol.MsgTypeCodeRoundTrip` | lib/common/protocol.h:10-14 | every message type survives encode then decode |
| `Protocol.CommandKindOf` | lib/common/protocol.h:16-20 | decoding a command kind gives the kind with that code; codes other than 1..3 are rejected |
| `Protocol.CommandKindCodeRoundTrip` | lib/common/protocol.h:16-20 | every command kind survives encode then decode |
| `Protocol.HeaterStateOf` | lib/common/protocol.h:22-27 | decoding a heater state gives the state with that code; codes above 3 are rejected |
| `Protocol.HeaterStateCodeRoundTrip` | lib/common/protocol.h:22-27 | every heater state survives encode then decode |
| `Protocol.HeaderBytes` | lib/common/protocol.h:30-37 | a header is 10 bytes in memory |
| `Protocol.HeaderRoundTrip` | lib/common/protocol.h:30-37 | reading back the bytes of a header gives the header |
| `Protocol.HeaderBytesRoundTrip` | lib/common/protocol.h:30-37 | every 10-byte buffer is the image of the header read from it |
| `Protocol.ZeroPacket` | lib/common/protocol.h:59-67 | `Packet{}` has a zero header, zero union and zero CRC |
| `Protocol.PacketBytes` | lib/common/protocol.h:59-67 | the packet image is 44 bytes |
| `Protocol.CalcCrcCoverage` | lib/common/protocol.h:74-76 | the CRC depends on the header and union only, which are exactly the bytes before the CRC field |
| `Protocol.Validate` | lib/common/protocol.h:78-82 | false for a wrong magic or version; otherwise true iff the stored CRC equals `calcCrc` |
| `Protocol.StampedValidates` | lib/common/protocol.h:74-82 | a packet stamped with its own CRC validates iff magic and version are right |
| `Protocol.WithCommand` | lib/common/protocol.h:39-62 | writing the command payload changes only the first two union bytes, and reading it back gives the command |
| `Protocol.StatusBytes` | lib/common/protocol.h:44-57 | the status payload is 14 bytes |
| `Protocol.StatusRoundTrip` | lib/common/protocol.h:44-57 | reading back the bytes of a status payload gives the payload |
| `Protocol.WithStatus` | lib/common/protocol.h:44-63 | writing the status changes only the first 14 union bytes, and reading it back gives the status |
| `Protocol.EncryptPacket` | lib/common/lora_link.cpp:172 | encryption keeps the header and CRC |
| `Protocol.DecryptPacket` | lib/common/lora_link.cpp:320 | decryption keeps the header and CRC |
| `Protocol.DecryptEncryptPacket` | lib/common/lora_link.cpp:172-320 | decryption undoes encryption |
| `Crypto.NonceOf` | lib/common/encryption.cpp:12-23 | the nonce is seq little-endian, then src, then dst, then ten zeros |
| `Crypto.NonceInjective` | lib/common/encryption.cpp:16-21 | distinct (seq, src, dst) give distinct nonces |
| `Crypto.BuildNonce` | lib/common/encryption.cpp:12-23 | the array is filled with exactly that nonce |
| `Crypto.KeyStreamBytes` | lib/common/encryption.cpp:34-38 | the keystream prefix has the requested length and is the keystream byte by byte |
| `Crypto.Transform` | lib/common/encryption.cpp:38 | counter mode XORs each data byte with the keystream byte at its offset |
| `Crypto.TransformInvolutive` | lib/common/encryption.cpp:25-47 | applying the transform twice with the same key and nonce gives back the data |
| `Crypto.Aes128Ctr.constructor` | lib/common/encryption.cpp:6 | the stored key starts all zero |
| `Crypto.Aes128Ctr.SetKey` | lib/common/encryption.cpp:8-10 | the stored key becomes exactly the 16 given bytes |
| `Crypto.Aes128Ctr.EncryptPayload` | lib/common/encryption.cpp:25-41 | exactly 32 bytes are transformed under the nonce of (seq, src, dst); the rest of the output is untouched |
| `Crypto.Aes128Ctr.DecryptPayload` | lib/common/encryption.cpp:43-47 | decryption is the same transform as encryption |
| `LoRaLinkLayer.PacketSizeBounds` | lib/common/lora_link.cpp:276-279 | a wire packet is 12 to 26 bytes |
| `LoRaLinkLayer.Sealed` | lib/common/lora_link.cpp:168-175 | the copy sent has the header, the encrypted union and a fresh CRC over it, so it validates iff magic and version are right |
| `LoRaLinkLayer.WireBytes` | lib/common/lora_link.cpp:182-205 | the wire image is the header, `getPayloadSize` encrypted union bytes, then the CRC |
| `LoRaLinkLayer.Parse` | lib/common/lora_link.cpp:287-311 | parsing takes the header, copies the payload bytes, zero-fills the rest of the union and reads the CRC |
| `LoRaLinkLayer.Receive` | lib/common/lora_link.cpp:276-327 | rejects sizes outside 12..26; validates before decrypting; returns the decrypted packet only when valid |
| `LoRaLinkLayer.ParseWireBytes` | lib/common/lora_link.cpp:160-311 | parsing a wire image gives back the sealed packet when the encrypted tail is zero |
| `LoRaLinkLayer.SendRecvRoundTrip` | lib/common/lora_link.cpp:160-327 | a packet sent with the right magic and version is received as the original packet with the fresh CRC |
| `LoRaLinkLayer.CtrCipherSound` | lib/common/encryption.cpp:25-47 | counter mode keyed by the header's nonce meets what the link layer assumes of `encryptPacket`/`decryptPacket` |
| `LoRaLinkLayer.CtrTailIsKeyStream` | lib/common/lora_link.cpp:304-307 | under counter mode a zero union byte encrypts to the keystream byte, not to zero |
| `LoRaLinkLayer.LoRaLink.constructor` | lib/common/lora_link.cpp:43 | a new link is unconfigured and has sent nothing |
| `LoRaLinkLayer.LoRaLink.Begin` | lib/common/lora_link.cpp:43-76 | the link is configured iff the radio came up |
| `LoRaLinkLayer.LoRaLink.Send` | lib/common/lora_link.cpp:160-231 | transmits the wire image iff configured and every write succeeds; otherwise sends nothing and returns false |
| `LoRaLinkLayer.LoRaLink.Recv` | lib/common/lora_link.cpp:233-328 | unconfigured or wrong-size buffers leave the packet alone; otherwise succeeds iff the buffer validates, giving the decrypted packet or else the parsed one |
| `Receiver.StatusIdsKnown` | src/receiver/main.cpp:116-122 | the 29 requested ids are all known to the decoder and within the 64-id limit |
| `Receiver.MapOpState` | src/receiver/main.cpp:85-92 | 0x04 and 0x00 map to Off and every other opcode to Running |
| `Receiver.StatusIndexReply` | src/receiver/main.cpp:98-113 | a reply is found iff a frame has `payloadLen ≥ 3`, `payload[0] & 0x7F == 0x50`, the high bit set and `payload[1] == index` |
| `Receiver.WaitForStatusIndex` | src/receiver/main.cpp:98-113 | the wait loop finds the first matching frame, or leaves `out` as the last frame read |
| `Receiver.MultiStatusPoll` | src/receiver/main.cpp:115-145 | succeeds iff the first multi-status response decodes, and then copies its temperature, voltage and power; on failure the status is unchanged |
| `Receiver.ScanMultiStatus` | src/receiver/main.cpp:124-144 | the wait loop gives the same result |
| `Receiver.FirstSnapshotDecides` | src/receiver/main.cpp:129-142 | a first multi-status response that does not decode ends the poll in failure |
| `Receiver.ReceiverNode.TryPollMultiStatusOnce` | src/receiver/main.cpp:115-145 | sends the 29-id request and returns the poll's outcome |
| `Receiver.SetupStep` | src/receiver/main.cpp:220-276 | measurements start unknown; `lastCmdSeq` is the retained one; a cached 2/1 sets support without a bus request; no cache probes once and stores 2 or 1 |
| `Receiver.ReceiverNode.Setup` | src/receiver/main.cpp:220-276 | performs `SetupStep` |
| `Receiver.ReceiverNode.DeepSleepAndWake` | src/receiver/main.cpp:50-65 | deep sleep keeps only the retained variables and reruns setup |
| `Receiver.StatusPacket` | src/receiver/main.cpp:33-45 | the Status packet is receiver→sender with the seq given, carries the status and validates |
| `Receiver.SendStatusStep` | src/receiver/main.cpp:33-48 | sending stamps RSSI/SNR, queues the Status packet and increments the 16-bit seq, nothing else |
| `Receiver.ReceiverNode.SendStatus` | src/receiver/main.cpp:33-48 | performs `SendStatusStep` |
| `Receiver.Dispatch` | src/receiver/main.cpp:370-412 | the bus call succeeds iff the kind is known; an unknown kind changes nothing |
| `Receiver.ReceiverNode.RunCommand` | src/receiver/main.cpp:370-412 | performs `Dispatch` |
| `Receiver.HandleCommandStep` | src/receiver/main.cpp:360-425 | the retained seq becomes the packet's seq exactly for a command to the receiver; the TLV cache is untouched |
| `Receiver.ReceiverNode.HandleCommand` | src/receiver/main.cpp:360-425 | performs `HandleCommandStep` |
| `Receiver.DuplicateOnlyAcknowledged` | src/receiver/main.cpp:365-368 | a repeated seq makes no bus call and only sends a Status acknowledging that seq |
| `Receiver.NewCommandRecordedAfterDispatch` | src/receiver/main.cpp:370-422 | for a new seq the bus action runs, then the seq is recorded whatever the outcome, and one Status acknowledging it is sent |
| `Receiver.DispatchOutcome` | src/receiver/main.cpp:372-416 | Stop sends 0x10 and sets Off; Start/RunMinutes send 0x21 with the minutes, or the remembered ones when 0, and set Running; an unknown kind sets Error with no bus call |
| `Receiver.OthersIgnored` | src/receiver/main.cpp:360 | a packet that is not a Command to the receiver changes nothing |
| `Receiver.RetryAfterSleepIsDuplicate` | src/receiver/main.cpp:365-368 | a retry of a handled command after a deep sleep makes no second bus call |
| `Receiver.CommandFrom` | src/receiver/main.cpp:67-83 | the search returns the first buffer at or after `k` that, with the link up, receives as a Command to the receiver, and none exists when it returns nothing |
| `Receiver.CommandInWindow` | src/receiver/main.cpp:67-83 | a command is found iff some buffer in the window is a command to the receiver, and it is one of them |
| `Receiver.ReceiverNode.RecvCommand` | src/receiver/main.cpp:70-76 | one receive counts as a command iff the buffer is a command frame, giving its packet |
| `Receiver.ReceiverNode.TryReceiveCommandWindow` | src/receiver/main.cpp:67-83 | the listen loop returns the first command in the window |
| `Receiver.ReceivedOrZero` | src/receiver/main.cpp:350-356 | while running, a failed receive leaves a zero packet, which is not a command |
| `Receiver.MultiStatusStep` | src/receiver/main.cpp:439-442 | the snapshot poll only appends to the bus and changes only the measurements, as `MultiStatusPoll` says |
| `Receiver.PageFrame` | src/receiver/main.cpp:451-452 | a page request frame is 5 bytes |
| `Receiver.RequestPage` | src/receiver/main.cpp:451-452 | a page request only appends its frame to the bus |
| `Receiver.ReceiverNode.SendPageRequest` | src/receiver/main.cpp:451-452 | performs `RequestPage` and succeeds |
| `Receiver.ApplyPage05` | src/receiver/main.cpp:450-461 | the page 0x05 reply changes only temperature and voltage |
| `Receiver.FallbackPages` | src/receiver/main.cpp:446-495 | the fallback only appends to the bus and changes only temperature and voltage |
| `Receiver.FallbackRequests` | src/receiver/main.cpp:446-495 | the fallback requests pages 0x05, 0x0F, 0x02, 0x03 and 0x06 in that order |
| `Receiver.Page05Decoding` | src/receiver/main.cpp:453-458 | a page 0x05 reply with `payloadLen ≥ 5` sets temperature to `payload[2] - 50` and voltage to `be16(payload[3], payload[4])` |
| `Receiver.ReceiverNode.FetchSimplePages` | src/receiver/main.cpp:446-495 | performs `FallbackPages` |
| `Receiver.PollOpState` | src/receiver/main.cpp:428-435 | sends the opcode request; a found opcode sets `lastWbusOpState` and the mapped state, otherwise the status is unchanged |
| `Receiver.ReceiverNode.RefreshOpState` | src/receiver/main.cpp:428-435 | performs `PollOpState` |
| `Receiver.PollMeasurements` | src/receiver/main.cpp:437-496 | the measurement poll only appends to the bus and changes only the three measurements; without cached support it is the fallback |
| `Receiver.PollRequests` | src/receiver/main.cpp:437-496 | the snapshot is requested only with cached support, and the fallback pages only when no snapshot was obtained |
| `Receiver.SnapshotRequests` | src/receiver/main.cpp:439-446 | with support and a decoded snapshot only the snapshot request is sent |
| `Receiver.FailedSnapshotRequests` | src/receiver/main.cpp:439-495 | with support but no snapshot, the snapshot request is followed by the fallback pages |
| `Receiver.UnsupportedRequests` | src/receiver/main.cpp:440-495 | without support only the fallback pages are requested |
| `Receiver.ReceiverNode.FetchMeasurements` | src/receiver/main.cpp:437-496 | performs `PollMeasurements` |
| `Receiver.PollStep` | src/receiver/main.cpp:427-500 | nothing happens unless more than 2000 ms have passed; then the poll time is stamped, the state is refreshed and one Status is sent |
| `Receiver.ReceiverNode.PollBus` | src/receiver/main.cpp:427-500 | performs `PollStep` |
| `Receiver.IdleSleepsQuietly` | src/receiver/main.cpp:323-338 | idle with no command in the window, the receiver sleeps without touching the bus or the radio output, keeping the retained variables |
| `Receiver.RunningStaysAwake` | src/receiver/main.cpp:345-500 | while running, the loop handles whatever the radio delivered and then polls |
| `Receiver.LoopKeepsInv` | src/receiver/main.cpp:278-500 | the loop keeps the TLV cache and the support flag consistent |
| `Receiver.ReceiverNode.constructor` | src/receiver/main.cpp:12-31 | the node starts from the globals' initial values and the retained variables |
| `Receiver.ReceiverNode.Loop` | src/receiver/main.cpp:278-500 | performs `LoopStep` |
| `Sender.MakeCommandPacket` | src/sender/main.cpp:48-61 | the command packet is sender→receiver with the seq given, carries kind and minutes, is zero elsewhere and validates |
| `Sender.CommandReachesReceiver` | src/sender/main.cpp:48-61 | a command packet sent over the link is received as a command to the receiver with the same seq, kind and minutes |
| `Sender.StatusFromReceiver` | src/sender/main.cpp:95-100 | a Status counts iff the link is up, the buffer receives, and it is a Status from the receiver |
| `Sender.NoteStatus` | src/sender/main.cpp:101-104 | every Status replaces the stored one with RSSI/SNR overwritten locally and stamps the time |
| `Sender.Transmit` | src/sender/main.cpp:82-87 | an attempt is recorded; the wire image is sent only when the link accepts it |
| `Sender.AttemptStep` | src/sender/main.cpp:79-89 | when `now ≥ nextSend` the packet is sent and the deadline becomes `now + 1000` (32-bit); otherwise nothing happens |
| `Sender.TickStep` | src/sender/main.cpp:77-118 | one pass sends if due, records any Status, and acknowledges iff its `lastCmdSeq` is the command's seq |
| `Sender.TickStepExtends` | src/sender/main.cpp:77-118 | a pass only appends attempts of the same packet |
| `Sender.AckLoop` | src/sender/main.cpp:77-119 | the wait loop only appends attempts of the same packet |
| `Sender.AckLoopAcknowledges` | src/sender/main.cpp:77-125 | the wait ends acknowledged iff some pass before the 10000 ms timeout brings a receiver Status with the command's seq |
| `Sender.AckSearchShift` | src/sender/main.cpp:77-119 | a pass without acknowledgement leaves the question to the remaining passes |
| `Sender.FirstPassTransmits` | src/sender/main.cpp:74-89 | the first pass always transmits, since `nextSend` starts at 0 |
| `Sender.RetryIntervalKept` | src/sender/main.cpp:80-88 | without clock wrap, a pass within 1000 ms of a send does not resend |
| `Sender.RetryBurstNearClockWrap` | src/sender/main.cpp:80-88 | near the 32-bit clock wrap two sends come 10 ms apart |
| `Sender.SendWithAck` | src/sender/main.cpp:63-126 | the seq advances by one, every attempt is the same packet with the old seq, and the awaited seq is 0 afterwards |
| `Sender.SendWithAckResult` | src/sender/main.cpp:63-126 | returns true iff a matching acknowledgement arrives in time |
| `Sender.SenderNode.PumpStatus` | src/sender/main.cpp:311-326 | the main loop's receive stores a receiver Status and ignores everything else |
| `Sender.SenderNode.Pass` | src/sender/main.cpp:79-118 | performs `TickStep` |
| `Sender.SenderNode.AwaitAck` | src/sender/main.cpp:73-125 | the wait loop performs `AckLoop` |
| `Sender.SenderNode.SendCommandWithAck` | src/sender/main.cpp:63-126 | performs `SendWithAck` |
| `Sender.SenderNode.constructor` | src/sender/main.cpp:16-20 | seq 1, 30 remembered minutes, zero status, nothing awaited |
| `Sender.KeepLast` | src/sender/main.cpp:41-43 | the buffer keeps the last 128 characters |
| `Sender.KeepLastConcat` | src/sender/main.cpp:41-43 | trimming early or late gives the same buffer |
| `Sender.WithoutCr` | src/sender/main.cpp:32-33 | carriage returns are dropped |
| `Sender.ReadLine` | src/sender/main.cpp:26-46 | the unread input is a suffix of the input |
| `Sender.ReadLineBuffers` | src/sender/main.cpp:29-45 | input with no newline is buffered, without carriage returns, keeping the last 128 characters, and no line is returned |
| `Sender.ReadLineAtNewline` | src/sender/main.cpp:34-40 | at the first newline the trimmed buffered line is returned, the buffer cleared and the rest left unread |
| `Sender.ReadLineBounded` | src/sender/main.cpp:42-43 | the buffer never exceeds 128 characters |
| `Sender.SenderNode.ReadLineNonBlocking` | src/sender/main.cpp:26-46 | the read loop performs `ReadLine` on the buffer and the serial input |
| `Sender.SenderNode.PushChar` | src/sender/main.cpp:41-43 | appending a character keeps the last 128 |
| `Sender.ParseConsoleLine` | src/sender/main.cpp:330-385 | an accepted `run` line always has at least one minute |
| `Sender.ConsoleKeywords` | src/sender/main.cpp:332-360 | `stop`/`start` match in any case; `run` without a space gives usage |
| `Sender.RunLineMinutes` | src/sender/main.cpp:354-381 | `run N` is accepted iff 1 ≤ N ≤ 255 |
| `Sender.MixedCaseRunIsUnknown` | src/sender/main.cpp:354 | `Run 10` is neither `run` nor `RUN`, so it is an unknown command |
| `Sender.ConsoleRequest` | src/sender/main.cpp:332-381 | stop sends Stop with 0; start sends Start with the remembered minutes; `run N` remembers N and sends RunMinutes N; anything else sends nothing |
| `Sender.SenderNode.HandleConsoleLine` | src/sender/main.cpp:328-386 | sends iff the line is a command, with the request above, and changes nothing otherwise |
| `Sender.MenuRequest` | src/sender/main.cpp:173-247 | Start sends the remembered minutes, Stop sends 0, Run10/20/30/90 remember and send 10/20/30/90 |
| `Sender.MenuAgreesWithConsole` | src/sender/main.cpp:201-247 | a Run menu item makes the same request as `run N` for its minutes |
| `Sender.SenderNode.HandleMenuSelection` | src/sender/main.cpp:173-263 | performs the menu request |
| `Text.LeadingSpaces` | src/sender/main.cpp:38 | counts exactly the leading white space |
| `Text.TrailingSpaces` | src/sender/main.cpp:38 | counts exactly the trailing white space |
| `Text.Trim` | src/sender/main.cpp:38 | the trimmed line is the inner part of the line, starting and ending with non-space |
| `Text.TrimIdempotent` | src/sender/main.cpp:38 | trimming twice is trimming once |
| `Text.TrimNoSpaces` | src/sender/main.cpp:38 | a line without outer white space is unchanged |
| `Text.EqualsIgnoreCaseExamples` | src/sender/main.cpp:332-343 | case is ignored but trailing characters are not |
| `Text.IndexOf` | src/sender/main.cpp:356 | the index of the first occurrence, or -1 exactly when there is none |
| `Text.DigitCount` | lib/common/mqtt_client.cpp:365 | counts exactly the leading digits |
| `Text.Decimal` | lib/common/mqtt_client.cpp:365 | the decimal text of a number is digits without a leading zero |
| `Text.DigitsValueDecimal` | lib/common/mqtt_client.cpp:365 | the digits of a number have that value |
| `Text.UnsignedDecimal` | lib/common/mqtt_client.cpp:365 | the digits of a number followed by a non-digit read back as that number |
| `Text.AtoiDecimal` | lib/common/mqtt_client.cpp:365 | `atoi`/`toInt` read a decimal number, with an optional minus, up to the first non-digit |
| `Text.AtoiNoDigits` | lib/common/mqtt_client.cpp:365 | text not starting with a sign or digit reads as 0 |
| `Menu.ItemCode` | lib/common/menu_handler.h:12-21 | every item's code is below `Count` (6) |
| `Menu.ItemOf` | lib/common/menu_handler.h:12-21 | a code names an item iff it is below `Count` |
| `Menu.ItemCodeRoundTrip` | lib/common/menu_handler.h:12-21 | every item survives encode then decode |
| `Menu.NextItem` | lib/common/menu_handler.cpp:60-62 | the next item's code is one more modulo 6 |
| `Menu.NextItemCycles` | lib/common/menu_handler.cpp:60-62 | six short presses come back to the same item |
| `Menu.MenuItemToStr` | lib/common/menu_handler.h:80-99 | `"UNKNOWN"` exactly for codes outside the six items |
| `Menu.MenuItemLabelsDistinct` | lib/common/menu_handler.h:80-99 | distinct items have distinct labels |
| `Menu.InitialMenu` | lib/common/menu_handler.h:61-68 | the menu starts Hidden with Start selected and nothing activated |
| `Menu.MenuHandler.constructor` | lib/common/menu_handler.h:61-68 | the handler starts in the initial menu state |
| `Menu.BeginMenu` | lib/common/menu_handler.cpp:5-10 | `begin` stores the pin and the time only |
| `Menu.MenuHandler.Begin` | lib/common/menu_handler.cpp:5-10 | performs `BeginMenu` |
| `Menu.ShowMenu` | lib/common/menu_handler.cpp:80-85 | `show` makes the menu Visible with Start selected and the show time stamped, nothing else |
| `Menu.MenuHandler.Show` | lib/common/menu_handler.cpp:80-85 | performs `ShowMenu` |
| `Menu.HideMenu` | lib/common/menu_handler.cpp:87-91 | `hide` sets Hidden and a zero show time, nothing else |
| `Menu.MenuHandler.Hide` | lib/common/menu_handler.cpp:87-91 | performs `HideMenu` |
| `Menu.UpdateMenu` | lib/common/menu_handler.cpp:19-78 | `update` never changes the pin |
| `Menu.MenuHandler.Update` | lib/common/menu_handler.cpp:19-78 | performs `UpdateMenu` |
| `Menu.DebounceIgnoresEarlyChange` | lib/common/menu_handler.cpp:25-31 | a change within 20 ms of the last accepted one is ignored |
| `Menu.PressShowsMenu` | lib/common/menu_handler.cpp:32-41 | an accepted press while Hidden shows the menu and starts timing the press |
| `Menu.LongReleaseActivates` | lib/common/menu_handler.cpp:49-56 | an accepted release of at least 800 ms while Visible activates the selected item and hides the menu |
| `Menu.ShortReleaseAdvances` | lib/common/menu_handler.cpp:57-64 | a shorter release while Visible selects the next item and resets the timeout |
| `Menu.HiddenReleaseIgnored` | lib/common/menu_handler.cpp:43-50 | a release while Hidden only records the button level and time |
| `Menu.VisiblePressOnlyTimes` | lib/common/menu_handler.cpp:25-76 | an accepted press while Visible changes only the button level, the debounce time and the press start, and then only the timeout applies |
| `Menu.TimeoutHides` | lib/common/menu_handler.cpp:70-99 | with no accepted change, a timed-out menu is hidden and otherwise nothing changes |
| `Menu.ShowAtZeroNeverTimesOut` | lib/common/menu_handler.cpp:95-96 | a menu shown at time 0 never times out |
| `Menu.HeldPressOnHiddenMenuActivatesStart` | lib/common/menu_handler.cpp:32-56 | one long press on a hidden menu shows it and activates Start |
| `Menu.TakeActivation` | lib/common/menu_handler.h:42-51 | reports the selected item iff an activation is pending, clears the flag, and otherwise leaves `outItem` unchanged |
| `Menu.ActivationReportedOnce` | lib/common/menu_handler.h:42-51 | an activation is reported at most once |
| `Menu.MenuHandler.IsItemActivated` | lib/common/menu_handler.h:42-51 | performs `TakeActivation` |
| `StatusLight.Write` | lib/common/status_led.h:22-39 | a pin write sets the level and is recorded |
| `StatusLight.BeginLed` | lib/common/status_led.h:20-25 | `begin` drives LOW and sets Off |
| `StatusLight.SwitchOn` | lib/common/status_led.h:28-33 | `setOn` leaves the mode On |
| `StatusLight.SwitchOff` | lib/common/status_led.h:36-41 | `setOff` leaves the mode Off |
| `StatusLight.SetOnWritesOnChange` | lib/common/status_led.h:28-33 | `setOn` writes HIGH only on a change of mode and is idempotent |
| `StatusLight.SetOffWritesOnChange` | lib/common/status_led.h:36-41 | `setOff` writes LOW only on a change of mode and is idempotent |
| `StatusLight.Flip` | lib/common/status_led.h:45-47 | `toggle` inverts the pin and keeps the mode |
| `StatusLight.ToggleTwice` | lib/common/status_led.h:45-47 | two toggles restore the level |
| `StatusLight.ToggleThenSetOnStaysDark` | lib/common/status_led.h:28-47 | a toggle while solidly on leaves the LED dark even after `setOn` |
| `StatusLight.StartBlink` | lib/common/status_led.h:50-56 | `setBlink` sets Blink, the period and the time, turns the blink phase on and drives HIGH |
| `StatusLight.UpdateOnlyBlinks` | lib/common/status_led.h:60 | `update` does nothing outside Blink mode |
| `StatusLight.BlinkFlipsAfterPeriod` | lib/common/status_led.h:62-67 | in Blink mode the phase and pin flip once a period has passed, and at no other time |
| `StatusLight.StatusLed.constructor` | lib/common/status_led.h:18-77 | the LED starts Off with a 500 ms period |
| `StatusLight.StatusLed.DigitalWrite` | lib/common/status_led.h:22 | a write sets the level and is recorded |
| `StatusLight.StatusLed.Begin` | lib/common/status_led.h:20-25 | performs `BeginLed` |
| `StatusLight.StatusLed.SetOn` | lib/common/status_led.h:28-33 | performs `SwitchOn` |
| `StatusLight.StatusLed.SetOff` | lib/common/status_led.h:36-41 | performs `SwitchOff` |
| `StatusLight.StatusLed.Toggle` | lib/common/status_led.h:45-47 | performs `Flip` |
| `StatusLight.StatusLed.SetBlink` | lib/common/status_led.h:50-56 | performs `StartBlink` |
| `StatusLight.StatusLed.Update` | lib/common/status_led.h:59-68 | performs `UpdateLed` |
| `MqttBridge.CommandTopicsDistinct` | lib/common/mqtt_client.cpp:459-473 | the mode, minutes and query topics differ, so at most one branch applies |
| `MqttBridge.CString` | lib/common/mqtt_client.cpp:304-307 | the payload string is the payload up to its first zero byte |
| `MqttBridge.CStringAscii` | lib/common/mqtt_client.cpp:304-307 | a payload holding text without zero bytes reads back as that text |
| `MqttBridge.ModeTopicDecoding` | lib/common/mqtt_client.cpp:350-362 | on the mode topic `"off"` gives STOP, `"heat"` gives START with 30 minutes, and anything else is dropped |
| `MqttBridge.MinutesTopicDecoding` | lib/common/mqtt_client.cpp:363-373 | on the minutes topic a command results iff `atoi` gives 10..90, and then it is RUN_MINUTES with that value |
| `MqttBridge.MinutesPayloadRoundTrip` | lib/common/mqtt_client.cpp:363-373 | a decimal payload gives RUN_MINUTES with its value iff it is 10..90 |
| `MqttBridge.QueryAndOtherTopics` | lib/common/mqtt_client.cpp:374-382 | the query topic gives QUERY_STATUS and any other topic is dropped |
| `MqttBridge.IsCommandFresh` | lib/common/mqtt_client.cpp:436-456 | a zero timestamp or an unsynchronised clock counts as fresh; otherwise fresh iff the 32-bit age is within the limit |
| `MqttBridge.FutureTimestampStale` | lib/common/mqtt_client.cpp:449-450 | a timestamp slightly in the future wraps to a huge age and is rejected |
| `MqttBridge.DeliveryConditions` | lib/common/mqtt_client.cpp:384-394 | the callback receives the decoded command iff it decodes, is fresh and a callback is set |
| `MqttBridge.StampedCommandsAreFresh` | lib/common/mqtt_client.cpp:384-456 | a command checked within the age limit of its decoding is delivered |
| `MqttBridge.HandleMessage` | lib/common/mqtt_client.cpp:300-395 | the handler delivers exactly what `Delivered` specifies |
| `MqttBridge.PublishStatus` | lib/common/mqtt_client.cpp:209-230 | nothing is published when disconnected; otherwise mode `"heat"` iff Running, temperature iff not `INT16_MIN`, voltage and power iff positive, nothing else; each is published once, in the order mode, temperature, voltage, power |
| `Search.First` | src/receiver/main.cpp:98-113 | the index of the first element satisfying the test, or none when none does |

## Left out

- The LoRa receive interrupt and its mailbox (`onReceiveISR`, the volatile flag and buffer), `enableInterrupt`/`enablePolling`/`poll`, and every `LoRa.*`/SPI call. These are radio hardware and unsynchronised concurrency. The radio is modelled as buffers delivered to `recv` and a `TxOutcome` saying whether each write succeeded.
- The AES block cipher in mbedtls. The keystream is an abstract function of key, nonce and offset.
- The body of `crc16_ccitt`, which is not part of this model. It is an uninterpreted function.
- `getPayloadSize`, `getWirePacketSize`, `encryptPacket` and `decryptPacket`, which are defined in none of the files modelled here. They are parameters, with the contract `Protocol.Sound`.
- Break pulses, `maybeEnableTx`, `delay`, pin modes and `esp_deep_sleep_start`. The break is recorded only as the `didBreak` flag. Deep sleep is a transition that keeps the retained RTC variables and re-runs `setup`.
- Wall-clock timeouts in `readPacket` and the wait loops. They are finite sequences of what arrives before the deadline.
- Separate clock readings within one step. The model takes one reading where the firmware calls `millis()` several times, so it does not capture time passing between those calls:
  - the receiver's loop pass reads the clock once, where the firmware reads it twice;
  - in `sendCommandWithAck`, one reading per pass (`Sender.Tick.now`) serves the deadline test, the send decision and the `gLastStatusRxMs` stamp, which `src/sender/main.cpp` reads separately at lines 77, 79 and 104;
  - in `MenuHandler::update`, one reading serves the whole call, including the time `show()` stamps (`lib/common/menu_handler.cpp:83`) and the age `isTimedOut()` measures (`lib/common/menu_handler.cpp:98`).
- The LED calls inside the receiver and sender loops and the sender's fast-blink while sending. The LED is modelled on its own in `StatusLight`.
- The selection of the `DISABLE_SLEEP` test build of the receiver. The production path is modelled.
- The simulator's physics: `tick`, `pickRandomScenario`, `setState`'s `millis()` stamp and logging. Its `lroundf`/`constrain` temperature rounding is not modelled either; the raw temperature byte is an input of the simulator state.
- Simulator.Page04Data: its contract does not state the combustion-fan byte at index 7 (100/50/40/0 by state). The function body computes it as the source does.
- `MenuItem::QueryStatus` in `handleMenuSelection`. The menu enumeration has no such item, so that branch cannot be reached; the six real items are modelled.
- The sender's battery ADC filter, `formatMeasurements`, `heaterStateToStr`, OLED rendering and all serial logging (`logSimpleStatus*`, `Serial.printf`). These are floating point or display output with no effect on state.
- The MQTT connection, subscription, Home Assistant discovery, JSON `parseCommand` and the OTA topic, which depend on external libraries. WiFi and OTA updating are left out for the same reason. `MQTT_CMD_MAX_AGE_SEC` and `MQTT_TOPIC_BASE` (`lib/common/mqtt_client.cpp:450, 460`) are defined in none of the modelled files, so they are parameters.
- `startVentilation`, `readStateFlags`, `readActuators`, `readCounters`, `setActiveCommand`, `needsKeepAlive` and `opStateToStr`, which are declared in the driver header but defined in none of the files modelled here.
- Float SNR values. They arrive as integers and are truncated to `int8_t` as the source does.
