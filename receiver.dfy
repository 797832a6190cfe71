/** The receiver node next to the heater: it takes LoRa commands, drives
    the heater over W-BUS, polls the heater's state and answers with status
    packets. The node's globals are a state value with one transition
    function per step of the firmware, and a class whose fields are those
    globals and whose methods are proved to perform the same transitions.

    Inputs stand for hardware: the clock reading `now`, the buffers the
    radio delivers within a listen window, the bus frames that arrive within
    a response window, and whether the radio came up after a wake. Outputs
    are the bytes written to the W-BUS and the packets handed to the LoRa
    link for transmission. */
module Receiver {
  import opened Bytes
  import opened Wrappers
  import opened Search
  import opened Protocol
  import opened LoRaLinkLayer
  import opened WBusTypes
  import opened WBus
  import opened Config

  const POLL_INTERVAL_MS: U32 := 2000

  /** `gTlvSupportCache` values. */
  const TLV_UNKNOWN: Byte := 0
  const TLV_UNSUPPORTED: Byte := 1
  const TLV_SUPPORTED: Byte := 2

  /** `kIds`: the status ids asked for in one multi-status request. */
  const STATUS_IDS: seq<Byte> := [
    0x01, 0x03, 0x05, 0x06, 0x07, 0x08, 0x0A, 0x0C, 0x0E, 0x0F, 0x10, 0x11, 0x13,
    0x1E, 0x1F, 0x24, 0x27, 0x29, 0x2A, 0x2C, 0x2D, 0x32, 0x34, 0x3D, 0x52, 0x57,
    0x5F, 0x78, 0x89]

  /** Every requested id is one the decoder knows, and the request fits the
      64-id limit of `requestStatusMulti`. */
  lemma StatusIdsKnown()
    ensures 1 <= |STATUS_IDS| <= 64
    ensures forall i :: 0 <= i < |STATUS_IDS| ==> IsKnownId(STATUS_IDS[i])
  {
  }

  // ---------------------------------------------------------------------
  // Decisions on single values

  /** `mapOpState`: 0x04 and 0x00 are off, every other opcode is running. */
  function MapOpState(op: Byte): (r: HeaterState)
    ensures r == Off <==> (op == 0x04 || op == 0x00)
    ensures r == Off || r == Running
  {
    if op == 0x04 then Off else if op == 0x00 then Off else Running
  }

  /** A W-BUS reply to a status-page request for `index`. */
  predicate IsStatusIndexResponse(index: Byte, p: WBusPacket)
  {
    p.payloadLen >= 3 && Low7(p.payload[0]) == 0x50 && HighBit(p.payload[0]) && p.payload[1] == index
  }

  function StatusIndexMatcher(index: Byte): WBusPacket -> bool
  {
    (p: WBusPacket) => IsStatusIndexResponse(index, p)
  }

  /** A W-BUS reply that has the shape of a multi-status snapshot. */
  predicate IsMultiStatusResponse(p: WBusPacket)
  {
    p.payloadLen >= 4 && Low7(p.payload[0]) == 0x50 && HighBit(p.payload[0]) && p.payload[1] == 0x30
  }

  /** The frame `waitForStatusIndex` settles on. */
  function StatusIndexReply(responses: seq<WBusPacket>, index: Byte): (r: Option<WBusPacket>)
    ensures r.Some? <==> exists i :: 0 <= i < |responses| && IsStatusIndexResponse(index, responses[i])
    ensures r.Some? ==> IsStatusIndexResponse(index, r.value)
  {
    match First(responses, StatusIndexMatcher(index))
    case None => None
    case Some(i) => Some(responses[i])
  }

  /** `waitForStatusIndex`: reads frames until one answers page `index`;
      `out` holds the last frame read either way (`prev` if none arrived). */
  method WaitForStatusIndex(responses: seq<WBusPacket>, index: Byte, prev: WBusPacket)
    returns (found: bool, out: WBusPacket)
    ensures found <==> StatusIndexReply(responses, index).Some?
    ensures found ==> out == StatusIndexReply(responses, index).value
    ensures !found ==> out == if |responses| == 0 then prev else responses[|responses| - 1]
  {
    out := prev;
    var k := 0;
    while k < |responses|
      invariant 0 <= k <= |responses|
      invariant First(responses, StatusIndexMatcher(index)) == FirstFrom(responses, StatusIndexMatcher(index), k)
      invariant out == if k == 0 then prev else responses[k - 1]
    {
      out := responses[k];
      if out.payloadLen < 3 { k := k + 1; continue; }
      if Low7(out.payload[0]) != 0x50 { k := k + 1; continue; }
      if !HighBit(out.payload[0]) { k := k + 1; continue; }
      if out.payload[1] != index { k := k + 1; continue; }
      return true, out;
    }
    return false, out;
  }

  /** The three measurements a multi-status snapshot contributes. */
  function CopyMeasurements(s: StatusPayload, st: WBusStatus): StatusPayload
  {
    s.(temperatureC := st.temperatureC, voltageMv := st.voltageMv, power := st.power)
  }

  /** `tryPollMultiStatusOnce` after its request: only the first frame of
      the right shape is decoded, and a failed decode ends the attempt. */
  function MultiStatusPoll(s: StatusPayload, responses: seq<WBusPacket>): (r: (bool, StatusPayload))
    ensures !r.0 ==> r.1 == s
    ensures r.0 <==> (First(responses, IsMultiStatusResponse).Some? &&
                      StatusTlv(responses[First(responses, IsMultiStatusResponse).value]).Some?)
    ensures r.0 ==> exists i :: (0 <= i < |responses| && IsMultiStatusResponse(responses[i]) &&
                                 StatusTlv(responses[i]).Some? && r.1 == CopyMeasurements(s, StatusTlv(responses[i]).value))
  {
    match First(responses, IsMultiStatusResponse)
    case None => (false, s)
    case Some(i) =>
      match StatusTlv(responses[i])
      case None => (false, s)
      case Some(st) => (true, CopyMeasurements(s, st))
  }

  /** The response loop of `tryPollMultiStatusOnce`. */
  method ScanMultiStatus(responses: seq<WBusPacket>, s: StatusPayload) returns (ok: bool, out: StatusPayload)
    ensures (ok, out) == MultiStatusPoll(s, responses)
  {
    var k := 0;
    while k < |responses|
      invariant 0 <= k <= |responses|
      invariant First(responses, IsMultiStatusResponse) == FirstFrom(responses, IsMultiStatusResponse, k)
    {
      var pkt := responses[k];
      if pkt.payloadLen < 4 { k := k + 1; continue; }
      if Low7(pkt.payload[0]) != 0x50 { k := k + 1; continue; }
      if !HighBit(pkt.payload[0]) { k := k + 1; continue; }
      if pkt.payload[1] != 0x30 { k := k + 1; continue; }
      var parsed, st := TryParseStatusTlv(pkt, DefaultStatus());
      if parsed && st.valid {
        return true, CopyMeasurements(s, st);
      }
      return false, s;
    }
    return false, s;
  }

  /** Only the first frame of snapshot shape counts: a good snapshot after
      an undecodable one is never looked at. */
  lemma FirstSnapshotDecides(s: StatusPayload, bad: WBusPacket, rest: seq<WBusPacket>)
    requires IsMultiStatusResponse(bad) && StatusTlv(bad).None?
    ensures MultiStatusPoll(s, [bad] + rest) == (false, s)
  {
    assert ([bad] + rest)[0] == bad;
  }

  // ---------------------------------------------------------------------
  // The node's state and its transitions

  /** The variables kept in RTC memory across deep sleep. */
  datatype Rtc = Rtc(lastProcessedCmdSeq: U16, tlvSupportCache: Byte)

  /** The receiver's globals, the radio's `configured` flag, and the
      bytes and packets the node has emitted so far. */
  datatype Node = Node(
    seqNo: U16, status: StatusPayload, lastCmdMs: U32, lastPollMs: U32, lastRunMinutes: Byte,
    rtc: Rtc, tlvSupported: bool, radioUp: bool,
    busTx: seq<Byte>, radioOut: seq<Packet>)

  /** After `setup` the TLV support is always known. */
  predicate Inv(n: Node)
  {
    n.rtc.tlvSupportCache == TLV_UNSUPPORTED || n.rtc.tlvSupportCache == TLV_SUPPORTED
  }

  /** The static initialisers at power-on or wake: only RTC memory and
      what has already left the node survive. */
  function PowerOn(rtc: Rtc, busTx: seq<Byte>, radioOut: seq<Packet>): Node
  {
    Node(1, ZeroStatus(), 0, 0, DEFAULT_RUN_MINUTES, rtc, false, false, busTx, radioOut)
  }

  /** `setup`: radio and bus start, measurements are marked unknown, the
      last acknowledged sequence comes from RTC memory, and the TLV cache
      is either trusted or filled by exactly one probe. */
  function SetupStep(n: Node, radioOk: bool, probe: seq<WBusPacket>): (r: Node)
    ensures Inv(r) && r.radioUp == radioOk && r.rtc.lastProcessedCmdSeq == n.rtc.lastProcessedCmdSeq
    ensures r.status.lastCmdSeq == n.rtc.lastProcessedCmdSeq && r.status.temperatureC == INT16_MIN
    ensures r.status.voltageMv == 0 && r.status.power == 0 && r.radioOut == n.radioOut
    ensures n.rtc.tlvSupportCache == TLV_SUPPORTED ==> r.tlvSupported && r.busTx == n.busTx
    ensures n.rtc.tlvSupportCache == TLV_UNSUPPORTED ==> !r.tlvSupported && r.busTx == n.busTx
    ensures !Inv(n) ==> r.busTx == n.busTx + Frame(TX_HEADER, 0x50, [0x30] + STATUS_IDS)
    ensures !Inv(n) ==> (r.tlvSupported <==> MultiStatusPoll(r.status, probe).0)
    ensures r.rtc.tlvSupportCache == TLV_SUPPORTED <==> r.tlvSupported
  {
    var s := n.status.(temperatureC := INT16_MIN, voltageMv := 0, power := 0, lastCmdSeq := n.rtc.lastProcessedCmdSeq);
    var a := n.(radioUp := radioOk, status := s);
    if n.rtc.tlvSupportCache == TLV_SUPPORTED then a.(tlvSupported := true)
    else if n.rtc.tlvSupportCache == TLV_UNSUPPORTED then a.(tlvSupported := false)
    else
      var ok := MultiStatusPoll(s, probe).0;
      a.(busTx := a.busTx + Frame(TX_HEADER, 0x50, [0x30] + STATUS_IDS), tlvSupported := ok,
         rtc := a.rtc.(tlvSupportCache := if ok then TLV_SUPPORTED else TLV_UNSUPPORTED))
  }

  /** Deep sleep and the wake that follows: a reboot into `setup`. */
  function Wake(n: Node, radioOk: bool, probe: seq<WBusPacket>): Node
  {
    SetupStep(PowerOn(n.rtc, n.busTx, n.radioOut), radioOk, probe)
  }

  /** The packet `sendStatus` builds (receiver to sender, the given
      sequence number, the status snapshot, its own CRC). */
  function StatusPacket(crc16: Crc16, seqNo: U16, s: StatusPayload): (pkt: Packet)
    ensures pkt.h == Header(MAGIC, VERSION, MsgTypeCode(Status), LORA_NODE_RECEIVER, LORA_NODE_SENDER, seqNo)
    ensures StatusOf(pkt.p) == s && Validate(crc16, pkt)
    ensures forall i :: STATUS_PAYLOAD_SIZE <= i < UNION_SIZE ==> pkt.p[i] == 0
  {
    var z := ZeroPacket();
    var a := WithStatus(z.(h := Header(MAGIC, VERSION, MsgTypeCode(Status), LORA_NODE_RECEIVER, LORA_NODE_SENDER, seqNo)), s);
    StampedValidates(crc16, a);
    a.(crc := CalcCrc(crc16, a))
  }

  /** `sendStatus`: stamps the link quality into the status, sends it
      under the next sequence number, and advances the counter. */
  function SendStatusStep(crc16: Crc16, n: Node, rssi: int, snr: int): (r: Node)
    ensures r.status == n.status.(lastRssiDbm := ToI8(rssi), lastSnrDb := ToI8(snr))
    ensures r.radioOut == n.radioOut + [StatusPacket(crc16, n.seqNo, r.status)]
    ensures r.seqNo == Wrap16(n.seqNo + 1) && r.busTx == n.busTx && r.rtc == n.rtc
  {
    var s := n.status.(lastRssiDbm := ToI8(rssi), lastSnrDb := ToI8(snr));
    n.(seqNo := Wrap16(n.seqNo + 1), status := s, radioOut := n.radioOut + [StatusPacket(crc16, n.seqNo, s)])
  }

  predicate IsCommandForReceiver(pkt: Packet)
  {
    pkt.h.msgType == MsgTypeCode(Command) && pkt.h.dst == LORA_NODE_RECEIVER
  }

  /** The bus action for a new command and whether it succeeded (a W-BUS
      send always succeeds, so only an unknown kind fails). */
  function Dispatch(n: Node, c: CommandPayload): (r: (Node, bool))
    ensures r.0.rtc == n.rtc && r.0.radioOut == n.radioOut && r.0.seqNo == n.seqNo
    ensures r.1 <==> CommandKindOf(c.kind).Some?
    ensures !r.1 ==> r.0 == n
  {
    if c.kind == CommandKindCode(Stop) then
      (n.(busTx := n.busTx + Frame(TX_HEADER, 0x10, []), status := n.status.(state := HeaterStateCode(Off))), true)
    else if c.kind == CommandKindCode(Start) || c.kind == CommandKindCode(RunMinutes) then
      var m := if c.minutes != 0 then c.minutes else n.lastRunMinutes;
      (n.(lastRunMinutes := m, busTx := n.busTx + Frame(TX_HEADER, 0x21, [m]),
          status := n.status.(state := HeaterStateCode(Running))), true)
    else
      (n, false)
  }

  /** Command handling in `loop`: duplicates are only acknowledged; a new
      command is dispatched first and recorded afterwards, and is
      acknowledged whatever its outcome. */
  function HandleCommandStep(crc16: Crc16, n: Node, pkt: Packet, now: U32, rssi: int, snr: int): (r: Node)
    ensures r.rtc.tlvSupportCache == n.rtc.tlvSupportCache
    ensures r.rtc.lastProcessedCmdSeq == if IsCommandForReceiver(pkt) then pkt.h.seqNo else n.rtc.lastProcessedCmdSeq
  {
    if !IsCommandForReceiver(pkt) then n
    else if pkt.h.seqNo == n.rtc.lastProcessedCmdSeq then
      SendStatusStep(crc16, n.(status := n.status.(lastCmdSeq := n.rtc.lastProcessedCmdSeq)), rssi, snr)
    else
      var d := Dispatch(n, CommandOf(pkt.p));
      var e := d.0.(lastCmdMs := now);
      var f := if d.1 then e else e.(status := e.status.(state := HeaterStateCode(Error)));
      var g := f.(rtc := f.rtc.(lastProcessedCmdSeq := pkt.h.seqNo), status := f.status.(lastCmdSeq := pkt.h.seqNo));
      SendStatusStep(crc16, g, rssi, snr)
  }

  /** The frames that arrive for each request of one poll cycle. */
  datatype PollReplies = PollReplies(opState: seq<WBusPacket>, multiStatus: seq<WBusPacket>, page05: seq<WBusPacket>)

  /** The multi-status request with the same ids every time. */
  function MultiStatusStep(n: Node, responses: seq<WBusPacket>): (r: (bool, Node))
    ensures r.1 == n.(busTx := r.1.busTx, status := r.1.status)
    ensures n.busTx <= r.1.busTx
    ensures (r.0, r.1.status) == MultiStatusPoll(n.status, responses)
  {
    var r := MultiStatusPoll(n.status, responses);
    (r.0, n.(busTx := n.busTx + Frame(TX_HEADER, 0x50, [0x30] + STATUS_IDS), status := r.1))
  }

  /** The request frame for simple status page `idx`. */
  function PageFrame(idx: Byte): (r: seq<Byte>)
    ensures |r| == 5
  {
    Frame(TX_HEADER, 0x50, [idx])
  }

  /** A simple status page request for page `idx` on the bus. */
  function RequestPage(n: Node, idx: Byte): (r: Node)
    ensures r == n.(busTx := n.busTx + PageFrame(idx))
  {
    n.(busTx := n.busTx + PageFrame(idx))
  }

  /** The answer to page 0x05, when one of at least 5 payload bytes came,
      gives the temperature and the voltage. */
  function ApplyPage05(n: Node, page05: seq<WBusPacket>): (r: Node)
    ensures r == n.(status := r.status)
    ensures r.status == n.status.(temperatureC := r.status.temperatureC, voltageMv := r.status.voltageMv)
  {
    match StatusIndexReply(page05, 0x05)
    case Some(p) =>
      if p.payloadLen >= 5 then
        n.(status := n.status.(temperatureC := p.payload[2] as int - 50, voltageMv := Be16(p.payload[3], p.payload[4])))
      else n
    case None => n
  }

  /** The simple status pages: page 0x05 updates temperature and voltage,
      the pages 0x0F, 0x02, 0x03 and 0x06 are requested for the log only. */
  function FallbackPages(n: Node, page05: seq<WBusPacket>): (r: Node)
    ensures r == n.(busTx := r.busTx, status := r.status)
    ensures n.busTx <= r.busTx
    ensures r.status == n.status.(temperatureC := r.status.temperatureC, voltageMv := r.status.voltageMv)
  {
    var b := ApplyPage05(RequestPage(n, 0x05), page05);
    RequestPage(RequestPage(RequestPage(RequestPage(b, 0x0F), 0x02), 0x03), 0x06)
  }

  /** The five simple page requests in the order they are sent. */
  function SimplePageRequests(): seq<Byte>
  {
    PageFrame(0x05) + PageFrame(0x0F) + PageFrame(0x02) + PageFrame(0x03) + PageFrame(0x06)
  }

  /** The fallback sends exactly the five simple page requests. */
  lemma FallbackRequests(n: Node, page05: seq<WBusPacket>)
    ensures FallbackPages(n, page05).busTx == n.busTx + SimplePageRequests()
  {
    var f, g, h, i, j := PageFrame(0x05), PageFrame(0x0F), PageFrame(0x02), PageFrame(0x03), PageFrame(0x06);
    var b := ApplyPage05(RequestPage(n, 0x05), page05);
    assert b.busTx == n.busTx + f;
    assert FallbackPages(n, page05).busTx == n.busTx + f + g + h + i + j;
    Regroup5(n.busTx, f, g, h, i, j);
  }

  lemma Regroup5(x: seq<Byte>, f: seq<Byte>, g: seq<Byte>, h: seq<Byte>, i: seq<Byte>, j: seq<Byte>)
    ensures x + f + g + h + i + j == x + (f + g + h + i + j)
  {
  }

  /** The start of a poll: the interval restarts, the operating state is
      asked for, and a found opcode sets the reported state. */
  function PollOpState(n: Node, now: U32, opState: seq<WBusPacket>): (r: Node)
    ensures r.busTx == n.busTx + Frame(TX_HEADER, 0x50, [0x07]) && r.lastPollMs == now
    ensures FirstOpState(opState).None? ==> r.status == n.status
    ensures FirstOpState(opState).Some? ==>
      r.status == n.status.(lastWbusOpState := FirstOpState(opState).value,
                            state := HeaterStateCode(MapOpState(FirstOpState(opState).value)))
    ensures r == n.(busTx := r.busTx, lastPollMs := now, status := r.status)
  {
    var a := n.(lastPollMs := now, busTx := n.busTx + Frame(TX_HEADER, 0x50, [0x07]));
    match FirstOpState(opState)
    case Some(op) => a.(status := a.status.(lastWbusOpState := op, state := HeaterStateCode(MapOpState(op))))
    case None => a
  }

  /** The measurements of a poll: the snapshot when the cache says it is
      supported and it succeeds, otherwise the simple pages. */
  function PollMeasurements(n: Node, r: PollReplies): (m: Node)
    ensures m == n.(busTx := m.busTx, status := m.status)
    ensures n.busTx <= m.busTx
    ensures m.status == n.status.(temperatureC := m.status.temperatureC, voltageMv := m.status.voltageMv,
                                  power := m.status.power)
    ensures n.rtc.tlvSupportCache != TLV_SUPPORTED ==> m == FallbackPages(n, r.page05)
  {
    var c := if n.rtc.tlvSupportCache == TLV_SUPPORTED then MultiStatusStep(n, r.multiStatus) else (false, n);
    if c.0 then c.1 else FallbackPages(c.1, r.page05)
  }

  /** The periodic W-BUS poll in `loop`: nothing within the interval; after
      it, one round of requests and exactly one status. */
  function PollStep(crc16: Crc16, n: Node, now: U32, r: PollReplies): (p: Node)
    ensures p.rtc == n.rtc
    ensures Elapsed(now, n.lastPollMs) <= POLL_INTERVAL_MS ==> p == n
    ensures Elapsed(now, n.lastPollMs) > POLL_INTERVAL_MS ==>
      p.lastPollMs == now && |p.radioOut| == |n.radioOut| + 1 &&
      n.busTx + Frame(TX_HEADER, 0x50, [0x07]) <= p.busTx &&
      p.status.state == PollOpState(n, now, r.opState).status.state &&
      p.status.lastWbusOpState == PollOpState(n, now, r.opState).status.lastWbusOpState
  {
    if Elapsed(now, n.lastPollMs) <= POLL_INTERVAL_MS then n
    else SendStatusStep(crc16, PollMeasurements(PollOpState(n, now, r.opState), r), 0, 0)
  }

  /** Whether a received buffer yields a command for this node. */
  predicate IsCommandFrame(ext: Externals, up: bool, raw: seq<Byte>)
    requires Sound(ext)
  {
    up && Receive(ext, raw).Received? && IsCommandForReceiver(Receive(ext, raw).pkt)
  }

  /** The first buffer of the listen window that yields a command. */
  function CommandFrom(ext: Externals, up: bool, window: seq<seq<Byte>>, k: nat): (r: Option<nat>)
    requires Sound(ext) && k <= |window|
    ensures r.Some? ==> k <= r.value < |window| && IsCommandFrame(ext, up, window[r.value])
    ensures r.None? ==> forall j :: k <= j < |window| ==> !IsCommandFrame(ext, up, window[j])
    decreases |window| - k
  {
    if k == |window| then None
    else if IsCommandFrame(ext, up, window[k]) then Some(k)
    else CommandFrom(ext, up, window, k + 1)
  }

  /** `tryReceiveCommandWindow`: the command it returns, if any. */
  function CommandInWindow(ext: Externals, up: bool, window: seq<seq<Byte>>): (r: Option<Packet>)
    requires Sound(ext)
    ensures r.None? <==> forall j :: 0 <= j < |window| ==> !IsCommandFrame(ext, up, window[j])
    ensures r.Some? ==> (up && IsCommandForReceiver(r.value) &&
                         exists j :: 0 <= j < |window| && Receive(ext, window[j]) == Received(r.value))
  {
    match CommandFrom(ext, up, window, 0)
    case None => None
    case Some(j) => Some(Receive(ext, window[j]).pkt)
  }

  /** The packet the running branch of `loop` works on. */
  function ReceivedOrZero(ext: Externals, up: bool, raw: seq<Byte>): (pkt: Packet)
    requires Sound(ext)
    ensures up && Receive(ext, raw).Received? ==> pkt == Receive(ext, raw).pkt
    ensures !(up && Receive(ext, raw).Received?) ==> pkt == ZeroPacket() && !IsCommandForReceiver(pkt)
  {
    if up && Receive(ext, raw).Received? then Receive(ext, raw).pkt else ZeroPacket()
  }

  /** What one pass of `loop` sees. */
  datatype LoopInput = LoopInput(
    now: U32, window: seq<seq<Byte>>, frame: seq<Byte>, rssi: int, snr: int,
    replies: PollReplies, wakeRadioOk: bool, probe: seq<WBusPacket>)

  /** One pass of `loop`: while the heater is not running, a listen window
      either yields a command or ends in deep sleep; while it runs, the
      node stays awake and checks the radio once per pass. */
  function LoopStep(ext: Externals, n: Node, i: LoopInput): Node
    requires Sound(ext)
  {
    if n.status.state != HeaterStateCode(Running) then
      match CommandInWindow(ext, n.radioUp, i.window)
      case None => Wake(n, i.wakeRadioOk, i.probe)
      case Some(pkt) => PollStep(ext.crc16, HandleCommandStep(ext.crc16, n, pkt, i.now, i.rssi, i.snr), i.now, i.replies)
    else
      var pkt := ReceivedOrZero(ext, n.radioUp, i.frame);
      PollStep(ext.crc16, HandleCommandStep(ext.crc16, n, pkt, i.now, i.rssi, i.snr), i.now, i.replies)
  }

  // ---------------------------------------------------------------------
  // Properties of the transitions

  /** A repeated command causes no bus traffic and records nothing: the
      node only acknowledges the sequence number again. */
  lemma DuplicateOnlyAcknowledged(crc16: Crc16, n: Node, pkt: Packet, now: U32, rssi: int, snr: int)
    requires IsCommandForReceiver(pkt) && pkt.h.seqNo == n.rtc.lastProcessedCmdSeq
    ensures var r := HandleCommandStep(crc16, n, pkt, now, rssi, snr);
      r.busTx == n.busTx && r.rtc == n.rtc && r.status.state == n.status.state &&
      r.lastRunMinutes == n.lastRunMinutes && |r.radioOut| == |n.radioOut| + 1 &&
      StatusOf(r.radioOut[|n.radioOut|].p).lastCmdSeq == pkt.h.seqNo
  {
  }

  /** A new command: its bus action comes first, then the sequence number
      is recorded in RTC memory and acknowledged in the next status. */
  lemma NewCommandRecordedAfterDispatch(crc16: Crc16, n: Node, pkt: Packet, now: U32, rssi: int, snr: int)
    requires IsCommandForReceiver(pkt) && pkt.h.seqNo != n.rtc.lastProcessedCmdSeq
    ensures var r := HandleCommandStep(crc16, n, pkt, now, rssi, snr);
      r.busTx == Dispatch(n, CommandOf(pkt.p)).0.busTx &&
      r.rtc.lastProcessedCmdSeq == pkt.h.seqNo && r.status.lastCmdSeq == pkt.h.seqNo &&
      r.rtc.tlvSupportCache == n.rtc.tlvSupportCache && r.lastCmdMs == now &&
      r.radioOut == n.radioOut + [StatusPacket(crc16, n.seqNo, r.status)] &&
      StatusOf(r.radioOut[|n.radioOut|].p).lastCmdSeq == pkt.h.seqNo
  {
  }

  /** What each command kind does to the heater state, the remembered run
      time and the bus. */
  lemma DispatchOutcome(crc16: Crc16, n: Node, pkt: Packet, now: U32, rssi: int, snr: int)
    requires IsCommandForReceiver(pkt) && pkt.h.seqNo != n.rtc.lastProcessedCmdSeq
    ensures var r := HandleCommandStep(crc16, n, pkt, now, rssi, snr);
      var c := CommandOf(pkt.p);
      var m := if c.minutes != 0 then c.minutes else n.lastRunMinutes;
      (CommandKindOf(c.kind) == Some(Stop) ==>
         r.status.state == HeaterStateCode(Off) && r.busTx == n.busTx + Frame(TX_HEADER, 0x10, [])) &&
      (CommandKindOf(c.kind) in {Some(Start), Some(RunMinutes)} ==>
         r.status.state == HeaterStateCode(Running) && r.lastRunMinutes == m &&
         r.busTx == n.busTx + Frame(TX_HEADER, 0x21, [m])) &&
      (CommandKindOf(c.kind).None? ==>
         r.status.state == HeaterStateCode(Error) && r.busTx == n.busTx && r.lastRunMinutes == n.lastRunMinutes)
  {
  }

  /** Anything other than a command for this node leaves the node alone. */
  lemma OthersIgnored(crc16: Crc16, n: Node, pkt: Packet, now: U32, rssi: int, snr: int)
    requires !IsCommandForReceiver(pkt)
    ensures HandleCommandStep(crc16, n, pkt, now, rssi, snr) == n
  {
  }

  /** Idle with no command in the window: the node goes to sleep without
      touching the W-BUS or the radio, and wakes with its RTC memory. */
  lemma IdleSleepsQuietly(ext: Externals, n: Node, i: LoopInput)
    requires Sound(ext) && Inv(n)
    requires n.status.state != HeaterStateCode(Running)
    requires CommandInWindow(ext, n.radioUp, i.window).None?
    ensures var r := LoopStep(ext, n, i);
      r == Wake(n, i.wakeRadioOk, i.probe) && r.busTx == n.busTx && r.radioOut == n.radioOut &&
      r.rtc == n.rtc && r.status.lastCmdSeq == n.rtc.lastProcessedCmdSeq && r.seqNo == 1
  {
  }

  /** While the heater runs the node never sleeps: the pass handles what
      the radio delivered and then polls. */
  lemma RunningStaysAwake(ext: Externals, n: Node, i: LoopInput)
    requires Sound(ext) && n.status.state == HeaterStateCode(Running)
    ensures LoopStep(ext, n, i) ==
      PollStep(ext.crc16, HandleCommandStep(ext.crc16, n, ReceivedOrZero(ext, n.radioUp, i.frame), i.now, i.rssi, i.snr),
               i.now, i.replies)
  {
  }

  /** Every pass keeps the TLV cache decided. */
  lemma LoopKeepsInv(ext: Externals, n: Node, i: LoopInput)
    requires Sound(ext) && Inv(n)
    ensures Inv(LoopStep(ext, n, i))
  {
    if n.status.state != HeaterStateCode(Running) && CommandInWindow(ext, n.radioUp, i.window).None? {
      assert LoopStep(ext, n, i) == Wake(n, i.wakeRadioOk, i.probe);
    }
  }

  /** Deduplication survives deep sleep: a sender retry of a command that
      was handled before the node slept is only acknowledged. */
  lemma RetryAfterSleepIsDuplicate(crc16: Crc16, n: Node, pkt: Packet, now: U32, rssi: int, snr: int,
                                   radioOk: bool, probe: seq<WBusPacket>, later: U32)
    requires IsCommandForReceiver(pkt) && Inv(n)
    ensures var handled := HandleCommandStep(crc16, n, pkt, now, rssi, snr);
      var woken := Wake(handled, radioOk, probe);
      var again := HandleCommandStep(crc16, woken, pkt, later, rssi, snr);
      again.busTx == woken.busTx && again.rtc == woken.rtc && woken.busTx == handled.busTx
  {
    var handled := HandleCommandStep(crc16, n, pkt, now, rssi, snr);
    var woken := Wake(handled, radioOk, probe);
    assert woken.rtc.lastProcessedCmdSeq == pkt.h.seqNo;
    DuplicateOnlyAcknowledged(crc16, woken, pkt, later, rssi, snr);
  }

  /** The requests of one poll's measurement phase: the snapshot request
      only when the cache says supported, and the five simple pages only
      when there is no decoded snapshot. */
  lemma PollRequests(n: Node, r: PollReplies)
    ensures var supported := n.rtc.tlvSupportCache == TLV_SUPPORTED;
      var snapshot := supported && MultiStatusPoll(n.status, r.multiStatus).0;
      PollMeasurements(n, r).busTx ==
        n.busTx + (if supported then Frame(TX_HEADER, 0x50, [0x30] + STATUS_IDS) else []) +
        (if snapshot then [] else SimplePageRequests())
  {
    if n.rtc.tlvSupportCache == TLV_SUPPORTED {
      if MultiStatusPoll(n.status, r.multiStatus).0 {
        SnapshotRequests(n, r);
      } else {
        FailedSnapshotRequests(n, r);
      }
    } else {
      UnsupportedRequests(n, r);
    }
  }

  lemma SnapshotRequests(n: Node, r: PollReplies)
    requires n.rtc.tlvSupportCache == TLV_SUPPORTED && MultiStatusPoll(n.status, r.multiStatus).0
    ensures PollMeasurements(n, r).busTx == n.busTx + Frame(TX_HEADER, 0x50, [0x30] + STATUS_IDS) + []
  {
    var c := MultiStatusStep(n, r.multiStatus);
    assert PollMeasurements(n, r) == c.1;
  }

  lemma FailedSnapshotRequests(n: Node, r: PollReplies)
    requires n.rtc.tlvSupportCache == TLV_SUPPORTED && !MultiStatusPoll(n.status, r.multiStatus).0
    ensures PollMeasurements(n, r).busTx ==
      n.busTx + Frame(TX_HEADER, 0x50, [0x30] + STATUS_IDS) + SimplePageRequests()
  {
    var c := MultiStatusStep(n, r.multiStatus);
    assert PollMeasurements(n, r) == FallbackPages(c.1, r.page05);
    FallbackRequests(c.1, r.page05);
  }

  lemma UnsupportedRequests(n: Node, r: PollReplies)
    requires n.rtc.tlvSupportCache != TLV_SUPPORTED
    ensures PollMeasurements(n, r).busTx == n.busTx + [] + SimplePageRequests()
  {
    FallbackRequests(n, r.page05);
    assert n.busTx + [] == n.busTx;
  }

  /** The simple page 0x05 sets temperature (raw minus 50) and voltage
      (big-endian) once its reply carries at least five payload bytes. */
  lemma Page05Decoding(n: Node, page05: seq<WBusPacket>)
    requires StatusIndexReply(page05, 0x05).Some? && StatusIndexReply(page05, 0x05).value.payloadLen >= 5
    ensures var p := StatusIndexReply(page05, 0x05).value;
      var f := FallbackPages(n, page05);
      f.status.temperatureC == p.payload[2] as int - 50 && f.status.voltageMv == Be16(p.payload[3], p.payload[4]) &&
      f.status.power == n.status.power
  {
  }

  // ---------------------------------------------------------------------
  // The node object

  class ReceiverNode {
    const ext: Externals
    const wbus: WBusSimple
    const link: LoRaLink

    var seqNo: U16
    var status: StatusPayload
    var lastCmdMs: U32
    var lastPollMs: U32
    var lastRunMinutes: Byte
    /** `RTC_DATA_ATTR` variables. */
    var lastProcessedCmdSeq: U16
    var tlvSupportCache: Byte
    var tlvSupported: bool
    /** Every packet handed to `loraLink.send`, oldest first. */
    var radioOut: seq<Packet>

    function Snapshot(): Node
      reads this, wbus, link
    {
      Node(seqNo, status, lastCmdMs, lastPollMs, lastRunMinutes,
        Rtc(lastProcessedCmdSeq, tlvSupportCache), tlvSupported, link.configured, wbus.tx, radioOut)
    }

    ghost predicate Valid()
      reads this
    {
      link.ext == ext && Sound(ext)
    }

    /** Power-on with the given RTC contents. */
    constructor (ext: Externals, wbus: WBusSimple, link: LoRaLink, rtc: Rtc)
      requires link.ext == ext && Sound(ext) && !link.configured
      ensures Valid() && this.ext == ext && this.wbus == wbus && this.link == link
      ensures Snapshot() == PowerOn(rtc, wbus.tx, [])
    {
      this.ext := ext;
      this.wbus := wbus;
      this.link := link;
      seqNo := 1;
      status := ZeroStatus();
      lastCmdMs := 0;
      lastPollMs := 0;
      lastRunMinutes := DEFAULT_RUN_MINUTES;
      lastProcessedCmdSeq := rtc.lastProcessedCmdSeq;
      tlvSupportCache := rtc.tlvSupportCache;
      tlvSupported := false;
      radioOut := [];
    }

    /** `tryPollMultiStatusOnce`: one request with the fixed ids, then the
        response scan. */
    method TryPollMultiStatusOnce(responses: seq<WBusPacket>, s: StatusPayload) returns (ok: bool, out: StatusPayload)
      modifies wbus`tx, wbus`didBreak
      ensures wbus.tx == old(wbus.tx) + Frame(TX_HEADER, 0x50, [0x30] + STATUS_IDS)
      ensures (ok, out) == MultiStatusPoll(s, responses)
    {
      var requested := wbus.RequestStatusMulti(STATUS_IDS);
      ok, out := ScanMultiStatus(responses, s);
    }

    method Setup(radioOk: bool, probe: seq<WBusPacket>)
      requires Valid()
      modifies this, wbus, link`configured
      ensures Valid()
      ensures Snapshot() == SetupStep(old(Snapshot()), radioOk, probe)
    {
      var loraOk := link.Begin(radioOk);
      var wbusOk := wbus.Begin();
      status := status.(temperatureC := INT16_MIN, voltageMv := 0, power := 0);
      status := status.(lastCmdSeq := lastProcessedCmdSeq);
      if tlvSupportCache == TLV_SUPPORTED {
        tlvSupported := true;
      } else if tlvSupportCache == TLV_UNSUPPORTED {
        tlvSupported := false;
      } else {
        var scratch := status;
        tlvSupported, scratch := TryPollMultiStatusOnce(probe, scratch);
        tlvSupportCache := if tlvSupported then TLV_SUPPORTED else TLV_UNSUPPORTED;
      }
    }

    /** `enterDeepSleepMs` and the reboot after it: everything outside RTC
        memory restarts from its initialiser, then `setup` runs. */
    method DeepSleepAndWake(radioOk: bool, probe: seq<WBusPacket>)
      requires Valid()
      modifies this, wbus, link`configured
      ensures Valid()
      ensures Snapshot() == Wake(old(Snapshot()), radioOk, probe)
    {
      seqNo := 1;
      status := ZeroStatus();
      lastCmdMs := 0;
      lastPollMs := 0;
      lastRunMinutes := DEFAULT_RUN_MINUTES;
      tlvSupported := false;
      link.configured := false;
      assert Snapshot() == PowerOn(old(Snapshot()).rtc, old(Snapshot()).busTx, old(Snapshot()).radioOut);
      Setup(radioOk, probe);
    }

    method SendStatus(rssi: int, snr: int)
      modifies this`seqNo, this`status, this`radioOut
      ensures Snapshot() == SendStatusStep(ext.crc16, old(Snapshot()), rssi, snr)
    {
      var pkt := ZeroPacket();
      pkt := pkt.(h := Header(MAGIC, VERSION, MsgTypeCode(Status), LORA_NODE_RECEIVER, LORA_NODE_SENDER, seqNo));
      seqNo := Wrap16(seqNo + 1);
      status := status.(lastRssiDbm := ToI8(rssi), lastSnrDb := ToI8(snr));
      pkt := WithStatus(pkt, status);
      pkt := pkt.(crc := CalcCrc(ext.crc16, pkt));
      radioOut := radioOut + [pkt];
    }

    /** One buffer of the listen window through `recv`, and the test for a
        command addressed to this node. */
    method RecvCommand(raw: seq<Byte>, prev: Packet) returns (isCmd: bool, pkt: Packet)
      requires Valid()
      ensures isCmd <==> IsCommandFrame(ext, link.configured, raw)
      ensures isCmd ==> pkt == Receive(ext, raw).pkt
    {
      var ok, p := link.Recv(raw, prev);
      pkt := p;
      isCmd := ok && pkt.h.msgType == MsgTypeCode(Command) && pkt.h.dst == LORA_NODE_RECEIVER;
    }

    /** `tryReceiveCommandWindow`: every buffer of the window goes through
        `recv` until one is a command for this node. */
    method TryReceiveCommandWindow(window: seq<seq<Byte>>, prev: Packet) returns (found: bool, pkt: Packet)
      requires Valid()
      ensures found <==> CommandInWindow(ext, link.configured, window).Some?
      ensures found ==> pkt == CommandInWindow(ext, link.configured, window).value
    {
      pkt := prev;
      ghost var up := link.configured;
      var k := 0;
      while k < |window|
        invariant 0 <= k <= |window|
        invariant CommandFrom(ext, up, window, 0) == CommandFrom(ext, up, window, k)
      {
        var isCmd, p := RecvCommand(window[k], pkt);
        pkt := p;
        if isCmd {
          return true, pkt;
        }
        k := k + 1;
      }
      return false, pkt;
    }

    /** The heater action for a new command. */
    method RunCommand(cmd: CommandPayload) returns (ok: bool)
      modifies this`status, this`lastRunMinutes, wbus`tx, wbus`didBreak
      ensures (Snapshot(), ok) == Dispatch(old(Snapshot()), cmd)
    {
      if cmd.kind == CommandKindCode(Stop) {
        ok := wbus.Stop();
        if ok {
          status := status.(state := HeaterStateCode(Off));
        }
      } else if cmd.kind == CommandKindCode(Start) || cmd.kind == CommandKindCode(RunMinutes) {
        // Start and RunMinutes run the same code.
        lastRunMinutes := if cmd.minutes != 0 then cmd.minutes else lastRunMinutes;
        ok := wbus.StartParkingHeater(lastRunMinutes);
        if ok {
          status := status.(state := HeaterStateCode(Running));
        }
      } else {
        ok := false;
      }
    }

    /** The command branch of `loop`. */
    method HandleCommand(pkt: Packet, now: U32, rssi: int, snr: int)
      modifies this`seqNo, this`status, this`radioOut, this`lastRunMinutes, this`lastCmdMs,
        this`lastProcessedCmdSeq, wbus`tx, wbus`didBreak
      ensures Snapshot() == HandleCommandStep(ext.crc16, old(Snapshot()), pkt, now, rssi, snr)
    {
      if !(pkt.h.msgType == MsgTypeCode(Command) && pkt.h.dst == LORA_NODE_RECEIVER) {
        return;
      }
      if pkt.h.seqNo == lastProcessedCmdSeq {
        status := status.(lastCmdSeq := lastProcessedCmdSeq);
        SendStatus(rssi, snr);
        return;
      }
      var ok := RunCommand(CommandOf(pkt.p));
      lastCmdMs := now;
      if !ok {
        status := status.(state := HeaterStateCode(Error));
      }
      lastProcessedCmdSeq := pkt.h.seqNo;
      status := status.(lastCmdSeq := lastProcessedCmdSeq);
      SendStatus(rssi, snr);
    }

    /** `wbusReadOperatingState` and the state mapping at the start of a poll. */
    method RefreshOpState(now: U32, opState: seq<WBusPacket>)
      modifies this`lastPollMs, this`status, wbus`tx, wbus`didBreak
      ensures Snapshot() == PollOpState(old(Snapshot()), now, opState)
    {
      lastPollMs := now;
      var okOp, op := wbus.ReadOperatingState(opState, 0);
      if okOp {
        status := status.(lastWbusOpState := op);
        status := status.(state := HeaterStateCode(MapOpState(op)));
      }
    }

    /** The simple pages, requested one after another. */
    method FetchSimplePages(page05: seq<WBusPacket>)
      modifies this`status, wbus`tx, wbus`didBreak
      ensures Snapshot() == FallbackPages(old(Snapshot()), page05)
    {
      var sent := SendPageRequest(0x05);
      ghost var a := Snapshot();
      var found, p := WaitForStatusIndex(page05, 0x05, EmptyPacket());
      if sent && found {
        if p.payloadLen >= 5 {
          status := status.(temperatureC := p.payload[2] as int - 50);
          status := status.(voltageMv := Be16(p.payload[3], p.payload[4]));
        }
      }
      assert Snapshot() == ApplyPage05(a, page05);
      sent := SendPageRequest(0x0F);
      sent := SendPageRequest(0x02);
      sent := SendPageRequest(0x03);
      sent := SendPageRequest(0x06);
    }

    /** `sendCommand(0x50, {idx})`: one simple page request on the bus. */
    method SendPageRequest(idx: Byte) returns (sent: bool)
      modifies wbus`tx, wbus`didBreak
      ensures sent && Snapshot() == RequestPage(old(Snapshot()), idx)
    {
      sent := wbus.SendCommand(0x50, [idx]);
    }

    /** The snapshot when supported, otherwise the simple pages. */
    method FetchMeasurements(r: PollReplies)
      modifies this`status, wbus`tx, wbus`didBreak
      ensures Snapshot() == PollMeasurements(old(Snapshot()), r)
    {
      var gotTlv := false;
      if tlvSupportCache == TLV_SUPPORTED {
        gotTlv, status := TryPollMultiStatusOnce(r.multiStatus, status);
        assert (gotTlv, Snapshot()) == MultiStatusStep(old(Snapshot()), r.multiStatus);
      }
      if !gotTlv {
        FetchSimplePages(r.page05);
      }
    }

    /** The poll branch of `loop`. */
    method PollBus(now: U32, r: PollReplies)
      modifies this`lastPollMs, this`status, this`seqNo, this`radioOut, wbus`tx, wbus`didBreak
      ensures Snapshot() == PollStep(ext.crc16, old(Snapshot()), now, r)
    {
      if Elapsed(now, lastPollMs) <= POLL_INTERVAL_MS {
        return;
      }
      RefreshOpState(now, r.opState);
      FetchMeasurements(r);
      SendStatus(0, 0);
    }

    /** One pass of `loop`. */
    method Loop(i: LoopInput)
      requires Valid()
      modifies this, wbus, link`configured
      ensures Valid()
      ensures Snapshot() == LoopStep(ext, old(Snapshot()), i)
    {
      var heaterRunning := status.state == HeaterStateCode(Running);
      var pkt := ZeroPacket();
      if !heaterRunning {
        var gotCmd;
        gotCmd, pkt := TryReceiveCommandWindow(i.window, pkt);
        if !gotCmd {
          DeepSleepAndWake(i.wakeRadioOk, i.probe);
          return;
        }
      } else {
        var ok, p := link.Recv(i.frame, pkt);
        pkt := if ok then p else ZeroPacket();
      }
      HandleCommand(pkt, i.now, i.rssi, i.snr);
      PollBus(i.now, i.replies);
    }
  }
}
