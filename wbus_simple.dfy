/** The W-BUS side of the controller: the frame builder (`sendCommand` and
    the commands built on it), the byte-driven receive framer (`poll`,
    `popPacket`) and the multi-status TLV decoder (`tryParseStatusTlv`).

    The serial port is modelled as byte sequences: `WBusSimple.tx` collects
    every byte written, and `Poll` takes the bytes available to read. */
module WBus {
  import opened Bytes
  import opened Wrappers
  import opened WBusTypes

  /** Bus addresses of the two parties (4-bit nibbles). */
  const WBUS_ADDR_CONTROLLER: Byte := 0xF
  const WBUS_ADDR_HEATER: Byte := 0x4
  /** Upper bound the framer allows for the length byte. */
  const WBUS_MAX_LEN: nat := 256

  /** `makeHeader`: source address in the high nibble, destination in the low one. */
  function MakeHeader(src: Byte, dst: Byte): (r: Byte)
    ensures r / 16 == src % 16 && r % 16 == dst % 16
  {
    (src % 16) * 16 + dst % 16
  }

  /** The two header bytes the framer accepts are exactly the two directions. */
  lemma HeaderDirections()
    ensures MakeHeader(WBUS_ADDR_CONTROLLER, WBUS_ADDR_HEATER) == TX_HEADER
    ensures MakeHeader(WBUS_ADDR_HEATER, WBUS_ADDR_CONTROLLER) == RX_HEADER
  {
  }

  // ---------------------------------------------------------------------
  // Frame builder

  /** The wire image of one frame: header, length byte (payload bytes plus
      checksum, truncated to a byte), command, data, and the XOR of every
      byte before it. */
  function Frame(header: Byte, cmd: Byte, data: seq<Byte>): (r: seq<Byte>)
    requires |data| <= 255
    ensures |r| == |data| + 4
    ensures r[0] == header && r[1] == Wrap8(|data| + 2) && r[2] == cmd
    ensures r[3..|r| - 1] == data
    ensures r[|r| - 1] == XorAll(r[..|r| - 1])
  {
    var head := [header, Wrap8(|data| + 2), cmd];
    assert (head + data + [XorAll(head + data)])[..|data| + 3] == head + data;
    head + data + [XorAll(head + data)]
  }

  /** The bytes `sendCommand` writes, in order, are the frame. */
  lemma FrameOfParts(cmd: Byte, data: seq<Byte>, csum: Byte)
    requires |data| <= 255 && csum == XorAll([TX_HEADER, Wrap8(|data| + 2), cmd] + data)
    ensures [TX_HEADER, Wrap8(|data| + 2), cmd] + data + [csum] == Frame(TX_HEADER, cmd, data)
  {
  }

  /** XOR of a three-byte prefix, folded as the C code does it. */
  lemma XorAllTriple(a: Byte, b: Byte, c: Byte)
    ensures XorAll([a, b, c]) == Xor(Xor(Xor(0, a), b), c)
  {
    assert [] + [a] == [a];
    XorAllSnoc([], a);
    assert [a] + [b] == [a, b];
    XorAllSnoc([a], b);
    assert [a, b] + [c] == [a, b, c];
    XorAllSnoc([a, b], c);
  }

  /** The checksum loop of `sendCommand`. */
  method FrameChecksum(header: Byte, length: Byte, cmd: Byte, data: seq<Byte>) returns (csum: Byte)
    ensures csum == XorAll([header, length, cmd] + data)
  {
    csum := 0;
    csum := Xor(csum, header);
    csum := Xor(csum, length);
    csum := Xor(csum, cmd);
    ghost var head := [header, length, cmd];
    XorAllTriple(header, length, cmd);
    assert head + data[..0] == head;
    for i := 0 to |data|
      invariant csum == XorAll(head + data[..i])
    {
      assert head + data[..i + 1] == (head + data[..i]) + [data[i]];
      XorAllSnoc(head + data[..i], data[i]);
      csum := Xor(csum, data[i]);
    }
    assert data[..|data|] == data;
  }

  // ---------------------------------------------------------------------
  // Receive framer, as a state value and a transition function

  datatype RxState = FindHeader | ReadLength | ReadPayload

  /** The framer members of `WBusSimple`: state, frame being assembled, write
      index into its payload, and the single-slot queue. */
  datatype Framer = Framer(rxState: RxState, rxInProgress: WBusPacket, rxIndex: U16,
                           havePacket: bool, packetQueue: WBusPacket)

  /** While reading a payload the index stays inside the announced length,
      which is at least 2 (command plus checksum); otherwise it is 0. */
  predicate Inv(f: Framer)
  {
    (f.rxState == ReadPayload ==>
      2 <= f.rxInProgress.payloadLen && f.rxIndex < f.rxInProgress.payloadLen) &&
    (f.rxState != ReadPayload ==> f.rxIndex == 0)
  }

  /** The member initialisers: looking for a header, nothing queued. */
  function InitialFramer(): (f: Framer)
    ensures Inv(f)
    ensures f.rxState == FindHeader && f.rxIndex == 0 && !f.havePacket
  {
    Framer(FindHeader, EmptyPacket(), 0, false, EmptyPacket())
  }

  /** One byte through the `poll` switch. */
  function Step(f: Framer, b: Byte): (r: Framer)
    requires Inv(f)
    ensures Inv(r)
  {
    match f.rxState
    case FindHeader =>
      if b == MakeHeader(WBUS_ADDR_CONTROLLER, WBUS_ADDR_HEATER)
         || b == MakeHeader(WBUS_ADDR_HEATER, WBUS_ADDR_CONTROLLER)
      then f.(rxInProgress := EmptyPacket().(header := b), rxState := ReadLength)
      else f
    case ReadLength =>
      var pkt := f.rxInProgress.(length := b, payloadLen := 0);
      if b < 2 || b > WBUS_MAX_LEN || b > PAYLOAD_CAPACITY
      then f.(rxInProgress := pkt, rxIndex := 0, rxState := FindHeader)
      else f.(rxInProgress := pkt.(payloadLen := b), rxIndex := 0, rxState := ReadPayload)
    case ReadPayload =>
      var pkt := if f.rxIndex < f.rxInProgress.payloadLen
                 then f.rxInProgress.(payload := f.rxInProgress.payload[f.rxIndex := b])
                 else f.rxInProgress;
      var idx := if f.rxIndex < f.rxInProgress.payloadLen then f.rxIndex + 1 else f.rxIndex;
      if idx >= pkt.payloadLen then
        var good := ChecksumOf(pkt) == pkt.payload[pkt.payloadLen - 1];
        f.(rxInProgress := pkt, rxIndex := 0, rxState := FindHeader,
           havePacket := f.havePacket || good,
           packetQueue := if good then pkt else f.packetQueue)
      else
        f.(rxInProgress := pkt, rxIndex := idx)
  }

  /** A run of bytes through the framer, in arrival order. */
  function FeedAll(f: Framer, bs: seq<Byte>): (r: Framer)
    requires Inv(f)
    ensures Inv(r)
    decreases |bs|
  {
    if |bs| == 0 then f else FeedAll(Step(f, bs[0]), bs[1..])
  }

  /** Feeding two runs is feeding their concatenation: `poll` may be called
      with the input split anywhere. */
  lemma {:induction false} FeedAllAppend(f: Framer, a: seq<Byte>, b: seq<Byte>)
    requires Inv(f)
    ensures FeedAll(f, a + b) == FeedAll(FeedAll(f, a), b)
    decreases |a|
  {
    if |a| == 0 {
      assert a + b == b;
    } else {
      assert (a + b)[0] == a[0];
      assert (a + b)[1..] == a[1..] + b;
      FeedAllAppend(Step(f, a[0]), a[1..], b);
    }
  }

  predicate IsHeaderByte(b: Byte)
  {
    b == TX_HEADER || b == RX_HEADER
  }

  /** While hunting for a header, every other byte is discarded without a trace. */
  lemma {:induction false} DiscardsNonHeaders(f: Framer, bs: seq<Byte>)
    requires Inv(f) && f.rxState == FindHeader
    requires forall i :: 0 <= i < |bs| ==> !IsHeaderByte(bs[i])
    ensures FeedAll(f, bs) == f
    decreases |bs|
  {
    if |bs| > 0 {
      HeaderDirections();
      assert Step(f, bs[0]) == f;
      DiscardsNonHeaders(f, bs[1..]);
    }
  }

  /** A header byte starts a fresh frame record. */
  lemma HeaderStartsFrame(f: Framer, b: Byte)
    requires Inv(f) && f.rxState == FindHeader && IsHeaderByte(b)
    ensures Step(f, b).rxState == ReadLength
    ensures Step(f, b).rxInProgress == EmptyPacket().(header := b)
    ensures Step(f, b).havePacket == f.havePacket && Step(f, b).packetQueue == f.packetQueue
  {
    HeaderDirections();
  }

  /** A length byte below 2 sends the framer back to the header hunt and
      publishes nothing. */
  lemma ShortLengthRejected(f: Framer, b: Byte)
    requires Inv(f) && f.rxState == ReadLength && b < 2
    ensures Step(f, b).rxState == FindHeader && Step(f, b).rxIndex == 0
    ensures Step(f, b).havePacket == f.havePacket && Step(f, b).packetQueue == f.packetQueue
  {
  }

  /** The slot changes only when a payload is completed whose last byte equals
      the checksum; the new frame then replaces whatever was queued. */
  lemma PublishOnlyOnGoodChecksum(f: Framer, b: Byte)
    requires Inv(f)
    ensures var r := Step(f, b);
      (r.packetQueue != f.packetQueue || r.havePacket != f.havePacket) ==>
        f.rxState == ReadPayload && f.rxIndex + 1 == f.rxInProgress.payloadLen &&
        r.havePacket && r.packetQueue == r.rxInProgress &&
        ChecksumOf(r.packetQueue) == r.packetQueue.payload[r.packetQueue.payloadLen - 1]
    ensures var r := Step(f, b);
      r.havePacket ==> f.havePacket || r.packetQueue == r.rxInProgress
  {
  }

  /** The packet record after `rest` has been written at `from` onwards. */
  function Filled(p: WBusPacket, from: nat, rest: seq<Byte>): (r: WBusPacket)
    requires from + |rest| <= PAYLOAD_CAPACITY
    ensures r.header == p.header && r.length == p.length && r.payloadLen == p.payloadLen
    ensures forall i :: 0 <= i < PAYLOAD_CAPACITY ==>
      r.payload[i] == if from <= i < from + |rest| then rest[i - from] else p.payload[i]
  {
    p.(payload := seq(PAYLOAD_CAPACITY, i requires 0 <= i < PAYLOAD_CAPACITY =>
      if from <= i < from + |rest| then rest[i - from] else p.payload[i]))
  }

  /** The last payload byte is the XOR of every byte before it. */
  predicate GoodChecksum(p: WBusPacket)
    requires 0 < p.payloadLen <= PAYLOAD_CAPACITY
  {
    ChecksumOf(p) == p.payload[p.payloadLen - 1]
  }

  /** Payload bytes are stored in place; after exactly `payloadLen` of them
      the framer is back at the header hunt, and the frame was queued iff
      its checksum matched. Fewer bytes leave it reading, slot untouched. */
  lemma {:induction false} FeedPayload(f: Framer, rest: seq<Byte>)
    requires Inv(f) && f.rxState == ReadPayload
    requires f.rxIndex + |rest| <= f.rxInProgress.payloadLen
    ensures var pkt := Filled(f.rxInProgress, f.rxIndex, rest);
      var r := FeedAll(f, rest);
      r.rxInProgress == pkt &&
      if f.rxIndex + |rest| < pkt.payloadLen then
        r.rxState == ReadPayload && r.rxIndex == f.rxIndex + |rest| &&
        r.havePacket == f.havePacket && r.packetQueue == f.packetQueue
      else
        r.rxState == FindHeader && r.rxIndex == 0 &&
        if GoodChecksum(pkt)
        then r.havePacket && r.packetQueue == pkt
        else r.havePacket == f.havePacket && r.packetQueue == f.packetQueue
    decreases |rest|
  {
    var pkt := Filled(f.rxInProgress, f.rxIndex, rest);
    if |rest| == 0 {
      assert pkt.payload == f.rxInProgress.payload;
    } else {
      var g := Step(f, rest[0]);
      PayloadByte(f, rest[0]);
      FilledCons(f.rxInProgress, f.rxIndex, rest);
      if |rest| == 1 {
        assert FeedAll(f, rest) == g;
        assert g.rxInProgress == pkt;
      } else {
        FeedPayload(g, rest[1..]);
        assert FeedAll(f, rest) == FeedAll(g, rest[1..]);
        assert Filled(g.rxInProgress, g.rxIndex, rest[1..]) == pkt;
      }
    }
  }

  /** One payload byte is stored at the cursor; the last one ends the frame. */
  lemma PayloadByte(f: Framer, b: Byte)
    requires Inv(f) && f.rxState == ReadPayload && f.rxIndex < f.rxInProgress.payloadLen
    ensures var g := Step(f, b);
      var pkt := Filled(f.rxInProgress, f.rxIndex, [b]);
      g.rxInProgress == pkt &&
      if f.rxIndex + 1 < pkt.payloadLen then
        g.rxState == ReadPayload && g.rxIndex == f.rxIndex + 1 &&
        g.havePacket == f.havePacket && g.packetQueue == f.packetQueue
      else
        g.rxState == FindHeader && g.rxIndex == 0 &&
        if GoodChecksum(pkt)
        then g.havePacket && g.packetQueue == pkt
        else g.havePacket == f.havePacket && g.packetQueue == f.packetQueue
  {
    assert Step(f, b).rxInProgress.payload == Filled(f.rxInProgress, f.rxIndex, [b]).payload;
  }

  /** Storing the first byte, then the others after it, stores them all. */
  lemma FilledCons(p: WBusPacket, from: nat, rest: seq<Byte>)
    requires |rest| > 0 && from + |rest| <= PAYLOAD_CAPACITY
    ensures Filled(Filled(p, from, [rest[0]]), from + 1, rest[1..]) == Filled(p, from, rest)
  {
    assert Filled(Filled(p, from, [rest[0]]), from + 1, rest[1..]).payload == Filled(p, from, rest).payload;
  }

  /** The record the framer builds from `Frame(header, cmd, data)`. */
  function FramePacket(header: Byte, cmd: Byte, data: seq<Byte>): (p: WBusPacket)
    requires |data| <= 253
    ensures p.header == header && p.length == |data| + 2 && p.payloadLen == |data| + 2
    ensures p.payload[..|data| + 2] == Frame(header, cmd, data)[2..]
  {
    var frame := Frame(header, cmd, data);
    PacketRecord(header, frame[1], frame[2..] + Zeros(PAYLOAD_CAPACITY - (|data| + 2)), frame[1])
  }

  /** Round trip: every frame the builder writes with a valid header and at
      most 253 data bytes, fed to the framer while it hunts for a header, is
      queued as header, length, and payload `cmd · data · checksum`. */
  lemma FrameRoundTrip(f: Framer, header: Byte, cmd: Byte, data: seq<Byte>)
    requires Inv(f) && f.rxState == FindHeader
    requires IsHeaderByte(header) && |data| <= 253
    ensures var r := FeedAll(f, Frame(header, cmd, data));
      r.rxState == FindHeader && r.rxIndex == 0 && r.havePacket &&
      r.packetQueue == FramePacket(header, cmd, data)
  {
    var frame := Frame(header, cmd, data);
    var len := |data| + 2;
    FeedTwo(f, frame);
    var f2 := Step(Step(f, header), frame[1]);
    HeaderAndLength(f, header, len);
    FeedPayload(f2, frame[2..]);
    FilledFrame(header, cmd, data);
  }

  /** Feeding a run of at least two bytes: the first two, then the rest. */
  lemma FeedTwo(f: Framer, bs: seq<Byte>)
    requires Inv(f) && |bs| >= 2
    ensures FeedAll(f, bs) == FeedAll(Step(Step(f, bs[0]), bs[1]), bs[2..])
  {
    assert bs[1..][0] == bs[1] && bs[1..][1..] == bs[2..];
  }

  /** A header byte and a good length byte start reading that many payload bytes. */
  lemma HeaderAndLength(f: Framer, header: Byte, len: Byte)
    requires Inv(f) && f.rxState == FindHeader && IsHeaderByte(header) && 2 <= len
    ensures var f2 := Step(Step(f, header), len);
      f2.rxState == ReadPayload && f2.rxIndex == 0 &&
      f2.rxInProgress == EmptyPacket().(header := header, length := len, payloadLen := len) &&
      f2.havePacket == f.havePacket && f2.packetQueue == f.packetQueue
  {
    HeaderDirections();
  }

  /** The payload bytes of a frame, stored into a fresh record, make the
      frame's record, and its checksum matches. */
  lemma FilledFrame(header: Byte, cmd: Byte, data: seq<Byte>)
    requires |data| <= 253
    ensures var frame := Frame(header, cmd, data);
      var len := |data| + 2;
      var pkt := Filled(EmptyPacket().(header := header, length := len, payloadLen := len), 0, frame[2..]);
      pkt == FramePacket(header, cmd, data) && ChecksumOf(pkt) == pkt.payload[len - 1]
  {
    var frame := Frame(header, cmd, data);
    var len := |data| + 2;
    var pkt := Filled(EmptyPacket().(header := header, length := len, payloadLen := len), 0, frame[2..]);
    var want := FramePacket(header, cmd, data);
    assert pkt.payload == want.payload;
    assert pkt.payload[..len - 1] == [cmd] + data;
    assert [header, frame[1]] + ([cmd] + data) == frame[..|frame| - 1];
  }

  /** Garbage without header bytes between frames is skipped: the next frame
      still arrives intact. */
  lemma ResyncAfterGarbage(f: Framer, garbage: seq<Byte>, header: Byte, cmd: Byte, data: seq<Byte>)
    requires Inv(f) && f.rxState == FindHeader
    requires forall i :: 0 <= i < |garbage| ==> !IsHeaderByte(garbage[i])
    requires IsHeaderByte(header) && |data| <= 253
    ensures FeedAll(f, garbage + Frame(header, cmd, data)).havePacket
    ensures FeedAll(f, garbage + Frame(header, cmd, data)).packetQueue == FramePacket(header, cmd, data)
  {
    FeedAllAppend(f, garbage, Frame(header, cmd, data));
    DiscardsNonHeaders(f, garbage);
    FrameRoundTrip(f, header, cmd, data);
  }

  /** The hunt has no resynchronisation beyond that: one stray header byte
      before a frame makes the framer take the frame's own header as a
      length byte, so the frame is swallowed and nothing is queued. */
  lemma StrayHeaderSwallowsFrame(f: Framer, cmd: Byte, data: seq<Byte>)
    requires Inv(f) && f.rxState == FindHeader && |data| <= 240
    ensures var r := FeedAll(f, [TX_HEADER] + Frame(TX_HEADER, cmd, data));
      r.rxState == ReadPayload && r.havePacket == f.havePacket && r.packetQueue == f.packetQueue
  {
    HeaderDirections();
    var frame := Frame(TX_HEADER, cmd, data);
    var bs := [TX_HEADER] + frame;
    var f1 := Step(f, TX_HEADER);
    var f2 := Step(f1, TX_HEADER);
    assert bs[0] == TX_HEADER && bs[1..] == frame;
    assert FeedAll(f, bs) == FeedAll(f1, frame);
    assert FeedAll(f1, frame) == FeedAll(f2, frame[1..]);
    assert f2.rxState == ReadPayload && f2.rxInProgress.payloadLen == TX_HEADER;
    FeedPayload(f2, frame[1..]);
  }

  /** `popPacket` on the framer state: hand out the queued frame, if any, and empty the slot. */
  function PopSlot(f: Framer): (r: (Framer, Option<WBusPacket>))
    ensures !r.0.havePacket
    ensures r.1.Some? <==> f.havePacket
    ensures r.1.Some? ==> r.1.value == f.packetQueue
  {
    if !f.havePacket then (f, None) else (f.(havePacket := false), Some(f.packetQueue))
  }

  /** A queued frame is handed out exactly once. */
  lemma PopExactlyOnce(f: Framer)
    requires f.havePacket
    ensures PopSlot(f).1 == Some(f.packetQueue)
    ensures PopSlot(PopSlot(f).0).1 == None
    ensures PopSlot(PopSlot(f).0).0 == PopSlot(f).0
  {
  }

  // ---------------------------------------------------------------------
  // Operating-state response matching

  /** A response to "read page 0x07": from the heater, at least 4 payload
      bytes, an acknowledge of command 0x50 (high bit ignored) for index 0x07. */
  predicate IsOpStateResponse(p: WBusPacket)
  {
    p.header == MakeHeader(WBUS_ADDR_HEATER, WBUS_ADDR_CONTROLLER) &&
    p.payloadLen >= 4 && Low7(p.payload[0]) == 0x50 && p.payload[1] == 0x07
  }

  /** The operating state carried by the first matching response. */
  function FirstOpState(responses: seq<WBusPacket>): (r: Option<Byte>)
    ensures r.Some? <==> exists i :: 0 <= i < |responses| && IsOpStateResponse(responses[i])
    ensures r.Some? ==> exists i :: (0 <= i < |responses| && IsOpStateResponse(responses[i]) &&
      r.value == responses[i].payload[2] &&
      forall j :: 0 <= j < i ==> !IsOpStateResponse(responses[j]))
    decreases |responses|
  {
    if |responses| == 0 then None
    else if IsOpStateResponse(responses[0]) then Some(responses[0].payload[2])
    else
      var r := FirstOpState(responses[1..]);
      assert forall i :: 1 <= i < |responses| ==> responses[i] == responses[1..][i - 1];
      if r.Some? then
        var i :| 0 <= i < |responses[1..]| && IsOpStateResponse(responses[1..][i]) &&
          r.value == responses[1..][i].payload[2] &&
          forall j :: 0 <= j < i ==> !IsOpStateResponse(responses[1..][j]);
        assert IsOpStateResponse(responses[i + 1]);
        r
      else r
  }

  /** The first match from position `k` on: the packet at `k` or a later one. */
  lemma FirstOpStateAt(responses: seq<WBusPacket>, k: nat)
    requires k < |responses|
    ensures FirstOpState(responses[k..]) ==
      if IsOpStateResponse(responses[k]) then Some(responses[k].payload[2])
      else FirstOpState(responses[k + 1..])
  {
    assert responses[k..][0] == responses[k] && responses[k..][1..] == responses[k + 1..];
  }

  /** The scan of `readOperatingState`: skip every packet that is not a
      matching response; the first match gives `payload[2]`. */
  method ScanOpState(responses: seq<WBusPacket>) returns (found: bool, op: Byte)
    ensures found <==> exists i :: 0 <= i < |responses| && IsOpStateResponse(responses[i])
    ensures found ==> FirstOpState(responses) == Some(op)
    ensures !found ==> op == 0
  {
    var k := 0;
    while k < |responses|
      invariant 0 <= k <= |responses|
      invariant FirstOpState(responses) == FirstOpState(responses[k..])
    {
      var pkt := responses[k];
      FirstOpStateAt(responses, k);
      // The header, the length, the command echo and the index are tested
      // in this order; the first failing test skips the packet.
      var hit := pkt.header == MakeHeader(WBUS_ADDR_HEATER, WBUS_ADDR_CONTROLLER) &&
        pkt.payloadLen >= 4 && Low7(pkt.payload[0]) == 0x50 && pkt.payload[1] == 0x07;
      if hit {
        return true, pkt.payload[2];
      }
      k := k + 1;
    }
    assert responses[k..] == [];
    return false, 0;
  }

  // ---------------------------------------------------------------------
  // Multi-status TLV decoder

  /** Tags with a one-byte value. */
  predicate IsOneByteTag(id: Byte)
  {
    id in {0x01, 0x03, 0x05, 0x06, 0x07, 0x08, 0x0A, 0x10, 0x1F, 0x24, 0x27, 0x2A, 0x2C, 0x2D, 0x32}
  }
  /** The temperature tag: one byte, offset by 50. */
  const TEMPERATURE_TAG: Byte := 0x0C
  /** Tags with a big-endian two-byte value. */
  predicate IsTwoByteTag(id: Byte)
  {
    id in {0x0E, 0x0F, 0x11, 0x13, 0x1E, 0x29, 0x34, 0x3D, 0x52}
  }
  /** Tags whose width (1 or 2 bytes) is guessed from the following byte. */
  predicate IsMaybeTag(id: Byte)
  {
    id in {0x57, 0x5F, 0x78, 0x89}
  }

  /** `isKnownId`. */
  predicate IsKnownId(c: Byte)
  {
    IsOneByteTag(c) || c == TEMPERATURE_TAG || IsTwoByteTag(c) || IsMaybeTag(c)
  }

  /** Store a one-byte tag's value in its field. */
  function SetByteField(s: WBusStatus, id: Byte, v: Byte): WBusStatus
    requires IsOneByteTag(id)
  {
    if id == 0x01 then s.(status01 := v)
    else if id == 0x03 then s.(status03 := v)
    else if id == 0x05 then s.(status05 := v)
    else if id == 0x06 then s.(status06 := v)
    else if id == 0x07 then s.(status07 := v)
    else if id == 0x08 then s.(status08 := v)
    else if id == 0x0A then s.(status0A := v)
    else if id == 0x10 then s.(status10 := v)
    else if id == 0x1F then s.(status1F := v)
    else if id == 0x24 then s.(status24 := v)
    else if id == 0x27 then s.(status27 := v)
    else if id == 0x2A then s.(status2A := v)
    else if id == 0x2C then s.(status2C := v)
    else if id == 0x2D then s.(status2D := v)
    else s.(status32 := v)
  }

  /** Store a 16-bit tag's value in its field. */
  function SetWordField(s: WBusStatus, id: Byte, v: U16): WBusStatus
    requires IsTwoByteTag(id) || IsMaybeTag(id)
  {
    if id == 0x0E then s.(voltageMv := v)
    else if id == 0x0F then s.(status0F := v)
    else if id == 0x11 then s.(power := v)
    else if id == 0x13 then s.(glowResistanceMohm := v)
    else if id == 0x1E then s.(combustionFan := v)
    else if id == 0x29 then s.(status29 := v)
    else if id == 0x34 then s.(status34 := v)
    else if id == 0x3D then s.(status3D := v)
    else if id == 0x52 then s.(status52 := v)
    else if id == 0x57 then s.(status57 := v)
    else if id == 0x5F then s.(status5F := v)
    else if id == 0x78 then s.(status78 := v)
    else s.(status89 := v)
  }

  /** `parseMaybeU16` at cursor `pos`: two bytes if the byte after them is the
      end or a known tag, else one byte under the same test, else failure.
      Gives the value and the advanced cursor. */
  function MaybeU16(p: seq<Byte>, end: nat, pos: nat): (r: Option<(U16, nat)>)
    requires end <= |p| && pos <= end
    ensures r.Some? ==> pos < r.value.1 <= end
    ensures r.Some? && r.value.1 == pos + 2 ==> r.value.0 == Be16(p[pos], p[pos + 1])
    ensures r.Some? && r.value.1 == pos + 1 ==> r.value.0 == p[pos]
  {
    if pos + 2 <= end && (pos + 2 >= end || IsKnownId(p[pos + 2])) then
      var v: U16 := Be16(p[pos], p[pos + 1]);
      Some((v, pos + 2))
    else if pos + 1 <= end && (pos + 1 >= end || IsKnownId(p[pos + 1])) then
      var v: U16 := p[pos];
      Some((v, pos + 1))
    else None
  }

  /** One tag at `pos` and its value: the cursor after it and the updated
      record, or `None` when the tag is unknown or its value would run past
      `end`. */
  function DecodeField(p: seq<Byte>, end: nat, pos: nat, s: WBusStatus): (r: Option<(nat, WBusStatus)>)
    requires end <= |p| && pos < end
    ensures r.Some? ==> pos < r.value.0 <= end
    ensures !IsKnownId(p[pos]) ==> r.None?
  {
    var id := p[pos];
    var q := pos + 1;
    if IsOneByteTag(id) then
      if q + 1 <= end then Some((q + 1, SetByteField(s, id, p[q]))) else None
    else if id == TEMPERATURE_TAG then
      if q + 1 <= end then Some((q + 1, s.(temperatureC := p[q] as int - 50))) else None
    else if IsTwoByteTag(id) then
      if q + 2 <= end then Some((q + 2, SetWordField(s, id, Be16(p[q], p[q + 1])))) else None
    else if IsMaybeTag(id) then
      match MaybeU16(p, end, q)
      case None => None
      case Some((v, next)) => Some((next, SetWordField(s, id, v)))
    else None
  }

  /** The tag stream from `pos` to `end`, decoded into `s`; fails closed. */
  function ParseFrom(p: seq<Byte>, end: nat, pos: nat, s: WBusStatus): Option<WBusStatus>
    requires end <= |p| && pos <= end
    decreases end - pos
  {
    if pos >= end then Some(s)
    else match DecodeField(p, end, pos, s)
      case None => None
      case Some((next, s')) => ParseFrom(p, end, next, s')
  }

  /** What `tryParseStatusTlv` decodes from a frame: a multi-status answer
      (`0x50` acknowledge, index `0x30`, at least 4 payload bytes) whose tag
      stream, between the index byte and the checksum, decodes completely. */
  function StatusTlv(pkt: WBusPacket): (r: Option<WBusStatus>)
    ensures r.Some? ==> pkt.payloadLen >= 4 && Low7(pkt.payload[0]) == 0x50 && pkt.payload[1] == 0x30
    ensures r.Some? ==> r.value.valid
  {
    if pkt.payloadLen < 4 || Low7(pkt.payload[0]) != 0x50 || pkt.payload[1] != 0x30 then None
    else match ParseFrom(pkt.payload, pkt.payloadLen - 1, 2, DefaultStatus())
      case None => None
      case Some(s) => Some(s.(valid := true))
  }

  /** `tryParseStatusTlv`: the cursor loop. `out` is written only on success. */
  method TryParseStatusTlv(pkt: WBusPacket, out0: WBusStatus) returns (ok: bool, out: WBusStatus)
    ensures ok <==> StatusTlv(pkt).Some?
    ensures ok ==> out == StatusTlv(pkt).value && out.valid
    ensures !ok ==> out == out0
  {
    if pkt.payloadLen < 4 { return false, out0; }
    if Low7(pkt.payload[0]) != 0x50 { return false, out0; }
    if pkt.payload[1] != 0x30 { return false, out0; }
    var p := pkt.payload;
    var s := DefaultStatus();
    var pos: nat := 2;
    var end: nat := pkt.payloadLen - 1;
    while pos < end
      invariant 2 <= pos <= end
      invariant ParseFrom(p, end, pos, s) == ParseFrom(p, end, 2, DefaultStatus())
      decreases end - pos
    {
      var good;
      good, pos, s := ParseField(p, end, pos, s);
      if !good { return false, out0; }
    }
    s := s.(valid := true);
    return true, s;
  }

  /** One pass of the `tryParseStatusTlv` loop: the tag at `pos` and its value. */
  method ParseField(p: seq<Byte>, end: nat, pos0: nat, s0: WBusStatus) returns (ok: bool, pos: nat, s: WBusStatus)
    requires end <= |p| && pos0 < end
    ensures ok <==> DecodeField(p, end, pos0, s0).Some?
    ensures ok ==> DecodeField(p, end, pos0, s0) == Some((pos, s))
  {
    s := s0;
    var id := p[pos0];
    pos := pos0 + 1;
    if IsOneByteTag(id) {
      if !(pos + 1 <= end) { return false, pos, s; }
      s := SetByteField(s, id, p[pos]);
      pos := pos + 1;
    } else if id == TEMPERATURE_TAG {
      if !(pos + 1 <= end) { return false, pos, s; }
      s := s.(temperatureC := p[pos] as int - 50);
      pos := pos + 1;
    } else if IsTwoByteTag(id) {
      if !(pos + 2 <= end) { return false, pos, s; }
      s := SetWordField(s, id, Be16(p[pos], p[pos + 1]));
      pos := pos + 2;
    } else if IsMaybeTag(id) {
      var m := MaybeU16(p, end, pos);
      if m.None? { return false, pos, s; }
      s := SetWordField(s, id, m.value.0);
      pos := m.value.1;
    } else {
      return false, pos, s;
    }
    ok := true;
  }

  /** Only bytes before `end` are read: the checksum and the unused tail of
      the buffer never influence the decode. */
  lemma {:induction false} ParseFromLocal(p: seq<Byte>, q: seq<Byte>, end: nat, pos: nat, s: WBusStatus)
    requires end <= |p| && end <= |q| && pos <= end
    requires p[..end] == q[..end]
    ensures ParseFrom(p, end, pos, s) == ParseFrom(q, end, pos, s)
    decreases end - pos
  {
    if pos < end {
      forall i | 0 <= i < end
        ensures p[i] == q[i]
      {
        assert p[..end][i] == q[..end][i];
      }
      assert DecodeField(p, end, pos, s) == DecodeField(q, end, pos, s);
      match DecodeField(p, end, pos, s)
      case None =>
      case Some((next, s')) => ParseFromLocal(p, q, end, next, s');
    }
  }

  /** Replacing the checksum byte leaves the decode unchanged. */
  lemma StatusTlvIgnoresChecksum(pkt: WBusPacket, b: Byte)
    requires pkt.payloadLen >= 1
    ensures StatusTlv(pkt.(payload := pkt.payload[pkt.payloadLen - 1 := b])) == StatusTlv(pkt)
  {
    var q := pkt.(payload := pkt.payload[pkt.payloadLen - 1 := b]);
    var end := pkt.payloadLen - 1;
    assert q.payload[..end] == pkt.payload[..end];
    if pkt.payloadLen >= 4 {
      ParseFromLocal(pkt.payload, q.payload, end, 2, DefaultStatus());
    }
  }

  /** An unknown tag where a tag is expected fails the whole decode. */
  lemma UnknownTagFails(p: seq<Byte>, end: nat, pos: nat, s: WBusStatus)
    requires end <= |p| && pos < end && !IsKnownId(p[pos])
    ensures ParseFrom(p, end, pos, s).None?
  {
  }

  /** A fixed-width value that would run past `end` fails the whole decode. */
  lemma TruncatedFieldFails(p: seq<Byte>, end: nat, pos: nat, s: WBusStatus)
    requires end <= |p| && pos < end
    requires ((IsOneByteTag(p[pos]) || p[pos] == TEMPERATURE_TAG) && pos + 2 > end)
             || (IsTwoByteTag(p[pos]) && pos + 3 > end)
    ensures ParseFrom(p, end, pos, s).None?
  {
  }

  /** Successive decoding: a decoded tag hands the rest of the stream to the
      next tag, so the result is the fold over the whole stream. */
  lemma ParseFromStep(p: seq<Byte>, end: nat, pos: nat, s: WBusStatus)
    requires end <= |p| && pos < end
    ensures ParseFrom(p, end, pos, s).Some? ==>
      DecodeField(p, end, pos, s).Some? &&
      ParseFrom(p, end, DecodeField(p, end, pos, s).value.0, DecodeField(p, end, pos, s).value.1)
        == ParseFrom(p, end, pos, s)
  {
  }

  /** The width heuristic prefers two bytes whenever the byte after them is a
      known tag or the end, and otherwise takes one byte only under the same
      test on the byte after it. */
  lemma MaybeU16Choice(p: seq<Byte>, end: nat, pos: nat)
    requires end <= |p| && pos <= end
    ensures pos + 2 <= end && (pos + 2 == end || IsKnownId(p[pos + 2])) ==>
      MaybeU16(p, end, pos) == Some((Be16(p[pos], p[pos + 1]), pos + 2))
    ensures MaybeU16(p, end, pos).Some? && MaybeU16(p, end, pos).value.1 == pos + 1 ==>
      pos + 1 == end || IsKnownId(p[pos + 1])
    ensures MaybeU16(p, end, pos).None? ==>
      (pos + 2 > end || (pos + 2 < end && !IsKnownId(p[pos + 2]))) &&
      (pos + 1 > end || (pos + 1 < end && !IsKnownId(p[pos + 1])))
  {
  }

  /** The heuristic can misjudge a genuine one-byte value: `57 05 | 01 07`
      (tag 0x57 = 5, then tag 0x01 = 7) reads as 0x57 = 0x0501 followed by
      the tag 0x07 with no value, so the whole decode fails. */
  lemma MaybeU16Misreads()
    ensures var p := [0x57, 0x05, 0x01, 0x07];
      MaybeU16(p, 4, 1) == Some((0x0501, 3)) && ParseFrom(p, 4, 0, DefaultStatus()).None?
  {
    var p: seq<Byte> := [0x57, 0x05, 0x01, 0x07];
    assert DecodeField(p, 4, 0, DefaultStatus()).Some?;
    assert DecodeField(p, 4, 0, DefaultStatus()).value.0 == 3;
  }

  /** The multi-status example frame `4F 0B | D0 30 0C 4B 0E 30 68 11 02 BC | 1A`. */
  function ExamplePacket(): WBusPacket
  {
    PacketRecord(RX_HEADER, 11,
      [0xD0, 0x30, 0x0C, 0x4B, 0x0E, 0x30, 0x68, 0x11, 0x02, 0xBC, 0x1A] + Zeros(245), 11)
  }

  /** It decodes to 25 degrees C, 12392 mV and power 700, every other field at its default. */
  lemma ExampleDecodes()
    ensures StatusTlv(ExamplePacket()) ==
      Some(DefaultStatus().(valid := true, temperatureC := 25, voltageMv := 12392, power := 700))
  {
    var pkt := ExamplePacket();
    var p := pkt.payload;
    var s0 := DefaultStatus();
    var s1 := s0.(temperatureC := 25);
    var s2 := s1.(voltageMv := 12392);
    var s3 := s2.(power := 700);
    assert p[2] == 0x0C && p[3] == 0x4B && p[4] == 0x0E && p[5] == 0x30;
    assert p[6] == 0x68 && p[7] == 0x11 && p[8] == 0x02 && p[9] == 0xBC;
    assert DecodeField(p, 10, 2, s0) == Some((4, s1));
    assert DecodeField(p, 10, 4, s1) == Some((7, s2));
    assert DecodeField(p, 10, 7, s2) == Some((10, s3));
    assert ParseFrom(p, 10, 7, s2) == Some(s3);
    assert ParseFrom(p, 10, 4, s1) == Some(s3);
    assert ParseFrom(p, 10, 2, s0) == Some(s3);
  }

  // ---------------------------------------------------------------------
  // The bus object

  /** `WBusSimple`: the framer members plus the break flag, with the serial
      port's transmit side recorded in `tx`. */
  class WBusSimple {
    var rxState: RxState
    var rxInProgress: WBusPacket
    var rxIndex: U16
    var havePacket: bool
    var packetQueue: WBusPacket
    var didBreak: bool
    /** Every byte written to the bus, oldest first. */
    var tx: seq<Byte>

    function Framing(): Framer
      reads this
    {
      Framer(rxState, rxInProgress, rxIndex, havePacket, packetQueue)
    }

    predicate Valid()
      reads this
    {
      Inv(Framing())
    }

    constructor ()
      ensures Valid() && Framing() == InitialFramer()
      ensures !didBreak && tx == []
    {
      rxState := FindHeader;
      rxInProgress := EmptyPacket();
      rxIndex := 0;
      havePacket := false;
      packetQueue := EmptyPacket();
      didBreak := false;
      tx := [];
    }

    /** `begin`: the configured pins are valid, so the port opens and the
        framer restarts at the header hunt with an empty slot. */
    method Begin() returns (ok: bool)
      modifies this
      ensures ok && Valid()
      ensures rxState == FindHeader && rxIndex == 0 && !havePacket && !didBreak
      ensures rxInProgress == old(rxInProgress) && packetQueue == old(packetQueue) && tx == old(tx)
    {
      didBreak := false;
      rxState := FindHeader;
      rxIndex := 0;
      havePacket := false;
      return true;
    }

    /** `sendCommand`: writes exactly one frame and always succeeds. The first
        call also marks the break pulse as sent. */
    method SendCommand(cmd: Byte, data: seq<Byte>) returns (ok: bool)
      requires |data| <= 255
      modifies this`tx, this`didBreak
      ensures ok && didBreak
      ensures tx == old(tx) + Frame(TX_HEADER, cmd, data)
    {
      if !didBreak {
        didBreak := true;
      }
      var header := MakeHeader(WBUS_ADDR_CONTROLLER, WBUS_ADDR_HEATER);
      HeaderDirections();
      var length := Wrap8(|data| + 2);
      var csum := FrameChecksum(header, length, cmd, data);
      FrameOfParts(cmd, data, csum);
      tx := tx + ([header, length, cmd] + data + [csum]);
      return true;
    }

    /** `startParkingHeater`: command 0x21 with the run time in minutes. */
    method StartParkingHeater(minutes: Byte) returns (ok: bool)
      modifies this`tx, this`didBreak
      ensures ok && didBreak
      ensures tx == old(tx) + Frame(TX_HEADER, 0x21, [minutes])
    {
      ok := SendCommand(0x21, [minutes]);
    }

    /** `stop`: command 0x10 without data. */
    method Stop() returns (ok: bool)
      modifies this`tx, this`didBreak
      ensures ok && didBreak
      ensures tx == old(tx) + Frame(TX_HEADER, 0x10, [])
    {
      ok := SendCommand(0x10, []);
    }

    /** `requestStatusMulti`: 1 to 64 ids, sent as command 0x50 with data
        `0x30 · ids`; anything else is refused without touching the bus. */
    method RequestStatusMulti(ids: seq<Byte>) returns (ok: bool)
      requires |ids| <= 255
      modifies this`tx, this`didBreak
      ensures ok <==> 1 <= |ids| <= 64
      ensures ok ==> didBreak && tx == old(tx) + Frame(TX_HEADER, 0x50, [0x30] + ids)
      ensures !ok ==> tx == old(tx) && didBreak == old(didBreak)
    {
      if |ids| == 0 { return false; }
      if |ids| > 64 { return false; }
      var buf := [0x30] + ids;
      ok := SendCommand(0x50, buf);
    }

    /** `sendKeepAlive`: command 0x44 with data `2A 00`. */
    method SendKeepAlive() returns (ok: bool)
      modifies this`tx, this`didBreak
      ensures ok && didBreak
      ensures tx == old(tx) + Frame(TX_HEADER, 0x44, [0x2A, 0x00])
    {
      ok := SendCommand(0x44, [0x2A, 0x00]);
    }

    /** `poll`: every available byte goes through the framer in order. */
    method Poll(input: seq<Byte>)
      requires Valid()
      modifies this`rxState, this`rxInProgress, this`rxIndex, this`havePacket, this`packetQueue
      ensures Valid()
      ensures Framing() == FeedAll(old(Framing()), input)
    {
      var i := 0;
      while i < |input|
        invariant 0 <= i <= |input|
        invariant Valid()
        invariant FeedAll(Framing(), input[i..]) == FeedAll(old(Framing()), input)
      {
        var b := input[i];
        PollByte(b);
        assert input[i..][0] == b && input[i..][1..] == input[i + 1..];
        i := i + 1;
      }
      assert input[i..] == [];
    }

    /** One byte of the `poll` loop through the receive state machine. */
    method PollByte(b: Byte)
      requires Valid()
      modifies this`rxState, this`rxInProgress, this`rxIndex, this`havePacket, this`packetQueue
      ensures Valid()
      ensures Framing() == Step(old(Framing()), b)
    {
      match rxState {
        case FindHeader =>
          var txh := MakeHeader(WBUS_ADDR_CONTROLLER, WBUS_ADDR_HEATER);
          var rxh := MakeHeader(WBUS_ADDR_HEATER, WBUS_ADDR_CONTROLLER);
          if b == txh || b == rxh {
            rxInProgress := EmptyPacket();
            rxInProgress := rxInProgress.(header := b);
            rxState := ReadLength;
          }
        case ReadLength =>
          rxInProgress := rxInProgress.(length := b);
          rxInProgress := rxInProgress.(payloadLen := 0);
          rxIndex := 0;
          if b < 2 || b > WBUS_MAX_LEN || b > PAYLOAD_CAPACITY {
            rxState := FindHeader;
          } else {
            rxInProgress := rxInProgress.(payloadLen := b);
            rxState := ReadPayload;
          }
        case ReadPayload =>
          if rxIndex < rxInProgress.payloadLen {
            rxInProgress := rxInProgress.(payload := rxInProgress.payload[rxIndex := b]);
            rxIndex := rxIndex + 1;
          }
          if rxIndex >= rxInProgress.payloadLen {
            var expected := Checksum(rxInProgress);
            var got := rxInProgress.payload[rxInProgress.payloadLen - 1];
            if expected == got {
              packetQueue := rxInProgress;
              havePacket := true;
            }
            rxState := FindHeader;
            rxIndex := 0;
          }
      }
    }

    /** `popPacket`: the queued frame, once; `out` is untouched when the slot is empty. */
    method PopPacket(prev: WBusPacket) returns (ok: bool, out: WBusPacket)
      modifies this`havePacket
      ensures (Framing(), if ok then Some(out) else None) == PopSlot(old(Framing()))
      ensures !ok ==> out == prev
    {
      if !havePacket { return false, prev; }
      out := packetQueue;
      havePacket := false;
      return true, out;
    }

    /** `readOperatingState`: asks for page 0x07, then scans the packets the
        reads deliver within the response window. */
    method ReadOperatingState(responses: seq<WBusPacket>, prevOp: Byte) returns (ok: bool, op: Byte)
      modifies this`tx, this`didBreak
      ensures didBreak && tx == old(tx) + Frame(TX_HEADER, 0x50, [0x07])
      ensures ok <==> FirstOpState(responses).Some?
      ensures op == if ok then FirstOpState(responses).value else prevOp
    {
      var sent := SendCommand(0x50, [0x07]);
      var found, v := ScanOpState(responses);
      if !found { return false, prevOp; }
      return true, v;
    }
  }
}
