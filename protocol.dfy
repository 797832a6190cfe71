/** The LoRa wire packet: a 10-byte header, a 32-byte payload union and a
    CRC, the enumeration codes carried in it, `calcCrc` and `validate`.
    Numeric fields are little-endian in memory, as on the ESP32. */
module Protocol {
  import opened Bytes
  import opened Wrappers

  /** `kMagic` ('WLR1') and `kVersion`. */
  const MAGIC: U32 := 0x574C5231
  const VERSION: Byte := 2

  const HEADER_SIZE: nat := 10
  const UNION_SIZE: nat := 32
  const CRC_SIZE: nat := 2
  const COMMAND_PAYLOAD_SIZE: nat := 2
  const STATUS_PAYLOAD_SIZE: nat := 14
  /** `sizeof(Packet)`: the layout is packed, so the parts add up. */
  const PACKET_SIZE: nat := HEADER_SIZE + UNION_SIZE + CRC_SIZE

  /** The `static_assert` on the packet size, and both payloads fit the union. */
  lemma PacketSizeLimits()
    ensures PACKET_SIZE == 44 && PACKET_SIZE <= 64
    ensures COMMAND_PAYLOAD_SIZE <= UNION_SIZE && STATUS_PAYLOAD_SIZE <= UNION_SIZE
  {
  }

  // ---------------------------------------------------------------------
  // Enumerations and their wire codes

  datatype MsgType = Command | Status | Ack

  function MsgTypeCode(t: MsgType): Byte
  {
    match t
    case Command => 1
    case Status => 2
    case Ack => 3
  }

  function MsgTypeOf(b: Byte): (r: Option<MsgType>)
    ensures r.Some? ==> MsgTypeCode(r.value) == b
    ensures r.None? ==> b != 1 && b != 2 && b != 3
  {
    if b == 1 then Some(Command) else if b == 2 then Some(Status) else if b == 3 then Some(Ack) else None
  }

  lemma MsgTypeCodeRoundTrip(t: MsgType)
    ensures MsgTypeOf(MsgTypeCode(t)) == Some(t)
  {
  }

  datatype CommandKind = Stop | Start | RunMinutes

  function CommandKindCode(k: CommandKind): Byte
  {
    match k
    case Stop => 1
    case Start => 2
    case RunMinutes => 3
  }

  function CommandKindOf(b: Byte): (r: Option<CommandKind>)
    ensures r.Some? ==> CommandKindCode(r.value) == b
    ensures r.None? ==> b != 1 && b != 2 && b != 3
  {
    if b == 1 then Some(Stop) else if b == 2 then Some(Start) else if b == 3 then Some(RunMinutes) else None
  }

  lemma CommandKindCodeRoundTrip(k: CommandKind)
    ensures CommandKindOf(CommandKindCode(k)) == Some(k)
  {
  }

  datatype HeaterState = Unknown | Off | Running | Error

  function HeaterStateCode(s: HeaterState): Byte
  {
    match s
    case Unknown => 0
    case Off => 1
    case Running => 2
    case Error => 3
  }

  function HeaterStateOf(b: Byte): (r: Option<HeaterState>)
    ensures r.Some? ==> HeaterStateCode(r.value) == b
    ensures r.None? ==> b > 3
  {
    if b == 0 then Some(Unknown) else if b == 1 then Some(Off)
    else if b == 2 then Some(Running) else if b == 3 then Some(Error) else None
  }

  lemma HeaterStateCodeRoundTrip(s: HeaterState)
    ensures HeaterStateOf(HeaterStateCode(s)) == Some(s)
  {
  }

  // ---------------------------------------------------------------------
  // Header and packet layout

  /** `PacketHeader`. The type is kept as the raw byte the memory holds,
      since a received header may carry any value there. */
  datatype Header = Header(magic: U32, version: Byte, msgType: Byte, src: Byte, dst: Byte, seqNo: U16)

  /** The header's 10 bytes in memory order. */
  function HeaderBytes(h: Header): (r: seq<Byte>)
    ensures |r| == HEADER_SIZE
  {
    Le32(h.magic) + [h.version, h.msgType, h.src, h.dst] + Le16(h.seqNo)
  }

  /** The `memcpy` of 10 received bytes into a header. */
  function HeaderOfBytes(s: seq<Byte>): Header
    requires |s| == HEADER_SIZE
  {
    Header(FromLe32(s[..4]), s[4], s[5], s[6], s[7], FromLe16(s[8..]))
  }

  lemma HeaderRoundTrip(h: Header)
    ensures HeaderOfBytes(HeaderBytes(h)) == h
  {
    var s := HeaderBytes(h);
    assert s[..4] == Le32(h.magic);
    assert s[8..] == Le16(h.seqNo);
    FromLe32OfLe32(h.magic);
    FromLe16OfLe16(h.seqNo);
  }

  lemma HeaderBytesRoundTrip(s: seq<Byte>)
    requires |s| == HEADER_SIZE
    ensures HeaderBytes(HeaderOfBytes(s)) == s
  {
    Le32OfFromLe32(s[..4]);
    Le16OfFromLe16(s[8..]);
    assert s == s[..4] + [s[4], s[5], s[6], s[7]] + s[8..];
  }

  datatype PacketRecord = PacketRecord(h: Header, p: seq<Byte>, crc: U16)

  /** `Packet`: the union is always 32 bytes. */
  type Packet = r: PacketRecord | |r.p| == UNION_SIZE
    witness PacketRecord(Header(0, 0, 0, 0, 0, 0), seq(32, _ => 0), 0)

  /** `Packet{}`: every byte zero. */
  function ZeroPacket(): (pkt: Packet)
    ensures pkt.h == Header(0, 0, 0, 0, 0, 0) && pkt.crc == 0
    ensures forall i :: 0 <= i < UNION_SIZE ==> pkt.p[i] == 0
  {
    PacketRecord(Header(0, 0, 0, 0, 0, 0), Zeros(UNION_SIZE), 0)
  }

  /** The packet's bytes in memory order. */
  function PacketBytes(pkt: Packet): (r: seq<Byte>)
    ensures |r| == PACKET_SIZE
  {
    HeaderBytes(pkt.h) + pkt.p + Le16(pkt.crc)
  }

  /** `crc16_ccitt`: its body is not part of this model. */
  type Crc16 = seq<Byte> -> U16

  /** `calcCrc`: the CRC of every packet byte before the trailing `crc` field. */
  function CalcCrc(crc16: Crc16, pkt: Packet): U16
  {
    crc16(PacketBytes(pkt)[..PACKET_SIZE - CRC_SIZE])
  }

  /** The covered bytes are exactly header and union: the `crc` field never
      influences the CRC, and the covered bytes determine header and union. */
  lemma CalcCrcCoverage(crc16: Crc16, a: Packet, b: Packet)
    ensures a.h == b.h && a.p == b.p ==> CalcCrc(crc16, a) == CalcCrc(crc16, b)
    ensures PacketBytes(a)[..PACKET_SIZE - CRC_SIZE] == PacketBytes(b)[..PACKET_SIZE - CRC_SIZE] ==>
      a.h == b.h && a.p == b.p
  {
    assert PacketBytes(a)[..PACKET_SIZE - CRC_SIZE] == HeaderBytes(a.h) + a.p;
    assert PacketBytes(b)[..PACKET_SIZE - CRC_SIZE] == HeaderBytes(b.h) + b.p;
    if HeaderBytes(a.h) + a.p == HeaderBytes(b.h) + b.p {
      assert HeaderBytes(a.h) == (HeaderBytes(a.h) + a.p)[..HEADER_SIZE];
      assert HeaderBytes(b.h) == (HeaderBytes(b.h) + b.p)[..HEADER_SIZE];
      assert a.p == (HeaderBytes(a.h) + a.p)[HEADER_SIZE..];
      assert b.p == (HeaderBytes(b.h) + b.p)[HEADER_SIZE..];
      HeaderRoundTrip(a.h);
      HeaderRoundTrip(b.h);
    }
  }

  /** `validate`: magic, version and CRC, checked in that order. */
  function Validate(crc16: Crc16, pkt: Packet): (r: bool)
    ensures pkt.h.magic != MAGIC ==> !r
    ensures pkt.h.version != VERSION ==> !r
    ensures pkt.h.magic == MAGIC && pkt.h.version == VERSION ==> (r <==> pkt.crc == CalcCrc(crc16, pkt))
  {
    if pkt.h.magic != MAGIC then false
    else if pkt.h.version != VERSION then false
    else pkt.crc == CalcCrc(crc16, pkt)
  }

  /** Stamping a packet with its own CRC makes it valid exactly when magic
      and version are right, whatever the CRC function. */
  lemma StampedValidates(crc16: Crc16, pkt: Packet)
    ensures Validate(crc16, pkt.(crc := CalcCrc(crc16, pkt))) <==>
      pkt.h.magic == MAGIC && pkt.h.version == VERSION
  {
    CalcCrcCoverage(crc16, pkt, pkt.(crc := CalcCrc(crc16, pkt)));
  }

  // ---------------------------------------------------------------------
  // Payload views of the union

  /** `CommandPayload`, as raw bytes. */
  datatype CommandPayload = CommandPayload(kind: Byte, minutes: Byte)

  function CommandOf(p: seq<Byte>): CommandPayload
    requires |p| >= COMMAND_PAYLOAD_SIZE
  {
    CommandPayload(p[0], p[1])
  }

  /** Writing `pkt.p.cmd`: the first two union bytes. */
  function WithCommand(pkt: Packet, c: CommandPayload): (r: Packet)
    ensures r.h == pkt.h && r.crc == pkt.crc && CommandOf(r.p) == c
    ensures r.p[COMMAND_PAYLOAD_SIZE..] == pkt.p[COMMAND_PAYLOAD_SIZE..]
  {
    pkt.(p := [c.kind, c.minutes] + pkt.p[COMMAND_PAYLOAD_SIZE..])
  }

  /** `StatusPayload` with the acknowledged sequence number at offset 6. */
  datatype StatusPayload = StatusPayload(
    state: Byte, minutesRemaining: Byte, lastRssiDbm: I8, lastSnrDb: I8,
    lastWbusOpState: Byte, lastErrorCode: Byte, lastCmdSeq: U16,
    temperatureC: I16, voltageMv: U16, power: U16)

  /** `StatusPayload{}`: every byte zero. */
  function ZeroStatus(): StatusPayload
  {
    StatusPayload(0, 0, 0, 0, 0, 0, 0, 0, 0, 0)
  }

  function StatusBytes(s: StatusPayload): (r: seq<Byte>)
    ensures |r| == STATUS_PAYLOAD_SIZE
  {
    [s.state, s.minutesRemaining, I8Bits(s.lastRssiDbm), I8Bits(s.lastSnrDb),
     s.lastWbusOpState, s.lastErrorCode] +
    Le16(s.lastCmdSeq) + Le16(I16Bits(s.temperatureC)) + Le16(s.voltageMv) + Le16(s.power)
  }

  /** Reading `pkt.p.status`. */
  function StatusOf(p: seq<Byte>): StatusPayload
    requires |p| >= STATUS_PAYLOAD_SIZE
  {
    StatusPayload(p[0], p[1], I8OfBits(p[2]), I8OfBits(p[3]), p[4], p[5],
      FromLe16(p[6..8]), I16OfBits(FromLe16(p[8..10])), FromLe16(p[10..12]), FromLe16(p[12..14]))
  }

  lemma StatusRoundTrip(s: StatusPayload)
    ensures StatusOf(StatusBytes(s)) == s
  {
    var b := StatusBytes(s);
    assert b[6..8] == Le16(s.lastCmdSeq);
    assert b[8..10] == Le16(I16Bits(s.temperatureC));
    assert b[10..12] == Le16(s.voltageMv);
    assert b[12..14] == Le16(s.power);
    FromLe16OfLe16(s.lastCmdSeq);
    FromLe16OfLe16(I16Bits(s.temperatureC));
    FromLe16OfLe16(s.voltageMv);
    FromLe16OfLe16(s.power);
    I8RoundTrip(s.lastRssiDbm);
    I8RoundTrip(s.lastSnrDb);
    I16RoundTrip(s.temperatureC);
  }

  /** Writing `pkt.p.status`: the first 14 union bytes. */
  function WithStatus(pkt: Packet, s: StatusPayload): (r: Packet)
    ensures r.h == pkt.h && r.crc == pkt.crc && StatusOf(r.p) == s
    ensures r.p[STATUS_PAYLOAD_SIZE..] == pkt.p[STATUS_PAYLOAD_SIZE..]
  {
    StatusRoundTrip(s);
    assert (StatusBytes(s) + pkt.p[STATUS_PAYLOAD_SIZE..])[..STATUS_PAYLOAD_SIZE] == StatusBytes(s);
    pkt.(p := StatusBytes(s) + pkt.p[STATUS_PAYLOAD_SIZE..])
  }

  // ---------------------------------------------------------------------
  // Functions the link layer uses that are declared elsewhere

  /** `crc16_ccitt`, `getPayloadSize` (by header), and `encryptPacket` /
      `decryptPacket` as transforms of the union given the header. */
  datatype Externals = Externals(
    crc16: Crc16,
    payloadSize: Header -> nat,
    encrypt: (Header, seq<Byte>) -> seq<Byte>,
    decrypt: (Header, seq<Byte>) -> seq<Byte>)

  /** What the link layer relies on: payload sizes fit the union, the
      transforms keep the union's size, and decryption undoes encryption
      under the same header. */
  ghost predicate Sound(ext: Externals)
  {
    (forall h :: ext.payloadSize(h) <= UNION_SIZE) &&
    (forall h, u :: |u| == UNION_SIZE ==> |ext.encrypt(h, u)| == UNION_SIZE) &&
    (forall h, u :: |u| == UNION_SIZE ==> |ext.decrypt(h, u)| == UNION_SIZE) &&
    (forall h, u :: |u| == UNION_SIZE ==> ext.decrypt(h, ext.encrypt(h, u)) == u)
  }

  /** `encryptPacket`: only the union changes. */
  function EncryptPacket(ext: Externals, pkt: Packet): (r: Packet)
    requires Sound(ext)
    ensures r.h == pkt.h && r.crc == pkt.crc
  {
    pkt.(p := ext.encrypt(pkt.h, pkt.p))
  }

  /** `decryptPacket`: only the union changes. */
  function DecryptPacket(ext: Externals, pkt: Packet): (r: Packet)
    requires Sound(ext)
    ensures r.h == pkt.h && r.crc == pkt.crc
  {
    pkt.(p := ext.decrypt(pkt.h, pkt.p))
  }

  lemma DecryptEncryptPacket(ext: Externals, pkt: Packet)
    requires Sound(ext)
    ensures DecryptPacket(ext, EncryptPacket(ext, pkt)) == pkt
  {
  }
}
