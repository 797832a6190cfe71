/** The plain records of the W-BUS layer: the raw frame, the decoded
    multi-status snapshot and the frame checksum. */
module WBusTypes {
  import opened Bytes

  /** Header of a controller -> heater frame (source nibble 0xF, destination 0x4). */
  const TX_HEADER: Byte := 0xF4
  /** Header of a heater -> controller frame (source nibble 0x4, destination 0xF). */
  const RX_HEADER: Byte := 0x4F
  /** Size of the frame record's payload buffer. */
  const PAYLOAD_CAPACITY: nat := 256

  /** A W-BUS frame as the framer stores it. `length` is the wire length byte
      (payload bytes plus the checksum byte); `payloadLen` the number of valid
      bytes of `payload`, the last of which is the checksum. */
  datatype PacketRecord = PacketRecord(header: Byte, length: Byte, payload: seq<Byte>, payloadLen: Byte)

  /** The C struct always carries a 256-byte buffer. */
  type WBusPacket = p: PacketRecord | |p.payload| == PAYLOAD_CAPACITY
    witness PacketRecord(0, 0, seq(256, _ => 0), 0)

  /** `WBusPacket{}`: every member zero. */
  function EmptyPacket(): (p: WBusPacket)
    ensures p.header == 0 && p.length == 0 && p.payloadLen == 0
    ensures forall i :: 0 <= i < PAYLOAD_CAPACITY ==> p.payload[i] == 0
  {
    PacketRecord(0, 0, Zeros(PAYLOAD_CAPACITY), 0)
  }

  /** The checksum the frame should carry: XOR of the header, the length byte
      and every payload byte before the checksum byte. */
  function ChecksumOf(p: WBusPacket): Byte
  {
    if p.payloadLen == 0 then Xor(p.header, p.length)
    else XorAll([p.header, p.length] + p.payload[..p.payloadLen - 1])
  }

  /** `WBusPacket::checksum()`. */
  method Checksum(p: WBusPacket) returns (x: Byte)
    ensures x == ChecksumOf(p)
    ensures p.payloadLen == 0 ==> x == Xor(p.header, p.length)
  {
    x := 0;
    x := Xor(x, p.header);
    x := Xor(x, p.length);
    XorZero(p.header);
    ghost var prefix := [p.header, p.length];
    XorAllPair(p.header, p.length);
    if p.payloadLen == 0 {
      return;
    }
    var n := p.payloadLen - 1;
    for i := 0 to n
      invariant x == XorAll(prefix + p.payload[..i])
    {
      ghost var done := prefix + p.payload[..i];
      assert prefix + p.payload[..i + 1] == done + [p.payload[i]];
      XorAllSnoc(done, p.payload[i]);
      x := Xor(x, p.payload[i]);
    }
  }

  /** The checksum byte itself never feeds into the checksum. */
  lemma ChecksumIgnoresLastByte(p: WBusPacket, b: Byte)
    requires p.payloadLen > 0
    ensures ChecksumOf(p.(payload := p.payload[p.payloadLen - 1 := b])) == ChecksumOf(p)
  {
    var q := p.(payload := p.payload[p.payloadLen - 1 := b]);
    assert q.payload[..q.payloadLen - 1] == p.payload[..p.payloadLen - 1];
  }

  /** Decoded multi-status snapshot (`WBusStatus`). */
  datatype WBusStatus = WBusStatus(
    valid: bool,
    temperatureC: I16,
    voltageMv: U16,
    power: U16,
    glowResistanceMohm: U16,
    combustionFan: U16,
    status01: Byte, status03: Byte, status05: Byte, status06: Byte,
    status07: Byte, status08: Byte, status0A: Byte, status0F: U16,
    status10: Byte, status1F: Byte, status24: Byte, status27: Byte,
    status29: U16, status2A: Byte, status2C: Byte, status2D: Byte,
    status32: Byte, status34: U16,
    status3D: U16, status52: U16, status57: U16, status5F: U16,
    status78: U16, status89: U16)

  /** The default-initialised `WBusStatus`. */
  function DefaultStatus(): (s: WBusStatus)
    ensures !s.valid && s.temperatureC == INT16_MIN
    ensures s.voltageMv == 0 && s.power == 0 && s.glowResistanceMohm == 0 && s.combustionFan == 0
    ensures s.status01 == 0 && s.status03 == 0 && s.status05 == 0 && s.status06 == 0
    ensures s.status07 == 0 && s.status08 == 0 && s.status0A == 0 && s.status0F == 0
    ensures s.status10 == 0 && s.status1F == 0 && s.status24 == 0 && s.status27 == 0
    ensures s.status29 == 0 && s.status2A == 0 && s.status2C == 0 && s.status2D == 0
    ensures s.status32 == 0 && s.status34 == 0
    ensures s.status3D == 0 && s.status52 == 0 && s.status57 == 0 && s.status5F == 0
    ensures s.status78 == 0 && s.status89 == 0
  {
    WBusStatus(false, INT16_MIN, 0, 0, 0, 0,
      0, 0, 0, 0, 0, 0, 0, 0, 0, 0, 0, 0, 0, 0, 0, 0, 0, 0,
      0, 0, 0, 0, 0, 0)
  }
}
