/** `LoRaLink`: the byte layout `send` hands to the radio and the parsing
    and validation `recv` applies to a received buffer. The radio itself is
    an input: whether each driver call succeeded, and the bytes of a
    received packet. */
module LoRaLinkLayer {
  import opened Bytes
  import opened Protocol
  import opened Crypto

  /** Header and CRC only, and header, status payload and CRC (12 and 26). */
  const MIN_PACKET_SIZE: nat := HEADER_SIZE + CRC_SIZE
  const MAX_PACKET_SIZE: nat := HEADER_SIZE + STATUS_PAYLOAD_SIZE + CRC_SIZE

  lemma PacketSizeBounds()
    ensures MIN_PACKET_SIZE == 12 && MAX_PACKET_SIZE == 26
  {
  }

  /** The copy `send` transmits: its union encrypted, its CRC recomputed. */
  function Sealed(ext: Externals, pkt: Packet): (r: Packet)
    requires Sound(ext)
    ensures r.h == pkt.h && r.p == ext.encrypt(pkt.h, pkt.p)
    ensures Validate(ext.crc16, r) <==> pkt.h.magic == MAGIC && pkt.h.version == VERSION
  {
    var e := EncryptPacket(ext, pkt);
    StampedValidates(ext.crc16, e);
    e.(crc := CalcCrc(ext.crc16, e))
  }

  /** The bytes `send` writes: header, the type-sized prefix of the
      encrypted union, CRC. The header travels in clear. */
  function WireBytes(ext: Externals, pkt: Packet): (r: seq<Byte>)
    requires Sound(ext)
    ensures |r| == HEADER_SIZE + ext.payloadSize(pkt.h) + CRC_SIZE
    ensures r[..HEADER_SIZE] == HeaderBytes(pkt.h)
    ensures r[HEADER_SIZE..|r| - CRC_SIZE] == ext.encrypt(pkt.h, pkt.p)[..ext.payloadSize(pkt.h)]
  {
    var s := Sealed(ext, pkt);
    HeaderBytes(s.h) + s.p[..ext.payloadSize(s.h)] + Le16(s.crc)
  }

  /** `recv`'s parse of a buffer of acceptable size: the header, the
      payload bytes copied to the front of the union with the rest zeroed,
      and the trailing CRC. */
  function Parse(raw: seq<Byte>): (r: Packet)
    requires MIN_PACKET_SIZE <= |raw| <= MAX_PACKET_SIZE
    ensures HeaderBytes(r.h) == raw[..HEADER_SIZE]
    ensures r.p[..|raw| - MIN_PACKET_SIZE] == raw[HEADER_SIZE..|raw| - CRC_SIZE]
    ensures forall i :: |raw| - MIN_PACKET_SIZE <= i < UNION_SIZE ==> r.p[i] == 0
    ensures Le16(r.crc) == raw[|raw| - CRC_SIZE..]
  {
    HeaderBytesRoundTrip(raw[..HEADER_SIZE]);
    Le16OfFromLe16(raw[|raw| - CRC_SIZE..]);
    var body := raw[HEADER_SIZE..|raw| - CRC_SIZE];
    assert (body + Zeros(UNION_SIZE - |body|))[..|body|] == body;
    PacketRecord(HeaderOfBytes(raw[..HEADER_SIZE]), body + Zeros(UNION_SIZE - |body|),
      FromLe16(raw[|raw| - CRC_SIZE..]))
  }

  datatype RecvOutcome =
    | Rejected              // wrong size: the caller's packet is untouched
    | Invalid(parsed: Packet) // parsed but failed validation, left encrypted
    | Received(pkt: Packet)   // validated, then decrypted

  /** What `recv` does with a received buffer. */
  function Receive(ext: Externals, raw: seq<Byte>): (r: RecvOutcome)
    requires Sound(ext)
    ensures r.Rejected? <==> |raw| < MIN_PACKET_SIZE || |raw| > MAX_PACKET_SIZE
    ensures r.Invalid? ==> !Validate(ext.crc16, r.parsed) && r.parsed == Parse(raw)
    ensures r.Received? ==> Validate(ext.crc16, Parse(raw)) && r.pkt == DecryptPacket(ext, Parse(raw))
  {
    if |raw| < MIN_PACKET_SIZE || |raw| > MAX_PACKET_SIZE then Rejected
    else if !Validate(ext.crc16, Parse(raw)) then Invalid(Parse(raw))
    else Received(DecryptPacket(ext, Parse(raw)))
  }

  /** Parsing undoes the layout when the encrypted union is zero beyond the
      transmitted prefix (the receiver zero-fills that part before checking
      the CRC). */
  lemma ParseWireBytes(ext: Externals, pkt: Packet)
    requires Sound(ext)
    requires ext.payloadSize(pkt.h) <= STATUS_PAYLOAD_SIZE
    requires forall i :: ext.payloadSize(pkt.h) <= i < UNION_SIZE ==> ext.encrypt(pkt.h, pkt.p)[i] == 0
    ensures Parse(WireBytes(ext, pkt)) == Sealed(ext, pkt)
  {
    var raw := WireBytes(ext, pkt);
    var s := Sealed(ext, pkt);
    var n := ext.payloadSize(pkt.h);
    var r := Parse(raw);
    assert raw[..HEADER_SIZE] == HeaderBytes(s.h);
    HeaderRoundTrip(s.h);
    HeaderRoundTrip(r.h);
    assert r.h == s.h;
    assert raw[|raw| - CRC_SIZE..] == Le16(s.crc);
    FromLe16OfLe16(s.crc);
    FromLe16OfLe16(r.crc);
    assert r.crc == s.crc;
    assert raw[HEADER_SIZE..|raw| - CRC_SIZE] == s.p[..n];
    forall i | 0 <= i < UNION_SIZE
      ensures r.p[i] == s.p[i]
    {
      if i < n {
        assert r.p[..n][i] == s.p[..n][i];
      }
    }
  }

  /** End to end: a packet with the right magic and version, sent and then
      received as transmitted, arrives with its plaintext union and the CRC
      of the encrypted copy. */
  lemma SendRecvRoundTrip(ext: Externals, pkt: Packet)
    requires Sound(ext)
    requires pkt.h.magic == MAGIC && pkt.h.version == VERSION
    requires ext.payloadSize(pkt.h) <= STATUS_PAYLOAD_SIZE
    requires forall i :: ext.payloadSize(pkt.h) <= i < UNION_SIZE ==> ext.encrypt(pkt.h, pkt.p)[i] == 0
    ensures Receive(ext, WireBytes(ext, pkt)) == Received(Sealed(ext, pkt).(p := pkt.p))
  {
    ParseWireBytes(ext, pkt);
  }

  /** The CTR transform keyed by the header's (seq, src, dst), as the link's
      encryption. */
  function CtrCipher(ks: KeyStream, key: seq<Byte>): (Header, seq<Byte>) -> seq<Byte>
  {
    (h: Header, u: seq<Byte>) => Transform(ks, key, NonceOf(h.seqNo, h.src, h.dst), u)
  }

  /** The CTR transform meets everything the link layer relies on. */
  lemma CtrCipherSound(crc16: Crc16, size: Header -> nat, ks: KeyStream, key: seq<Byte>)
    requires forall h :: size(h) <= UNION_SIZE
    ensures Sound(Externals(crc16, size, CtrCipher(ks, key), CtrCipher(ks, key)))
  {
    forall h: Header, u: seq<Byte> | |u| == UNION_SIZE
      ensures CtrCipher(ks, key)(h, CtrCipher(ks, key)(h, u)) == u
    {
      TransformInvolutive(ks, key, NonceOf(h.seqNo, h.src, h.dst), u);
    }
  }

  /** Under CTR over all 32 bytes, the encrypted tail of a zero-padded
      union is the key stream itself, so the zero-tail condition of the
      round trip holds only where the key stream happens to be zero. */
  lemma CtrTailIsKeyStream(ks: KeyStream, key: seq<Byte>, pkt: Packet, i: nat)
    requires i < UNION_SIZE && pkt.p[i] == 0
    ensures CtrCipher(ks, key)(pkt.h, pkt.p)[i] == ks(key, NonceOf(pkt.h.seqNo, pkt.h.src, pkt.h.dst), i)
  {
    XorZero(ks(key, NonceOf(pkt.h.seqNo, pkt.h.src, pkt.h.dst), i));
  }

  /** What the radio driver reports for one transmission: whether
      `beginPacket` succeeded, the byte counts of the three writes, and the
      result of `endPacket`. */
  datatype TxOutcome = TxOutcome(beginOk: bool, headerWritten: nat, payloadWritten: nat, crcWritten: nat, endResult: int)

  /** Every driver step of a transmission succeeded. */
  predicate TxAccepted(ext: Externals, pkt: Packet, t: TxOutcome)
  {
    t.beginOk && t.headerWritten == HEADER_SIZE && t.payloadWritten == ext.payloadSize(pkt.h) &&
    t.crcWritten == CRC_SIZE && t.endResult == 1
  }

  class LoRaLink {
    const ext: Externals
    var configured: bool
    /** Frames the radio accepted for transmission, oldest first. */
    var sent: seq<seq<Byte>>

    constructor (ext: Externals)
      ensures this.ext == ext && !configured && sent == []
    {
      this.ext := ext;
      configured := false;
      sent := [];
    }

    /** `begin`: configured exactly when the radio came up. */
    method Begin(radioOk: bool) returns (ok: bool)
      modifies this`configured
      ensures ok == radioOk && configured == radioOk
    {
      configured := radioOk;
      ok := radioOk;
    }

    /** `send`: the driver results are inputs. The caller's packet is passed
        by value and never changes; a frame goes out only when every step
        succeeds. */
    method Send(pkt: Packet, t: TxOutcome) returns (ok: bool)
      requires Sound(ext)
      modifies this`sent
      ensures ok <==> configured && TxAccepted(ext, pkt, t)
      ensures sent == if ok then old(sent) + [WireBytes(ext, pkt)] else old(sent)
    {
      if !configured {
        return false;
      }
      var encrypted := EncryptPacket(ext, pkt);
      encrypted := encrypted.(crc := CalcCrc(ext.crc16, encrypted));
      if !t.beginOk {
        return false;
      }
      var frame := HeaderBytes(encrypted.h);
      if t.headerWritten != HEADER_SIZE {
        return false;
      }
      var payloadSize := ext.payloadSize(encrypted.h);
      frame := frame + encrypted.p[..payloadSize];
      if t.payloadWritten != payloadSize {
        return false;
      }
      frame := frame + Le16(encrypted.crc);
      if t.crcWritten != CRC_SIZE {
        return false;
      }
      if t.endResult != 1 {
        return false;
      }
      sent := sent + [frame];
      ok := true;
    }

    /** `recv` on a received buffer: `prev` is the caller's packet before
        the call, `pkt` the caller's packet after it. */
    method Recv(raw: seq<Byte>, prev: Packet) returns (ok: bool, pkt: Packet)
      requires Sound(ext)
      ensures !configured ==> !ok && pkt == prev
      ensures configured ==> (ok <==> Receive(ext, raw).Received?)
      ensures configured && Receive(ext, raw).Received? ==> pkt == Receive(ext, raw).pkt
      ensures configured && Receive(ext, raw).Invalid? ==> pkt == Receive(ext, raw).parsed
      ensures Receive(ext, raw).Rejected? ==> pkt == prev
    {
      if !configured {
        return false, prev;
      }
      var pktSize := |raw|;
      if pktSize < MIN_PACKET_SIZE || pktSize > MAX_PACKET_SIZE {
        return false, prev;
      }
      var h := HeaderOfBytes(raw[..HEADER_SIZE]);
      var expected := pktSize - HEADER_SIZE - CRC_SIZE;
      var union := new Byte[UNION_SIZE];
      for i := 0 to expected
        invariant forall j :: 0 <= j < i ==> union[j] == raw[HEADER_SIZE + j]
      {
        union[i] := raw[HEADER_SIZE + i];
      }
      for i := expected to UNION_SIZE
        invariant forall j :: 0 <= j < expected ==> union[j] == raw[HEADER_SIZE + j]
        invariant forall j :: expected <= j < i ==> union[j] == 0
      {
        union[i] := 0;
      }
      var crc := FromLe16(raw[pktSize - CRC_SIZE..]);
      pkt := PacketRecord(h, union[..], crc);
      ghost var want := Parse(raw);
      assert pkt.p == want.p by {
        forall j | 0 <= j < UNION_SIZE
          ensures pkt.p[j] == want.p[j]
        {
          if j < expected {
            assert want.p[..expected][j] == raw[HEADER_SIZE..pktSize - CRC_SIZE][j];
          }
        }
      }
      if !Validate(ext.crc16, pkt) {
        return false, pkt;
      }
      pkt := DecryptPacket(ext, pkt);
      ok := true;
    }
  }
}
