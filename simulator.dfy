/** The heater simulator: a stand-in for the heater on the W-BUS that
    answers the controller's frames. Its physical quantities (the rounded
    temperature byte, voltage, power, fan speed, glow resistance, flame)
    are values of the state, not simulated; the W-BUS serial port is the
    byte sequence `tx`. */
module Simulator {
  import opened Bytes
  import opened Wrappers
  import opened WBusTypes
  import opened WBus
  import Protocol
  import Receiver

  datatype SimState = Off | Starting | Running | Cooling | Error | TempOvershoot | FlameOutRestart

  /** `opStateCode`: the operating-state byte reported on page 0x07. */
  function OpStateCode(s: SimState): (r: Byte)
    ensures r == 0x04 <==> s == Off
    ensures r == 0xFF <==> s == Error
    ensures r == 0x06 <==> (s == Running || s == TempOvershoot)
    ensures r == 0x01 <==> (s == Starting || s == FlameOutRestart)
    ensures r == 0x02 <==> s == Cooling
  {
    match s
    case Off => 0x04
    case Starting => 0x01
    case Running => 0x06
    case Cooling => 0x02
    case TempOvershoot => 0x06
    case FlameOutRestart => 0x01
    case Error => 0xFF
  }

  /** `gSim`, limited to what the answers are made of. `tempByte` is the
      temperature as sent: rounded, offset by 50, clamped to 0..255. */
  datatype Sim = Sim(state: SimState, requestedMinutes: Byte, tempByte: Byte, voltageMv: U16,
                     heaterPowerX10: U16, combustionFanRpm: U16, glowResistanceMohm: U16, flame: bool)

  /** An answer: the acknowledged command byte and the data after it. */
  datatype Reply = Reply(cmdAck: Byte, data: seq<Byte>)

  /** What `sendFrame` writes for an answer, or nothing. */
  function ReplyBytes(r: Option<Reply>): seq<Byte>
    requires r.Some? ==> |r.value.data| <= 255
  {
    if r.None? then [] else Frame(RX_HEADER, r.value.cmdAck, r.value.data)
  }

  /** The acknowledge of a status request: 0x50 with the high bit. */
  const STATUS_ACK: Byte := 0xD0

  // ---------------------------------------------------------------------
  // The simple status pages

  function FlagByte(b: bool): (r: Byte)
    ensures r == 1 <==> b
    ensures r == 0 <==> !b
  {
    if b then 1 else 0
  }

  /** Page 0x05: temperature, voltage, flame, power and operating state. */
  function Page05Data(sim: Sim): (r: seq<Byte>)
    ensures |r| == 8 && r[0] == 0x05 && r[1] == sim.tempByte
    ensures Be16(r[2], r[3]) == sim.voltageMv && Be16(r[5], r[6]) == sim.heaterPowerX10
    ensures r[4] == FlagByte(sim.flame) && r[7] == OpStateCode(sim.state)
  {
    Be16OfSplit(sim.voltageMv);
    Be16OfSplit(sim.heaterPowerX10);
    [0x05, sim.tempByte, HiByte(sim.voltageMv), LoByte(sim.voltageMv), FlagByte(sim.flame),
     HiByte(sim.heaterPowerX10), LoByte(sim.heaterPowerX10), OpStateCode(sim.state)]
  }

  /** Page 0x0F: glow plug, fuel pump and fan, as plausible bytes. */
  function Page0FData(sim: Sim): (r: seq<Byte>)
    ensures |r| == 4 && r[0] == 0x0F
    ensures r[1] == (if sim.state == Starting then 80 else 10)
    ensures r[2] == (if sim.state == Running then 60 else 0)
    ensures r[3] == sim.combustionFanRpm / 100 || (r[3] == 255 && sim.combustionFanRpm / 100 > 255)
  {
    var fan := sim.combustionFanRpm / 100;
    [0x0F, if sim.state == Starting then 80 else 10, if sim.state == Running then 60 else 0,
     if fan > 255 then 255 else fan]
  }

  /** `respondSimpleFlags`: one bit for running, starting, cooling and
      error; as the states exclude each other, at most one is set. */
  function FlagsData(sim: Sim, idx: Byte): (r: seq<Byte>)
    ensures |r| == 2 && r[0] == idx
    ensures r[1] in {0x00, 0x01, 0x02, 0x04, 0x80}
    ensures r[1] == 0 <==> sim.state !in {Running, Starting, Cooling, Error}
  {
    [idx, match sim.state
          case Running => 0x01
          case Starting => 0x02
          case Cooling => 0x04
          case Error => 0x80
          case _ => 0x00]
  }

  /** Page 0x03: heat request, combustion fan and fuel pump while
      running; glow plug and combustion fan while starting. */
  function Page03Data(sim: Sim): (r: seq<Byte>)
    ensures |r| == 2 && r[0] == 0x03
    ensures sim.state == Running ==> r[1] == 0x01 + 0x10 + 0x40
    ensures sim.state == Starting ==> r[1] == 0x20 + 0x10
    ensures sim.state != Running && sim.state != Starting ==> r[1] == 0
  {
    [0x03, if sim.state == Running then 0x51 else if sim.state == Starting then 0x30 else 0x00]
  }

  /** Page 0x04: actuator percentages at bytes 5 (glow plug), 6 (fuel pump)
      and 7 (combustion fan); the others are zero. */
  function Page04Data(sim: Sim): (r: seq<Byte>)
    ensures |r| == 9 && r[0] == 0x04 && r[1] == 0 && r[2] == 0 && r[3] == 0 && r[4] == 0 && r[8] == 0
    ensures r[5] == (if sim.state == Starting then 80 else 0)
    ensures r[6] == (if sim.state == Running then 150 else 0)
  {
    var fan := match sim.state
               case Running => 100
               case Starting => 50
               case Cooling => 40
               case _ => 0;
    [0x04, 0, 0, 0, 0, if sim.state == Starting then 80 else 0,
     if sim.state == Running then 150 else 0, fan, 0]
  }

  /** Page 0x06: fixed counters, 123 h 45 min working, 456 h 30 min
      operating, 789 starts, hours and starts big-endian. */
  function Page06Data(): (r: seq<Byte>)
    ensures |r| == 9 && r[0] == 0x06
    ensures Be16(r[1], r[2]) == 123 && r[3] == 45
    ensures Be16(r[4], r[5]) == 456 && r[6] == 30
    ensures Be16(r[7], r[8]) == 789
  {
    [0x06, 0x00, 0x7B, 45, 0x01, 0xC8, 30, 0x03, 0x15]
  }

  // ---------------------------------------------------------------------
  // The multi-status answer

  /** The ids answered with one value byte (0x0C, the temperature, among them). */
  predicate IsSimByteId(id: Byte)
  {
    id in {0x01, 0x03, 0x05, 0x06, 0x07, 0x08, 0x0A, 0x10, 0x1F, 0x24, 0x27, 0x2A, 0x2C, 0x2D, 0x32, 0x0C}
  }
  /** The ids answered with a big-endian word. */
  predicate IsSimWordId(id: Byte)
  {
    id in {0x0E, 0x0F, 0x11, 0x13, 0x1E, 0x29, 0x34, 0x3D, 0x52, 0x57, 0x5F, 0x78, 0x89}
  }

  /** The simulator answers exactly the ids the decoder knows, one-byte
      ids with one byte and word ids with two, so that the decoder's guess
      for the width of 0x57, 0x5F, 0x78 and 0x89 comes out at two. */
  lemma SimIdsMatchDecoder(id: Byte)
    ensures IsSimByteId(id) <==> (IsOneByteTag(id) || id == TEMPERATURE_TAG)
    ensures IsSimWordId(id) <==> (IsTwoByteTag(id) || IsMaybeTag(id))
    ensures IsKnownId(id) <==> (IsSimByteId(id) || IsSimWordId(id))
  {
  }

  /** The value of a one-byte id: the operating state for 0x07, the flame
      for 0x05, the temperature byte for 0x0C, 0 otherwise. */
  function ByteValue(sim: Sim, id: Byte): Byte
  {
    if id == 0x07 then OpStateCode(sim.state)
    else if id == 0x05 then FlagByte(sim.flame)
    else if id == 0x0C then sim.tempByte
    else 0
  }

  /** The value of a word id: voltage, flame, power, glow resistance and
      fan speed for 0x0E, 0x0F, 0x11, 0x13 and 0x1E, 0 otherwise. */
  function WordValue(sim: Sim, id: Byte): U16
  {
    if id == 0x0E then sim.voltageMv
    else if id == 0x0F then FlagByte(sim.flame)
    else if id == 0x11 then sim.heaterPowerX10
    else if id == 0x13 then sim.glowResistanceMohm
    else if id == 0x1E then sim.combustionFanRpm
    else 0
  }

  /** The bytes one requested id adds to the answer. */
  function Width(id: Byte): (w: nat)
    ensures w == 0 <==> !IsKnownId(id)
    ensures w <= 3
  {
    if IsSimByteId(id) then 2 else if IsSimWordId(id) then 3 else 0
  }

  /** One id and its value; nothing for an id the simulator does not know. */
  function Encode(sim: Sim, id: Byte): (r: seq<Byte>)
    ensures |r| == Width(id)
    ensures |r| > 0 ==> r[0] == id
  {
    if IsSimByteId(id) then [id, ByteValue(sim, id)]
    else if IsSimWordId(id) then [id, HiByte(WordValue(sim, id)), LoByte(WordValue(sim, id))]
    else []
  }

  function EncodeAll(sim: Sim, ids: seq<Byte>): (r: seq<Byte>)
    ensures |ids| > 0 && IsKnownId(ids[0]) ==> |r| > 0 && r[0] == ids[0]
  {
    if |ids| == 0 then [] else Encode(sim, ids[0]) + EncodeAll(sim, ids[1..])
  }

  lemma {:induction false} EncodeAllAppend(sim: Sim, a: seq<Byte>, b: seq<Byte>)
    ensures EncodeAll(sim, a + b) == EncodeAll(sim, a) + EncodeAll(sim, b)
    decreases |a|
  {
    if |a| > 0 {
      assert (a + b)[1..] == a[1..] + b;
      EncodeAllAppend(sim, a[1..], b);
    } else {
      assert a + b == b;
    }
  }

  /** The answer buffer is 220 bytes; the loop stops once more than 216
      are used, so the next id (at most 3 bytes) could never overflow it. */
  const OUT_SIZE: nat := 220
  const OUT_LIMIT: nat := 216

  /** The requested ids that make it into the answer when `used` bytes of
      it are already taken: unknown ids are skipped and the list is cut
      after the id that pushes the answer past the limit. */
  function Kept(ids: seq<Byte>, used: nat): (r: seq<Byte>)
    ensures forall i :: 0 <= i < |r| ==> IsKnownId(r[i])
    ensures |r| <= |ids|
  {
    if |ids| == 0 then []
    else
      var head := if Width(ids[0]) > 0 then [ids[0]] else [];
      if used + Width(ids[0]) > OUT_LIMIT then head else head + Kept(ids[1..], used + Width(ids[0]))
  }

  /** The bytes added from `used` on never run past the buffer. */
  lemma {:induction false} KeptFits(sim: Sim, ids: seq<Byte>, used: nat)
    requires used <= OUT_LIMIT
    ensures used + |EncodeAll(sim, Kept(ids, used))| < OUT_SIZE
    decreases |ids|
  {
    if |ids| > 0 {
      var head := if Width(ids[0]) > 0 then [ids[0]] else [];
      var n := used + Width(ids[0]);
      EncodeAllAppend(sim, head, if n > OUT_LIMIT then [] else Kept(ids[1..], n));
      assert |EncodeAll(sim, head)| == Width(ids[0]) by {
        assert head == [] || head[1..] == [];
      }
      if n <= OUT_LIMIT {
        KeptFits(sim, ids[1..], n);
        assert head + Kept(ids[1..], n) == Kept(ids, used);
      } else {
        assert head + [] == Kept(ids, used);
      }
    }
  }

  /** Answering a list is answering its first id, then the rest unless
      the limit was passed. */
  lemma EncodeKeptStep(sim: Sim, ids: seq<Byte>, used: nat)
    requires |ids| > 0
    ensures var w := Width(ids[0]);
      EncodeAll(sim, Kept(ids, used)) ==
        Encode(sim, ids[0]) + (if used + w > OUT_LIMIT then [] else EncodeAll(sim, Kept(ids[1..], used + w)))
  {
    var w := Width(ids[0]);
    var head := if w > 0 then [ids[0]] else [];
    assert EncodeAll(sim, head) == Encode(sim, ids[0]) by {
      if w > 0 {
        assert head[1..] == [];
      }
    }
    if used + w > OUT_LIMIT {
      assert Kept(ids, used) == head;
    } else {
      EncodeAllAppend(sim, head, Kept(ids[1..], used + w));
    }
  }

  /** The known ids of a request, in order. */
  function KnownIds(ids: seq<Byte>): (r: seq<Byte>)
  {
    if |ids| == 0 then [] else (if IsKnownId(ids[0]) then [ids[0]] else []) + KnownIds(ids[1..])
  }

  /** A request short enough is answered in full: every known id, in the
      order asked. */
  lemma {:induction false} ShortRequestFullyAnswered(ids: seq<Byte>, used: nat)
    requires used + 3 * |ids| <= OUT_LIMIT
    ensures Kept(ids, used) == KnownIds(ids)
    decreases |ids|
  {
    if |ids| > 0 {
      ShortRequestFullyAnswered(ids[1..], used + Width(ids[0]));
    }
  }

  /** A request that asks for a known id gets at least one id back. */
  lemma {:induction false} KnownIdAnswered(ids: seq<Byte>, used: nat, k: nat)
    requires used < OUT_LIMIT - 3 && k < |ids| && IsKnownId(ids[k])
    ensures |Kept(ids, used)| > 0
    decreases k
  {
    if k > 0 && Width(ids[0]) == 0 {
      KnownIdAnswered(ids[1..], used, k - 1);
    }
  }

  /** `respondMultiStatus`'s data: the sub-command 0x30, then each kept id
      with its value. */
  function MultiStatusData(sim: Sim, ids: seq<Byte>): (r: seq<Byte>)
    ensures r == [0x30] + EncodeAll(sim, Kept(ids, 1))
    ensures |r| < OUT_SIZE && r[0] == 0x30
  {
    KeptFits(sim, ids, 1);
    [0x30] + EncodeAll(sim, Kept(ids, 1))
  }

  /** The request's id list: after `0x50 0x30`, before the checksum byte. */
  function RequestedIds(pkt: WBusPacket): seq<Byte>
    requires pkt.payloadLen >= 4
  {
    pkt.payload[2..pkt.payloadLen - 1]
  }

  /** `respondMultiStatus`: no answer for fewer than 4 payload bytes or a
      sub-command other than 0x30. */
  function MultiStatusReply(sim: Sim, pkt: WBusPacket): (r: Option<Reply>)
    ensures r.Some? <==> pkt.payloadLen >= 4 && pkt.payload[1] == 0x30
    ensures r.Some? ==> r == Some(Reply(STATUS_ACK, MultiStatusData(sim, RequestedIds(pkt))))
  {
    if pkt.payloadLen < 4 || pkt.payload[1] != 0x30 then None
    else Some(Reply(STATUS_ACK, MultiStatusData(sim, RequestedIds(pkt))))
  }

  // ---------------------------------------------------------------------
  // The decoder applied to an answer

  /** What the decoder records for one id the simulator answered. */
  function Apply(s: WBusStatus, sim: Sim, id: Byte): WBusStatus
  {
    if IsOneByteTag(id) then SetByteField(s, id, ByteValue(sim, id))
    else if id == TEMPERATURE_TAG then s.(temperatureC := sim.tempByte as int - 50)
    else if IsTwoByteTag(id) || IsMaybeTag(id) then SetWordField(s, id, WordValue(sim, id))
    else s
  }

  function ApplyAll(s: WBusStatus, sim: Sim, ids: seq<Byte>): WBusStatus
    decreases |ids|
  {
    if |ids| == 0 then s else ApplyAll(Apply(s, sim, ids[0]), sim, ids[1..])
  }

  /** The decoder reads one answered id back with its value, provided the
      byte after it is the end or another known id. */
  lemma DecodeEncoded(sim: Sim, id: Byte, p: seq<Byte>, end: nat, pos: nat, s: WBusStatus)
    requires IsKnownId(id) && end <= |p| && pos + Width(id) <= end
    requires p[pos..pos + Width(id)] == Encode(sim, id)
    requires pos + Width(id) == end || IsKnownId(p[pos + Width(id)])
    ensures DecodeField(p, end, pos, s) == Some((pos + Width(id), Apply(s, sim, id)))
  {
    var e := Encode(sim, id);
    assert p[pos] == e[0] == id;
    if IsSimWordId(id) {
      var v := WordValue(sim, id);
      assert Width(id) == 3;
      assert p[pos + 1] == HiByte(v) && p[pos + 2] == LoByte(v) by {
        assert p[pos + 1] == e[1] && p[pos + 2] == e[2];
      }
      Be16OfSplit(v);
      if IsMaybeTag(id) {
        assert pos + 3 == end || IsKnownId(p[pos + 3]);
        DecodeMaybeWord(id, v, p, end, pos, s);
      }
    } else {
      assert p[pos + 1] == e[1];
    }
  }

  /** A word under a tag of uncertain width is read as a word when the
      byte after it is the end or a known id. */
  lemma DecodeMaybeWord(id: Byte, v: U16, p: seq<Byte>, end: nat, pos: nat, s: WBusStatus)
    requires IsMaybeTag(id) && end <= |p| && pos + 3 <= end && p[pos] == id
    requires Be16(p[pos + 1], p[pos + 2]) == v
    requires pos + 3 == end || IsKnownId(p[pos + 3])
    ensures DecodeField(p, end, pos, s) == Some((pos + 3, SetWordField(s, id, v)))
  {
    MaybeTwoBytes(p, end, pos + 1);
  }

  /** The width guess takes two bytes when the byte after them is the end
      or a known id. */
  lemma MaybeTwoBytes(p: seq<Byte>, end: nat, q: nat)
    requires end <= |p| && q + 2 <= end && (q + 2 == end || IsKnownId(p[q + 2]))
    ensures MaybeU16(p, end, q) == Some((Be16(p[q], p[q + 1]), q + 2))
  {
  }

  /** The decoder reads a run of answered ids back completely. */
  lemma {:induction false} ParseEncoded(sim: Sim, ids: seq<Byte>, p: seq<Byte>, end: nat, pos: nat, s: WBusStatus)
    requires forall i :: 0 <= i < |ids| ==> IsKnownId(ids[i])
    requires end <= |p| && pos <= end && p[pos..end] == EncodeAll(sim, ids)
    ensures ParseFrom(p, end, pos, s) == Some(ApplyAll(s, sim, ids))
    decreases |ids|
  {
    if |ids| > 0 {
      var id := ids[0];
      var w := Width(id);
      var rest := EncodeAll(sim, ids[1..]);
      var q := p[pos..end];
      assert q == Encode(sim, id) + rest;
      assert q[..w] == Encode(sim, id) && q[w..] == rest;
      assert q[..w] == p[pos..pos + w] by {
        assert forall i :: 0 <= i < w ==> q[i] == p[pos + i];
      }
      assert q[w..] == p[pos + w..end] by {
        assert forall i :: w <= i < |q| ==> q[i] == p[pos + i];
      }
      if |ids| > 1 {
        assert IsKnownId(ids[1..][0]);
        assert p[pos + w] == rest[0];
      }
      DecodeEncoded(sim, id, p, end, pos, s);
      ParseEncoded(sim, ids[1..], p, end, pos + w, Apply(s, sim, id));
    }
  }

  /** Round trip: the framed multi-status answer, once framed, is accepted
      by the decoder exactly when it carries at least one id, and then it
      decodes to the simulator's values for every id answered. */
  lemma MultiStatusRoundTrip(sim: Sim, ids: seq<Byte>)
    ensures var kept := Kept(ids, 1);
      var pkt := FramePacket(RX_HEADER, STATUS_ACK, MultiStatusData(sim, ids));
      (|kept| > 0 ==> StatusTlv(pkt) == Some(ApplyAll(DefaultStatus(), sim, kept).(valid := true))) &&
      (|kept| == 0 ==> StatusTlv(pkt).None?)
  {
    var data := MultiStatusData(sim, ids);
    var pkt := FramePacket(RX_HEADER, STATUS_ACK, data);
    FramedPayload(RX_HEADER, STATUS_ACK, data);
    AnswerDecoded(sim, Kept(ids, 1), pkt, data);
  }

  /** The decoder on a framed answer `0x30` + the encoding of `kept`. */
  lemma AnswerDecoded(sim: Sim, kept: seq<Byte>, pkt: WBusPacket, data: seq<Byte>)
    requires forall i :: 0 <= i < |kept| ==> IsKnownId(kept[i])
    requires data == [0x30] + EncodeAll(sim, kept) && |data| <= 253
    requires pkt.payloadLen == |data| + 2 && pkt.payload[0] == STATUS_ACK && pkt.payload[1..|data| + 1] == data
    ensures |kept| > 0 ==> StatusTlv(pkt) == Some(ApplyAll(DefaultStatus(), sim, kept).(valid := true))
    ensures |kept| == 0 ==> StatusTlv(pkt).None?
  {
    var p := pkt.payload;
    assert p[1] == data[0] == 0x30;
    assert Low7(STATUS_ACK) == 0x50;
    if |kept| > 0 {
      var body := EncodeAll(sim, kept);
      assert p[2..|data| + 1] == p[1..|data| + 1][1..] == data[1..] == body;
      ParseEncoded(sim, kept, p, |data| + 1, 2, DefaultStatus());
    }
  }

  /** The frame record of a framed answer holds the acknowledge at 0 and
      the data from 1 on. */
  lemma FramedPayload(header: Byte, cmd: Byte, data: seq<Byte>)
    requires |data| <= 253
    ensures var pkt := FramePacket(header, cmd, data);
      pkt.payloadLen == |data| + 2 && pkt.payload[0] == cmd && pkt.payload[1..|data| + 1] == data
  {
    var pkt := FramePacket(header, cmd, data);
    var f := Frame(header, cmd, data);
    assert pkt.payload[..|data| + 2] == f[2..];
    assert pkt.payload[0] == f[2] == cmd;
    assert f[3..|f| - 1] == data;
    assert pkt.payload[1..|data| + 1] == f[2..][1..|data| + 1] == f[3..|f| - 1];
  }

  /** The decoded temperature, voltage and power are the simulator's when
      their ids were answered, and untouched otherwise. */
  lemma {:induction false} ApplyAllMeasurements(s: WBusStatus, sim: Sim, ids: seq<Byte>)
    ensures ApplyAll(s, sim, ids).temperatureC == if 0x0C in ids then sim.tempByte as int - 50 else s.temperatureC
    ensures ApplyAll(s, sim, ids).voltageMv == if 0x0E in ids then sim.voltageMv else s.voltageMv
    ensures ApplyAll(s, sim, ids).power == if 0x11 in ids then sim.heaterPowerX10 else s.power
    decreases |ids|
  {
    if |ids| > 0 {
      var id := ids[0];
      var a := Apply(s, sim, id);
      ApplyAllMeasurements(a, sim, ids[1..]);
      assert ids == [id] + ids[1..];
      assert forall x :: x in ids <==> x == id || x in ids[1..];
      ApplyLateWins(s, sim, id, ids[1..]);
    }
  }

  lemma ApplyLateWins(s: WBusStatus, sim: Sim, id: Byte, rest: seq<Byte>)
    ensures 0x0C in rest || (Apply(s, sim, id).temperatureC == if id == 0x0C then sim.tempByte as int - 50 else s.temperatureC)
    ensures 0x0E in rest || (Apply(s, sim, id).voltageMv == if id == 0x0E then sim.voltageMv else s.voltageMv)
    ensures 0x11 in rest || (Apply(s, sim, id).power == if id == 0x11 then sim.heaterPowerX10 else s.power)
  {
  }

  // ---------------------------------------------------------------------
  // Dispatch

  /** `handlePacket`: the new state and the answer, if any. */
  function HandleFrame(sim: Sim, pkt: WBusPacket): (r: (Sim, Option<Reply>))
    ensures r.1.Some? ==> |r.1.value.data| < OUT_SIZE
    ensures (pkt.header != TX_HEADER || pkt.payloadLen < 2) ==> r == (sim, None)
  {
    if pkt.header != TX_HEADER || pkt.payloadLen < 2 then (sim, None)
    else
      var cmd := pkt.payload[0];
      if cmd == 0x21 || cmd == 0x22 then
        if pkt.payloadLen < 3 then (sim, None)
        else (sim.(requestedMinutes := pkt.payload[1], state := Starting), Some(Reply(SetHighBit(cmd), [pkt.payload[1]])))
      else if cmd == 0x10 then
        (if sim.state != Off then sim.(state := Cooling) else sim, Some(Reply(0x90, [])))
      else if cmd == 0x44 then (sim, Some(Reply(0xC4, [])))
      else if cmd == 0x50 then
        if pkt.payloadLen < 3 then (sim, None)
        else (sim, StatusReply(sim, pkt))
      else (sim, Some(Reply(SetHighBit(cmd), [])))
  }

  /** The data of a simple page answer for index `idx` (not 0x30). */
  function PageData(sim: Sim, idx: Byte): (r: seq<Byte>)
    ensures 0 < |r| <= 9 && r[0] == idx
    ensures idx == 0x07 ==> r == [0x07, OpStateCode(sim.state)]
    ensures idx !in {0x07, 0x05, 0x0F, 0x03, 0x04, 0x06, 0x02} ==> r == [idx]
  {
    if idx == 0x07 then [0x07, OpStateCode(sim.state)]
    else if idx == 0x05 then Page05Data(sim)
    else if idx == 0x0F then Page0FData(sim)
    else if idx == 0x03 then Page03Data(sim)
    else if idx == 0x04 then Page04Data(sim)
    else if idx == 0x06 then Page06Data()
    else if idx == 0x02 then FlagsData(sim, idx)
    else [idx]
  }

  /** The status-request branch, on the page index in `payload[1]`. */
  function StatusReply(sim: Sim, pkt: WBusPacket): (r: Option<Reply>)
    requires pkt.payloadLen >= 3
    ensures r.Some? ==> r.value.cmdAck == STATUS_ACK && |r.value.data| < OUT_SIZE
    ensures r.Some? && pkt.payload[1] != 0x30 ==> r.value.data == PageData(sim, pkt.payload[1])
    ensures r.None? <==> pkt.payload[1] == 0x30 && pkt.payloadLen < 4
  {
    var idx := pkt.payload[1];
    if idx == 0x30 then MultiStatusReply(sim, pkt)
    else Some(Reply(STATUS_ACK, PageData(sim, idx)))
  }

  /** A start (0x21) or ventilation (0x22) command carrying minutes moves
      to Starting, records the minutes and echoes them; without the
      minutes byte nothing happens. */
  lemma StartCommand(sim: Sim, pkt: WBusPacket)
    requires pkt.header == TX_HEADER && pkt.payloadLen >= 2 && pkt.payload[0] in {0x21, 0x22}
    ensures pkt.payloadLen >= 3 ==>
      HandleFrame(sim, pkt) ==
        (sim.(state := Starting, requestedMinutes := pkt.payload[1]),
         Some(Reply(pkt.payload[0] + 0x80, [pkt.payload[1]])))
    ensures pkt.payloadLen < 3 ==> HandleFrame(sim, pkt) == (sim, None)
  {
  }

  /** Stop moves to Cooling unless the heater is off, and is acknowledged
      with no data either way. */
  lemma StopCommand(sim: Sim, pkt: WBusPacket)
    requires pkt.header == TX_HEADER && pkt.payloadLen >= 2 && pkt.payload[0] == 0x10
    ensures HandleFrame(sim, pkt).0.state == if sim.state == Off then Off else Cooling
    ensures HandleFrame(sim, pkt).1 == Some(Reply(0x90, []))
  {
  }

  /** A command the simulator does not handle is acknowledged with the
      high bit set and no data, and changes nothing. */
  lemma OtherCommandsAcknowledged(sim: Sim, pkt: WBusPacket)
    requires pkt.header == TX_HEADER && pkt.payloadLen >= 2
    requires pkt.payload[0] !in {0x21, 0x22, 0x10, 0x50}
    ensures HandleFrame(sim, pkt) == (sim, Some(Reply(SetHighBit(pkt.payload[0]), [])))
  {
  }

  /** Every answer `sendFrame` writes reaches a controller's framer intact,
      as the frame record of a heater -> controller frame. */
  lemma ReplyAccepted(f: Framer, sim: Sim, pkt: WBusPacket)
    requires Inv(f) && f.rxState == FindHeader
    requires HandleFrame(sim, pkt).1.Some?
    ensures var a := HandleFrame(sim, pkt).1.value;
      var r := FeedAll(f, ReplyBytes(Some(a)));
      r.havePacket && r.packetQueue == FramePacket(RX_HEADER, a.cmdAck, a.data)
  {
    var a := HandleFrame(sim, pkt).1.value;
    FrameRoundTrip(f, RX_HEADER, a.cmdAck, a.data);
  }

  /** The answer to "page 0x07" is what the receiver's operating-state
      scan picks up, and the receiver takes the heater for off exactly when
      the simulator is off. */
  lemma OpStateSeenByReceiver(sim: Sim)
    ensures var pkt := FramePacket(RX_HEADER, STATUS_ACK, [0x07, OpStateCode(sim.state)]);
      FirstOpState([pkt]) == Some(OpStateCode(sim.state)) &&
      (Receiver.MapOpState(OpStateCode(sim.state)) == Protocol.Off <==> sim.state == Off)
  {
    var pkt := FramePacket(RX_HEADER, STATUS_ACK, [0x07, OpStateCode(sim.state)]);
    HeaderDirections();
    assert pkt.payload[0] == STATUS_ACK && pkt.payload[1] == 0x07 && pkt.payload[2] == OpStateCode(sim.state);
    assert IsOpStateResponse(pkt);
  }

  /** The answer to page 0x05 gives the receiver's fallback the
      simulator's temperature and voltage. */
  lemma Page05SeenByReceiver(n: Receiver.Node, sim: Sim)
    ensures var pkt := FramePacket(RX_HEADER, STATUS_ACK, Page05Data(sim));
      var f := Receiver.FallbackPages(n, [pkt]);
      f.status.temperatureC == sim.tempByte as int - 50 && f.status.voltageMv == sim.voltageMv
  {
    var data := Page05Data(sim);
    var pkt := FramePacket(RX_HEADER, STATUS_ACK, data);
    assert pkt.payload[0] == STATUS_ACK && pkt.payload[1] == data[0] && pkt.payload[2] == data[1];
    assert pkt.payload[3] == data[2] && pkt.payload[4] == data[3];
    assert Receiver.IsStatusIndexResponse(0x05, pkt);
    assert Receiver.StatusIndexReply([pkt], 0x05) == Some(pkt);
    Receiver.Page05Decoding(n, [pkt]);
  }

  /** The full poll: the receiver's multi-status request, as the framer
      records it, is answered with every id, and the receiver's decoding of
      that answer yields the simulator's temperature, voltage and power. */
  lemma ReceiverPollAnswered(sim: Sim, s: Protocol.StatusPayload)
    ensures var req := FramePacket(TX_HEADER, 0x50, [0x30] + Receiver.STATUS_IDS);
      var r := HandleFrame(sim, req);
      r == (sim, Some(Reply(STATUS_ACK, [0x30] + EncodeAll(sim, Receiver.STATUS_IDS)))) &&
      Receiver.MultiStatusPoll(s, [FramePacket(RX_HEADER, STATUS_ACK, r.1.value.data)]) ==
        (true, s.(temperatureC := sim.tempByte as int - 50, voltageMv := sim.voltageMv, power := sim.heaterPowerX10))
  {
    Receiver.StatusIdsKnown();
    StatusIdsMeasured();
    PollAnsweredFor(sim, s, Receiver.STATUS_IDS);
  }

  /** The receiver asks for temperature, voltage and power. */
  lemma StatusIdsMeasured()
    ensures 0x0C in Receiver.STATUS_IDS && 0x0E in Receiver.STATUS_IDS && 0x11 in Receiver.STATUS_IDS
  {
    assert Receiver.STATUS_IDS[7] == 0x0C && Receiver.STATUS_IDS[8] == 0x0E && Receiver.STATUS_IDS[11] == 0x11;
  }

  /** Any request of known ids that fits the receiver's 64-id limit and
      asks for temperature, voltage and power is answered in full, and the
      answer gives the receiver's poll the simulator's measurements. */
  lemma PollAnsweredFor(sim: Sim, s: Protocol.StatusPayload, ids: seq<Byte>)
    requires 1 <= |ids| <= 64 && forall i :: 0 <= i < |ids| ==> IsKnownId(ids[i])
    requires 0x0C in ids && 0x0E in ids && 0x11 in ids
    ensures var req := FramePacket(TX_HEADER, 0x50, [0x30] + ids);
      var r := HandleFrame(sim, req);
      r == (sim, Some(Reply(STATUS_ACK, [0x30] + EncodeAll(sim, ids)))) &&
      Receiver.MultiStatusPoll(s, [FramePacket(RX_HEADER, STATUS_ACK, r.1.value.data)]) ==
        (true, s.(temperatureC := sim.tempByte as int - 50, voltageMv := sim.voltageMv, power := sim.heaterPowerX10))
  {
    var req := FramePacket(TX_HEADER, 0x50, [0x30] + ids);
    RequestReadBack(ids);
    MultiStatusRequestHandled(sim, req);
    ShortRequestFullyAnswered(ids, 1);
    KnownOnlyOfKnown(ids);
    assert MultiStatusData(sim, ids) == [0x30] + EncodeAll(sim, ids);
    SnapshotAccepted(sim, s, ids);
  }

  /** A multi-status request leaves the heater as it is and is answered
      with the snapshot of the ids it lists. */
  lemma MultiStatusRequestHandled(sim: Sim, req: WBusPacket)
    requires req.header == TX_HEADER && req.payloadLen >= 4 && req.payload[0] == 0x50 && req.payload[1] == 0x30
    ensures HandleFrame(sim, req) == (sim, Some(Reply(STATUS_ACK, MultiStatusData(sim, RequestedIds(req)))))
  {
  }

  /** The receiver's request, framed and recorded, lists its ids. */
  lemma RequestReadBack(ids: seq<Byte>)
    requires 1 <= |ids| <= 64
    ensures var req := FramePacket(TX_HEADER, 0x50, [0x30] + ids);
      req.header == TX_HEADER && req.payloadLen == |ids| + 3 && req.payload[0] == 0x50 &&
      req.payload[1] == 0x30 && RequestedIds(req) == ids
  {
    var req := FramePacket(TX_HEADER, 0x50, [0x30] + ids);
    FramedPayload(TX_HEADER, 0x50, [0x30] + ids);
    assert req.payload[1..|ids| + 2] == [0x30] + ids;
    assert req.payload[1] == 0x30;
    assert req.payload[2..|ids| + 2] == req.payload[1..|ids| + 2][1..];
  }

  /** A full answer to such a request is taken by the receiver's
      multi-status poll with the simulator's measurements. */
  lemma SnapshotAccepted(sim: Sim, s: Protocol.StatusPayload, ids: seq<Byte>)
    requires |ids| > 0 && Kept(ids, 1) == ids
    requires 0x0C in ids && 0x0E in ids && 0x11 in ids
    ensures Receiver.MultiStatusPoll(s, [FramePacket(RX_HEADER, STATUS_ACK, MultiStatusData(sim, ids))]) ==
      (true, s.(temperatureC := sim.tempByte as int - 50, voltageMv := sim.voltageMv, power := sim.heaterPowerX10))
  {
    var data := MultiStatusData(sim, ids);
    var pkt := FramePacket(RX_HEADER, STATUS_ACK, data);
    FramedPayload(RX_HEADER, STATUS_ACK, data);
    MultiStatusRoundTrip(sim, ids);
    assert pkt.payload[1] == data[0];
    var st := ApplyAll(DefaultStatus(), sim, ids).(valid := true);
    ApplyAllMeasurements(DefaultStatus(), sim, ids);
    SinglePoll(s, pkt, st);
  }

  /** The receiver's poll of a single good snapshot. */
  lemma SinglePoll(s: Protocol.StatusPayload, pkt: WBusPacket, st: WBusStatus)
    requires Receiver.IsMultiStatusResponse(pkt) && StatusTlv(pkt) == Some(st)
    ensures Receiver.MultiStatusPoll(s, [pkt]) == (true, Receiver.CopyMeasurements(s, st))
  {
    assert [pkt][0] == pkt;
  }

  lemma {:induction false} KnownOnlyOfKnown(ids: seq<Byte>)
    requires forall i :: 0 <= i < |ids| ==> IsKnownId(ids[i])
    ensures KnownIds(ids) == ids
    decreases |ids|
  {
    if |ids| > 0 {
      KnownOnlyOfKnown(ids[1..]);
    }
  }

  /** One id of the answer loop: once it is written, either the buffer is
      full and the answer complete, or the rest of the ids completes it. */
  lemma AnswerStep(sim: Sim, before: seq<Byte>, rest: seq<Byte>, used: nat, want: seq<Byte>,
                   written: seq<Byte>, newLen: nat)
    requires |rest| > 0 && before + EncodeAll(sim, Kept(rest, used)) == want
    requires written == before + Encode(sim, rest[0]) && newLen == used + Width(rest[0])
    ensures newLen > OUT_LIMIT ==> written == want
    ensures newLen <= OUT_LIMIT ==> written + EncodeAll(sim, Kept(rest[1..], newLen)) == want
  {
    EncodeKeptStep(sim, rest, used);
    if newLen > OUT_LIMIT {
      assert before + Encode(sim, rest[0]) + [] == want;
    } else {
      Regroup(before, Encode(sim, rest[0]), EncodeAll(sim, Kept(rest[1..], newLen)));
    }
  }

  /** Regrouping a concatenation of three byte strings. */
  lemma Regroup(a: seq<Byte>, b: seq<Byte>, c: seq<Byte>)
    ensures a + (b + c) == (a + b) + c
  {
  }

  // ---------------------------------------------------------------------
  // The simulator object

  class HeaterSimulator {
    var state: SimState
    var requestedMinutes: Byte
    var tempByte: Byte
    var voltageMv: U16
    var heaterPowerX10: U16
    var combustionFanRpm: U16
    var glowResistanceMohm: U16
    var flame: bool
    /** Every byte written to the W-BUS serial port. */
    var tx: seq<Byte>

    /** The heater model's state; the recorded serial bytes are apart. */
    function Snapshot(): Sim
      reads this`state, this`requestedMinutes, this`tempByte, this`voltageMv, this`heaterPowerX10
      reads this`combustionFanRpm, this`glowResistanceMohm, this`flame
    {
      Sim(state, requestedMinutes, tempByte, voltageMv, heaterPowerX10, combustionFanRpm, glowResistanceMohm, flame)
    }

    /** The member initialisers of `SimModel`, with the rounded
        temperature byte of 20 degrees C. */
    constructor ()
      ensures Snapshot() == Sim(Off, 0, 70, 12400, 0, 0, 1800, false) && tx == []
    {
      state := Off;
      requestedMinutes := 0;
      tempByte := 70;
      voltageMv := 12400;
      heaterPowerX10 := 0;
      combustionFanRpm := 0;
      glowResistanceMohm := 1800;
      flame := false;
      tx := [];
    }

    /** `sendFrame`: header, length, acknowledge, data and the XOR of all
        of them. */
    method SendFrame(cmdAck: Byte, data: seq<Byte>)
      requires |data| <= 255
      modifies this`tx
      ensures tx == old(tx) + Frame(RX_HEADER, cmdAck, data)
    {
      var header := MakeHeader(WBUS_ADDR_HEATER, WBUS_ADDR_CONTROLLER);
      HeaderDirections();
      var length := Wrap8(|data| + 2);
      var csum := FrameChecksum(header, length, cmdAck, data);
      tx := tx + [header, length, cmdAck] + data + [csum];
    }

    /** One requested id written at `outLen`: the id and its value, or
        nothing when the id is unknown. */
    method PutField(out: array<Byte>, outLen: nat, id: Byte) returns (newLen: nat)
      requires out.Length == OUT_SIZE && outLen <= OUT_LIMIT + 1
      modifies out
      ensures newLen == outLen + Width(id)
      ensures out[..newLen] == old(out[..outLen]) + Encode(Snapshot(), id)
    {
      out[outLen] := id;
      newLen := outLen + 1;
      if id in {0x01, 0x03, 0x05, 0x06, 0x07, 0x08, 0x0A, 0x10, 0x1F, 0x24, 0x27, 0x2A, 0x2C, 0x2D, 0x32} {
        var v: Byte := 0;
        if id == 0x07 { v := OpStateCode(state); }
        if id == 0x05 { v := if flame then 1 else 0; }
        out[newLen] := v;
        newLen := newLen + 1;
      } else if id == 0x0C {
        out[newLen] := tempByte;
        newLen := newLen + 1;
      } else if id in {0x0E, 0x0F, 0x11, 0x13, 0x1E, 0x29, 0x34, 0x3D, 0x52, 0x57, 0x5F, 0x78, 0x89} {
        var w := WordReading(id);
        newLen := PutBe16(out, newLen, w);
      } else {
        newLen := newLen - 1;
      }
    }

    /** The word a two-byte id is answered with. */
    method WordReading(id: Byte) returns (w: U16)
      ensures w == WordValue(Snapshot(), id)
    {
      if id == 0x0E {
        w := voltageMv;
      } else if id == 0x0F {
        w := if flame then 1 else 0;
      } else if id == 0x11 {
        w := heaterPowerX10;
      } else if id == 0x13 {
        w := glowResistanceMohm;
      } else if id == 0x1E {
        w := combustionFanRpm;
      } else {
        w := 0;
      }
    }

    /** `putBe16` at the cursor, which then moves past the two bytes. */
    static method PutBe16(out: array<Byte>, pos: nat, v: U16) returns (next: nat)
      requires pos + 2 <= out.Length
      modifies out
      ensures next == pos + 2
      ensures out[..next] == old(out[..pos]) + [HiByte(v), LoByte(v)]
    {
      out[pos] := HiByte(v);
      out[pos + 1] := LoByte(v);
      next := pos + 2;
    }

    /** `respondMultiStatus`: the answer goes out only for a request of
        at least 4 payload bytes whose sub-command is 0x30. */
    method RespondMultiStatus(pkt: WBusPacket)
      modifies this`tx
      ensures tx == old(tx) + ReplyBytes(MultiStatusReply(Snapshot(), pkt))
    {
      if pkt.payloadLen < 4 || pkt.payload[1] != 0x30 {
        assert tx == old(tx) + [];
        return;
      }
      var data := MultiStatusAnswer(pkt);
      SendFrame(STATUS_ACK, data);
    }

    /** The answer buffer of `respondMultiStatus`: 0x30, then each
        requested id with its value while the buffer has room. */
    method MultiStatusAnswer(pkt: WBusPacket) returns (data: seq<Byte>)
      requires pkt.payloadLen >= 4
      ensures data == MultiStatusData(Snapshot(), RequestedIds(pkt))
    {
      var out := new Byte[OUT_SIZE](_ => 0);
      var outLen: nat := 0;
      out[outLen] := 0x30;
      outLen := outLen + 1;
      assert out[..outLen] == [0x30];
      outLen := PutRequestedIds(out, pkt);
      data := out[..outLen];
    }

    /** The loop of `respondMultiStatus` over the requested ids, after the
        sub-command byte. */
    method PutRequestedIds(out: array<Byte>, pkt: WBusPacket) returns (outLen: nat)
      requires out.Length == OUT_SIZE && pkt.payloadLen >= 4 && out[..1] == [0x30]
      modifies out
      ensures outLen <= OUT_SIZE && out[..outLen] == MultiStatusData(Snapshot(), RequestedIds(pkt))
    {
      outLen := 1;
      var idsEnd := pkt.payloadLen - 1;
      ghost var sim := Snapshot();
      ghost var ids := RequestedIds(pkt);
      ghost var want := MultiStatusData(sim, ids);
      var i := 2;
      while i < idsEnd
        invariant 2 <= i <= idsEnd && 1 <= outLen <= OUT_LIMIT
        invariant out[..outLen] + EncodeAll(sim, Kept(ids[i - 2..], outLen)) == want
        decreases idsEnd - i
      {
        var id := pkt.payload[i];
        ghost var before := out[..outLen];
        ghost var rest := ids[i - 2..];
        assert rest[0] == id && rest[1..] == ids[i - 1..];
        var newLen := PutField(out, outLen, id);
        AnswerStep(sim, before, rest, outLen, want, out[..newLen], newLen);
        if newLen > OUT_LIMIT {
          outLen := newLen;
          break;
        }
        outLen := newLen;
        i := i + 1;
      }
      assert out[..outLen] == want by {
        if i == idsEnd {
          assert ids[i - 2..] == [];
        }
      }
    }
  }
}
