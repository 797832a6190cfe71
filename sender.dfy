/** The handheld sender: it builds command packets, transmits one until
    the receiver acknowledges it or a deadline passes, reads console lines,
    and turns console lines and menu activations into commands.

    The clock and the radio are inputs: one `Tick` per pass of the wait
    loop gives the clock reading, what the radio driver reports if a
    transmission is made in that pass, and the buffer received, if any. */
module Sender {
  import opened Bytes
  import opened Wrappers
  import opened Text
  import opened Config
  import opened Protocol
  import opened LoRaLinkLayer
  import opened Menu
  import Receiver

  /** `makeCommandPacket`: a command from the sender to the receiver with
      the CRC stamped; the rest of the union is zero. */
  function MakeCommandPacket(crc16: Crc16, kind: Byte, minutes: Byte, seqNo: U16): (pkt: Packet)
    ensures pkt.h == Header(MAGIC, VERSION, MsgTypeCode(Command), LORA_NODE_SENDER, LORA_NODE_RECEIVER, seqNo)
    ensures CommandOf(pkt.p) == CommandPayload(kind, minutes)
    ensures forall i :: COMMAND_PAYLOAD_SIZE <= i < UNION_SIZE ==> pkt.p[i] == 0
    ensures Validate(crc16, pkt)
  {
    var z := ZeroPacket();
    var a := WithCommand(z.(h := Header(MAGIC, VERSION, MsgTypeCode(Command), LORA_NODE_SENDER, LORA_NODE_RECEIVER, seqNo)),
                         CommandPayload(kind, minutes));
    StampedValidates(crc16, a);
    a.(crc := CalcCrc(crc16, a))
  }

  /** End to end: a command packet transmitted as `send` lays it out and
      received as transmitted is accepted by the receiver as a command
      addressed to it, with the kind and minutes that were sent. */
  lemma CommandReachesReceiver(ext: Externals, kind: Byte, minutes: Byte, seqNo: U16)
    requires Sound(ext)
    requires var h := MakeCommandPacket(ext.crc16, kind, minutes, seqNo).h;
      COMMAND_PAYLOAD_SIZE <= ext.payloadSize(h) <= STATUS_PAYLOAD_SIZE &&
      forall i :: ext.payloadSize(h) <= i < UNION_SIZE ==>
        ext.encrypt(h, MakeCommandPacket(ext.crc16, kind, minutes, seqNo).p)[i] == 0
    ensures var pkt := MakeCommandPacket(ext.crc16, kind, minutes, seqNo);
      var got := Receive(ext, WireBytes(ext, pkt));
      got.Received? && Receiver.IsCommandForReceiver(got.pkt) && got.pkt.h.seqNo == seqNo &&
      CommandOf(got.pkt.p) == CommandPayload(kind, minutes)
  {
    SendRecvRoundTrip(ext, MakeCommandPacket(ext.crc16, kind, minutes, seqNo));
  }

  // ---------------------------------------------------------------------
  // The acknowledged send

  datatype RxInput = RxInput(raw: seq<Byte>, rssi: int, snr: int)

  datatype Tick = Tick(now: U32, tx: TxOutcome, rx: Option<RxInput>)

  /** The sender's globals and the link's state. `attempts` lists every
      packet handed to `loraLink.send`; `sent` the frames the radio took. */
  datatype SenderState = SenderState(
    seqNo: U16, lastMinutes: Byte, lastStatus: StatusPayload, lastStatusRxMs: U32,
    awaitingCmdSeq: U16, configured: bool, sent: seq<seq<Byte>>, attempts: seq<Packet>)

  /** A received buffer that is a status from the receiver, decrypted. */
  function StatusFromReceiver(ext: Externals, configured: bool, rx: Option<RxInput>): (r: Option<Packet>)
    requires Sound(ext)
    ensures r.Some? <==> (configured && rx.Some? && Receive(ext, rx.value.raw).Received? &&
      Receive(ext, rx.value.raw).pkt.h.msgType == MsgTypeCode(Status) &&
      Receive(ext, rx.value.raw).pkt.h.src == LORA_NODE_RECEIVER)
    ensures r.Some? ==> r.value == Receive(ext, rx.value.raw).pkt
  {
    if !configured || rx.None? then None
    else match Receive(ext, rx.value.raw)
      case Received(pkt) =>
        if pkt.h.msgType == MsgTypeCode(Status) && pkt.h.src == LORA_NODE_RECEIVER then Some(pkt) else None
      case _ => None
  }

  /** A status from the receiver replaces the last one, with the link
      quality measured here, and is time-stamped. */
  function NoteStatus(s: SenderState, pkt: Packet, rx: RxInput, now: U32): (r: SenderState)
    ensures r.lastStatus == StatusOf(pkt.p).(lastRssiDbm := ToI8(rx.rssi), lastSnrDb := ToI8(rx.snr))
    ensures r.lastStatusRxMs == now
    ensures r == s.(lastStatus := r.lastStatus, lastStatusRxMs := now)
  {
    s.(lastStatus := StatusOf(pkt.p).(lastRssiDbm := ToI8(rx.rssi), lastSnrDb := ToI8(rx.snr)), lastStatusRxMs := now)
  }

  /** One call of `loraLink.send` for `cmd`. */
  function Transmit(ext: Externals, s: SenderState, cmd: Packet, tx: TxOutcome): (r: SenderState)
    requires Sound(ext)
    ensures r.attempts == s.attempts + [cmd]
    ensures r.sent == if s.configured && TxAccepted(ext, cmd, tx) then s.sent + [WireBytes(ext, cmd)] else s.sent
    ensures r == s.(attempts := r.attempts, sent := r.sent)
  {
    s.(attempts := s.attempts + [cmd],
       sent := if s.configured && TxAccepted(ext, cmd, tx) then s.sent + [WireBytes(ext, cmd)] else s.sent)
  }

  /** The transmission part of one pass: due when the clock has reached
      `nextSend`, and then the next one is due an interval later. */
  function AttemptStep(ext: Externals, s: SenderState, cmd: Packet, nextSend: U32, t: Tick): (r: (SenderState, U32))
    requires Sound(ext)
    ensures t.now >= nextSend ==> r == (Transmit(ext, s, cmd, t.tx), Wrap32(t.now + SENDER_CMD_RETRY_INTERVAL_MS))
    ensures t.now < nextSend ==> r == (s, nextSend)
  {
    if t.now >= nextSend then (Transmit(ext, s, cmd, t.tx), Wrap32(t.now + SENDER_CMD_RETRY_INTERVAL_MS))
    else (s, nextSend)
  }

  /** One pass of the wait loop before the deadline: the new state, the
      next due time, and whether the pass saw the acknowledgement. */
  function TickStep(ext: Externals, s: SenderState, cmd: Packet, nextSend: U32, t: Tick): (r: (SenderState, U32, bool))
    requires Sound(ext)
    ensures var a := AttemptStep(ext, s, cmd, nextSend, t);
      var st := StatusFromReceiver(ext, s.configured, t.rx);
      r.1 == a.1 &&
      (st.None? ==> r.0 == a.0 && !r.2) &&
      (st.Some? ==> r.0 == NoteStatus(a.0, st.value, t.rx.value, t.now) &&
                    (r.2 <==> StatusOf(st.value.p).lastCmdSeq == cmd.h.seqNo))
  {
    var a := AttemptStep(ext, s, cmd, nextSend, t);
    match StatusFromReceiver(ext, a.0.configured, t.rx)
    case None => (a.0, a.1, false)
    case Some(pkt) =>
      var n := NoteStatus(a.0, pkt, t.rx.value, t.now);
      (n, a.1, n.lastStatus.lastCmdSeq == cmd.h.seqNo)
  }

  /** Whether pass `k` is still before the deadline, and so are all
      earlier passes. */
  predicate LiveUpTo(ticks: seq<Tick>, start: U32, k: nat)
    requires k < |ticks|
  {
    forall j :: 0 <= j <= k ==> Elapsed(ticks[j].now, start) < SENDER_CMD_ACK_TIMEOUT_MS
  }

  /** Whether pass `t` receives the acknowledgement of `cmdSeq`. */
  predicate IsAck(ext: Externals, configured: bool, t: Tick, cmdSeq: U16)
    requires Sound(ext)
  {
    var st := StatusFromReceiver(ext, configured, t.rx);
    st.Some? && StatusOf(st.value.p).lastCmdSeq == cmdSeq
  }

  /** What the wait loop may change from `s` to `t` while sending `cmd`:
      the status fields, and it may only add transmissions of `cmd`. */
  predicate Extends(ext: Externals, cmd: Packet, s: SenderState, t: SenderState)
    requires Sound(ext)
  {
    t.seqNo == s.seqNo && t.lastMinutes == s.lastMinutes &&
    t.awaitingCmdSeq == s.awaitingCmdSeq && t.configured == s.configured &&
    s.attempts <= t.attempts && (forall i :: |s.attempts| <= i < |t.attempts| ==> t.attempts[i] == cmd) &&
    s.sent <= t.sent && (forall i :: |s.sent| <= i < |t.sent| ==> t.sent[i] == WireBytes(ext, cmd))
  }

  lemma ExtendsTransitive(ext: Externals, cmd: Packet, a: SenderState, b: SenderState, c: SenderState)
    requires Sound(ext) && Extends(ext, cmd, a, b) && Extends(ext, cmd, b, c)
    ensures Extends(ext, cmd, a, c)
  {
    assert forall i :: |a.attempts| <= i < |b.attempts| ==> c.attempts[i] == b.attempts[i];
    assert forall i :: |a.sent| <= i < |b.sent| ==> c.sent[i] == b.sent[i];
  }

  lemma TickStepExtends(ext: Externals, s: SenderState, cmd: Packet, nextSend: U32, t: Tick)
    requires Sound(ext)
    ensures Extends(ext, cmd, s, TickStep(ext, s, cmd, nextSend, t).0)
  {
    var a := AttemptStep(ext, s, cmd, nextSend, t).0;
    TransmitExtends(ext, s, cmd, nextSend, t);
    var st := StatusFromReceiver(ext, s.configured, t.rx);
    if st.Some? {
      var n := NoteStatus(a, st.value, t.rx.value, t.now);
      assert n.attempts == a.attempts && n.sent == a.sent;
    }
  }

  /** A transmission only adds `cmd` to the attempts and its wire image to
      the frames sent. */
  lemma TransmitExtends(ext: Externals, s: SenderState, cmd: Packet, nextSend: U32, t: Tick)
    requires Sound(ext)
    ensures Extends(ext, cmd, s, AttemptStep(ext, s, cmd, nextSend, t).0)
  {
    var a := AttemptStep(ext, s, cmd, nextSend, t).0;
    if t.now >= nextSend {
      assert a == Transmit(ext, s, cmd, t.tx);
      assert forall i :: |s.attempts| <= i < |a.attempts| ==> a.attempts[i] == cmd;
    } else {
      assert a == s;
    }
  }

  /** The wait loop from one pass on; the sequence of passes ends, at the
      latest, with the first one past the deadline. */
  function AckLoop(ext: Externals, s: SenderState, cmd: Packet, start: U32, nextSend: U32, ticks: seq<Tick>): (r: (SenderState, bool))
    requires Sound(ext)
    ensures Extends(ext, cmd, s, r.0)
    decreases |ticks|
  {
    if |ticks| == 0 || Elapsed(ticks[0].now, start) >= SENDER_CMD_ACK_TIMEOUT_MS then (s, false)
    else
      var p := TickStep(ext, s, cmd, nextSend, ticks[0]);
      TickStepExtends(ext, s, cmd, nextSend, ticks[0]);
      if p.2 then (p.0, true)
      else
        var r := AckLoop(ext, p.0, cmd, start, p.1, ticks[1..]);
        ExtendsTransitive(ext, cmd, s, p.0, r.0);
        r
  }

  /** The loop reports an acknowledgement exactly when some pass before the
      deadline receives a status from the receiver naming the command's
      sequence number. */
  lemma {:induction false} AckLoopAcknowledges(ext: Externals, s: SenderState, cmd: Packet, start: U32, nextSend: U32, ticks: seq<Tick>)
    requires Sound(ext)
    ensures AckLoop(ext, s, cmd, start, nextSend, ticks).1 <==>
      exists k :: 0 <= k < |ticks| && LiveUpTo(ticks, start, k) && IsAck(ext, s.configured, ticks[k], cmd.h.seqNo)
    decreases |ticks|
  {
    if |ticks| == 0 || Elapsed(ticks[0].now, start) >= SENDER_CMD_ACK_TIMEOUT_MS {
      if |ticks| > 0 {
        assert forall k :: 0 <= k < |ticks| && LiveUpTo(ticks, start, k) ==>
          Elapsed(ticks[0].now, start) < SENDER_CMD_ACK_TIMEOUT_MS;
      }
    } else {
      var p := TickStep(ext, s, cmd, nextSend, ticks[0]);
      assert LiveUpTo(ticks, start, 0);
      if !p.2 {
        assert p.0.configured == s.configured;
        assert !IsAck(ext, s.configured, ticks[0], cmd.h.seqNo);
        AckLoopAcknowledges(ext, p.0, cmd, start, p.1, ticks[1..]);
        AckSearchShift(ext, s.configured, ticks, start, cmd.h.seqNo);
      }
    }
  }

  /** When the first pass is live but no acknowledgement, an acknowledged
      live pass exists exactly when one exists among the later passes. */
  lemma AckSearchShift(ext: Externals, configured: bool, ticks: seq<Tick>, start: U32, seqNo: U16)
    requires Sound(ext) && |ticks| > 0 && Elapsed(ticks[0].now, start) < SENDER_CMD_ACK_TIMEOUT_MS
    requires !IsAck(ext, configured, ticks[0], seqNo)
    ensures (exists k :: 0 <= k < |ticks| && LiveUpTo(ticks, start, k) && IsAck(ext, configured, ticks[k], seqNo)) <==>
      (exists k :: 0 <= k < |ticks| - 1 && LiveUpTo(ticks[1..], start, k) && IsAck(ext, configured, ticks[1..][k], seqNo))
  {
    var rest := ticks[1..];
    if exists k :: 0 <= k < |rest| && LiveUpTo(rest, start, k) && IsAck(ext, configured, rest[k], seqNo) {
      var k :| 0 <= k < |rest| && LiveUpTo(rest, start, k) && IsAck(ext, configured, rest[k], seqNo);
      AckFromLater(ext, configured, ticks, start, seqNo, k);
    }
    if exists k :: 0 <= k < |ticks| && LiveUpTo(ticks, start, k) && IsAck(ext, configured, ticks[k], seqNo) {
      var k :| 0 <= k < |ticks| && LiveUpTo(ticks, start, k) && IsAck(ext, configured, ticks[k], seqNo);
      assert k != 0;
      AckToLater(ext, configured, ticks, start, seqNo, k);
    }
  }

  /** An acknowledged live pass among the later passes is one of all passes. */
  lemma AckFromLater(ext: Externals, configured: bool, ticks: seq<Tick>, start: U32, seqNo: U16, k: nat)
    requires Sound(ext) && k + 1 < |ticks| && Elapsed(ticks[0].now, start) < SENDER_CMD_ACK_TIMEOUT_MS
    requires LiveUpTo(ticks[1..], start, k) && IsAck(ext, configured, ticks[1..][k], seqNo)
    ensures LiveUpTo(ticks, start, k + 1) && IsAck(ext, configured, ticks[k + 1], seqNo)
  {
    assert ticks[k + 1] == ticks[1..][k];
    LiveShift(ticks, start, k);
  }

  /** An acknowledged live pass after the first is one of the later passes. */
  lemma AckToLater(ext: Externals, configured: bool, ticks: seq<Tick>, start: U32, seqNo: U16, k: nat)
    requires Sound(ext) && 0 < k < |ticks| && Elapsed(ticks[0].now, start) < SENDER_CMD_ACK_TIMEOUT_MS
    requires LiveUpTo(ticks, start, k) && IsAck(ext, configured, ticks[k], seqNo)
    ensures LiveUpTo(ticks[1..], start, k - 1) && IsAck(ext, configured, ticks[1..][k - 1], seqNo)
  {
    assert ticks[1..][k - 1] == ticks[k];
    LiveShift(ticks, start, k - 1);
  }

  /** Behind a live first pass, pass `k + 1` is live exactly when pass `k`
      of the later passes is. */
  lemma LiveShift(ticks: seq<Tick>, start: U32, k: nat)
    requires k + 1 < |ticks| && Elapsed(ticks[0].now, start) < SENDER_CMD_ACK_TIMEOUT_MS
    ensures LiveUpTo(ticks, start, k + 1) <==> LiveUpTo(ticks[1..], start, k)
  {
    var rest := ticks[1..];
    if LiveUpTo(rest, start, k) {
      forall j | 0 <= j <= k + 1
        ensures Elapsed(ticks[j].now, start) < SENDER_CMD_ACK_TIMEOUT_MS
      {
        if j > 0 {
          assert ticks[j] == rest[j - 1];
        }
      }
    }
    if LiveUpTo(ticks, start, k + 1) {
      forall j | 0 <= j <= k
        ensures Elapsed(rest[j].now, start) < SENDER_CMD_ACK_TIMEOUT_MS
      {
        assert rest[j] == ticks[j + 1];
      }
    }
  }

  /** The first pass before the deadline always transmits: `nextSend`
      starts at 0. */
  lemma FirstPassTransmits(ext: Externals, s: SenderState, cmd: Packet, start: U32, ticks: seq<Tick>)
    requires Sound(ext)
    requires |ticks| > 0 && Elapsed(ticks[0].now, start) < SENDER_CMD_ACK_TIMEOUT_MS
    ensures |AckLoop(ext, s, cmd, start, 0, ticks).0.attempts| > |s.attempts|
  {
    var p := TickStep(ext, s, cmd, 0, ticks[0]);
    assert |p.0.attempts| == |s.attempts| + 1;
    if !p.2 {
      var r := AckLoop(ext, p.0, cmd, start, p.1, ticks[1..]);
      assert p.0.attempts <= r.0.attempts;
    }
  }

  /** As written, the due time is an unsigned sum compared with the clock:
      when the clock is within one interval of wrapping, the sum wraps to a
      small value and the very next pass transmits again, 10 ms later. */
  lemma RetryBurstNearClockWrap(ext: Externals, s: SenderState, cmd: Packet, t0: Tick, t1: Tick)
    requires Sound(ext)
    requires t0.now == 0xFFFF_FC18 && t1.now == 0xFFFF_FC22
    ensures var a := AttemptStep(ext, s, cmd, 0, t0);
      var b := AttemptStep(ext, a.0, cmd, a.1, t1);
      |b.0.attempts| == |s.attempts| + 2 && Elapsed(t1.now, t0.now) == 10
  {
  }

  /** Away from the wrap, retransmissions are at least one interval apart. */
  lemma RetryIntervalKept(ext: Externals, s: SenderState, cmd: Packet, t0: Tick, t1: Tick)
    requires Sound(ext)
    requires t0.now + SENDER_CMD_RETRY_INTERVAL_MS < 0x1_0000_0000
    requires t0.now <= t1.now && t1.now - t0.now < SENDER_CMD_RETRY_INTERVAL_MS
    ensures var a := AttemptStep(ext, s, cmd, 0, t0);
      AttemptStep(ext, a.0, cmd, a.1, t1).0 == a.0
  {
  }

  /** `sendCommandWithAck`: the current sequence number is used and
      incremented; the wait ends with nothing awaited. */
  function SendWithAck(ext: Externals, s: SenderState, kind: Byte, minutes: Byte, start: U32, ticks: seq<Tick>): (r: (SenderState, bool))
    requires Sound(ext)
    ensures r.0.seqNo == Wrap16(s.seqNo + 1) && r.0.awaitingCmdSeq == 0
    ensures r.0.lastMinutes == s.lastMinutes && r.0.configured == s.configured
    ensures s.attempts <= r.0.attempts
    ensures forall i :: |s.attempts| <= i < |r.0.attempts| ==>
      r.0.attempts[i] == MakeCommandPacket(ext.crc16, kind, minutes, s.seqNo)
    ensures s.sent <= r.0.sent
  {
    var cmdSeq := s.seqNo;
    var cmd := MakeCommandPacket(ext.crc16, kind, minutes, cmdSeq);
    var a := s.(seqNo := Wrap16(s.seqNo + 1), awaitingCmdSeq := cmdSeq);
    var r := AckLoop(ext, a, cmd, start, 0, ticks);
    (r.0.(awaitingCmdSeq := 0), r.1)
  }

  /** The result of the acknowledged send is true exactly when a status
      acknowledging the sequence number it used arrives before the
      deadline. */
  lemma SendWithAckResult(ext: Externals, s: SenderState, kind: Byte, minutes: Byte, start: U32, ticks: seq<Tick>)
    requires Sound(ext)
    ensures SendWithAck(ext, s, kind, minutes, start, ticks).1 <==>
      exists k :: 0 <= k < |ticks| && LiveUpTo(ticks, start, k) && IsAck(ext, s.configured, ticks[k], s.seqNo)
  {
    var cmd := MakeCommandPacket(ext.crc16, kind, minutes, s.seqNo);
    var a := s.(seqNo := Wrap16(s.seqNo + 1), awaitingCmdSeq := s.seqNo);
    AckLoopAcknowledges(ext, a, cmd, start, 0, ticks);
  }

  // ---------------------------------------------------------------------
  // Console lines

  const LINE_BUFFER_MAX: nat := 128

  /** The line buffer keeps only its last 128 characters. */
  function KeepLast(s: string): (r: string)
    ensures |r| == if |s| > LINE_BUFFER_MAX then LINE_BUFFER_MAX else |s|
    ensures r == s[|s| - |r|..]
  {
    if |s| > LINE_BUFFER_MAX then s[|s| - LINE_BUFFER_MAX..] else s
  }

  /** The tail of a concatenation only depends on the tail of its front. */
  lemma KeepLastConcat(s: string, t: string)
    ensures KeepLast(KeepLast(s) + t) == KeepLast(s + t)
  {
    if |s| > LINE_BUFFER_MAX {
      var a := KeepLast(s) + t;
      var b := s + t;
      var d := |s| - LINE_BUFFER_MAX;
      assert a == b[d..] by {
        assert forall i :: 0 <= i < |a| ==> a[i] == b[d + i];
      }
      if |a| > LINE_BUFFER_MAX {
        assert a[|a| - LINE_BUFFER_MAX..] == b[|b| - LINE_BUFFER_MAX..] by {
          assert forall i :: |a| - LINE_BUFFER_MAX <= i < |a| ==> a[i] == b[d + i];
        }
      }
    }
  }

  /** The characters without carriage returns. */
  function WithoutCr(cs: string): (r: string)
    ensures forall i :: 0 <= i < |r| ==> r[i] != '\r'
    ensures |r| <= |cs|
  {
    if |cs| == 0 then "" else if cs[0] == '\r' then WithoutCr(cs[1..]) else [cs[0]] + WithoutCr(cs[1..])
  }

  /** `readLineNonBlocking` on the buffered text and the characters
      available: the line returned, the new buffer, and the characters left
      unread. */
  function ReadLine(buf: string, input: string): (r: (string, string, string))
    ensures |r.2| <= |input| && r.2 == input[|input| - |r.2|..]
    decreases |input|
  {
    if |input| == 0 then ("", buf, input)
    else if input[0] == '\r' then ReadLine(buf, input[1..])
    else if input[0] == '\n' then (Trim(buf), "", input[1..])
    else ReadLine(KeepLast(buf + [input[0]]), input[1..])
  }

  /** The first character read decides between skipping it, ending the
      line and buffering it. */
  lemma ReadLineFirst(buf: string, input: string)
    requires |input| > 0
    ensures input[0] == '\r' ==> ReadLine(buf, input) == ReadLine(buf, input[1..])
    ensures input[0] == '\n' ==> ReadLine(buf, input) == (Trim(buf), "", input[1..])
    ensures input[0] != '\r' && input[0] != '\n' ==>
      ReadLine(buf, input) == ReadLine(KeepLast(buf + [input[0]]), input[1..])
  {
  }

  /** The buffer after reading the first character, as in `ReadLine`. */
  function BufferAfter(buf: string, c: char): string
  {
    if c == '\r' then buf else KeepLast(buf + [c])
  }

  /** Buffering one character and then the rest is buffering them all. */
  lemma BufferAfterConcat(buf: string, cs: string)
    requires |buf| <= LINE_BUFFER_MAX && |cs| > 0
    ensures |BufferAfter(buf, cs[0])| <= LINE_BUFFER_MAX
    ensures KeepLast(BufferAfter(buf, cs[0]) + WithoutCr(cs[1..])) == KeepLast(buf + WithoutCr(cs))
  {
    if cs[0] != '\r' {
      assert WithoutCr(cs) == [cs[0]] + WithoutCr(cs[1..]);
      KeepLastPush(buf, cs[0], WithoutCr(cs[1..]));
    }
  }

  lemma KeepLastPush(buf: string, c: char, w: string)
    ensures KeepLast(KeepLast(buf + [c]) + w) == KeepLast(buf + ([c] + w))
  {
    KeepLastConcat(buf + [c], w);
    assert (buf + [c]) + w == buf + ([c] + w);
  }

  /** Without a newline everything is buffered: the buffer becomes the last
      128 characters of the old buffer and the new characters, carriage
      returns dropped, and no line is returned. */
  lemma {:induction false} ReadLineBuffers(buf: string, input: string)
    requires |buf| <= LINE_BUFFER_MAX
    requires forall i :: 0 <= i < |input| ==> input[i] != '\n'
    ensures ReadLine(buf, input) == ("", KeepLast(buf + WithoutCr(input)), "")
    decreases |input|
  {
    if |input| == 0 {
      assert buf + WithoutCr(input) == buf;
    } else {
      var rest := input[1..];
      assert forall i :: 0 <= i < |rest| ==> rest[i] == input[i + 1];
      BufferAfterConcat(buf, input);
      ReadLineBuffers(BufferAfter(buf, input[0]), rest);
    }
  }

  /** At the first newline the line buffered so far is returned trimmed,
      the buffer is emptied, and what follows the newline stays unread. */
  lemma {:induction false} ReadLineAtNewline(buf: string, input: string, k: nat)
    requires |buf| <= LINE_BUFFER_MAX
    requires k < |input| && input[k] == '\n'
    requires forall i :: 0 <= i < k ==> input[i] != '\n'
    ensures ReadLine(buf, input) == (Trim(KeepLast(buf + WithoutCr(input[..k]))), "", input[k + 1..])
    decreases k
  {
    if k == 0 {
      assert buf + WithoutCr(input[..k]) == buf;
    } else {
      var rest := input[1..];
      assert forall i :: 0 <= i < |rest| ==> rest[i] == input[i + 1];
      assert rest[..k - 1] == input[..k][1..];
      assert rest[k - 1 + 1..] == input[k + 1..];
      BufferAfterConcat(buf, input[..k]);
      ReadLineAtNewline(BufferAfter(buf, input[0]), rest, k - 1);
    }
  }

  /** The buffer never holds more than 128 characters. */
  lemma {:induction false} ReadLineBounded(buf: string, input: string)
    requires |buf| <= LINE_BUFFER_MAX
    ensures |ReadLine(buf, input).1| <= LINE_BUFFER_MAX
    decreases |input|
  {
    if |input| > 0 && input[0] != '\n' {
      ReadLineBounded(if input[0] == '\r' then buf else KeepLast(buf + [input[0]]), input[1..]);
    }
  }

  /** What a console line asks for. */
  datatype ConsoleCommand =
    | NoLine
    | StopLine
    | StartLine
    | RunUsage                  // "run" without a space
    | RunRejected(value: int)   // a number outside 1..255
    | RunLine(minutes: Byte)
    | UnknownLine

  /** The console branch of `loop`: "stop" and "start" in any case; "run"
      or "RUN" at the start, then the number after the first space. */
  function ParseConsoleLine(line: string): (r: ConsoleCommand)
    ensures r.RunLine? ==> 1 <= r.minutes
  {
    if |line| == 0 then NoLine
    else if EqualsIgnoreCase(line, "stop") then StopLine
    else if EqualsIgnoreCase(line, "start") then StartLine
    else if "run" <= line || "RUN" <= line then
      var space := IndexOf(line, ' ');
      if space < 0 then RunUsage
      else
        var minutes := Atoi(line[space + 1..]);
        if minutes <= 0 || minutes > 255 then RunRejected(minutes) else RunLine(minutes)
    else UnknownLine
  }

  lemma ConsoleKeywords()
    ensures ParseConsoleLine("STOP") == StopLine && ParseConsoleLine("Start") == StartLine
    ensures ParseConsoleLine("run") == RunUsage
  {
    EqualsIgnoreCaseExamples();
    assert IndexOf("run", ' ') == -1 by {
      assert "run"[0] == 'r' && "run"[1] == 'u' && "run"[2] == 'n';
    }
    assert "run" <= "run";
    assert !EqualsIgnoreCase("run", "stop") && !EqualsIgnoreCase("run", "start");
  }

  /** "run N" with N in 1..255 asks for N minutes, and N outside that range
      is refused. */
  lemma {:induction false} RunLineMinutes(n: nat)
    ensures 1 <= n <= 255 ==> ParseConsoleLine("run " + Decimal(n)) == RunLine(n)
    ensures n == 0 || n > 255 ==> ParseConsoleLine("run " + Decimal(n)).RunRejected?
  {
    var line := "run " + Decimal(n);
    assert line[0] == 'r' && line[1] == 'u' && line[2] == 'n' && line[3] == ' ';
    assert "run" <= line;
    assert !EqualsIgnoreCase(line, "stop") by {
      assert Lower(line[0]) != Lower("stop"[0]);
    }
    assert !EqualsIgnoreCase(line, "start") by {
      assert Lower(line[0]) != Lower("start"[0]);
    }
    assert IndexOf(line, ' ') == 3 by {
      assert line[3..] == [' '] + Decimal(n);
      assert forall i :: 0 <= i < 3 ==> line[i] != ' ';
    }
    assert line[4..] == Decimal(n);
    AtoiDecimal(n, "");
    assert Decimal(n) + "" == Decimal(n);
  }

  /** The keyword "run" is matched case-sensitively, unlike "stop" and
      "start": "Run 10" is an unknown command. */
  lemma MixedCaseRunIsUnknown()
    ensures ParseConsoleLine("Run 10") == UnknownLine
  {
    assert "Run 10"[0] == 'R' && "Run 10"[1] == 'u';
    assert !("run" <= "Run 10") && !("RUN" <= "Run 10");
    assert |"Run 10"| == 6;
  }

  /** The command a console line sends and the preset after it: a run sets
      the preset first; start sends the preset; stop sends 0 minutes. */
  function ConsoleRequest(c: ConsoleCommand, lastMinutes: Byte): (r: Option<(Byte, Byte, Byte)>)
    ensures r.Some? <==> c.StopLine? || c.StartLine? || c.RunLine?
    ensures c.StopLine? ==> r == Some((lastMinutes, CommandKindCode(CommandKind.Stop), 0))
    ensures c.StartLine? ==> r == Some((lastMinutes, CommandKindCode(CommandKind.Start), lastMinutes))
    ensures c.RunLine? ==> r == Some((c.minutes, CommandKindCode(RunMinutes), c.minutes))
  {
    match c
    case StopLine => Some((lastMinutes, CommandKindCode(CommandKind.Stop), 0))
    case StartLine => Some((lastMinutes, CommandKindCode(CommandKind.Start), lastMinutes))
    case RunLine(m) => Some((m, CommandKindCode(RunMinutes), m))
    case _ => None
  }

  /** The command a menu activation sends, as (new preset, kind, minutes):
      the run items set the preset to their own duration first. */
  function MenuRequest(item: MenuItem, lastMinutes: Byte): (r: (Byte, Byte, Byte))
    ensures item == MenuItem.Start ==> r == (lastMinutes, CommandKindCode(CommandKind.Start), lastMinutes)
    ensures item == MenuItem.Stop ==> r == (lastMinutes, CommandKindCode(CommandKind.Stop), 0)
    ensures item == Run10min ==> r == (10, CommandKindCode(RunMinutes), 10)
    ensures item == Run20min ==> r == (20, CommandKindCode(RunMinutes), 20)
    ensures item == Run30min ==> r == (30, CommandKindCode(RunMinutes), 30)
    ensures item == Run90min ==> r == (90, CommandKindCode(RunMinutes), 90)
  {
    match item
    case Start => (lastMinutes, CommandKindCode(CommandKind.Start), lastMinutes)
    case Stop => (lastMinutes, CommandKindCode(CommandKind.Stop), 0)
    case Run10min => (10, CommandKindCode(RunMinutes), 10)
    case Run20min => (20, CommandKindCode(RunMinutes), 20)
    case Run30min => (30, CommandKindCode(RunMinutes), 30)
    case Run90min => (90, CommandKindCode(RunMinutes), 90)
  }

  /** A run item's request is what the console's "run N" sends for the
      same number, so both interfaces agree. */
  lemma MenuAgreesWithConsole(item: MenuItem, lastMinutes: Byte)
    requires item != MenuItem.Start && item != MenuItem.Stop
    ensures var m := MenuRequest(item, lastMinutes);
      ConsoleRequest(ParseConsoleLine("run " + Decimal(m.2)), lastMinutes) == Some(m)
  {
    var m := MenuRequest(item, lastMinutes);
    RunLineMinutes(m.2);
  }

  // ---------------------------------------------------------------------
  // The sender object

  class SenderNode {
    const ext: Externals
    const link: LoRaLink

    var seqNo: U16
    var lastMinutes: Byte
    var lastStatus: StatusPayload
    var lastStatusRxMs: U32
    var awaitingCmdSeq: U16
    /** Every packet handed to `loraLink.send`, oldest first. */
    var attempts: seq<Packet>
    /** The static line buffer of `readLineNonBlocking`, and the characters
        waiting on the serial port. */
    var lineBuf: string
    var serialIn: string

    function Snapshot(): SenderState
      reads this, link
    {
      SenderState(seqNo, lastMinutes, lastStatus, lastStatusRxMs, awaitingCmdSeq, link.configured, link.sent, attempts)
    }

    ghost predicate Valid()
      reads this
    {
      link.ext == ext && Sound(ext)
    }

    constructor (ext: Externals, link: LoRaLink, serialIn: string)
      requires link.ext == ext && Sound(ext)
      ensures Valid() && this.link == link && this.serialIn == serialIn && lineBuf == ""
      ensures Snapshot() == SenderState(1, DEFAULT_RUN_MINUTES, ZeroStatus(), 0, 0, link.configured, link.sent, [])
    {
      this.ext := ext;
      this.link := link;
      seqNo := 1;
      lastMinutes := DEFAULT_RUN_MINUTES;
      lastStatus := ZeroStatus();
      lastStatusRxMs := 0;
      awaitingCmdSeq := 0;
      attempts := [];
      lineBuf := "";
      this.serialIn := serialIn;
    }

    /** The status branch shared by the wait loop and `loop`. */
    method PumpStatus(rx: Option<RxInput>, now: U32)
      requires Valid()
      modifies this`lastStatus, this`lastStatusRxMs
      ensures var st := StatusFromReceiver(ext, link.configured, rx);
        Snapshot() == if st.Some? then NoteStatus(old(Snapshot()), st.value, rx.value, now) else old(Snapshot())
    {
      if rx.None? {
        return;
      }
      var ok, pkt := link.Recv(rx.value.raw, ZeroPacket());
      if ok && pkt.h.msgType == MsgTypeCode(Status) && pkt.h.src == LORA_NODE_RECEIVER {
        lastStatus := StatusOf(pkt.p);
        lastStatus := lastStatus.(lastRssiDbm := ToI8(rx.value.rssi));
        lastStatus := lastStatus.(lastSnrDb := ToI8(rx.value.snr));
        lastStatusRxMs := now;
      }
    }

    /** One pass of the wait loop in `sendCommandWithAck`. */
    method Pass(cmd: Packet, nextSend: U32, t: Tick) returns (next: U32, acked: bool)
      requires Valid()
      modifies this`lastStatus, this`lastStatusRxMs, this`attempts, link`sent
      ensures (Snapshot(), next, acked) == TickStep(ext, old(Snapshot()), cmd, nextSend, t)
    {
      next := nextSend;
      if t.now >= nextSend {
        var ok := link.Send(cmd, t.tx);
        attempts := attempts + [cmd];
        next := Wrap32(t.now + SENDER_CMD_RETRY_INTERVAL_MS);
      }
      assert (Snapshot(), next) == AttemptStep(ext, old(Snapshot()), cmd, nextSend, t);
      PumpStatus(t.rx, t.now);
      acked := StatusFromReceiver(ext, link.configured, t.rx).Some? && lastStatus.lastCmdSeq == cmd.h.seqNo;
    }

    /** The wait loop of `sendCommandWithAck`: passes until the deadline,
        the end of the ticks or an acknowledgement. */
    method AwaitAck(cmd: Packet, start: U32, ticks: seq<Tick>) returns (acked: bool)
      requires Valid()
      modifies this`lastStatus, this`lastStatusRxMs, this`attempts, link`sent
      ensures (Snapshot(), acked) == AckLoop(ext, old(Snapshot()), cmd, start, 0, ticks)
    {
      ghost var want := AckLoop(ext, Snapshot(), cmd, start, 0, ticks);
      var nextSend: U32 := 0;
      var k := 0;
      while k < |ticks| && Elapsed(ticks[k].now, start) < SENDER_CMD_ACK_TIMEOUT_MS
        invariant 0 <= k <= |ticks|
        invariant AckLoop(ext, Snapshot(), cmd, start, nextSend, ticks[k..]) == want
        decreases |ticks| - k
      {
        assert ticks[k..][0] == ticks[k] && ticks[k..][1..] == ticks[k + 1..];
        var ackedNow;
        nextSend, ackedNow := Pass(cmd, nextSend, ticks[k]);
        if ackedNow {
          return true;
        }
        k := k + 1;
      }
      return false;
    }

    method SendCommandWithAck(kind: Byte, minutes: Byte, start: U32, ticks: seq<Tick>) returns (acked: bool)
      requires Valid()
      modifies this`seqNo, this`awaitingCmdSeq, this`lastStatus, this`lastStatusRxMs, this`attempts, link`sent
      ensures (Snapshot(), acked) == SendWithAck(ext, old(Snapshot()), kind, minutes, start, ticks)
    {
      var cmdSeq := seqNo;
      seqNo := Wrap16(seqNo + 1);
      var cmd := MakeCommandPacket(ext.crc16, kind, minutes, cmdSeq);
      awaitingCmdSeq := cmdSeq;
      acked := AwaitAck(cmd, start, ticks);
      awaitingCmdSeq := 0;
    }

    /** `readLineNonBlocking`: reads until a newline or until no character
        is waiting. */
    method ReadLineNonBlocking() returns (line: string)
      modifies this`lineBuf, this`serialIn
      ensures (line, lineBuf, serialIn) == ReadLine(old(lineBuf), old(serialIn))
    {
      while |serialIn| > 0
        invariant ReadLine(lineBuf, serialIn) == ReadLine(old(lineBuf), old(serialIn))
        decreases |serialIn|
      {
        ReadLineFirst(lineBuf, serialIn);
        var c := serialIn[0];
        serialIn := serialIn[1..];
        if c == '\r' {
          continue;
        }
        if c == '\n' {
          line := lineBuf;
          lineBuf := "";
          line := Trim(line);
          return line;
        }
        PushChar(c);
      }
      return "";
    }

    /** Appending to `lineBuf`, dropping the oldest character on overflow. */
    method PushChar(c: char)
      modifies this`lineBuf
      ensures lineBuf == KeepLast(old(lineBuf) + [c])
    {
      lineBuf := lineBuf + [c];
      if |lineBuf| > LINE_BUFFER_MAX {
        lineBuf := lineBuf[|lineBuf| - LINE_BUFFER_MAX..];
      }
    }

    /** The console branch of `loop` for one line. */
    method HandleConsoleLine(line: string, start: U32, ticks: seq<Tick>) returns (sent: bool, acked: bool)
      requires Valid()
      modifies this`seqNo, this`awaitingCmdSeq, this`lastStatus, this`lastStatusRxMs, this`attempts,
        this`lastMinutes, link`sent
      ensures var req := ConsoleRequest(ParseConsoleLine(line), old(lastMinutes));
        (sent <==> req.Some?) &&
        (req.None? ==> Snapshot() == old(Snapshot()) && !acked) &&
        (req.Some? ==>
          (Snapshot(), acked) ==
            SendWithAck(ext, old(Snapshot()).(lastMinutes := req.value.0), req.value.1, req.value.2, start, ticks))
    {
      var c := ParseConsoleLine(line);
      sent, acked := false, false;
      if c.StopLine? {
        sent := true;
        acked := SendCommandWithAck(CommandKindCode(CommandKind.Stop), 0, start, ticks);
      } else if c.StartLine? {
        sent := true;
        acked := SendCommandWithAck(CommandKindCode(CommandKind.Start), lastMinutes, start, ticks);
      } else if c.RunLine? {
        lastMinutes := c.minutes;
        sent := true;
        acked := SendCommandWithAck(CommandKindCode(RunMinutes), lastMinutes, start, ticks);
      }
    }

    /** `handleMenuSelection`. */
    method HandleMenuSelection(item: MenuItem, start: U32, ticks: seq<Tick>) returns (acked: bool)
      requires Valid()
      modifies this`seqNo, this`awaitingCmdSeq, this`lastStatus, this`lastStatusRxMs, this`attempts,
        this`lastMinutes, link`sent
      ensures var req := MenuRequest(item, old(lastMinutes));
        (Snapshot(), acked) == SendWithAck(ext, old(Snapshot()).(lastMinutes := req.0), req.1, req.2, start, ticks)
    {
      match item
      case Start =>
        acked := SendCommandWithAck(CommandKindCode(CommandKind.Start), lastMinutes, start, ticks);
      case Stop =>
        acked := SendCommandWithAck(CommandKindCode(CommandKind.Stop), 0, start, ticks);
      case Run10min =>
        lastMinutes := 10;
        acked := SendCommandWithAck(CommandKindCode(RunMinutes), lastMinutes, start, ticks);
      case Run20min =>
        lastMinutes := 20;
        acked := SendCommandWithAck(CommandKindCode(RunMinutes), lastMinutes, start, ticks);
      case Run30min =>
        lastMinutes := 30;
        acked := SendCommandWithAck(CommandKindCode(RunMinutes), lastMinutes, start, ticks);
      case Run90min =>
        lastMinutes := 90;
        acked := SendCommandWithAck(CommandKindCode(RunMinutes), lastMinutes, start, ticks);
    }
  }
}
