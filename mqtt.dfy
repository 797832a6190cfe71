/** The MQTT bridge's decisions: which command a message on one of the
    three command topics stands for, whether that command is fresh enough
    to run, and which status values are published. The broker connection,
    the clock (`time(nullptr)`, in seconds) and the registered callback are
    inputs. */
module MqttBridge {
  import opened Bytes
  import opened Wrappers
  import opened Text
  import opened Protocol

  /** Below this clock reading the time is taken as not yet synchronised. */
  const TIME_SYNCED_SEC: U32 := 1000000000
  const MODE_DEFAULT_MINUTES: Byte := 30
  const MINUTES_MIN: int := 10
  const MINUTES_MAX: int := 90

  function ModeCmdTopic(base: string): string { base + "/mode/set" }
  function MinutesCmdTopic(base: string): string { base + "/minutes/set" }
  function QueryTopic(base: string): string { base + "/query" }

  /** The three command topics differ for every base, so at most one
      branch of the decoder applies. */
  lemma CommandTopicsDistinct(base: string)
    ensures ModeCmdTopic(base) != MinutesCmdTopic(base)
    ensures ModeCmdTopic(base) != QueryTopic(base)
    ensures MinutesCmdTopic(base) != QueryTopic(base)
  {
    assert |ModeCmdTopic(base)| == |base| + 9;
    assert |MinutesCmdTopic(base)| == |base| + 12;
    assert |QueryTopic(base)| == |base| + 6;
  }

  /** `MQTTCommand::Type` (lib/common/mqtt_client.h:17-22), with the query
      kind that lib/common/mqtt_client.cpp:377 assigns although the
      enumeration does not list it. */
  datatype CommandType = NoCommand | StartCommand | StopCommand | RunMinutesCommand | QueryStatusCommand

  datatype MqttCommand = MqttCommand(kind: CommandType, minutes: Byte, timestampSec: U32)

  /** The default-constructed command. */
  function NoMqttCommand(): MqttCommand
  {
    MqttCommand(NoCommand, 0, 0)
  }

  /** The payload as the NUL-terminated string the decoder reads: the bytes
      before the first zero byte. */
  function CString(payload: seq<Byte>): (r: string)
    ensures |r| <= |payload|
    ensures forall i :: 0 <= i < |r| ==> r[i] == payload[i] as char && payload[i] != 0
    ensures |r| < |payload| ==> payload[|r|] == 0
  {
    if |payload| == 0 || payload[0] == 0 then ""
    else [payload[0] as char] + CString(payload[1..])
  }

  /** The command encoded by a message, its timestamp taken from `clock`. */
  function DecodeCommand(base: string, topic: string, payload: seq<Byte>, clock: U32): Option<MqttCommand>
  {
    var text := CString(payload);
    if topic == ModeCmdTopic(base) then
      if text == "off" then Some(NoMqttCommand().(kind := StopCommand, timestampSec := clock))
      else if text == "heat" then
        Some(NoMqttCommand().(kind := StartCommand, minutes := MODE_DEFAULT_MINUTES, timestampSec := clock))
      else None
    else if topic == MinutesCmdTopic(base) then
      var minutes := Atoi(text);
      if minutes < MINUTES_MIN || minutes > MINUTES_MAX then None
      else Some(NoMqttCommand().(kind := RunMinutesCommand, minutes := minutes, timestampSec := clock))
    else if topic == QueryTopic(base) then
      Some(NoMqttCommand().(kind := QueryStatusCommand, timestampSec := clock))
    else None
  }

  /** `isCommandFresh`: no timestamp, or no synchronised clock, counts as
      fresh; otherwise the unsigned age must not exceed the limit. */
  function IsCommandFresh(timestampSec: U32, nowSec: U32, maxAgeSec: U32): (r: bool)
    ensures timestampSec == 0 ==> r
    ensures nowSec < TIME_SYNCED_SEC ==> r
    ensures timestampSec != 0 && nowSec >= TIME_SYNCED_SEC ==>
      (r <==> Elapsed(nowSec, timestampSec) <= maxAgeSec)
  {
    if timestampSec == 0 then true
    else if nowSec < TIME_SYNCED_SEC then true
    else Wrap32(nowSec - timestampSec) <= maxAgeSec
  }

  /** The command handed to the callback, if any: decoded at `clock`, checked
      for freshness at `clockLater`, and only when a callback is set. */
  function Delivered(base: string, maxAgeSec: U32, topic: string, payload: seq<Byte>,
                     clock: U32, clockLater: U32, hasCallback: bool): Option<MqttCommand>
  {
    match DecodeCommand(base, topic, payload, clock)
    case None => None
    case Some(c) => if IsCommandFresh(c.timestampSec, clockLater, maxAgeSec) && hasCallback then Some(c) else None
  }

  /** `handleMessage` for the command topics. */
  method HandleMessage(base: string, maxAgeSec: U32, topic: string, payload: seq<Byte>,
                       clock: U32, clockLater: U32, hasCallback: bool) returns (delivered: Option<MqttCommand>)
    ensures delivered == Delivered(base, maxAgeSec, topic, payload, clock, clockLater, hasCallback)
  {
    var payloadStr := CString(payload);
    var cmd := NoMqttCommand();
    if topic == ModeCmdTopic(base) {
      if payloadStr == "off" {
        cmd := cmd.(kind := StopCommand);
        cmd := cmd.(timestampSec := clock);
      } else if payloadStr == "heat" {
        cmd := cmd.(kind := StartCommand);
        cmd := cmd.(minutes := MODE_DEFAULT_MINUTES);
        cmd := cmd.(timestampSec := clock);
      } else {
        return None;
      }
    } else if topic == MinutesCmdTopic(base) {
      var minutes := Atoi(payloadStr);
      if minutes < MINUTES_MIN || minutes > MINUTES_MAX {
        return None;
      }
      cmd := cmd.(kind := RunMinutesCommand);
      cmd := cmd.(minutes := minutes);
      cmd := cmd.(timestampSec := clock);
    } else if topic == QueryTopic(base) {
      cmd := cmd.(kind := QueryStatusCommand);
      cmd := cmd.(timestampSec := clock);
    } else {
      return None;
    }
    if !IsCommandFresh(cmd.timestampSec, clockLater, maxAgeSec) {
      return None;
    }
    if hasCallback {
      return Some(cmd);
    }
    return None;
  }

  // ---------------------------------------------------------------------
  // Properties of the decoder

  /** The mode topic: exactly "off" stops, exactly "heat" starts for 30
      minutes, anything else is dropped. */
  lemma ModeTopicDecoding(base: string, payload: seq<Byte>, clock: U32)
    ensures var r := DecodeCommand(base, ModeCmdTopic(base), payload, clock);
      (r == Some(MqttCommand(StopCommand, 0, clock)) <==> CString(payload) == "off") &&
      (r == Some(MqttCommand(StartCommand, 30, clock)) <==> CString(payload) == "heat") &&
      (r.None? <==> CString(payload) != "off" && CString(payload) != "heat")
  {
  }

  /** The minutes topic: a run command exactly when the number is in
      10..90, carrying that number. */
  lemma MinutesTopicDecoding(base: string, payload: seq<Byte>, clock: U32)
    ensures var r := DecodeCommand(base, MinutesCmdTopic(base), payload, clock);
      var m := Atoi(CString(payload));
      (r.Some? <==> MINUTES_MIN <= m <= MINUTES_MAX) &&
      (r.Some? ==> r.value.kind == RunMinutesCommand && r.value.minutes == m && r.value.timestampSec == clock)
  {
    CommandTopicsDistinct(base);
  }

  /** The bytes of an ASCII text. */
  function Ascii(s: string): (r: seq<Byte>)
    requires forall i :: 0 <= i < |s| ==> s[i] as int < 0x100
    ensures |r| == |s| && forall i :: 0 <= i < |s| ==> r[i] == s[i] as int
  {
    if |s| == 0 then [] else [s[0] as int] + Ascii(s[1..])
  }

  /** A text without NUL characters reads back unchanged. */
  lemma {:induction false} CStringAscii(s: string)
    requires forall i :: 0 <= i < |s| ==> 0 < s[i] as int < 0x100
    ensures CString(Ascii(s)) == s
  {
    if |s| > 0 {
      CStringAscii(s[1..]);
      assert Ascii(s)[1..] == Ascii(s[1..]);
    }
  }

  /** A decimal number of minutes sent as the payload comes back as that
      number when it is in range, and is refused otherwise. */
  lemma MinutesPayloadRoundTrip(base: string, m: nat, clock: U32)
    requires m < 0x100
    ensures var r := DecodeCommand(base, MinutesCmdTopic(base), Ascii(Decimal(m)), clock);
      (MINUTES_MIN <= m <= MINUTES_MAX ==> r == Some(MqttCommand(RunMinutesCommand, m, clock))) &&
      (!(MINUTES_MIN <= m <= MINUTES_MAX) ==> r.None?)
  {
    CStringAscii(Decimal(m));
    AtoiDecimal(m, "");
    assert Decimal(m) + "" == Decimal(m);
    CommandTopicsDistinct(base);
  }

  /** The query topic always gives the query command; other topics give
      nothing. */
  lemma QueryAndOtherTopics(base: string, topic: string, payload: seq<Byte>, clock: U32)
    ensures DecodeCommand(base, QueryTopic(base), payload, clock) == Some(MqttCommand(QueryStatusCommand, 0, clock))
    ensures topic != ModeCmdTopic(base) && topic != MinutesCmdTopic(base) && topic != QueryTopic(base) ==>
      DecodeCommand(base, topic, payload, clock).None?
  {
    CommandTopicsDistinct(base);
  }

  /** The callback runs exactly for a decoded, fresh command when one is
      registered. */
  lemma DeliveryConditions(base: string, maxAgeSec: U32, topic: string, payload: seq<Byte>,
                           clock: U32, clockLater: U32, hasCallback: bool)
    ensures var d := Delivered(base, maxAgeSec, topic, payload, clock, clockLater, hasCallback);
      var c := DecodeCommand(base, topic, payload, clock);
      d.Some? <==> c.Some? && hasCallback && IsCommandFresh(clock, clockLater, maxAgeSec)
    ensures Delivered(base, maxAgeSec, topic, payload, clock, clockLater, hasCallback).Some? ==>
      Delivered(base, maxAgeSec, topic, payload, clock, clockLater, hasCallback) == DecodeCommand(base, topic, payload, clock)
  {
  }

  /** Because every decoded command is stamped with the clock it is
      checked against, a command checked within the limit of the reading it
      was stamped with is never refused as stale. */
  lemma StampedCommandsAreFresh(base: string, maxAgeSec: U32, topic: string, payload: seq<Byte>,
                                clock: U32, clockLater: U32)
    requires clock <= clockLater && clockLater - clock <= maxAgeSec
    requires DecodeCommand(base, topic, payload, clock).Some?
    ensures Delivered(base, maxAgeSec, topic, payload, clock, clockLater, true).Some?
  {
  }

  /** A timestamp from the future has a wrapped age of more than two
      thousand million seconds and is stale for any smaller limit. */
  lemma FutureTimestampStale(timestampSec: U32, nowSec: U32, maxAgeSec: U32)
    requires nowSec >= TIME_SYNCED_SEC && timestampSec > nowSec
    requires maxAgeSec < 0x8000_0000
    requires timestampSec - nowSec < 0x8000_0000
    ensures !IsCommandFresh(timestampSec, nowSec, maxAgeSec)
  {
  }

  // ---------------------------------------------------------------------
  // publishStatus

  /** One retained publication, by topic. The voltage is given in
      millivolts; its text form is a floating-point rendering. */
  datatype Publication = ModeState(mode: string) | TemperatureState(tempC: I16) | VoltageState(mV: U16) | PowerState(watts: U16)

  /** The position of each topic in the order `publishStatus` writes them. */
  function Rank(p: Publication): nat
  {
    match p
    case ModeState(_) => 0
    case TemperatureState(_) => 1
    case VoltageState(_) => 2
    case PowerState(_) => 3
  }

  /** `publishStatus`: nothing when disconnected; otherwise the mode and
      each measurement that is known. */
  function PublishStatus(connected: bool, s: StatusPayload): (r: (bool, seq<Publication>))
    ensures r.0 == connected
    ensures !connected ==> r.1 == []
    ensures connected ==> |r.1| >= 1 && r.1[0] == ModeState(if s.state == HeaterStateCode(Running) then "heat" else "off")
    ensures TemperatureState(s.temperatureC) in r.1 <==> connected && s.temperatureC != INT16_MIN
    ensures VoltageState(s.voltageMv) in r.1 <==> connected && s.voltageMv > 0
    ensures PowerState(s.power) in r.1 <==> connected && s.power > 0
    ensures forall p :: p in r.1 ==> (p == r.1[0] || p == TemperatureState(s.temperatureC) ||
                                      p == VoltageState(s.voltageMv) || p == PowerState(s.power))
    ensures connected ==> |r.1| == 1 + (if s.temperatureC != INT16_MIN then 1 else 0) +
                                   (if s.voltageMv > 0 then 1 else 0) + (if s.power > 0 then 1 else 0)
    ensures forall i, j :: 0 <= i < j < |r.1| ==> Rank(r.1[i]) < Rank(r.1[j])
  {
    if !connected then (false, [])
    else
      var mode := if s.state == HeaterStateCode(Running) then "heat" else "off";
      var t := if s.temperatureC != INT16_MIN then [TemperatureState(s.temperatureC)] else [];
      var v := if s.voltageMv > 0 then [VoltageState(s.voltageMv)] else [];
      var w := if s.power > 0 then [PowerState(s.power)] else [];
      (true, [ModeState(mode)] + t + v + w)
  }
}
