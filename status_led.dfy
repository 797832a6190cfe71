/** The status LED: solid off, solid on, or blinking with a period. The
    pin is part of the state: its level and the sequence of levels written
    to it (`true` is HIGH). The clock reading `now` is an input. */
module StatusLight {
  import opened Bytes

  datatype Mode = Off | On | Blink

  const DEFAULT_BLINK_PERIOD_MS: U16 := 500

  datatype Led = Led(mode: Mode, blinkPeriodMs: U16, lastToggleMs: U32, isBlinkOn: bool,
                     level: bool, writes: seq<bool>)

  /** `digitalWrite`: the pin takes the level and the write is recorded. */
  function Write(l: Led, v: bool): (r: Led)
    ensures r.level == v && r.writes == l.writes + [v]
  {
    l.(level := v, writes := l.writes + [v])
  }

  /** The member initialisers, before `begin` (pin level low). */
  function InitialLed(): Led
  {
    Led(Off, DEFAULT_BLINK_PERIOD_MS, 0, false, false, [])
  }

  function BeginLed(l: Led): (r: Led)
    ensures r.mode == Off && r.lastToggleMs == 0 && !r.level && r.writes == l.writes + [false]
    ensures r.blinkPeriodMs == l.blinkPeriodMs && r.isBlinkOn == l.isBlinkOn
  {
    Write(l, false).(mode := Off, lastToggleMs := 0)
  }

  function SwitchOn(l: Led): (r: Led)
    ensures r.mode == On
  {
    if l.mode != On then Write(l.(mode := On), true) else l
  }

  function SwitchOff(l: Led): (r: Led)
    ensures r.mode == Off
  {
    if l.mode != Off then Write(l.(mode := Off), false) else l
  }

  /** `toggle`: the pin is inverted whatever the mode. */
  function Flip(l: Led): (r: Led)
    ensures r.level == !l.level && r.mode == l.mode
    ensures r.writes == l.writes + [!l.level]
  {
    Write(l, !l.level)
  }

  function StartBlink(l: Led, periodMs: U16, now: U32): (r: Led)
    ensures r.mode == Blink && r.blinkPeriodMs == periodMs && r.lastToggleMs == now
    ensures r.isBlinkOn && r.level && r.writes == l.writes + [true]
  {
    Write(l.(mode := Blink, blinkPeriodMs := periodMs, lastToggleMs := now, isBlinkOn := true), true)
  }

  function UpdateLed(l: Led, now: U32): Led
  {
    if l.mode != Blink then l
    else if Elapsed(now, l.lastToggleMs) >= l.blinkPeriodMs then
      var b := !l.isBlinkOn;
      Write(l.(isBlinkOn := b, lastToggleMs := now), b)
    else l
  }

  /** Switching on writes HIGH once, on the change of mode only. */
  lemma SetOnWritesOnChange(l: Led)
    ensures l.mode == On ==> SwitchOn(l) == l
    ensures l.mode != On ==> SwitchOn(l).writes == l.writes + [true] && SwitchOn(l).level
    ensures SwitchOn(SwitchOn(l)) == SwitchOn(l)
  {
  }

  /** Switching off writes LOW once, on the change of mode only. */
  lemma SetOffWritesOnChange(l: Led)
    ensures l.mode == Off ==> SwitchOff(l) == l
    ensures l.mode != Off ==> SwitchOff(l).writes == l.writes + [false] && !SwitchOff(l).level
    ensures SwitchOff(SwitchOff(l)) == SwitchOff(l)
  {
  }

  /** `update` leaves a solid LED alone. */
  lemma UpdateOnlyBlinks(l: Led, now: U32)
    requires l.mode != Blink
    ensures UpdateLed(l, now) == l
  {
  }

  /** In blink mode the LED flips when a period has passed, and at no
      other time. */
  lemma BlinkFlipsAfterPeriod(l: Led, now: U32)
    requires l.mode == Blink
    ensures Elapsed(now, l.lastToggleMs) >= l.blinkPeriodMs ==>
      var r := UpdateLed(l, now);
      r.isBlinkOn == !l.isBlinkOn && r.level == r.isBlinkOn && r.lastToggleMs == now &&
      r.mode == Blink && r.writes == l.writes + [r.isBlinkOn]
    ensures Elapsed(now, l.lastToggleMs) < l.blinkPeriodMs ==> UpdateLed(l, now) == l
  {
  }

  /** Two toggles restore the level. */
  lemma ToggleTwice(l: Led)
    ensures Flip(Flip(l)).level == l.level && Flip(Flip(l)).mode == l.mode
  {
  }

  /** A toggle while solidly on turns the LED dark, and `setOn` does not
      relight it, because the mode has not changed. */
  lemma ToggleThenSetOnStaysDark(l: Led)
    requires l.mode == On && l.level
    ensures !SwitchOn(Flip(l)).level
  {
  }

  class StatusLed {
    const ledPin: Byte
    var currentMode: Mode
    var blinkPeriodMs: U16
    var lastToggleMs: U32
    var isBlinkOn: bool
    /** The pin: its level and every level written to it. */
    var level: bool
    var writes: seq<bool>

    function Snapshot(): Led
      reads this
    {
      Led(currentMode, blinkPeriodMs, lastToggleMs, isBlinkOn, level, writes)
    }

    constructor (pin: Byte)
      ensures ledPin == pin && Snapshot() == InitialLed()
    {
      ledPin := pin;
      currentMode := Off;
      blinkPeriodMs := DEFAULT_BLINK_PERIOD_MS;
      lastToggleMs := 0;
      isBlinkOn := false;
      level := false;
      writes := [];
    }

    method DigitalWrite(v: bool)
      modifies this`level, this`writes
      ensures level == v && writes == old(writes) + [v]
    {
      level := v;
      writes := writes + [v];
    }

    method Begin()
      modifies this
      ensures Snapshot() == BeginLed(old(Snapshot()))
    {
      DigitalWrite(false);
      currentMode := Off;
      lastToggleMs := 0;
    }

    method SetOn()
      modifies this
      ensures Snapshot() == SwitchOn(old(Snapshot()))
    {
      if currentMode != On {
        currentMode := On;
        DigitalWrite(true);
      }
    }

    method SetOff()
      modifies this
      ensures Snapshot() == SwitchOff(old(Snapshot()))
    {
      if currentMode != Off {
        currentMode := Off;
        DigitalWrite(false);
      }
    }

    method Toggle()
      modifies this
      ensures Snapshot() == Flip(old(Snapshot()))
    {
      DigitalWrite(!level);
    }

    method SetBlink(periodMs: U16, now: U32)
      modifies this
      ensures Snapshot() == StartBlink(old(Snapshot()), periodMs, now)
    {
      currentMode := Blink;
      blinkPeriodMs := periodMs;
      lastToggleMs := now;
      isBlinkOn := true;
      DigitalWrite(true);
    }

    method Update(now: U32)
      modifies this
      ensures Snapshot() == UpdateLed(old(Snapshot()), now)
    {
      if currentMode != Blink {
        return;
      }
      if Elapsed(now, lastToggleMs) >= blinkPeriodMs {
        isBlinkOn := !isBlinkOn;
        DigitalWrite(isBlinkOn);
        lastToggleMs := now;
      }
    }
  }
}
