/** The few string operations the firmware relies on: C `isspace`,
    Arduino `String::trim`, `equalsIgnoreCase`, `startsWith`, `indexOf`,
    and C `atoi` (which `String::toInt` calls). Integers are unbounded: for
    the range checks made on the result, a saturating `atol` and the
    unbounded value lead to the same decision. */
module Text {

  /** C `isspace` in the "C" locale. */
  predicate IsSpace(c: char)
  {
    c == ' ' || c == '\t' || c == '\n' || c == '\r' || c == 11 as char || c == 12 as char
  }

  predicate IsDigit(c: char)
  {
    '0' <= c <= '9'
  }

  /** The number of leading white-space characters. */
  function LeadingSpaces(s: string): (n: nat)
    ensures n <= |s|
    ensures forall i :: 0 <= i < n ==> IsSpace(s[i])
    ensures n < |s| ==> !IsSpace(s[n])
  {
    if |s| == 0 || !IsSpace(s[0]) then 0 else 1 + LeadingSpaces(s[1..])
  }

  /** The number of trailing white-space characters. */
  function TrailingSpaces(s: string): (n: nat)
    ensures n <= |s|
    ensures forall i :: |s| - n <= i < |s| ==> IsSpace(s[i])
    ensures n < |s| ==> !IsSpace(s[|s| - n - 1])
  {
    if |s| == 0 || !IsSpace(s[|s| - 1]) then 0 else 1 + TrailingSpaces(s[..|s| - 1])
  }

  /** `String::trim`: white space removed at both ends, nothing else. */
  function Trim(s: string): (r: string)
    ensures var i := LeadingSpaces(s);
      i + |r| <= |s| && r == s[i..i + |r|] &&
      (forall k :: i + |r| <= k < |s| ==> IsSpace(s[k]))
    ensures |r| > 0 ==> !IsSpace(r[0]) && !IsSpace(r[|r| - 1])
  {
    var t := s[LeadingSpaces(s)..];
    t[..|t| - TrailingSpaces(t)]
  }

  lemma TrimNoSpaces(s: string)
    requires |s| > 0 ==> !IsSpace(s[0]) && !IsSpace(s[|s| - 1])
    ensures Trim(s) == s
  {
    var t := s[LeadingSpaces(s)..];
    assert t == s;
    if |s| > 0 {
      assert TrailingSpaces(t) == 0;
    }
  }

  /** Trimming twice is trimming once. */
  lemma TrimIdempotent(s: string)
    ensures Trim(Trim(s)) == Trim(s)
  {
    TrimNoSpaces(Trim(s));
  }

  /** C `tolower` on ASCII. */
  function Lower(c: char): char
  {
    if 'A' <= c <= 'Z' then (c as int + 32) as char else c
  }

  /** `String::equalsIgnoreCase`: the same length and the same characters
      after `tolower`. */
  predicate EqualsIgnoreCase(a: string, b: string)
  {
    |a| == |b| && forall i :: 0 <= i < |a| ==> Lower(a[i]) == Lower(b[i])
  }

  lemma EqualsIgnoreCaseExamples()
    ensures EqualsIgnoreCase("STOP", "stop") && EqualsIgnoreCase("Start", "start")
    ensures !EqualsIgnoreCase("stop ", "stop")
  {
    assert Lower('S') == 's' && Lower('T') == 't' && Lower('O') == 'o' && Lower('P') == 'p';
    assert Lower('A') == 'a' && Lower('R') == 'r';
    assert "STOP"[0] == 'S' && "STOP"[1] == 'T' && "STOP"[2] == 'O' && "STOP"[3] == 'P';
    assert "Start"[0] == 'S' && "Start"[1] == 't' && "Start"[2] == 'a' && "Start"[3] == 'r' && "Start"[4] == 't';
  }

  /** `String::indexOf(c)`: the first position of `c`, or -1. */
  function IndexOf(s: string, c: char): (r: int)
    ensures -1 <= r < |s|
    ensures r >= 0 ==> s[r] == c && forall i :: 0 <= i < r ==> s[i] != c
    ensures r == -1 <==> forall i :: 0 <= i < |s| ==> s[i] != c
  {
    if |s| == 0 then -1
    else if s[0] == c then 0
    else var k := IndexOf(s[1..], c); if k < 0 then -1 else k + 1
  }

  /** The number of leading decimal digits. */
  function DigitCount(s: string): (n: nat)
    ensures n <= |s|
    ensures forall i :: 0 <= i < n ==> IsDigit(s[i])
    ensures n < |s| ==> !IsDigit(s[n])
  {
    if |s| == 0 || !IsDigit(s[0]) then 0 else 1 + DigitCount(s[1..])
  }

  /** The value of a run of decimal digits, most significant first. */
  function DigitsValue(d: string): nat
    requires forall i :: 0 <= i < |d| ==> IsDigit(d[i])
  {
    if |d| == 0 then 0 else 10 * DigitsValue(d[..|d| - 1]) + DigitOf(d[|d| - 1])
  }

  function DigitOf(c: char): (r: nat)
    requires IsDigit(c)
    ensures r < 10
  {
    c as int - '0' as int
  }

  /** The unsigned part of `atoi`: the value of the leading digits. */
  function Unsigned(s: string): nat
  {
    DigitsValue(s[..DigitCount(s)])
  }

  /** C `atoi`: leading white space, an optional sign, then as many digits
      as follow; 0 when there are none. */
  function Atoi(s: string): int
  {
    var t := s[LeadingSpaces(s)..];
    if |t| > 0 && t[0] == '-' then -(Unsigned(t[1..]) as int)
    else if |t| > 0 && t[0] == '+' then Unsigned(t[1..])
    else Unsigned(t)
  }

  /** Decimal rendering of a natural number, without leading zeros. */
  function Decimal(n: nat): (r: string)
    ensures |r| > 0 && forall i :: 0 <= i < |r| ==> IsDigit(r[i])
    ensures n > 0 ==> r[0] != '0'
  {
    if n < 10 then [('0' as int + n) as char]
    else Decimal(n / 10) + [('0' as int + n % 10) as char]
  }

  lemma {:induction false} DigitsValueDecimal(n: nat)
    ensures DigitsValue(Decimal(n)) == n
  {
    if n >= 10 {
      var d := Decimal(n);
      assert d[..|d| - 1] == Decimal(n / 10);
      DigitsValueDecimal(n / 10);
    }
  }

  /** The digits of a number stop where a non-digit begins. */
  lemma DigitCountDecimal(n: nat, rest: string)
    requires |rest| > 0 ==> !IsDigit(rest[0])
    ensures DigitCount(Decimal(n) + rest) == |Decimal(n)|
  {
    var s := Decimal(n) + rest;
    assert forall i :: 0 <= i < |Decimal(n)| ==> s[i] == Decimal(n)[i];
    if |rest| > 0 {
      assert s[|Decimal(n)|] == rest[0];
    }
  }

  /** The digits of a rendered number read back as that number. */
  lemma UnsignedDecimal(n: nat, rest: string)
    requires |rest| > 0 ==> !IsDigit(rest[0])
    ensures Unsigned(Decimal(n) + rest) == n
  {
    var s := Decimal(n) + rest;
    DigitCountDecimal(n, rest);
    assert s[..DigitCount(s)] == Decimal(n);
    DigitsValueDecimal(n);
  }

  /** `atoi` reads back a rendered number, whatever non-digit text
      follows it. */
  lemma AtoiDecimal(n: nat, rest: string)
    requires |rest| > 0 ==> !IsDigit(rest[0])
    ensures Atoi(Decimal(n) + rest) == n
    ensures Atoi("-" + Decimal(n) + rest) == -(n as int)
  {
    var s := Decimal(n) + rest;
    assert s[0] == Decimal(n)[0];
    assert LeadingSpaces(s) == 0;
    UnsignedDecimal(n, rest);
    var m := "-" + Decimal(n) + rest;
    assert m[0] == '-';
    assert m[1..] == s;
  }

  /** Text that does not start with a sign or a digit reads as 0. */
  lemma AtoiNoDigits(s: string)
    requires |s| > 0 ==> !IsSpace(s[0]) && !IsDigit(s[0]) && s[0] != '-' && s[0] != '+'
    ensures Atoi(s) == 0
  {
    assert s[LeadingSpaces(s)..] == s;
  }
}
