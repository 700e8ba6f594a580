/** UTC timestamps as the wire schemas accept them. */
module Timestamps {
  import opened JsonText

  const POINT: Unit := 0x2E

  predicate IsDigit(u: Unit) {
    0x30 <= u <= 0x39
  }

  /** The units from `i` on begin with two digits, a number from `low` to `high`. */
  predicate TwoDigits(t: Text, i: nat, low: int, high: int) {
    i + 2 <= |t| && IsDigit(t[i]) && IsDigit(t[i + 1]) && low <= Value2(t, i) <= high
  }

  function Value2(t: Text, i: nat): int
    requires i + 2 <= |t|
  {
    (t[i] as int - 0x30) * 10 + (t[i + 1] as int - 0x30)
  }

  function DaysIn(year: int, month: int): int {
    if month == 2 then if year % 4 == 0 && (year % 100 != 0 || year % 400 == 0) then 29 else 28
    else if month == 4 || month == 6 || month == 9 || month == 11 then 30
    else 31
  }

  /** YYYY-MM-DDThh:mm */
  predicate IsMinute(t: Text) {
    && |t| == 16 && TwoDigits(t, 0, 0, 99) && TwoDigits(t, 2, 0, 99) && t[4] == 0x2D
    && TwoDigits(t, 5, 1, 12) && t[7] == 0x2D
    && TwoDigits(t, 8, 1, DaysIn(Value2(t, 0) * 100 + Value2(t, 2), Value2(t, 5))) && t[10] == 0x54
    && TwoDigits(t, 11, 0, 23) && t[13] == 0x3A && TwoDigits(t, 14, 0, 59)
  }

  /** A point and at least one digit, or nothing. */
  predicate IsFraction(t: Text) {
    t == [] || (|t| >= 2 && t[0] == POINT && forall i :: 1 <= i < |t| ==> IsDigit(t[i]))
  }

  /** Seconds with an optional fraction, or nothing. */
  predicate IsSecond(t: Text) {
    t == [] || (|t| >= 3 && t[0] == 0x3A && TwoDigits(t, 1, 0, 59) && IsFraction(t[3..]))
  }

  /** A UTC date and time; nothing limits the digits of the fraction. */
  predicate IsTimestamp(t: Text) {
    |t| >= 17 && IsMinute(t[..16]) && IsSecond(t[16..|t| - 1]) && t[|t| - 1] == 0x5A
  }

  function Repeat(u: Unit, n: nat): (r: Text)
    ensures |r| == n && forall i :: 0 <= i < n ==> r[i] == u
  {
    seq(n, i => u)
  }

  lemma MinuteIsPlain(t: Text)
    requires IsMinute(t)
    ensures IsPlain(t)
  {
    forall i | 0 <= i < 16 ensures IsPlainUnit(t[i]) {
    }
  }

  lemma TimestampIsPlain(t: Text)
    requires IsTimestamp(t)
    ensures IsPlain(t)
  {
    MinuteIsPlain(t[..16]);
    SecondIsPlain(t[16..|t| - 1]);
    assert t == t[..16] + t[16..|t| - 1] + [t[|t| - 1]];
  }

  lemma SecondIsPlain(t: Text)
    requires IsSecond(t)
    ensures IsPlain(t)
  {
    if t != [] {
      assert forall i :: 3 <= i < |t| ==> t[i] == t[3..][i - 3];
    }
  }

  /** A timestamp with `n` digits after the point. */
  function LongTimestamp(n: nat): (r: Text)
    ensures |r| == n + 21
  {
    Ascii("2020-01-01T00:00") + (Ascii(":00.") + Repeat(0x30, n)) + Ascii("Z")
  }

  lemma LongTimestampIsGood(n: nat)
    requires n > 0
    ensures IsTimestamp(LongTimestamp(n))
  {
    var minute, second := Ascii("2020-01-01T00:00"), Ascii(":00.") + Repeat(0x30, n);
    var t := LongTimestamp(n);
    assert t[..16] == minute && t[16..|t| - 1] == second && t[|t| - 1] == Ascii("Z")[0];
    assert IsMinute(minute);
    assert second[3..] == [POINT] + Repeat(0x30, n);
  }

  /** From 22 characters on there is a timestamp of every length. */
  lemma TimestampOfLength(n: nat) returns (t: Text)
    requires n >= 22
    ensures IsTimestamp(t) && |t| == n
  {
    t := LongTimestamp(n - 21);
    LongTimestampIsGood(n - 21);
  }
}
