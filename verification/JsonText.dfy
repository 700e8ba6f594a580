/** JavaScript strings as UTF-16 code units, and the JSON form of a string. */
module JsonText {
  import opened Wrappers
  import WhiteSpace

  newtype Unit = x: int | 0 <= x < 0x1_0000

  type Text = seq<Unit>

  const QUOTE: Unit := 0x22
  const BACKSLASH: Unit := 0x5C
  const LETTER_U: Unit := 0x75

  /** Printable ASCII that JSON writes as it is. */
  predicate IsPlainUnit(u: Unit) { 0x20 <= u < 0x80 && u != QUOTE && u != BACKSLASH }

  predicate IsPlain(t: Text) {
    forall i :: 0 <= i < |t| ==> IsPlainUnit(t[i])
  }

  function PlainUnit(ch: char): (u: Unit)
    ensures IsPlainUnit(u)
  {
    if ' ' <= ch < 127 as char && ch != '"' && ch != '\\' then ch as int as Unit else 0x3F
  }

  /** A literal of plain characters as code units; a question mark stands for any other character. */
  function Ascii(s: string): (r: Text)
    ensures |r| == |s| && IsPlain(r)
    ensures forall i :: 0 <= i < |s| ==> r[i] == PlainUnit(s[i])
  {
    seq(|s|, i requires 0 <= i < |s| => PlainUnit(s[i]))
  }

  /** An ASCII letter or digit. */
  predicate IsAlphanumeric(u: Unit) {
    0x41 <= u <= 0x5A || 0x61 <= u <= 0x7A || 0x30 <= u <= 0x39
  }

  predicate IsWhiteUnit(u: Unit) {
    WhiteSpace.IsWhite(u as int)
  }

  function Trim(s: Text): Text {
    WhiteSpace.Trim(IsWhiteUnit, s)
  }

  predicate IsHigh(u: Unit) { 0xD800 <= u <= 0xDBFF }
  predicate IsLow(u: Unit) { 0xDC00 <= u <= 0xDFFF }
  predicate IsSurrogate(u: Unit) { 0xD800 <= u <= 0xDFFF }

  predicate StartsWithPair(s: Text) {
    |s| >= 2 && IsHigh(s[0]) && IsLow(s[1])
  }

  /** Every surrogate is part of a pair. */
  predicate WellFormed(s: Text) {
    if s == [] then true
    else if StartsWithPair(s) then WellFormed(s[2..])
    else !IsSurrogate(s[0]) && WellFormed(s[1..])
  }

  // ---------------------------------------------------------------------------------------------
  // Hexadecimal

  function HexDigit(n: int): Unit
    requires 0 <= n < 16
  {
    if n < 10 then (0x30 + n) as Unit else (0x57 + n) as Unit
  }

  function HexValue(u: Unit): Option<int> {
    if 0x30 <= u <= 0x39 then Some(u as int - 0x30)
    else if 0x61 <= u <= 0x66 then Some(u as int - 0x57)
    else if 0x41 <= u <= 0x46 then Some(u as int - 0x37)
    else None
  }

  function Hex4(u: Unit): Text {
    var n := u as int;
    [HexDigit(n / 4096), HexDigit(n / 256 % 16), HexDigit(n / 16 % 16), HexDigit(n % 16)]
  }

  function ParseHex4(t: Text): Option<Unit>
    requires |t| >= 4
  {
    var a, b, c, d := HexValue(t[0]), HexValue(t[1]), HexValue(t[2]), HexValue(t[3]);
    if a.Some? && b.Some? && c.Some? && d.Some? && 0 <= a.value < 16 && 0 <= b.value < 16 && 0 <= c.value < 16 && 0 <= d.value < 16
    then Some((a.value * 4096 + b.value * 256 + c.value * 16 + d.value) as Unit)
    else None
  }

  lemma HexDigitRoundTrip(n: int)
    requires 0 <= n < 16
    ensures HexValue(HexDigit(n)) == Some(n)
  {
  }

  lemma HexDigits(n: int)
    ensures n == n / 4096 * 4096 + n / 256 % 16 * 256 + n / 16 % 16 * 16 + n % 16
  {
    assert n / 256 == n / 16 / 16 && n / 4096 == n / 256 / 16;
  }

  lemma Hex4RoundTrip(u: Unit, rest: Text)
    ensures ParseHex4(Hex4(u) + rest) == Some(u)
  {
    var n := u as int;
    HexDigitRoundTrip(n / 4096);
    HexDigitRoundTrip(n / 256 % 16);
    HexDigitRoundTrip(n / 16 % 16);
    HexDigitRoundTrip(n % 16);
    HexDigits(n);
  }

  // ---------------------------------------------------------------------------------------------
  // Strings

  /** The letter after the backslash for the units that have a short escape. */
  function ShortEscape(u: Unit): Option<Unit> {
    if u == 0x08 then Some(0x62) else if u == 0x09 then Some(0x74) else if u == 0x0A then Some(0x6E)
    else if u == 0x0C then Some(0x66) else if u == 0x0D then Some(0x72)
    else if u == QUOTE then Some(QUOTE) else if u == BACKSLASH then Some(BACKSLASH)
    else None
  }

  function ShortValue(u: Unit): Option<Unit> {
    if u == 0x62 then Some(0x08) else if u == 0x74 then Some(0x09) else if u == 0x6E then Some(0x0A)
    else if u == 0x66 then Some(0x0C) else if u == 0x72 then Some(0x0D)
    else if u == QUOTE then Some(QUOTE) else if u == BACKSLASH then Some(BACKSLASH)
    else if u == 0x2F then Some(0x2F)
    else None
  }

  /** How `JSON.stringify` writes a unit that is not half of a surrogate pair. */
  function EscapeUnit(u: Unit): (r: Text)
    ensures 1 <= |r| <= 6
  {
    if ShortEscape(u).Some? then [BACKSLASH, ShortEscape(u).value]
    else if u < 0x20 || IsSurrogate(u) then [BACKSLASH, LETTER_U] + Hex4(u)
    else [u]
  }

  function Escape(s: Text): Text {
    if s == [] then []
    else if StartsWithPair(s) then s[..2] + Escape(s[2..])
    else EscapeUnit(s[0]) + Escape(s[1..])
  }

  function QuoteText(s: Text): Text {
    [QUOTE] + Escape(s) + [QUOTE]
  }

  /** The units of a string up to its closing quote, and what follows it. */
  function ParseChars(t: Text): (r: Option<(Text, Text)>)
    ensures r.Some? ==> |r.value.1| < |t|
    decreases |t|
  {
    if t == [] || t[0] < 0x20 then None
    else if t[0] == QUOTE then Some(([], t[1..]))
    else if t[0] != BACKSLASH then Prepend(t[0], ParseChars(t[1..]))
    else if |t| >= 2 && ShortValue(t[1]).Some? then Prepend(ShortValue(t[1]).value, ParseChars(t[2..]))
    else if |t| >= 6 && t[1] == LETTER_U && ParseHex4(t[2..6]).Some? then Prepend(ParseHex4(t[2..6]).value, ParseChars(t[6..]))
    else None
  }

  function Prepend(u: Unit, r: Option<(Text, Text)>): Option<(Text, Text)> {
    if r.None? then None else Some(([u] + r.value.0, r.value.1))
  }

  lemma ParseShortEscape(u: Unit, letter: Unit, t: Text)
    requires ShortValue(letter) == Some(u)
    ensures ParseChars([BACKSLASH, letter] + t) == Prepend(u, ParseChars(t))
  {
    assert ([BACKSLASH, letter] + t)[2..] == t;
  }

  lemma ShortEscapeRoundTrip(u: Unit)
    requires ShortEscape(u).Some?
    ensures ShortValue(ShortEscape(u).value) == Some(u)
  {
  }

  lemma ParseHexEscape(u: Unit, h: Text, t: Text)
    requires |h| == 4 && ParseHex4(h) == Some(u)
    ensures ParseChars([BACKSLASH, LETTER_U] + h + t) == Prepend(u, ParseChars(t))
  {
    var w := [BACKSLASH, LETTER_U] + h + t;
    assert w[2..6] == h && w[6..] == t;
  }

  /** One written unit is read back as itself. */
  lemma ParseEscapedUnit(u: Unit, t: Text)
    ensures ParseChars(EscapeUnit(u) + t) == Prepend(u, ParseChars(t))
  {
    if ShortEscape(u).Some? {
      ShortEscapeRoundTrip(u);
      ParseShortEscape(u, ShortEscape(u).value, t);
    } else if u < 0x20 || IsSurrogate(u) {
      Hex4RoundTrip(u, []);
      assert Hex4(u) + [] == Hex4(u);
      ParseHexEscape(u, Hex4(u), t);
    } else {
      ParseRawUnit(u, t);
    }
  }

  lemma ParseRawUnit(u: Unit, t: Text)
    requires u >= 0x20 && u != QUOTE && u != BACKSLASH
    ensures ParseChars([u] + t) == Prepend(u, ParseChars(t))
  {
    assert ([u] + t)[1..] == t;
  }

  lemma Regroup<T>(a: seq<T>, b: seq<T>, c: seq<T>)
    ensures a + b + c == a + (b + c)
  {
  }

  lemma EscapePair(s: Text, tail: Text)
    requires StartsWithPair(s)
    ensures Escape(s) + tail == [s[0]] + ([s[1]] + (Escape(s[2..]) + tail))
    ensures s == [s[0]] + ([s[1]] + s[2..])
  {
    assert s[..2] == [s[0]] + [s[1]];
    Regroup([s[0]] + [s[1]], Escape(s[2..]), tail);
    Regroup([s[0]], [s[1]], Escape(s[2..]) + tail);
  }

  lemma EscapeOne(s: Text, tail: Text)
    requires s != [] && !StartsWithPair(s)
    ensures Escape(s) + tail == EscapeUnit(s[0]) + (Escape(s[1..]) + tail)
    ensures s == [s[0]] + s[1..]
  {
    Regroup(EscapeUnit(s[0]), Escape(s[1..]), tail);
  }

  /** Reading a written string gives back the string and whatever followed it. */
  lemma {:induction false} ParseEscaped(s: Text, rest: Text)
    ensures ParseChars(Escape(s) + ([QUOTE] + rest)) == Some((s, rest))
  {
    var tail := [QUOTE] + rest;
    if s == [] {
      assert Escape(s) + tail == tail;
      assert tail[1..] == rest;
    } else if StartsWithPair(s) {
      var inner := Escape(s[2..]) + tail;
      ParseEscaped(s[2..], rest);
      EscapePair(s, tail);
      ParseRawUnit(s[1], inner);
      ParseRawUnit(s[0], [s[1]] + inner);
    } else {
      ParseEscaped(s[1..], rest);
      EscapeOne(s, tail);
      ParseEscapedUnit(s[0], Escape(s[1..]) + tail);
    }
  }

  /** The short escapes; four small hexadecimal digits for other control characters and for halves of
      pairs; every other unit as it is. */
  lemma EscapedForms(u: Unit)
    ensures EscapeUnit(8) == [0x5C, 0x62] && EscapeUnit(9) == [0x5C, 0x74] && EscapeUnit(10) == [0x5C, 0x6E]
    ensures EscapeUnit(12) == [0x5C, 0x66] && EscapeUnit(13) == [0x5C, 0x72]
    ensures EscapeUnit(0x22) == [0x5C, 0x22] && EscapeUnit(0x5C) == [0x5C, 0x5C]
    ensures EscapeUnit(u) == [u] <==> 0x20 <= u && u != 0x22 && u != 0x5C && !(0xD800 <= u <= 0xDFFF)
    ensures |EscapeUnit(u)| == 6 <==>
            (u < 0x20 && u != 8 && u != 9 && u != 10 && u != 12 && u != 13) || 0xD800 <= u <= 0xDFFF
    ensures |EscapeUnit(u)| == 6 ==> EscapeUnit(u)[0] == 0x5C && EscapeUnit(u)[1] == 0x75 && SmallHex(EscapeUnit(u)[2..], u as int)
  {
    HexDigits(u as int);
  }

  /** Four digits, the letters small, that spell the number. */
  ghost predicate SmallHex(h: Text, n: int) {
    && |h| == 4 && (forall i :: 0 <= i < 4 ==> 0x30 <= h[i] <= 0x39 || 0x61 <= h[i] <= 0x66)
    && n == DigitAt(h, 0) * 4096 + DigitAt(h, 1) * 256 + DigitAt(h, 2) * 16 + DigitAt(h, 3)
  }

  function DigitAt(h: Text, i: nat): int
    requires i < |h|
  {
    if h[i] < 0x61 then h[i] as int - 0x30 else h[i] as int - 0x57
  }

  /** A high and a low surrogate are written as they are, and no other two halves. */
  lemma EscapedPair(u: Unit, w: Unit)
    requires 0xD800 <= u <= 0xDFFF && 0xD800 <= w <= 0xDFFF
    ensures Escape([u, w]) == [u, w] <==> u < 0xDC00 <= w
  {
    if !StartsWithPair([u, w]) {
      assert |Escape([u, w])| == |EscapeUnit(u)| + |Escape([u, w][1..])|;
      assert |EscapeUnit(u)| == 6;
    } else {
      assert Escape([u, w]) == [u, w] + Escape([]);
    }
  }

  // ---------------------------------------------------------------------------------------------
  // Well-formedness

  lemma {:induction false} WellFormedConcat(s: Text, t: Text)
    requires WellFormed(s) && WellFormed(t)
    ensures WellFormed(s + t)
  {
    if s == [] {
      assert s + t == t;
    } else if StartsWithPair(s) {
      assert (s + t)[2..] == s[2..] + t;
      WellFormedConcat(s[2..], t);
    } else {
      assert (s + t)[1..] == s[1..] + t;
      WellFormedConcat(s[1..], t);
    }
  }

  lemma {:induction false} PlainIsWellFormed(s: Text)
    requires forall i :: 0 <= i < |s| ==> !IsSurrogate(s[i])
    ensures WellFormed(s)
  {
    if s != [] {
      PlainIsWellFormed(s[1..]);
    }
  }

  /** A written string has no lone surrogate, whatever the string held. */
  lemma {:induction false} EscapeIsWellFormed(s: Text)
    ensures WellFormed(Escape(s))
  {
    if s == [] {
    } else if StartsWithPair(s) {
      EscapeIsWellFormed(s[2..]);
      var w := Escape(s);
      assert w[0] == s[0] && w[1] == s[1] && w[2..] == Escape(s[2..]);
    } else {
      EscapeIsWellFormed(s[1..]);
      PlainIsWellFormed(EscapeUnit(s[0]));
      WellFormedConcat(EscapeUnit(s[0]), Escape(s[1..]));
    }
  }

  lemma QuoteIsWellFormed(s: Text)
    ensures WellFormed(QuoteText(s))
  {
    EscapeIsWellFormed(s);
    PlainIsWellFormed([QUOTE]);
    WellFormedConcat([QUOTE], Escape(s));
    WellFormedConcat([QUOTE] + Escape(s), [QUOTE]);
  }
}
