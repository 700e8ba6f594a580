/** `TextEncoder` and `TextDecoder` on UTF-16 code units, replacement of malformed input included. */
module Utf8 {
  import opened JsonText

  newtype Byte = x: int | 0 <= x < 0x100

  type Bytes = seq<Byte>

  const REPLACEMENT: Unit := 0xFFFD
  const BYTE_ORDER_MARK: Unit := 0xFEFF

  // ---------------------------------------------------------------------------------------------
  // Encoding

  function CodePoint(h: Unit, l: Unit): int
    requires IsHigh(h) && IsLow(l)
  {
    0x1_0000 + (h as int - 0xD800) * 0x400 + (l as int - 0xDC00)
  }

  function EncodePair(h: Unit, l: Unit): (r: Bytes)
    requires IsHigh(h) && IsLow(l)
    ensures |r| == 4
  {
    var n := CodePoint(h, l);
    [(0xF0 + n / 0x4_0000) as Byte, (0x80 + n / 0x1000 % 0x40) as Byte, (0x80 + n / 0x40 % 0x40) as Byte,
     (0x80 + n % 0x40) as Byte]
  }

  /** A unit outside a pair; a lone surrogate is written as the replacement character. */
  function EncodeUnit(u: Unit): (r: Bytes)
    ensures 1 <= |r| <= 3
  {
    var n := if IsSurrogate(u) then REPLACEMENT as int else u as int;
    if n < 0x80 then [n as Byte]
    else if n < 0x800 then [(0xC0 + n / 0x40) as Byte, (0x80 + n % 0x40) as Byte]
    else [(0xE0 + n / 0x1000) as Byte, (0x80 + n / 0x40 % 0x40) as Byte, (0x80 + n % 0x40) as Byte]
  }

  function Encode(s: Text): Bytes {
    if s == [] then []
    else if StartsWithPair(s) then EncodePair(s[0], s[1]) + Encode(s[2..])
    else EncodeUnit(s[0]) + Encode(s[1..])
  }

  // ---------------------------------------------------------------------------------------------
  // Decoding

  predicate Between(b: Bytes, i: nat, low: int, high: int) {
    i < |b| && low <= b[i] as int <= high
  }

  predicate Continues(b: Bytes, i: nat) {
    Between(b, i, 0x80, 0xBF)
  }

  /** The units of the first character and the bytes it took. */
  function DecodeOne(b: Bytes): (r: (Text, nat))
    requires b != []
    ensures 1 <= r.1 <= |b|
  {
    var b0 := b[0] as int;
    if b0 < 0x80 then ([b0 as Unit], 1)
    else if b0 < 0xC2 || b0 > 0xF4 then ([REPLACEMENT], 1)
    else if b0 < 0xE0 then
      if !Continues(b, 1) then ([REPLACEMENT], 1)
      else ([((b0 - 0xC0) * 0x40 + (b[1] as int - 0x80)) as Unit], 2)
    else if b0 < 0xF0 then
      if !Between(b, 1, if b0 == 0xE0 then 0xA0 else 0x80, if b0 == 0xED then 0x9F else 0xBF) then ([REPLACEMENT], 1)
      else if !Continues(b, 2) then ([REPLACEMENT], 2)
      else ([((b0 - 0xE0) * 0x1000 + (b[1] as int - 0x80) * 0x40 + (b[2] as int - 0x80)) as Unit], 3)
    else if !Between(b, 1, if b0 == 0xF0 then 0x90 else 0x80, if b0 == 0xF4 then 0x8F else 0xBF) then ([REPLACEMENT], 1)
    else if !Continues(b, 2) then ([REPLACEMENT], 2)
    else if !Continues(b, 3) then ([REPLACEMENT], 3)
    else
      var n := (b0 - 0xF0) * 0x4_0000 + (b[1] as int - 0x80) * 0x1000 + (b[2] as int - 0x80) * 0x40 + (b[3] as int - 0x80);
      ([(0xD800 + (n - 0x1_0000) / 0x400) as Unit, (0xDC00 + (n - 0x1_0000) % 0x400) as Unit], 4)
  }

  function DecodeAll(b: Bytes): Text {
    if b == [] then [] else var (units, n) := DecodeOne(b); units + DecodeAll(b[n..])
  }

  function DropMark(s: Text): Text {
    if s != [] && s[0] == BYTE_ORDER_MARK then s[1..] else s
  }

  /** A decoder drops one byte order mark at the start of its input. */
  function Decode(b: Bytes): Text {
    DropMark(DecodeAll(b))
  }

  // ---------------------------------------------------------------------------------------------
  // Round trips

  /** The text with every lone surrogate replaced. */
  function Repair(s: Text): Text {
    if s == [] then []
    else if StartsWithPair(s) then s[..2] + Repair(s[2..])
    else [if IsSurrogate(s[0]) then REPLACEMENT else s[0]] + Repair(s[1..])
  }

  lemma SplitSurrogates(n: int, hi: int, lo: int)
    requires 0 <= lo < 0x400 && n == hi * 0x400 + lo
    ensures n / 0x400 == hi && n % 0x400 == lo
  {
  }

  /** The decoder's sum of six-bit groups is the number that was split. */
  lemma SixBitGroups(n: int)
    ensures n == n / 0x4_0000 * 0x4_0000 + n / 0x1000 % 0x40 * 0x1000 + n / 0x40 % 0x40 * 0x40 + n % 0x40
  {
    assert n / 0x1000 == n / 0x40 / 0x40;
    assert n / 0x4_0000 == n / 0x1000 / 0x40;
  }

  lemma PairArithmetic(h: Unit, l: Unit)
    requires IsHigh(h) && IsLow(l)
    ensures var n := CodePoint(h, l);
            && 0x1_0000 <= n <= 0x10_FFFF
            && (n - 0x1_0000) / 0x400 == h as int - 0xD800 && (n - 0x1_0000) % 0x400 == l as int - 0xDC00
  {
    SplitSurrogates(CodePoint(h, l) - 0x1_0000, h as int - 0xD800, l as int - 0xDC00);
  }

  lemma DecodePair(h: Unit, l: Unit, rest: Bytes)
    requires IsHigh(h) && IsLow(l)
    ensures DecodeOne(EncodePair(h, l) + rest) == ([h, l], 4)
  {
    PairArithmetic(h, l);
    SixBitGroups(CodePoint(h, l));
    var b := EncodePair(h, l) + rest;
    assert b[..4] == EncodePair(h, l);
    var n := CodePoint(h, l);
    assert b[0] as int == 0xF0 + n / 0x4_0000 && b[1] as int == 0x80 + n / 0x1000 % 0x40;
    assert b[2] as int == 0x80 + n / 0x40 % 0x40 && b[3] as int == 0x80 + n % 0x40;
  }

  /** A text of one, two or three bytes in front of others reads as it reads alone. */
  lemma DecodeFront(w: Bytes, rest: Bytes)
    requires w != [] && DecodeOne(w).1 == |w| && DecodeOne(w).0 != [REPLACEMENT]
    ensures DecodeOne(w + rest) == DecodeOne(w)
  {
    assert forall i :: 0 <= i < |w| ==> (w + rest)[i] == w[i];
  }

  lemma DecodeReplacement(rest: Bytes)
    ensures DecodeOne([0xEF, 0xBF, 0xBD] + rest) == ([REPLACEMENT], 3)
  {
    var b := [0xEF, 0xBF, 0xBD] + rest;
    assert b[0] == 0xEF && b[1] == 0xBF && b[2] == 0xBD;
  }

  lemma DecodeAlone(u: Unit)
    requires !IsSurrogate(u)
    ensures DecodeOne(EncodeUnit(u)) == ([u], |EncodeUnit(u)|)
  {
  }

  lemma DecodeUnit(u: Unit, rest: Bytes)
    ensures DecodeOne(EncodeUnit(u) + rest) == ([if IsSurrogate(u) then REPLACEMENT else u], |EncodeUnit(u)|)
  {
    if IsSurrogate(u) || u == REPLACEMENT {
      DecodeReplacement(rest);
    } else {
      DecodeAlone(u);
      DecodeFront(EncodeUnit(u), rest);
    }
  }

  /** Decoding what was encoded repairs lone surrogates and changes nothing else. */
  lemma {:induction false} DecodeAllEncoded(s: Text)
    ensures DecodeAll(Encode(s)) == Repair(s)
  {
    if s == [] {
    } else if StartsWithPair(s) {
      DecodeAllEncoded(s[2..]);
      DecodePair(s[0], s[1], Encode(s[2..]));
      assert Encode(s)[4..] == Encode(s[2..]);
      assert s[..2] == [s[0], s[1]];
    } else {
      DecodeAllEncoded(s[1..]);
      DecodeUnit(s[0], Encode(s[1..]));
      assert Encode(s)[|EncodeUnit(s[0])|..] == Encode(s[1..]);
    }
  }

  lemma {:induction false} RepairFixesIllFormed(s: Text)
    ensures Repair(s) == s <==> WellFormed(s)
    ensures |Repair(s)| == |s|
  {
    if s == [] {
    } else if StartsWithPair(s) {
      RepairFixesIllFormed(s[2..]);
      assert Repair(s)[2..] == Repair(s[2..]) && s == s[..2] + s[2..];
    } else {
      RepairFixesIllFormed(s[1..]);
      assert Repair(s)[1..] == Repair(s[1..]) && s == [s[0]] + s[1..];
    }
  }

  predicate StartsWithMark(s: Text) {
    s != [] && s[0] == 0xFEFF
  }

  /** The decoder reads one character where its encoding stands, and a replacement everywhere else: no
      other bytes pass for a character. */
  lemma DecodesStrictly(b: Bytes)
    requires b != []
    ensures var (units, n) := DecodeOne(b);
            || units == [0xFFFD]
            || (Encode(units) == b[..n] && WellFormed(units) && (|units| == 1 || (|units| == 2 && StartsWithPair(units))))
  {
    var (units, n) := DecodeOne(b);
    if |units| == 2 {
      ReadsPair(b);
    } else if units != [REPLACEMENT] {
      ReadsUnit(b);
      assert Encode(units) == EncodeUnit(units[0]) + Encode([]);
      assert WellFormed(units[1..]);
    }
  }

  lemma ReadsUnit(b: Bytes)
    requires b != [] && |DecodeOne(b).0| == 1 && DecodeOne(b).0 != [REPLACEMENT]
    ensures !IsSurrogate(DecodeOne(b).0[0]) && EncodeUnit(DecodeOne(b).0[0]) == b[..DecodeOne(b).1]
  {
  }

  lemma ReadsPair(b: Bytes)
    requires b != [] && |DecodeOne(b).0| == 2
    ensures var s := DecodeOne(b).0;
            StartsWithPair(s) && WellFormed(s) && DecodeOne(b).1 == 4 && Encode(s) == b[..4]
  {
    var n := (b[0] as int - 0xF0) * 0x4_0000 + (b[1] as int - 0x80) * 0x1000 + (b[2] as int - 0x80) * 0x40 + (b[3] as int - 0x80);
    assert 0x1_0000 <= n < 0x11_0000;
    var s := DecodeOne(b).0;
    assert CodePoint(s[0], s[1]) == n;
    SixBitsApart(b[0] as int - 0xF0, b[1] as int - 0x80, b[2] as int - 0x80, b[3] as int - 0x80);
    assert s[2..] == [] && Encode(s) == EncodePair(s[0], s[1]) + Encode(s[2..]);
  }

  lemma SixBitsApart(a: int, b: int, c: int, d: int)
    requires 0 <= b < 0x40 && 0 <= c < 0x40 && 0 <= d < 0x40
    ensures var n := a * 0x4_0000 + b * 0x1000 + c * 0x40 + d;
            n / 0x4_0000 == a && n / 0x1000 % 0x40 == b && n / 0x40 % 0x40 == c && n % 0x40 == d
  {
    var n := a * 0x4_0000 + b * 0x1000 + c * 0x40 + d;
    assert n / 0x40 == a * 0x1000 + b * 0x40 + c;
    assert n / 0x1000 == a * 0x40 + b;
  }

  /** Encoding and decoding returns exactly the well-formed texts that do not start with a byte
      order mark. */
  lemma DecodeEncoded(s: Text)
    ensures Decode(Encode(s)) == s <==> WellFormed(s) && !StartsWithMark(s)
  {
    DecodeAllEncoded(s);
    RepairFixesIllFormed(s);
  }

  /** On well-formed texts the encoding loses nothing. */
  lemma EncodeInjective(s: Text, t: Text)
    requires WellFormed(s) && WellFormed(t) && Encode(s) == Encode(t)
    ensures s == t
  {
    DecodeAllEncoded(s);
    DecodeAllEncoded(t);
    RepairFixesIllFormed(s);
    RepairFixesIllFormed(t);
  }

  /** Texts whose border does not join two surrogates are encoded apart. */
  lemma {:induction false} EncodeConcat(s: Text, t: Text)
    requires s == [] || t == [] || !(IsHigh(s[|s| - 1]) && IsLow(t[0]))
    ensures Encode(s + t) == Encode(s) + Encode(t)
  {
    if s == [] {
      assert s + t == t;
    } else if t == [] {
      assert s + t == s;
    } else if StartsWithPair(s) {
      EncodeConcat(s[2..], t);
      EncodeFirstPair(s, t);
      Regroup(EncodePair(s[0], s[1]), Encode(s[2..]), Encode(t));
    } else {
      EncodeConcat(s[1..], t);
      EncodeFirstUnit(s, t);
      Regroup(EncodeUnit(s[0]), Encode(s[1..]), Encode(t));
    }
  }

  lemma EncodeFirstPair(s: Text, t: Text)
    requires StartsWithPair(s)
    ensures Encode(s + t) == EncodePair(s[0], s[1]) + Encode(s[2..] + t)
  {
    assert (s + t)[2..] == s[2..] + t;
  }

  lemma EncodeUnpaired(w: Text)
    requires w != [] && !StartsWithPair(w)
    ensures Encode(w) == EncodeUnit(w[0]) + Encode(w[1..])
  {
  }

  lemma NoPairAcross(s: Text, t: Text)
    requires s != [] && !StartsWithPair(s) && (|s| > 1 || t == [] || !(IsHigh(s[0]) && IsLow(t[0])))
    ensures !StartsWithPair(s + t) && (s + t)[0] == s[0] && (s + t)[1..] == s[1..] + t
  {
  }

  lemma EncodeFirstUnit(s: Text, t: Text)
    requires s != [] && !StartsWithPair(s) && (|s| > 1 || t == [] || !(IsHigh(s[0]) && IsLow(t[0])))
    ensures Encode(s + t) == EncodeUnit(s[0]) + Encode(s[1..] + t)
  {
    NoPairAcross(s, t);
    EncodeUnpaired(s + t);
  }
}
