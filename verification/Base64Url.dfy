/** The base64url text codec: UTF-8 bytes, `btoa` and `atob`, the URL-safe alphabet and padding. */
module Base64Url {
  import opened Wrappers
  import opened JsonText
  import opened Utf8

  const PAD: Unit := 0x3D
  const PLUS: Unit := 0x2B
  const SLASH: Unit := 0x2F
  const MINUS: Unit := 0x2D
  const UNDERSCORE: Unit := 0x5F

  // ---------------------------------------------------------------------------------------------
  // btoa

  function Symbol(n: int): Unit
    requires 0 <= n < 64
  {
    if n < 26 then (0x41 + n) as Unit
    else if n < 52 then (0x61 + (n - 26)) as Unit
    else if n < 62 then (0x30 + (n - 52)) as Unit
    else if n == 62 then PLUS
    else SLASH
  }

  function SymbolValue(u: Unit): (r: Option<int>)
    ensures r.Some? ==> 0 <= r.value < 64
  {
    if 0x41 <= u <= 0x5A then Some(u as int - 0x41)
    else if 0x61 <= u <= 0x7A then Some(u as int - 0x61 + 26)
    else if 0x30 <= u <= 0x39 then Some(u as int - 0x30 + 52)
    else if u == PLUS then Some(62)
    else if u == SLASH then Some(63)
    else None
  }

  function High6(a: Byte): Unit { Symbol(a as int / 4) }
  function Mid6(a: Byte, b: Byte): Unit { Symbol(a as int % 4 * 16 + b as int / 16) }
  function Low6(b: Byte, c: Byte): Unit { Symbol(b as int % 16 * 4 + c as int / 64) }
  function Last6(c: Byte): Unit { Symbol(c as int % 64) }

  /** Three bytes as four symbols. */
  function Group(a: Byte, b: Byte, c: Byte): (w: Text)
    ensures |w| == 4
  {
    [High6(a), Mid6(a, b), Low6(b, c), Last6(c)]
  }

  function BtoaBytes(b: Bytes): Text {
    if b == [] then []
    else if |b| == 1 then Group(b[0], 0, 0)[..2] + [PAD, PAD]
    else if |b| == 2 then Group(b[0], b[1], 0)[..3] + [PAD]
    else Group(b[0], b[1], b[2]) + BtoaBytes(b[3..])
  }

  /** A binary string holds one byte in each unit. */
  predicate IsBinary(t: Text) {
    forall i :: 0 <= i < |t| ==> t[i] < 0x100
  }

  function ToBinary(b: Bytes): Text {
    seq(|b|, i requires 0 <= i < |b| => b[i] as Unit)
  }

  /** What `Uint8Array.from` makes of the character codes. */
  function FromBinary(t: Text): Bytes {
    seq(|t|, i requires 0 <= i < |t| => (t[i] as int % 0x100) as Byte)
  }

  function Btoa(t: Text): Option<Text> {
    if IsBinary(t) then Some(BtoaBytes(FromBinary(t))) else None
  }

  // ---------------------------------------------------------------------------------------------
  // atob

  predicate IsSpace(u: Unit) {
    u == 0x09 || u == 0x0A || u == 0x0C || u == 0x0D || u == 0x20
  }

  function RemoveSpace(t: Text): Text {
    if t == [] then [] else if IsSpace(t[0]) then RemoveSpace(t[1..]) else [t[0]] + RemoveSpace(t[1..])
  }

  /** One or two trailing padding units are dropped from a text of whole groups. */
  function DropPadding(t: Text): Text {
    if |t| == 0 || |t| % 4 != 0 || t[|t| - 1] != PAD then t
    else if t[|t| - 2] == PAD then t[..|t| - 2]
    else t[..|t| - 1]
  }

  function Join2(x: int, y: int): Byte
    requires 0 <= x < 64 && 0 <= y < 64
  {
    (x * 4 + y / 16) as Byte
  }

  function Join3(y: int, z: int): Byte
    requires 0 <= y < 64 && 0 <= z < 64
  {
    (y % 16 * 16 + z / 4) as Byte
  }

  function Join4(z: int, w: int): Byte
    requires 0 <= z < 64 && 0 <= w < 64
  {
    (z % 4 * 64 + w) as Byte
  }

  /** Groups of four symbols; leftover bits of a short last group are ignored. */
  function FromSymbols(t: Text): Option<Bytes> {
    if t == [] then Some([])
    else if |t| == 1 then None
    else
      var x, y := SymbolValue(t[0]), SymbolValue(t[1]);
      if x.None? || y.None? then None
      else if |t| == 2 then Some([Join2(x.value, y.value)])
      else
        var z := SymbolValue(t[2]);
        if z.None? then None
        else if |t| == 3 then Some([Join2(x.value, y.value), Join3(y.value, z.value)])
        else
          var w, rest := SymbolValue(t[3]), FromSymbols(t[4..]);
          if w.None? || rest.None? then None
          else Some([Join2(x.value, y.value), Join3(y.value, z.value), Join4(z.value, w.value)] + rest.value)
  }

  function Atob(t: Text): Option<Text> {
    var bytes := FromSymbols(DropPadding(RemoveSpace(t)));
    if bytes.None? then None else Some(ToBinary(bytes.value))
  }

  // ---------------------------------------------------------------------------------------------
  // The codec

  function Swap(t: Text, from: Unit, to: Unit): (r: Text)
    ensures |r| == |t|
    ensures forall i :: 0 <= i < |t| ==> r[i] == if t[i] == from then to else t[i]
  {
    if t == [] then [] else [if t[0] == from then to else t[0]] + Swap(t[1..], from, to)
  }

  function StripPadding(t: Text): Text {
    if t != [] && t[|t| - 1] == PAD then StripPadding(t[..|t| - 1]) else t
  }

  function PadTo(t: Text, n: int): Text
    decreases n - |t|
  {
    if |t| < n then PadTo(t + [PAD], n) else t
  }

  function Padded(t: Text): Text {
    PadTo(t, (|t| + 3) / 4 * 4)
  }

  function ToUrl(t: Text): Text {
    StripPadding(Swap(Swap(t, PLUS, MINUS), SLASH, UNDERSCORE))
  }

  function FromUrl(t: Text): Text {
    Swap(Swap(t, MINUS, PLUS), UNDERSCORE, SLASH)
  }

  function Encoded(s: Text): Text {
    ToUrl(BtoaBytes(Encode(s)))
  }

  function Decoded(t: Text): Option<Text> {
    var binary := Atob(Padded(FromUrl(t)));
    if binary.None? then None else Some(Decode(FromBinary(binary.value)))
  }

  lemma BinaryRoundTrip(b: Bytes)
    ensures IsBinary(ToBinary(b)) && FromBinary(ToBinary(b)) == b
  {
  }

  /** The encoder as it runs: the binary string grows by one character for each byte. */
  method EncodeBase64Url(value: Text) returns (r: Text)
    ensures r == Encoded(value)
  {
    var bytes := Encode(value);
    var binary: Text := [];
    for i := 0 to |bytes|
      invariant binary == ToBinary(bytes[..i])
    {
      binary := binary + [bytes[i] as Unit];
      assert bytes[..i + 1] == bytes[..i] + [bytes[i]];
    }
    assert bytes[..|bytes|] == bytes;
    BinaryRoundTrip(bytes);
    r := ToUrl(Btoa(binary).value);
  }

  // ---------------------------------------------------------------------------------------------
  // btoa and atob

  /** The symbols before the padding. */
  function Body(b: Bytes): Text {
    if b == [] then []
    else if |b| == 1 then Group(b[0], 0, 0)[..2]
    else if |b| == 2 then Group(b[0], b[1], 0)[..3]
    else Group(b[0], b[1], b[2]) + Body(b[3..])
  }

  function PaddingOf(n: nat): Text {
    if n % 3 == 1 then [PAD, PAD] else if n % 3 == 2 then [PAD] else []
  }

  predicate AllSymbols(t: Text) {
    forall i :: 0 <= i < |t| ==> SymbolValue(t[i]).Some?
  }

  lemma SymbolRoundTrip(n: int)
    requires 0 <= n < 64
    ensures SymbolValue(Symbol(n)) == Some(n)
  {
  }

  lemma {:induction false} BtoaShape(b: Bytes)
    ensures BtoaBytes(b) == Body(b) + PaddingOf(|b|)
  {
    if |b| >= 3 {
      BtoaShape(b[3..]);
      PaddingRepeats(|b|);
      Regroup(Group(b[0], b[1], b[2]), Body(b[3..]), PaddingOf(|b|));
    }
  }

  lemma {:induction false} BtoaSize(b: Bytes) returns (groups: nat)
    ensures |BtoaBytes(b)| == 4 * groups
  {
    if b == [] {
      groups := 0;
    } else if |b| < 3 {
      groups := 1;
    } else {
      groups := BtoaSize(b[3..]);
      groups := groups + 1;
    }
  }

  lemma PaddingRepeats(n: nat)
    requires n >= 3
    ensures PaddingOf(n) == PaddingOf(n - 3)
  {
  }

  lemma {:induction false} BodySymbols(b: Bytes)
    ensures AllSymbols(Body(b))
  {
    if |b| >= 3 {
      BodySymbols(b[3..]);
    }
  }

  /** Regrouping three bytes into sextets and back. */
  lemma Regroup3(a: int, b: int, c: int)
    requires 0 <= a < 0x100 && 0 <= b < 0x100 && 0 <= c < 0x100
    ensures a / 4 * 4 + (a % 4 * 16 + b / 16) / 16 == a
    ensures (a % 4 * 16 + b / 16) % 16 * 16 + (b % 16 * 4 + c / 64) / 4 == b
    ensures (b % 16 * 4 + c / 64) % 4 * 64 + c % 64 == c
  {
    assert (a % 4 * 16 + b / 16) / 16 == a % 4;
    assert (a % 4 * 16 + b / 16) % 16 == b / 16;
    assert (b % 16 * 4 + c / 64) / 4 == b % 16;
    assert (b % 16 * 4 + c / 64) % 4 == c / 64;
  }

  lemma ReadGroup(a: Byte, b: Byte, c: Byte, w: Text)
    requires |w| == 4 && w == [High6(a), Mid6(a, b), Low6(b, c), Last6(c)]
    ensures AllSymbols(w)
    ensures Join2(SymbolValue(w[0]).value, SymbolValue(w[1]).value) == a
    ensures Join3(SymbolValue(w[1]).value, SymbolValue(w[2]).value) == b
    ensures Join4(SymbolValue(w[2]).value, SymbolValue(w[3]).value) == c
  {
    Regroup3(a as int, b as int, c as int);
    SymbolRoundTrip(a as int / 4);
    SymbolRoundTrip(a as int % 4 * 16 + b as int / 16);
    SymbolRoundTrip(b as int % 16 * 4 + c as int / 64);
    SymbolRoundTrip(c as int % 64);
  }

  lemma FromGroup(w: Text, rest: Text)
    requires |w| == 4 && AllSymbols(w) && FromSymbols(rest).Some?
    ensures FromSymbols(w + rest) ==
            Some([Join2(SymbolValue(w[0]).value, SymbolValue(w[1]).value), Join3(SymbolValue(w[1]).value, SymbolValue(w[2]).value),
                  Join4(SymbolValue(w[2]).value, SymbolValue(w[3]).value)] + FromSymbols(rest).value)
  {
    assert (w + rest)[4..] == rest;
  }

  lemma FromShortGroup(w: Text)
    requires |w| == 4 && AllSymbols(w)
    ensures FromSymbols(w[..2]) == Some([Join2(SymbolValue(w[0]).value, SymbolValue(w[1]).value)])
    ensures FromSymbols(w[..3]) ==
            Some([Join2(SymbolValue(w[0]).value, SymbolValue(w[1]).value), Join3(SymbolValue(w[1]).value, SymbolValue(w[2]).value)])
  {
  }

  /** A group reads back as its bytes; cut short, as its first bytes. */
  lemma GroupRoundTrip(a: Byte, b: Byte, c: Byte, rest: Text)
    ensures FromSymbols(Group(a, 0, 0)[..2]) == Some([a])
    ensures FromSymbols(Group(a, b, 0)[..3]) == Some([a, b])
    ensures FromSymbols(rest).Some? ==> FromSymbols(Group(a, b, c) + rest) == Some([a, b, c] + FromSymbols(rest).value)
  {
    ReadGroup(a, 0, 0, Group(a, 0, 0));
    FromShortGroup(Group(a, 0, 0));
    ReadGroup(a, b, 0, Group(a, b, 0));
    FromShortGroup(Group(a, b, 0));
    ReadGroup(a, b, c, Group(a, b, c));
    if FromSymbols(rest).Some? {
      FromGroup(Group(a, b, c), rest);
    }
  }

  lemma {:induction false} FromBody(b: Bytes)
    ensures FromSymbols(Body(b)) == Some(b)
  {
    if |b| >= 3 {
      FromBody(b[3..]);
      GroupRoundTrip(b[0], b[1], b[2], Body(b[3..]));
      assert b == [b[0], b[1], b[2]] + b[3..];
    } else if |b| == 2 {
      GroupRoundTrip(b[0], b[1], 0, []);
      assert b == [b[0], b[1]];
    } else if |b| == 1 {
      GroupRoundTrip(b[0], 0, 0, []);
      assert b == [b[0]];
    }
  }

  lemma {:induction false} NoSpace(t: Text)
    requires forall i :: 0 <= i < |t| ==> !IsSpace(t[i])
    ensures RemoveSpace(t) == t
  {
    if t != [] {
      NoSpace(t[1..]);
    }
  }

  /** Decoding an encoded binary string gives it back. */
  lemma AtobBtoa(b: Bytes)
    ensures Atob(BtoaBytes(b)) == Some(ToBinary(b))
  {
    BtoaShape(b);
    var groups := BtoaSize(b);
    BodySymbols(b);
    FromBody(b);
    var t := BtoaBytes(b);
    NoSpace(t);
    DropsPadding(Body(b), |b|, groups);
  }

  lemma DropsPadding(t: Text, n: nat, groups: nat)
    requires AllSymbols(t) && |t + PaddingOf(n)| == 4 * groups
    ensures DropPadding(t + PaddingOf(n)) == t
  {
    assert t != [] ==> t[|t| - 1] != PAD;
    var p := t + PaddingOf(n);
    assert |p| % 4 == 0;
    assert p != [] && n % 3 == 0 ==> p == t;
  }

  // ---------------------------------------------------------------------------------------------
  // Alphabet and padding

  predicate IsUrlSymbol(u: Unit) {
    0x41 <= u <= 0x5A || 0x61 <= u <= 0x7A || 0x30 <= u <= 0x39 || u == MINUS || u == UNDERSCORE
  }

  lemma StripOne(t: Text)
    ensures StripPadding(t + [PAD]) == StripPadding(t)
  {
    assert (t + [PAD])[..|t|] == t;
  }

  lemma StripPads(t: Text, n: nat)
    requires t == [] || t[|t| - 1] != PAD
    ensures StripPadding(t + PaddingOf(n)) == t
  {
    StripOne(t);
    StripOne(t + [PAD]);
    assert t + [PAD, PAD] == t + [PAD] + [PAD];
    assert t + [] == t;
  }

  /** The URL-safe spelling of the symbols. */
  function UrlBody(b: Bytes): Text {
    Swap(Swap(Body(b), PLUS, MINUS), SLASH, UNDERSCORE)
  }

  lemma {:induction false} SwapConcat(s: Text, t: Text, from: Unit, to: Unit)
    ensures Swap(s + t, from, to) == Swap(s, from, to) + Swap(t, from, to)
  {
  }

  lemma ToUrlIsBody(b: Bytes)
    ensures ToUrl(BtoaBytes(b)) == UrlBody(b)
    ensures forall i :: 0 <= i < |UrlBody(b)| ==> IsUrlSymbol(UrlBody(b)[i])
    ensures FromUrl(UrlBody(b)) == Body(b)
  {
    BtoaShape(b);
    BodySymbols(b);
    SwapConcat(Body(b), PaddingOf(|b|), PLUS, MINUS);
    SwapConcat(Swap(Body(b), PLUS, MINUS), PaddingOf(|b|), SLASH, UNDERSCORE);
    assert Swap(Swap(PaddingOf(|b|), PLUS, MINUS), SLASH, UNDERSCORE) == PaddingOf(|b|);
    UrlSpelling(Body(b));
    StripPads(UrlBody(b), |b|);
  }

  lemma UrlSpelling(t: Text)
    requires AllSymbols(t)
    ensures var u := Swap(Swap(t, PLUS, MINUS), SLASH, UNDERSCORE);
            FromUrl(u) == t && forall i :: 0 <= i < |u| ==> IsUrlSymbol(u[i])
  {
  }

  /** The output is unpadded URL-safe text, four symbols for three bytes, rounded up. */
  lemma OutputIsUrlSafe(s: Text)
    ensures forall i :: 0 <= i < |Encoded(s)| ==> IsUrlSymbol(Encoded(s)[i])
    ensures |Encoded(s)| == (|Encode(s)| * 4 + 2) / 3
  {
    ToUrlIsBody(Encode(s));
    BodySize(Encode(s));
  }

  lemma {:induction false} BodySize(b: Bytes)
    ensures |Body(b)| == (|b| * 4 + 2) / 3
  {
    if |b| >= 3 {
      BodySize(b[3..]);
    }
  }

  function PadCount(n: nat): nat {
    if n % 4 == 0 then 0 else 4 - n % 4
  }

  lemma {:induction false} PadToIs(t: Text, n: int)
    requires |t| <= n
    ensures PadTo(t, n) == t + seq(n - |t|, i => PAD)
    decreases n - |t|
  {
    if |t| < n {
      PadToIs(t + [PAD], n);
    }
  }

  lemma PaddedAs(t: Text)
    ensures Padded(t) == t + seq(PadCount(|t|), i => PAD)
  {
    PadToIs(t, (|t| + 3) / 4 * 4);
    assert (|t| + 3) / 4 * 4 == |t| + PadCount(|t|);
  }

  lemma PadBody(t: Text, n: nat)
    requires |t| == (n * 4 + 2) / 3
    ensures Padded(t) == t + PaddingOf(n)
  {
    PaddedAs(t);
    PadCounts(n);
    assert seq(PadCount(|t|), i => PAD) == PaddingOf(n);
  }

  lemma PadCounts(n: nat)
    ensures PadCount((n * 4 + 2) / 3) == if n % 3 == 0 then 0 else 3 - n % 3
  {
    var m := n / 3;
    assert n == 3 * m + n % 3;
    if n % 3 == 0 {
      assert (n * 4 + 2) / 3 == 4 * m;
    } else if n % 3 == 1 {
      assert (n * 4 + 2) / 3 == 4 * m + 2;
    } else {
      assert (n * 4 + 2) / 3 == 4 * m + 3;
    }
  }

  /** The padding recomputed from the length is exactly what was stripped. */
  lemma PaddingIsRecomputed(s: Text)
    ensures Padded(FromUrl(Encoded(s))) == BtoaBytes(Encode(s))
  {
    var b := Encode(s);
    ToUrlIsBody(b);
    BodySize(b);
    PadBody(Body(b), |b|);
    BtoaShape(b);
  }

  /** Decoding an encoded text always succeeds; it repairs lone surrogates and drops a leading byte
      order mark. */
  lemma DecodedEncoded(s: Text)
    ensures Decoded(Encoded(s)) == Some(DropMark(Repair(s)))
  {
    PaddingIsRecomputed(s);
    AtobBtoa(Encode(s));
    BinaryRoundTrip(Encode(s));
    DecodeAllEncoded(s);
  }

  /** The codec returns exactly the well-formed texts that do not start with a byte order mark. */
  lemma RoundTrip(s: Text)
    ensures Decoded(Encoded(s)) == Some(s) <==> WellFormed(s) && !StartsWithMark(s)
  {
    DecodedEncoded(s);
    RepairFixesIllFormed(s);
  }

  /** A well-formed text the codec does not return: the mark is lost. */
  lemma MarkIsLost()
    ensures WellFormed([0xFEFF]) && Decoded(Encoded([0xFEFF])) == Some([])
  {
    PlainIsWellFormed([BYTE_ORDER_MARK]);
    RepairFixesIllFormed([BYTE_ORDER_MARK]);
    DecodedEncoded([BYTE_ORDER_MARK]);
  }

  // ---------------------------------------------------------------------------------------------
  // Which symbol says what

  function ByteAt(b: Bytes, i: nat): int {
    if i < |b| then b[i] as int else 0
  }

  /** The six bits from bit `6 * i` on, the highest first; the bits behind the last byte are zero. */
  function Sextet(b: Bytes, i: nat): (n: int)
    ensures 0 <= n < 64
  {
    var k := i / 4 * 3;
    var word := ByteAt(b, k) * 0x1_0000 + ByteAt(b, k + 1) * 0x100 + ByteAt(b, k + 2);
    if i % 4 == 0 then word / 0x4_0000 % 0x40
    else if i % 4 == 1 then word / 0x1000 % 0x40
    else if i % 4 == 2 then word / 0x40 % 0x40
    else word % 0x40
  }

  /** Capitals, small letters, digits, "-" and "_", in this order. */
  predicate Spells(u: Unit, n: int) {
    || (0 <= n < 26 && u as int == n + 'A' as int)
    || (26 <= n < 52 && u as int == n - 26 + 'a' as int)
    || (52 <= n < 62 && u as int == n - 52 + '0' as int)
    || (n == 62 && u as int == '-' as int)
    || (n == 63 && u as int == '_' as int)
  }

  lemma WordBits(a: int, b: int, c: int)
    requires 0 <= a < 0x100 && 0 <= b < 0x100 && 0 <= c < 0x100
    ensures var word := a * 0x1_0000 + b * 0x100 + c;
            && word / 0x4_0000 % 0x40 == a / 4 && word / 0x1000 % 0x40 == a % 4 * 16 + b / 16
            && word / 0x40 % 0x40 == b % 16 * 4 + c / 64 && word % 0x40 == c % 64
  {
    var word := a * 0x1_0000 + b * 0x100 + c;
    assert word / 0x40 == a * 0x400 + b * 4 + c / 64;
    assert word / 0x1000 == a * 16 + b / 16;
    assert word / 0x4_0000 == a / 4;
  }

  lemma {:induction false} BodyAt(b: Bytes, i: nat)
    requires i < |Body(b)|
    ensures Body(b)[i] == Symbol(Sextet(b, i))
  {
    if i < 4 {
      FirstGroupAt(b, i);
    } else {
      BodyAt(b[3..], i - 4);
      SextetBehind(b, i);
    }
  }

  lemma FirstGroupAt(b: Bytes, i: nat)
    requires i < |Body(b)| && i < 4
    ensures Body(b)[i] == Symbol(Sextet(b, i))
  {
    FirstSextets(b);
  }

  lemma FirstSextets(b: Bytes)
    ensures Sextet(b, 0) == ByteAt(b, 0) / 4 && Sextet(b, 1) == ByteAt(b, 0) % 4 * 16 + ByteAt(b, 1) / 16
    ensures Sextet(b, 2) == ByteAt(b, 1) % 16 * 4 + ByteAt(b, 2) / 64 && Sextet(b, 3) == ByteAt(b, 2) % 64
  {
    WordBits(ByteAt(b, 0), ByteAt(b, 1), ByteAt(b, 2));
  }

  lemma SextetBehind(b: Bytes, i: nat)
    requires |b| >= 3 && i >= 4
    ensures Sextet(b, i) == Sextet(b[3..], i - 4)
  {
    assert i / 4 * 3 == (i - 4) / 4 * 3 + 3 && i % 4 == (i - 4) % 4;
    assert forall k: nat :: ByteAt(b, k + 3) == ByteAt(b[3..], k);
    var k := (i - 4) / 4 * 3;
    assert ByteAt(b, k + 3) == ByteAt(b[3..], k) && ByteAt(b, k + 4) == ByteAt(b[3..], k + 1) && ByteAt(b, k + 5) == ByteAt(b[3..], k + 2);
  }

  /** The i-th symbol of the output spells the i-th group of six bits of the text's UTF-8 bytes. */
  lemma OutputSpells(s: Text, i: nat)
    requires i < |Encoded(s)|
    ensures Spells(Encoded(s)[i], Sextet(Encode(s), i))
  {
    var b := Encode(s);
    ToUrlIsBody(b);
    BodyAt(b, i);
  }

  // ---------------------------------------------------------------------------------------------
  // Which texts decode

  lemma {:induction false} SymbolsRead(t: Text)
    ensures FromSymbols(t).Some? <==> AllSymbols(t) && |t| % 4 != 1
  {
    if |t| >= 4 {
      SymbolsRead(t[4..]);
      SymbolsBehind(t);
      assert |t[4..]| % 4 == |t| % 4;
      FourRead(t);
    }
  }

  lemma FourRead(t: Text)
    requires |t| >= 4
    ensures FromSymbols(t).Some? <==> FourSymbols(t) && FromSymbols(t[4..]).Some?
  {
  }

  predicate FourSymbols(t: Text)
    requires |t| >= 4
  {
    SymbolValue(t[0]).Some? && SymbolValue(t[1]).Some? && SymbolValue(t[2]).Some? && SymbolValue(t[3]).Some?
  }

  lemma SymbolsBehind(t: Text)
    requires |t| >= 4
    ensures AllSymbols(t) <==> FourSymbols(t) && AllSymbols(t[4..])
  {
    assert forall i :: 4 <= i < |t| ==> t[i] == t[4..][i - 4];
  }

  lemma {:induction false} StrangeStays(t: Text, i: nat)
    requires i < |t| && !IsSpace(t[i])
    ensures t[i] in RemoveSpace(t)
  {
    if i > 0 {
      StrangeStays(t[1..], i - 1);
    }
  }

  /** A text of URL-safe symbols decodes unless one symbol is left over behind whole groups of four. A
      text with any unit that is no symbol of either alphabet, padding or white space does not. */
  lemma DecodableTexts(t: Text, i: nat)
    ensures (forall k :: 0 <= k < |t| ==> IsUrlSymbol(t[k])) ==> (Decoded(t).Some? <==> |t| % 4 != 1)
    ensures i < |t| && !IsAlphanumeric(t[i]) && t[i] !in Ascii("-_+/= ") && t[i] !in [0x09, 0x0A, 0x0C, 0x0D] ==> Decoded(t).None?
  {
    var u := FromUrl(t);
    if forall k :: 0 <= k < |t| ==> IsUrlSymbol(t[k]) {
      UrlSymbolsRead(t);
    }
    if i < |t| && !IsAlphanumeric(t[i]) && t[i] !in Ascii("-_+/= ") && t[i] !in [0x09, 0x0A, 0x0C, 0x0D] {
      assert Ascii("-_+/= ") == [0x2D, 0x5F, 0x2B, 0x2F, 0x3D, 0x20];
      assert u[i] == t[i];
      PadKeeps(u, (|u| + 3) / 4 * 4, i);
      StrangeStays(Padded(u), i);
      var w := RemoveSpace(Padded(u));
      StrangeUnread(w, t[i]);
    }
  }

  /** White space anywhere is skipped. */
  lemma SpaceIsSkipped(before: Text, u: Unit, after: Text)
    requires u in [0x09, 0x0A, 0x0C, 0x0D, 0x20]
    ensures Atob(before + [u] + after) == Atob(before + after)
  {
    RemoveConcat(before + [u], after);
    RemoveConcat(before, [u]);
    RemoveConcat(before, after);
    assert RemoveSpace([u]) == [] && RemoveSpace(before) + [] == RemoveSpace(before);
  }

  lemma {:induction false} RemoveConcat(s: Text, t: Text)
    ensures RemoveSpace(s + t) == RemoveSpace(s) + RemoveSpace(t)
  {
    if s == [] {
      assert s + t == t;
    } else {
      assert (s + t)[1..] == s[1..] + t;
      RemoveConcat(s[1..], t);
    }
  }

  lemma {:induction false} PadKeeps(t: Text, n: int, i: nat)
    requires i < |t|
    ensures i < |PadTo(t, n)| && PadTo(t, n)[i] == t[i]
    decreases n - |t|
  {
    if |t| < n {
      PadKeeps(t + [PAD], n, i);
    }
  }

  lemma StrangeUnread(w: Text, u: Unit)
    requires u in w && SymbolValue(u).None? && u != PAD
    ensures FromSymbols(DropPadding(w)).None?
  {
    var k :| 0 <= k < |w| && w[k] == u;
    SymbolsRead(DropPadding(w));
    assert DropPadding(w)[k] == u;
  }

  lemma UrlSymbolsRead(t: Text)
    requires forall k :: 0 <= k < |t| ==> IsUrlSymbol(t[k])
    ensures Decoded(t).Some? <==> |t| % 4 != 1
  {
    var u := FromUrl(t);
    assert AllSymbols(u);
    PaddedAs(u);
    var p := PadCount(|u|);
    NoSpace(Padded(u));
    DropsCounted(u, p);
    SymbolsRead(DropPadding(Padded(u)));
  }

  /** Three units of padding, behind a leftover symbol, are more than are dropped. */
  lemma DropsCounted(t: Text, p: nat)
    requires AllSymbols(t) && p == PadCount(|t|)
    ensures var d := DropPadding(t + seq(p, i => PAD));
            if p < 3 then d == t else |d| > |t| && d[|t|] == PAD
  {
    var w := t + seq(p, i => PAD);
    assert |w| % 4 == 0;
    assert p == 0 ==> w == t;
    assert p > 0 ==> w[|w| - 1] == PAD;
    assert p > 1 ==> w[|w| - 2] == PAD;
  }
}
