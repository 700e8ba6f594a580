/** Natural numbers in decimal: a number codec that meets the printer's assumptions. */
module Decimal {
  import opened Wrappers
  import opened JsonText
  import opened JsonValue
  import opened CanonicalJson

  function Write(n: nat): (r: Text)
    ensures r != []
  {
    if n < 10 then [(0x30 + n) as Unit] else Write(n / 10) + [(0x30 + n % 10) as Unit]
  }

  function ReadFrom(t: Text): Option<nat> {
    if t == [] then Some(0)
    else
      var last, front := t[|t| - 1], ReadFrom(t[..|t| - 1]);
      if front.None? || !(0x30 <= last <= 0x39) then None else Some(front.value * 10 + (last as int - 0x30))
  }

  function Read(t: Text): Option<nat> {
    if t == [] then None else ReadFrom(t)
  }

  function Codec(): NumCodec<nat> {
    NumCodec(Write, Read)
  }

  lemma {:induction false} ReadWritten(n: nat)
    ensures ReadFrom(Write(n)) == Some(n) && NumText(Write(n))
  {
    if n >= 10 {
      ReadWritten(n / 10);
      assert Write(n)[..|Write(n)| - 1] == Write(n / 10);
    } else {
      assert Write(n)[..0] == [];
      assert ReadFrom([]) == Some(0);
    }
  }

  lemma CodecIsFaithful()
    ensures Faithful(Codec())
  {
    forall n: nat ensures NumText(Write(n)) && Read(Write(n)) == Some(n) {
      ReadWritten(n);
    }
  }

  lemma {:induction false} LargerIsLonger(n: nat, m: nat)
    requires n <= m
    ensures |Write(n)| <= |Write(m)|
  {
    if n >= 10 {
      LargerIsLonger(n / 10, m / 10);
    }
  }

  function Power10(k: nat): nat {
    if k == 0 then 1 else 10 * Power10(k - 1)
  }

  /** A number from ten to the k-1 up has at least k digits. */
  lemma {:induction false} DigitsAtLeast(n: nat, k: nat)
    requires k >= 1 && n >= Power10(k - 1)
    ensures |Write(n)| >= k
  {
    if k > 1 {
      DigitsAtLeast(n / 10, k - 1);
    }
  }

  lemma ExactDigits(n: nat, k: nat)
    requires k >= 1 && Power10(k - 1) <= n < Power10(k)
    ensures |Write(n)| == k
  {
    DigitCount(n, k);
    DigitsAtLeast(n, k);
  }

  /** A number below ten to the k has at most k digits. */
  lemma {:induction false} DigitCount(n: nat, k: nat)
    requires k >= 1 && n < Power10(k)
    ensures |Write(n)| <= k
  {
    if n >= 10 {
      DigitCount(n / 10, k - 1);
    }
  }
}

/** How many UTF-8 bytes JSON texts take. */
module JsonBytes {
  import opened Wrappers
  import opened JsonText
  import opened JsonValue
  import opened CanonicalJson
  import opened CanonicalPrinter
  import Utf8

  function Bytes(t: Text): nat {
    |Utf8.Encode(t)|
  }

  lemma {:induction false} WellFormedEnd(s: Text)
    requires WellFormed(s) && s != []
    ensures !IsHigh(s[|s| - 1])
  {
    if StartsWithPair(s) {
      if |s| > 2 {
        WellFormedEnd(s[2..]);
      }
    } else if |s| > 1 {
      WellFormedEnd(s[1..]);
    }
  }

  lemma BytesConcat(s: Text, t: Text)
    requires WellFormed(s)
    ensures Bytes(s + t) == Bytes(s) + Bytes(t)
  {
    if s != [] {
      WellFormedEnd(s);
    }
    Utf8.EncodeConcat(s, t);
  }

  // ---------------------------------------------------------------------------------------------
  // Escaping

  predicate IsAscii(t: Text) {
    forall i :: 0 <= i < |t| ==> t[i] < 0x80
  }

  lemma {:induction false} AsciiBytes(t: Text)
    requires IsAscii(t)
    ensures Bytes(t) == |t| && WellFormed(t)
  {
    if t != [] {
      AsciiBytes(t[1..]);
    }
  }

  lemma {:induction false} PlainEscape(t: Text)
    requires IsPlain(t)
    ensures Escape(t) == t && Bytes(t) == |t|
  {
    AsciiBytes(t);
    if t != [] {
      PlainEscape(t[1..]);
    }
  }

  lemma EscapedUnitBytes(u: Unit)
    ensures Bytes(EscapeUnit(u)) <= 6 && Bytes(EscapeUnit(u)) <= 6 * |Utf8.EncodeUnit(u)|
    ensures WellFormed(EscapeUnit(u))
  {
    if ShortEscape(u).Some? || u < 0x20 || IsSurrogate(u) {
      AsciiBytes(EscapeUnit(u));
    } else {
      PlainIsWellFormed([u]);
      assert Utf8.Encode([u]) == Utf8.EncodeUnit(u) + Utf8.Encode([]);
    }
  }

  lemma PairBytes(s: Text)
    requires StartsWithPair(s)
    ensures Bytes(s[..2]) == 4 && WellFormed(s[..2])
  {
    assert s[..2][2..] == [];
    assert Utf8.Encode(s[..2]) == Utf8.EncodePair(s[0], s[1]) + Utf8.Encode([]);
  }

  /** Escaping costs at most six bytes for each code unit and for each UTF-8 byte. */
  lemma {:induction false} EscapedBytes(s: Text)
    ensures Bytes(Escape(s)) <= 6 * |s| && Bytes(Escape(s)) <= 6 * Bytes(s)
  {
    if s == [] {
    } else if StartsWithPair(s) {
      EscapedBytes(s[2..]);
      PairBytes(s);
      BytesConcat(s[..2], Escape(s[2..]));
    } else {
      EscapedBytes(s[1..]);
      EscapedUnitBytes(s[0]);
      BytesConcat(EscapeUnit(s[0]), Escape(s[1..]));
    }
  }

  function Nuls(n: nat): (r: Text)
    ensures |r| == n
  {
    if n == 0 then [] else [0] + Nuls(n - 1)
  }

  /** The bound is reached by the null character. */
  lemma {:induction false} NulBytes(n: nat)
    ensures Bytes(Escape(Nuls(n))) == 6 * n
  {
    if n > 0 {
      NulBytes(n - 1);
      AsciiBytes(EscapeUnit(0));
      EscapedUnitBytes(0);
      BytesConcat(EscapeUnit(0), Escape(Nuls(n - 1)));
      assert Nuls(n)[1..] == Nuls(n - 1);
    }
  }

  // ---------------------------------------------------------------------------------------------
  // Printed values

  function Size<N>(c: NumCodec<N>, v: Value<N>): nat {
    Bytes(Print(c, v))
  }

  function MemberSize<N>(c: NumCodec<N>, e: (Text, Value<N>)): nat {
    Bytes(Escape(e.0)) + 3 + Size(c, e.1)
  }

  /** The members and one separator for each. */
  function MembersSize<N>(c: NumCodec<N>, es: seq<(Text, Value<N>)>): nat {
    if es == [] then 0 else MemberSize(c, es[0]) + 1 + MembersSize(c, es[1..])
  }

  lemma QuoteBytes(s: Text)
    ensures Bytes(QuoteText(s)) == Bytes(Escape(s)) + 2
  {
    EscapeIsWellFormed(s);
    AsciiBytes([QUOTE]);
    BytesConcat([QUOTE], Escape(s));
    Wrap(QUOTE, Escape(s), QUOTE);
    WellFormedConcat([QUOTE], Escape(s));
    BytesConcat([QUOTE] + Escape(s), [QUOTE]);
  }

  lemma PrintedMemberBytes<N(!new)>(c: NumCodec<N>, e: (Text, Value<N>))
    requires Faithful(c)
    ensures Bytes(PrintMember(c, e)) == MemberSize(c, e)
  {
    QuoteIsWellFormed(e.0);
    QuoteBytes(e.0);
    AsciiBytes([COLON]);
    BytesConcat(QuoteText(e.0), [COLON]);
    WellFormedConcat(QuoteText(e.0), [COLON]);
    BytesConcat(QuoteText(e.0) + [COLON], Print(c, e.1));
  }

  lemma {:induction false} PrintedMembersBytes<N(!new)>(c: NumCodec<N>, es: seq<(Text, Value<N>)>)
    requires Faithful(c) && es != []
    ensures Bytes(PrintMembers(c, es)) + 1 == MembersSize(c, es)
  {
    PrintedMemberBytes(c, es[0]);
    if |es| > 1 {
      PrintedMembersBytes(c, es[1..]);
      PrintMemberIsWellFormed(c, es[0]);
      AsciiBytes([COMMA]);
      BytesConcat(PrintMember(c, es[0]), [COMMA]);
      WellFormedConcat(PrintMember(c, es[0]), [COMMA]);
      BytesConcat(PrintMember(c, es[0]) + [COMMA], PrintMembers(c, es[1..]));
    }
  }

  lemma ObjectBytes<N(!new)>(c: NumCodec<N>, es: seq<(Text, Value<N>)>)
    requires Faithful(c) && es != []
    ensures Size(c, Obj(es)) == MembersSize(c, es) + 1
  {
    PrintedMembersBytes(c, es);
    PrintMembersIsWellFormed(c, es);
    AsciiBytes([OPEN_OBJ]);
    AsciiBytes([CLOSE_OBJ]);
    BytesConcat([OPEN_OBJ], PrintMembers(c, es));
    WellFormedConcat([OPEN_OBJ], PrintMembers(c, es));
    BytesConcat([OPEN_OBJ] + PrintMembers(c, es), [CLOSE_OBJ]);
  }

  lemma {:induction false} MembersConcat<N>(c: NumCodec<N>, a: seq<(Text, Value<N>)>, b: seq<(Text, Value<N>)>)
    ensures MembersSize(c, a + b) == MembersSize(c, a) + MembersSize(c, b)
  {
    if a == [] {
      assert a + b == b;
    } else {
      assert (a + b)[1..] == a[1..] + b;
      MembersConcat(c, a[1..], b);
    }
  }

  lemma Concat3<N>(c: NumCodec<N>, x: seq<(Text, Value<N>)>, y: seq<(Text, Value<N>)>, z: seq<(Text, Value<N>)>)
    ensures MembersSize(c, x + y + z) == MembersSize(c, x) + MembersSize(c, y) + MembersSize(c, z)
  {
    MembersConcat(c, x, y);
    MembersConcat(c, x + y, z);
  }

  lemma OneMember<N>(c: NumCodec<N>, e: (Text, Value<N>))
    ensures MembersSize(c, [e]) == MemberSize(c, e) + 1
  {
  }

  /** A text field under a plain key. */
  lemma TextMember<N>(c: NumCodec<N>, key: Text, s: Text)
    requires IsPlain(key)
    ensures MembersSize(c, [(key, Str(s))]) == |key| + 6 + Bytes(Escape(s))
    ensures IsPlain(s) ==> Bytes(Escape(s)) == |s|
    ensures Bytes(Escape(s)) <= 6 * |s|
  {
    PlainEscape(key);
    QuoteBytes(s);
    OneMember(c, (key, Str(s)));
    EscapedBytes(s);
    if IsPlain(s) {
      PlainEscape(s);
    }
  }

  /** Any other field under a plain key. */
  lemma ValueMember<N>(c: NumCodec<N>, key: Text, v: Value<N>)
    requires IsPlain(key)
    ensures MembersSize(c, [(key, v)]) == |key| + 4 + Size(c, v)
  {
    PlainEscape(key);
    OneMember(c, (key, v));
  }

  lemma NumBytes<N(!new)>(c: NumCodec<N>, n: N)
    requires Faithful(c)
    ensures Size(c, Num(n)) == |c.write(n)|
  {
    assert NumText(c.write(n));
    AsciiBytes(c.write(n));
  }
}
