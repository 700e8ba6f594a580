/** Sorting object entries by the UTF-16 code unit order of their keys. */
module KeyOrder {
  import opened JsonText

  predicate Less(a: Text, b: Text) {
    b != [] && (a == [] || a[0] < b[0] || (a[0] == b[0] && Less(a[1..], b[1..])))
  }

  /** `i` is the length of the longest common prefix, and there `a` ends or has the smaller unit. */
  ghost predicate FirstDifference(a: Text, b: Text, i: nat) {
    && i <= |a| && i <= |b| && (forall k :: 0 <= k < i ==> a[k] == b[k])
    && i < |b| && (i == |a| || a[i] < b[i])
  }

  /** `a` comes before `b` in the order of UTF-16 code units. */
  ghost predicate Precedes(a: Text, b: Text) {
    exists i: nat :: FirstDifference(a, b, i)
  }

  /** The recursive comparison decides the order. */
  lemma {:induction false} LessIsPrecedes(a: Text, b: Text)
    ensures Less(a, b) <==> Precedes(a, b)
  {
    if b == [] || a == [] || a[0] != b[0] {
      if Less(a, b) {
        assert FirstDifference(a, b, 0);
      }
      if Precedes(a, b) {
        var i: nat :| FirstDifference(a, b, i);
        assert i == 0;
      }
    } else {
      LessIsPrecedes(a[1..], b[1..]);
      if Precedes(a[1..], b[1..]) {
        var i: nat :| FirstDifference(a[1..], b[1..], i);
        assert forall k :: 0 <= k < i + 1 ==> a[k] == b[k] by {
          assert forall k :: 1 <= k < i + 1 ==> a[k] == a[1..][k - 1] == b[1..][k - 1] == b[k];
        }
        assert FirstDifference(a, b, i + 1);
      }
      if Precedes(a, b) {
        var i: nat :| FirstDifference(a, b, i);
        assert i > 0;
        assert FirstDifference(a[1..], b[1..], i - 1);
      }
    }
  }

  lemma {:induction false} LessTransitive(a: Text, b: Text, c: Text)
    requires Less(a, b) && Less(b, c)
    ensures Less(a, c)
  {
    if a != [] && a[0] == b[0] == c[0] {
      LessTransitive(a[1..], b[1..], c[1..]);
    }
  }

  lemma {:induction false} LessTotal(a: Text, b: Text)
    ensures a == b || Less(a, b) || Less(b, a)
  {
    if a != [] && b != [] && a[0] == b[0] {
      LessTotal(a[1..], b[1..]);
      assert a == [a[0]] + a[1..] && b == [b[0]] + b[1..];
    }
  }

  lemma {:induction false} LessAsymmetric(a: Text, b: Text)
    requires Less(a, b)
    ensures !Less(b, a) && a != b
  {
    if a != [] && a[0] == b[0] {
      LessAsymmetric(a[1..], b[1..]);
    }
  }

  function Insert<T>(e: (Text, T), s: seq<(Text, T)>): seq<(Text, T)> {
    if s == [] || Less(e.0, s[0].0) then [e] + s else [s[0]] + Insert(e, s[1..])
  }

  function SortByKey<T>(s: seq<(Text, T)>): seq<(Text, T)> {
    if s == [] then [] else Insert(s[0], SortByKey(s[1..]))
  }

  ghost predicate DistinctKeys<T>(s: seq<(Text, T)>) {
    forall i, j :: 0 <= i < j < |s| ==> s[i].0 != s[j].0
  }

  ghost predicate SortedByLess<T>(s: seq<(Text, T)>) {
    forall i, j :: 0 <= i < j < |s| ==> Less(s[i].0, s[j].0)
  }

  lemma {:induction false} InsertMultiset<T>(e: (Text, T), s: seq<(Text, T)>)
    ensures multiset(Insert(e, s)) == multiset(s) + multiset{e}
  {
    if s != [] && !Less(e.0, s[0].0) {
      InsertMultiset(e, s[1..]);
      assert s == [s[0]] + s[1..];
    }
  }

  /** Sorting rearranges the entries and nothing else. */
  lemma {:induction false} SortMultiset<T>(s: seq<(Text, T)>)
    ensures multiset(SortByKey(s)) == multiset(s)
  {
    if s != [] {
      SortMultiset(s[1..]);
      InsertMultiset(s[0], SortByKey(s[1..]));
      assert s == [s[0]] + s[1..];
    }
  }

  lemma SortSize<T>(s: seq<(Text, T)>)
    ensures |SortByKey(s)| == |s|
  {
    SortMultiset(s);
    assert |multiset(SortByKey(s))| == |multiset(s)|;
  }

  lemma SortMember<T>(s: seq<(Text, T)>, e: (Text, T))
    ensures e in SortByKey(s) <==> e in s
  {
    SortMultiset(s);
    assert e in multiset(SortByKey(s)) <==> e in multiset(s);
  }

  lemma {:induction false} InsertSorted<T>(e: (Text, T), s: seq<(Text, T)>)
    requires SortedByLess(s) && forall i :: 0 <= i < |s| ==> s[i].0 != e.0
    ensures SortedByLess(Insert(e, s))
  {
    if s == [] {
    } else if Less(e.0, s[0].0) {
      forall j | 0 <= j < |s| ensures Less(e.0, s[j].0) {
        if j > 0 {
          LessTransitive(e.0, s[0].0, s[j].0);
        }
      }
    } else {
      LessTotal(e.0, s[0].0);
      InsertSorted(e, s[1..]);
      InsertMultiset(e, s[1..]);
      var r := Insert(e, s[1..]);
      forall j | 0 <= j < |r| ensures Less(s[0].0, r[j].0) {
        assert r[j] in multiset(r);
        assert r[j] == e || r[j] in s[1..];
      }
    }
  }

  lemma {:induction false} SortSortsByLess<T>(s: seq<(Text, T)>)
    requires DistinctKeys(s)
    ensures SortedByLess(SortByKey(s))
  {
    if s != [] {
      SortSortsByLess(s[1..]);
      var r := SortByKey(s[1..]);
      forall i | 0 <= i < |r| ensures r[i].0 != s[0].0 {
        SortMember(s[1..], r[i]);
        var j :| 0 <= j < |s[1..]| && s[1..][j] == r[i];
        assert s[1..][j] == s[j + 1];
      }
      InsertSorted(s[0], r);
    }
  }

  ghost predicate SameEntries<T>(a: seq<(Text, T)>, b: seq<(Text, T)>) {
    (forall e :: e in a ==> e in b) && (forall e :: e in b ==> e in a)
  }

  lemma BothNonEmpty<T>(a: seq<(Text, T)>, b: seq<(Text, T)>)
    requires SameEntries(a, b) && a != []
    ensures b != []
  {
    assert a[0] in b;
  }

  lemma {:induction false} UniqueByLess<T>(a: seq<(Text, T)>, b: seq<(Text, T)>)
    requires SortedByLess(a) && SortedByLess(b) && SameEntries(a, b)
    ensures a == b
  {
    if a != [] {
      BothNonEmpty(a, b);
    }
    if b != [] {
      BothNonEmpty(b, a);
      assert a[0] in b && b[0] in a;
      if a[0] != b[0] {
        var i :| 0 <= i < |b| && b[i] == a[0];
        var j :| 0 <= j < |a| && a[j] == b[0];
        LessAsymmetric(b[0].0, b[i].0);
      }
      forall e ensures e in a[1..] <==> e in b[1..] {
        TailMembers(a, e);
        TailMembers(b, e);
      }
      UniqueByLess(a[1..], b[1..]);
      assert a == [a[0]] + a[1..] && b == [b[0]] + b[1..];
    }
  }

  lemma TailMembers<T>(a: seq<(Text, T)>, e: (Text, T))
    requires SortedByLess(a) && a != []
    ensures e in a[1..] <==> e in a && e != a[0]
  {
    if e in a[1..] {
      var i :| 0 <= i < |a[1..]| && a[1..][i] == e;
      LessAsymmetric(a[0].0, a[i + 1].0);
    }
    assert a == [a[0]] + a[1..];
  }

  /** Strictly ascending in the order of code units. */
  ghost predicate Sorted<T>(s: seq<(Text, T)>) {
    forall i, j :: 0 <= i < j < |s| ==> Precedes(s[i].0, s[j].0)
  }

  lemma SortedMeans<T>(s: seq<(Text, T)>)
    ensures Sorted(s) <==> SortedByLess(s)
  {
    forall i, j | 0 <= i < j < |s| ensures Less(s[i].0, s[j].0) <==> Precedes(s[i].0, s[j].0) {
      LessIsPrecedes(s[i].0, s[j].0);
    }
  }

  /** Entries with distinct keys come out strictly ascending. */
  lemma SortSorts<T>(s: seq<(Text, T)>)
    requires DistinctKeys(s)
    ensures Sorted(SortByKey(s))
  {
    SortSortsByLess(s);
    SortedMeans(SortByKey(s));
  }

  /** Ascending sequences with the same entries are the same sequence. */
  lemma SortedUnique<T>(a: seq<(Text, T)>, b: seq<(Text, T)>)
    requires Sorted(a) && Sorted(b) && SameEntries(a, b)
    ensures a == b
  {
    SortedMeans(a);
    SortedMeans(b);
    UniqueByLess(a, b);
  }

  lemma SortedKeysDiffer<T>(s: seq<(Text, T)>)
    requires Sorted(s)
    ensures DistinctKeys(s)
  {
    SortedMeans(s);
    forall i, j | 0 <= i < j < |s| ensures s[i].0 != s[j].0 {
      LessAsymmetric(s[i].0, s[j].0);
    }
  }

  /** Sorting leaves an ascending sequence as it is. */
  lemma SortFixes<T>(s: seq<(Text, T)>)
    requires Sorted(s)
    ensures SortByKey(s) == s
  {
    SortedKeysDiffer(s);
    SortSorts(s);
    forall e | e in SortByKey(s) ensures e in s {
      SortMember(s, e);
    }
    forall e | e in s ensures e in SortByKey(s) {
      SortMember(s, e);
    }
    SortedUnique(SortByKey(s), s);
  }
}

/** The canonical JSON printer, a parser that inverts it, and what equal outputs mean. */
module CanonicalJson {
  import opened Wrappers
  import opened JsonValue
  import opened JsonText
  import opened KeyOrder

  type Value<N> = Json<Text, N>

  /** How finite numbers are written and read. */
  datatype NumCodec<!N> = NumCodec(write: N -> Text, read: Text -> Option<N>)

  const COMMA: Unit := 0x2C
  const COLON: Unit := 0x3A
  const OPEN_ARR: Unit := 0x5B
  const CLOSE_ARR: Unit := 0x5D
  const OPEN_OBJ: Unit := 0x7B
  const CLOSE_OBJ: Unit := 0x7D
  const NULL_TEXT: Text := [0x6E, 0x75, 0x6C, 0x6C]
  const TRUE_TEXT: Text := [0x74, 0x72, 0x75, 0x65]
  const FALSE_TEXT: Text := [0x66, 0x61, 0x6C, 0x73, 0x65]

  predicate IsNumUnit(u: Unit) {
    0x30 <= u <= 0x39 || u == 0x2D || u == 0x2B || u == 0x2E || u == 0x65 || u == 0x45
  }

  lemma NumUnits(u: Unit)
    ensures IsNumUnit(u) <==> u in Ascii("0123456789-+.eE")
  {
    assert Ascii("0123456789-+.eE") == [0x30, 0x31, 0x32, 0x33, 0x34, 0x35, 0x36, 0x37, 0x38, 0x39, 0x2D, 0x2B, 0x2E, 0x65, 0x45];
  }

  ghost predicate NumText(t: Text) {
    t != [] && forall i :: 0 <= i < |t| ==> IsNumUnit(t[i])
  }

  /** Numbers are written in digits, signs, points and exponents, and read back. */
  ghost predicate Faithful<N(!new)>(c: NumCodec<N>) {
    forall n :: NumText(c.write(n)) && c.read(c.write(n)) == Some(n)
  }

  predicate Supported<N>(v: Value<N>) {
    match v
    case Arr(items) => forall i :: 0 <= i < |items| ==> Supported(items[i])
    case Obj(es) => forall i :: 0 <= i < |es| ==> Supported(es[i].1)
    case Unsupported => false
    case _ => true
  }

  /** No object at any depth has two entries with one key. */
  ghost predicate WellKeyed<N>(v: Value<N>) {
    match v
    case Arr(items) => forall i :: 0 <= i < |items| ==> WellKeyed(items[i])
    case Obj(es) => DistinctKeys(es) && forall i :: 0 <= i < |es| ==> WellKeyed(es[i].1)
    case _ => true
  }

  // ---------------------------------------------------------------------------------------------
  // Printing in the order given

  function Print<N>(c: NumCodec<N>, v: Value<N>): Text
    decreases v, 1
  {
    match v
    case Null => NULL_TEXT
    case Bool(b) => if b then TRUE_TEXT else FALSE_TEXT
    case Num(n) => c.write(n)
    case Str(s) => QuoteText(s)
    case Arr(items) => [OPEN_ARR] + PrintItems(c, items) + [CLOSE_ARR]
    case Obj(es) => [OPEN_OBJ] + PrintMembers(c, es) + [CLOSE_OBJ]
    case Unsupported => []
  }

  function PrintItems<N>(c: NumCodec<N>, items: seq<Value<N>>): Text
    decreases items, 0
  {
    if items == [] then []
    else if |items| == 1 then Print(c, items[0])
    else Print(c, items[0]) + [COMMA] + PrintItems(c, items[1..])
  }

  function PrintMember<N>(c: NumCodec<N>, e: (Text, Value<N>)): Text
    decreases e, 2
  {
    QuoteText(e.0) + [COLON] + Print(c, e.1)
  }

  function PrintMembers<N>(c: NumCodec<N>, es: seq<(Text, Value<N>)>): Text
    decreases es, 0
  {
    if es == [] then []
    else if |es| == 1 then PrintMember(c, es[0])
    else PrintMember(c, es[0]) + [COMMA] + PrintMembers(c, es[1..])
  }

  // ---------------------------------------------------------------------------------------------
  // Parsing

  function SkipPrefix(t: Text, prefix: Text): Option<Text> {
    if prefix <= t then Some(t[|prefix|..]) else None
  }

  function NumLength(t: Text): (n: nat)
    ensures n <= |t|
  {
    if t == [] || !IsNumUnit(t[0]) then 0 else 1 + NumLength(t[1..])
  }

  function ParseValue<N>(c: NumCodec<N>, t: Text): (r: Option<(Value<N>, Text)>)
    ensures r.Some? ==> |r.value.1| < |t|
    decreases |t|, 0
  {
    if t == [] then None
    else if t[0] == QUOTE then
      var r := ParseChars(t[1..]);
      if r.None? then None else Some((Str(r.value.0), r.value.1))
    else if t[0] == OPEN_ARR then
      if |t| > 1 && t[1] == CLOSE_ARR then Some((Arr([]), t[2..]))
      else
        var r := ParseItems(c, t[1..]);
        if r.None? then None else Some((Arr(r.value.0), r.value.1))
    else if t[0] == OPEN_OBJ then
      if |t| > 1 && t[1] == CLOSE_OBJ then Some((Obj([]), t[2..]))
      else
        var r := ParseMembers(c, t[1..]);
        if r.None? then None else Some((Obj(r.value.0), r.value.1))
    else if IsNumUnit(t[0]) then
      var n := c.read(t[..NumLength(t)]);
      if n.None? then None else Some((Num(n.value), t[NumLength(t)..]))
    else if SkipPrefix(t, NULL_TEXT).Some? then Some((Null, t[4..]))
    else if SkipPrefix(t, TRUE_TEXT).Some? then Some((Bool(true), t[4..]))
    else if SkipPrefix(t, FALSE_TEXT).Some? then Some((Bool(false), t[5..]))
    else None
  }

  /** The items up to the closing bracket. */
  function ParseItems<N>(c: NumCodec<N>, t: Text): (r: Option<(seq<Value<N>>, Text)>)
    ensures r.Some? ==> |r.value.1| < |t|
    decreases |t|, 1
  {
    var first := ParseValue(c, t);
    if first.None? || first.value.1 == [] then None
    else if first.value.1[0] == CLOSE_ARR then Some(([first.value.0], first.value.1[1..]))
    else if first.value.1[0] != COMMA then None
    else
      var rest := ParseItems(c, first.value.1[1..]);
      if rest.None? then None else Some(([first.value.0] + rest.value.0, rest.value.1))
  }

  function ParseMember<N>(c: NumCodec<N>, t: Text): (r: Option<((Text, Value<N>), Text)>)
    ensures r.Some? ==> |r.value.1| < |t|
    decreases |t|, 1
  {
    if t == [] || t[0] != QUOTE then None
    else
      var key := ParseChars(t[1..]);
      if key.None? || key.value.1 == [] || key.value.1[0] != COLON then None
      else
        var v := ParseValue(c, key.value.1[1..]);
        if v.None? then None else Some(((key.value.0, v.value.0), v.value.1))
  }

  /** The members up to the closing brace. */
  function ParseMembers<N>(c: NumCodec<N>, t: Text): (r: Option<(seq<(Text, Value<N>)>, Text)>)
    ensures r.Some? ==> |r.value.1| < |t|
    decreases |t|, 2
  {
    var first := ParseMember(c, t);
    if first.None? || first.value.1 == [] then None
    else if first.value.1[0] == CLOSE_OBJ then Some(([first.value.0], first.value.1[1..]))
    else if first.value.1[0] != COMMA then None
    else
      var rest := ParseMembers(c, first.value.1[1..]);
      if rest.None? then None else Some(([first.value.0] + rest.value.0, rest.value.1))
  }

  function Parse<N>(c: NumCodec<N>, t: Text): Option<Value<N>> {
    var r := ParseValue(c, t);
    if r.Some? && r.value.1 == [] then Some(r.value.0) else None
  }

  // ---------------------------------------------------------------------------------------------
  // The parser inverts the printer

  lemma PrintStarts<N(!new)>(c: NumCodec<N>, v: Value<N>)
    requires Faithful(c) && Supported(v)
    ensures Print(c, v) != [] && Print(c, v)[0] != CLOSE_ARR && Print(c, v)[0] != CLOSE_OBJ
  {
    if v.Num? {
      assert NumText(c.write(v.n));
      assert IsNumUnit(c.write(v.n)[0]);
    }
  }

  lemma {:induction false} NumLengthOf(t: Text, rest: Text)
    requires forall i :: 0 <= i < |t| ==> IsNumUnit(t[i])
    requires rest == [] || !IsNumUnit(rest[0])
    ensures NumLength(t + rest) == |t|
  {
    if t == [] {
      assert t + rest == rest;
    } else {
      assert (t + rest)[1..] == t[1..] + rest;
      NumLengthOf(t[1..], rest);
    }
  }

  lemma ParsePrintedNum<N(!new)>(c: NumCodec<N>, n: N, rest: Text)
    requires Faithful(c) && (rest == [] || !IsNumUnit(rest[0]))
    ensures ParseValue(c, c.write(n) + rest) == Some((Num(n), rest))
  {
    var t := c.write(n);
    assert NumText(t) && c.read(t) == Some(n);
    assert IsNumUnit(t[0]) && (t + rest)[0] == t[0];
    NumLengthOf(t, rest);
    assert (t + rest)[..|t|] == t && (t + rest)[|t|..] == rest;
  }

  lemma ParsePrintedText<N>(c: NumCodec<N>, s: Text, rest: Text)
    ensures ParseValue(c, QuoteText(s) + rest) == Some((Str(s), rest))
  {
    var t := QuoteText(s) + rest;
    assert t[1..] == Escape(s) + ([QUOTE] + rest);
    ParseEscaped(s, rest);
  }

  lemma ParsePrintedWord<N>(c: NumCodec<N>, v: Value<N>, rest: Text)
    requires v.Null? || v.Bool?
    ensures ParseValue(c, Print(c, v) + rest) == Some((v, rest))
  {
    var w := Print(c, v);
    var t := w + rest;
    assert w <= t && t[|w|..] == rest;
    assert t[0] == w[0] && t[1] == w[1];
  }

  lemma ParsePrintedEmpty<N>(c: NumCodec<N>, v: Value<N>, rest: Text)
    requires v == Arr([]) || v == Obj([])
    ensures ParseValue(c, Print(c, v) + rest) == Some((v, rest))
  {
    var w := if v.Arr? then [OPEN_ARR, CLOSE_ARR] else [OPEN_OBJ, CLOSE_OBJ];
    assert Print(c, v) == w;
    assert (w + rest)[2..] == rest;
  }

  lemma ParseWrappedItems<N(!new)>(c: NumCodec<N>, items: seq<Value<N>>, rest: Text)
    requires Faithful(c) && items != [] && Supported(items[0])
    requires ParseItems(c, PrintItems(c, items) + ([CLOSE_ARR] + rest)) == Some((items, rest))
    ensures ParseValue(c, Print(c, Arr(items)) + rest) == Some((Arr(items), rest))
  {
    var t := Print(c, Arr(items)) + rest;
    assert t[1..] == PrintItems(c, items) + ([CLOSE_ARR] + rest);
    PrintItemsStart(c, items);
    assert t[1] == PrintItems(c, items)[0];
  }

  lemma ParseWrappedMembers<N>(c: NumCodec<N>, es: seq<(Text, Value<N>)>, rest: Text)
    requires es != [] && ParseMembers(c, PrintMembers(c, es) + ([CLOSE_OBJ] + rest)) == Some((es, rest))
    ensures ParseValue(c, Print(c, Obj(es)) + rest) == Some((Obj(es), rest))
  {
    var t := Print(c, Obj(es)) + rest;
    assert t[1..] == PrintMembers(c, es) + ([CLOSE_OBJ] + rest);
    assert t[1] == PrintMembers(c, es)[0] == QUOTE;
  }

  lemma {:induction false} ParsePrinted<N(!new)>(c: NumCodec<N>, v: Value<N>, rest: Text)
    requires Faithful(c) && Supported(v) && (rest == [] || !IsNumUnit(rest[0]))
    ensures ParseValue(c, Print(c, v) + rest) == Some((v, rest))
    decreases v, 1
  {
    match v
    case Num(n) => ParsePrintedNum(c, n, rest);
    case Str(s) => ParsePrintedText(c, s, rest);
    case Arr(items) =>
      if items == [] {
        ParsePrintedEmpty(c, v, rest);
      } else {
        ParsePrintedItems(c, items, rest);
        ParseWrappedItems(c, items, rest);
      }
    case Obj(es) =>
      if es == [] {
        ParsePrintedEmpty(c, v, rest);
      } else {
        ParsePrintedMembers(c, es, rest);
        ParseWrappedMembers(c, es, rest);
      }
    case _ => ParsePrintedWord(c, v, rest);
  }

  lemma PrintItemsStart<N(!new)>(c: NumCodec<N>, items: seq<Value<N>>)
    requires Faithful(c) && items != [] && Supported(items[0])
    ensures PrintItems(c, items) != [] && PrintItems(c, items)[0] != CLOSE_ARR
  {
    PrintStarts(c, items[0]);
  }

  lemma {:induction false} ParsePrintedItems<N(!new)>(c: NumCodec<N>, items: seq<Value<N>>, rest: Text)
    requires Faithful(c) && items != [] && forall i :: 0 <= i < |items| ==> Supported(items[i])
    ensures ParseItems(c, PrintItems(c, items) + ([CLOSE_ARR] + rest)) == Some((items, rest))
    decreases items, 0
  {
    var tail := [CLOSE_ARR] + rest;
    if |items| == 1 {
      ParsePrinted(c, items[0], tail);
      assert tail[1..] == rest && [items[0]] == items;
    } else {
      var more := PrintItems(c, items[1..]) + tail;
      assert PrintItems(c, items) + tail == Print(c, items[0]) + ([COMMA] + more);
      ParsePrinted(c, items[0], [COMMA] + more);
      assert ([COMMA] + more)[1..] == more;
      ParsePrintedItems(c, items[1..], rest);
      assert [items[0]] + items[1..] == items;
    }
  }

  lemma RegroupMember(key: Text, value: Text, rest: Text)
    ensures [QUOTE] + key + [QUOTE] + [COLON] + value + rest == [QUOTE] + (key + ([QUOTE] + ([COLON] + (value + rest))))
  {
  }

  lemma MemberKey<N>(c: NumCodec<N>, e: (Text, Value<N>), rest: Text, value: Text)
    requires value == Print(c, e.1) + rest
    ensures var t := PrintMember(c, e) + rest;
            t != [] && t[0] == QUOTE && t[1..] == Escape(e.0) + ([QUOTE] + ([COLON] + value))
  {
    RegroupMember(Escape(e.0), Print(c, e.1), rest);
  }

  lemma {:induction false} ParsePrintedMember<N(!new)>(c: NumCodec<N>, e: (Text, Value<N>), rest: Text)
    requires Faithful(c) && Supported(e.1) && (rest == [] || !IsNumUnit(rest[0]))
    ensures ParseMember(c, PrintMember(c, e) + rest) == Some((e, rest))
    decreases e, 2
  {
    var value := Print(c, e.1) + rest;
    MemberKey(c, e, rest, value);
    ParseEscaped(e.0, [COLON] + value);
    assert ([COLON] + value)[1..] == value;
    ParsePrinted(c, e.1, rest);
  }

  lemma {:induction false} ParsePrintedMembers<N(!new)>(c: NumCodec<N>, es: seq<(Text, Value<N>)>, rest: Text)
    requires Faithful(c) && es != [] && forall i :: 0 <= i < |es| ==> Supported(es[i].1)
    ensures ParseMembers(c, PrintMembers(c, es) + ([CLOSE_OBJ] + rest)) == Some((es, rest))
    decreases es, 0
  {
    var tail := [CLOSE_OBJ] + rest;
    if |es| == 1 {
      ParsePrintedMember(c, es[0], tail);
      assert tail[1..] == rest && [es[0]] == es;
    } else {
      var more := PrintMembers(c, es[1..]) + tail;
      assert PrintMembers(c, es) + tail == PrintMember(c, es[0]) + ([COMMA] + more);
      ParsePrintedMember(c, es[0], [COMMA] + more);
      assert ([COMMA] + more)[1..] == more;
      ParsePrintedMembers(c, es[1..], rest);
      assert [es[0]] + es[1..] == es;
    }
  }

  // ---------------------------------------------------------------------------------------------
  // The canonical form

  /** The value with the entries of every object sorted by key. */
  function Norm<N>(v: Value<N>): Value<N>
    decreases v, 1
  {
    match v
    case Arr(items) => Arr(NormItems(items))
    case Obj(es) => Obj(SortByKey(NormEntries(es)))
    case _ => v
  }

  function NormItems<N>(items: seq<Value<N>>): (r: seq<Value<N>>)
    ensures |r| == |items| && forall i :: 0 <= i < |r| ==> r[i] == Norm(items[i])
    decreases items, 0
  {
    if items == [] then [] else [Norm(items[0])] + NormItems(items[1..])
  }

  function NormEntry<N>(e: (Text, Value<N>)): (Text, Value<N>)
    decreases e, 2
  {
    (e.0, Norm(e.1))
  }

  function NormEntries<N>(es: seq<(Text, Value<N>)>): (r: seq<(Text, Value<N>)>)
    ensures |r| == |es| && forall i :: 0 <= i < |r| ==> r[i] == NormEntry(es[i])
    decreases es, 0
  {
    if es == [] then [] else [NormEntry(es[0])] + NormEntries(es[1..])
  }

  /** The characters around and between the parts of a value. */
  lemma PrintedForms<N>(c: NumCodec<N>, s: Text, v: Value<N>, w: Value<N>, k: Text, l: Text)
    ensures Print(c, Null) == Ascii("null") && Print(c, Bool(true)) == Ascii("true") && Print(c, Bool(false)) == Ascii("false")
    ensures Print(c, Str(s)) == [0x22] + Escape(s) + [0x22]
    ensures Print(c, Arr([])) == [0x5B, 0x5D] && Print(c, Obj([])) == [0x7B, 0x7D]
    ensures Print(c, Arr([v, w])) == [0x5B] + (Print(c, v) + [0x2C] + Print(c, w)) + [0x5D]
    ensures Print(c, Obj([(k, v), (l, w)])) ==
            [0x7B] + (PrintMember(c, (k, v)) + [0x2C] + PrintMember(c, (l, w))) + [0x7D]
    ensures PrintMember(c, (k, v)) == Print(c, Str(k)) + [0x3A] + Print(c, v)
  {
    assert [v, w][1..] == [w] && [(k, v), (l, w)][1..] == [(l, w)];
    assert PrintItems(c, [v, w]) == Print(c, v) + [COMMA] + PrintItems(c, [w]);
    assert PrintMembers(c, [(k, v), (l, w)]) == PrintMember(c, (k, v)) + [COMMA] + PrintMembers(c, [(l, w)]);
  }

  /** What the printer returns, said in two passes: sort everywhere, then print in order. */
  function Canonical<N>(c: NumCodec<N>, v: Value<N>): Option<Text> {
    if Supported(v) then Some(Print(c, Norm(v))) else None
  }

  lemma {:induction false} NormSupported<N>(v: Value<N>)
    requires Supported(v)
    ensures Supported(Norm(v))
    decreases v
  {
    match v
    case Arr(items) =>
      forall i | 0 <= i < |items| ensures Supported(Norm(items[i])) {
        NormSupported(items[i]);
      }
    case Obj(es) =>
      var ns := NormEntries(es);
      var sorted := SortByKey(ns);
      forall k | 0 <= k < |sorted| ensures Supported(sorted[k].1) {
        SortMember(ns, sorted[k]);
        var i :| 0 <= i < |ns| && ns[i] == sorted[k];
        NormSupported(es[i].1);
      }
    case _ =>
  }

  /** Parsing a canonical text gives the value with its keys sorted. */
  lemma ParserInvertsPrinter<N(!new)>(c: NumCodec<N>, v: Value<N>)
    requires Faithful(c) && Supported(v)
    ensures Parse(c, Canonical(c, v).value) == Some(Norm(v))
  {
    NormSupported(v);
    ParsePrinted(c, Norm(v), []);
    assert Print(c, Norm(v)) + [] == Print(c, Norm(v));
  }

  // ---------------------------------------------------------------------------------------------
  // Sameness up to key order

  /** The values differ at most in the order of object keys, at any depth. */
  ghost predicate SameValue<N>(v: Value<N>, w: Value<N>)
    decreases v
  {
    match (v, w)
    case (Arr(a), Arr(b)) => |a| == |b| && forall i :: 0 <= i < |a| ==> SameValue(a[i], b[i])
    case (Obj(a), Obj(b)) =>
      |a| == |b| && forall i :: 0 <= i < |a| ==> exists j :: 0 <= j < |b| && a[i].0 == b[j].0 && SameValue(a[i].1, b[j].1)
    case _ => v == w
  }

  lemma {:induction false} SameNorm<N>(v: Value<N>, w: Value<N>)
    requires WellKeyed(v) && WellKeyed(w) && Norm(v) == Norm(w)
    ensures SameValue(v, w)
    decreases v
  {
    if v.Arr? {
      forall i | 0 <= i < |v.items| ensures SameValue(v.items[i], w.items[i]) {
        assert NormItems(v.items)[i] == NormItems(w.items)[i];
        SameNorm(v.items[i], w.items[i]);
      }
    } else if v.Obj? {
      var a, b := v.entries, w.entries;
      forall i | 0 <= i < |a| ensures exists j :: 0 <= j < |b| && a[i].0 == b[j].0 && SameValue(a[i].1, b[j].1) {
        var j := Partner(a, b, i);
        SameNorm(a[i].1, b[j].1);
      }
      SameSize(a, b);
    }
  }

  /** The entry of `b` that became the same entry of the common normal form. */
  lemma Partner<N>(a: seq<(Text, Value<N>)>, b: seq<(Text, Value<N>)>, i: nat) returns (j: nat)
    requires Norm(Obj(a)) == Norm(Obj(b)) && i < |a|
    ensures j < |b| && NormEntry(b[j]) == NormEntry(a[i])
  {
    var na, nb := NormEntries(a), NormEntries(b);
    assert na[i] in na;
    SortMember(na, na[i]);
    SortMember(nb, na[i]);
    j :| 0 <= j < |nb| && nb[j] == na[i];
  }

  lemma SameSize<N>(a: seq<(Text, Value<N>)>, b: seq<(Text, Value<N>)>)
    requires Norm(Obj(a)) == Norm(Obj(b))
    ensures |a| == |b|
  {
    SortSize(NormEntries(a));
    SortSize(NormEntries(b));
  }

  function Keys<T>(s: seq<(Text, T)>): set<Text> {
    set i | 0 <= i < |s| :: s[i].0
  }

  lemma {:induction false} KeyCount<T>(s: seq<(Text, T)>)
    requires DistinctKeys(s)
    ensures |Keys(s)| == |s|
  {
    if s != [] {
      var front, last := s[..|s| - 1], s[|s| - 1];
      KeyCount(front);
      assert Keys(s) == Keys(front) + {last.0} by {
        assert forall i :: 0 <= i < |front| ==> front[i] == s[i];
      }
      assert last.0 !in Keys(front);
    }
  }

  lemma SubsetOfEqualSize(a: set<Text>, b: set<Text>)
    requires a <= b && |a| == |b|
    ensures a == b
  {
    assert |b - a| == 0;
  }

  /** Some entry of `b` normalises to the same entry. */
  ghost predicate Matched<N>(e: (Text, Value<N>), b: seq<(Text, Value<N>)>) {
    exists j :: 0 <= j < |b| && NormEntry(b[j]) == NormEntry(e)
  }

  /** Entries that match from left to right also match from right to left. */
  lemma MatchBack<N>(a: seq<(Text, Value<N>)>, b: seq<(Text, Value<N>)>, j: nat)
    requires DistinctKeys(a) && DistinctKeys(b) && |a| == |b| && j < |b|
    requires forall i :: 0 <= i < |a| ==> Matched(a[i], b)
    ensures Matched(b[j], a)
  {
    KeyCount(a);
    KeyCount(b);
    forall k | k in Keys(a) ensures k in Keys(b) {
      var i :| 0 <= i < |a| && a[i].0 == k;
      assert Matched(a[i], b);
    }
    SubsetOfEqualSize(Keys(a), Keys(b));
    assert b[j].0 in Keys(a);
    var i :| 0 <= i < |a| && a[i].0 == b[j].0;
    assert Matched(a[i], b);
    var m :| 0 <= m < |b| && NormEntry(b[m]) == NormEntry(a[i]);
    assert m == j;
  }

  lemma NormEntriesDistinct<N>(es: seq<(Text, Value<N>)>)
    requires DistinctKeys(es)
    ensures DistinctKeys(NormEntries(es))
  {
  }

  /** Two objects with the same normalised entries have one normal form. */
  lemma NormOfSameEntries<N>(a: seq<(Text, Value<N>)>, b: seq<(Text, Value<N>)>)
    requires DistinctKeys(a) && DistinctKeys(b) && SameEntries(NormEntries(a), NormEntries(b))
    ensures Norm(Obj(a)) == Norm(Obj(b))
  {
    var na, nb := NormEntries(a), NormEntries(b);
    NormEntriesDistinct(a);
    NormEntriesDistinct(b);
    SortSorts(na);
    SortSorts(nb);
    var sa, sb := SortByKey(na), SortByKey(nb);
    forall e | e in sa ensures e in sb {
      SortMember(na, e);
      SortMember(nb, e);
    }
    forall e | e in sb ensures e in sa {
      SortMember(na, e);
      SortMember(nb, e);
    }
    SortedUnique(sa, sb);
  }

  lemma MatchedMember<N>(a: seq<(Text, Value<N>)>, b: seq<(Text, Value<N>)>, e: (Text, Value<N>))
    requires e in NormEntries(a) && forall i :: 0 <= i < |a| ==> Matched(a[i], b)
    ensures e in NormEntries(b)
  {
    var na := NormEntries(a);
    var i :| 0 <= i < |na| && na[i] == e;
    assert Matched(a[i], b);
    var j :| 0 <= j < |b| && NormEntry(b[j]) == NormEntry(a[i]);
    assert NormEntries(b)[j] == e;
  }

  lemma NormOfMatched<N>(a: seq<(Text, Value<N>)>, b: seq<(Text, Value<N>)>)
    requires DistinctKeys(a) && DistinctKeys(b) && |a| == |b|
    requires forall i :: 0 <= i < |a| ==> Matched(a[i], b)
    ensures Norm(Obj(a)) == Norm(Obj(b))
  {
    forall j | 0 <= j < |b| ensures Matched(b[j], a) {
      MatchBack(a, b, j);
    }
    forall e | e in NormEntries(a) ensures e in NormEntries(b) {
      MatchedMember(a, b, e);
    }
    forall e | e in NormEntries(b) ensures e in NormEntries(a) {
      MatchedMember(b, a, e);
    }
    NormOfSameEntries(a, b);
  }

  lemma {:induction false} NormSame<N>(v: Value<N>, w: Value<N>)
    requires WellKeyed(v) && WellKeyed(w) && SameValue(v, w)
    ensures Norm(v) == Norm(w)
    decreases v
  {
    if v.Arr? && w.Arr? {
      forall i | 0 <= i < |v.items| ensures NormItems(v.items)[i] == NormItems(w.items)[i] {
        NormSame(v.items[i], w.items[i]);
      }
      assert NormItems(v.items) == NormItems(w.items);
    } else if v.Obj? && w.Obj? {
      var a, b := v.entries, w.entries;
      forall i | 0 <= i < |a| ensures Matched(a[i], b) {
        var j :| 0 <= j < |b| && a[i].0 == b[j].0 && SameValue(a[i].1, b[j].1);
        NormSame(a[i].1, b[j].1);
        assert NormEntry(b[j]) == NormEntry(a[i]);
      }
      NormOfMatched(a, b);
    }
  }

  // ---------------------------------------------------------------------------------------------
  // The value with sorted keys

  /** The keys of every object at any depth ascend in the order of their code units. */
  ghost predicate Ordered<N>(v: Value<N>) {
    match v
    case Arr(items) => forall i :: 0 <= i < |items| ==> Ordered(items[i])
    case Obj(es) => Sorted(es) && forall i :: 0 <= i < |es| ==> Ordered(es[i].1)
    case _ => true
  }

  lemma {:induction false} NormIsOrdered<N>(v: Value<N>)
    requires WellKeyed(v)
    ensures Ordered(Norm(v))
    decreases v
  {
    match v
    case Arr(items) =>
      forall i | 0 <= i < |items| ensures Ordered(NormItems(items)[i]) {
        NormIsOrdered(items[i]);
      }
    case Obj(es) =>
      var ns := NormEntries(es);
      NormEntriesDistinct(es);
      SortSorts(ns);
      var sorted := SortByKey(ns);
      forall k | 0 <= k < |sorted| ensures Ordered(sorted[k].1) {
        SortMember(ns, sorted[k]);
        var i :| 0 <= i < |ns| && ns[i] == sorted[k];
        NormIsOrdered(es[i].1);
      }
    case _ =>
  }

  lemma {:induction false} OrderedIsNormal<N>(v: Value<N>)
    requires Ordered(v)
    ensures WellKeyed(v) && Norm(v) == v
    decreases v
  {
    match v
    case Arr(items) =>
      forall i | 0 <= i < |items| ensures WellKeyed(items[i]) && NormItems(items)[i] == items[i] {
        OrderedIsNormal(items[i]);
      }
      assert NormItems(items) == items;
    case Obj(es) =>
      forall i | 0 <= i < |es| ensures WellKeyed(es[i].1) && NormEntry(es[i]) == es[i] {
        OrderedIsNormal(es[i].1);
      }
      assert NormEntries(es) == es;
      SortFixes(es);
      SortedKeysDiffer(es);
    case _ =>
  }

  /** Normalising gives the one value that is the same up to key order and has its keys ascending, by
      code units, in every object at any depth. */
  lemma NormMeans<N>(v: Value<N>, w: Value<N>)
    requires WellKeyed(v)
    ensures w == Norm(v) <==> Ordered(w) && SameValue(v, w)
  {
    NormIsOrdered(v);
    OrderedIsNormal(Norm(v));
    SameNorm(v, Norm(v));
    if Ordered(w) && SameValue(v, w) {
      OrderedIsNormal(w);
      NormSame(v, w);
    }
  }

  /** Two supported values have the same canonical text exactly when they differ at most in the
      order of object keys. */
  lemma CanonicalDecidesSameness<N(!new)>(c: NumCodec<N>, v: Value<N>, w: Value<N>)
    requires Faithful(c) && Supported(v) && Supported(w) && WellKeyed(v) && WellKeyed(w)
    ensures Canonical(c, v) == Canonical(c, w) <==> SameValue(v, w)
  {
    if SameValue(v, w) {
      NormSame(v, w);
    }
    if Canonical(c, v) == Canonical(c, w) {
      ParserInvertsPrinter(c, v);
      ParserInvertsPrinter(c, w);
      SameNorm(v, w);
    }
  }
}
