/** `canonicalizeJson` as it runs, one recursive pass, and the envelope digest over its output. */
module CanonicalPrinter {
  import opened Wrappers
  import opened JsonText
  import opened KeyOrder
  import opened JsonValue
  import opened CanonicalJson
  import Utf8

  function Join(parts: seq<Text>): Text {
    if parts == [] then []
    else if |parts| == 1 then parts[0]
    else parts[0] + [COMMA] + Join(parts[1..])
  }

  lemma {:induction false} JoinItems<N>(c: NumCodec<N>, items: seq<Value<N>>, parts: seq<Text>)
    requires |parts| == |items| && forall i :: 0 <= i < |parts| ==> parts[i] == Print(c, items[i])
    ensures Join(parts) == PrintItems(c, items)
  {
    if |parts| > 1 {
      JoinItems(c, items[1..], parts[1..]);
    }
  }

  lemma {:induction false} JoinMembers<N>(c: NumCodec<N>, es: seq<(Text, Value<N>)>, parts: seq<Text>)
    requires |parts| == |es| && forall i :: 0 <= i < |parts| ==> parts[i] == PrintMember(c, es[i])
    ensures Join(parts) == PrintMembers(c, es)
  {
    if |parts| > 1 {
      JoinMembers(c, es[1..], parts[1..]);
    }
  }

  // ---------------------------------------------------------------------------------------------
  // Sorting first or normalising the entries first makes no difference

  lemma {:induction false} InsertNormalized<N>(e: (Text, Value<N>), s: seq<(Text, Value<N>)>)
    ensures NormEntries(Insert(e, s)) == Insert(NormEntry(e), NormEntries(s))
  {
    if s == [] {
    } else if Less(e.0, s[0].0) {
      assert NormEntries([e] + s) == [NormEntry(e)] + NormEntries(s);
    } else {
      InsertNormalized(e, s[1..]);
      assert Insert(e, s) == [s[0]] + Insert(e, s[1..]);
      assert Insert(e, s)[1..] == Insert(e, s[1..]);
    }
  }

  lemma {:induction false} SortNormalized<N>(es: seq<(Text, Value<N>)>)
    ensures NormEntries(SortByKey(es)) == SortByKey(NormEntries(es))
  {
    if es != [] {
      SortNormalized(es[1..]);
      InsertNormalized(es[0], SortByKey(es[1..]));
      assert NormEntries(es)[1..] == NormEntries(es[1..]);
    }
  }

  // ---------------------------------------------------------------------------------------------
  // The printer

  /** The one-pass printer returns the canonical text, and fails exactly on unsupported values. */
  method Canonicalize<N>(c: NumCodec<N>, v: Value<N>) returns (r: Option<Text>)
    ensures r == Canonical(c, v)
    decreases v, 1
  {
    match v {
      case Null => return Some(NULL_TEXT);
      case Bool(b) => return Some(if b then TRUE_TEXT else FALSE_TEXT);
      case Num(n) => return Some(c.write(n));
      case Str(s) => return Some(QuoteText(s));
      case Arr(items) => r := CanonicalizeItems(c, items);
      case Obj(es) => r := CanonicalizeRecord(c, es);
      case Unsupported => return None;
    }
  }

  method CanonicalizeItems<N>(c: NumCodec<N>, items: seq<Value<N>>) returns (r: Option<Text>)
    ensures r == Canonical(c, Arr(items))
    decreases items, 0
  {
    var parts := [];
    for k := 0 to |items|
      invariant |parts| == k
      invariant forall i :: 0 <= i < k ==> Supported(items[i]) && parts[i] == Print(c, Norm(items[i]))
    {
      var part := Canonicalize(c, items[k]);
      if part.None? {
        return None;
      }
      parts := parts + [part.value];
    }
    JoinItems(c, NormItems(items), parts);
    return Some([OPEN_ARR] + Join(parts) + [CLOSE_ARR]);
  }

  lemma SupportedEntries<N>(es: seq<(Text, Value<N>)>)
    ensures Supported(Obj(es)) <==> forall i :: 0 <= i < |es| ==> Supported(SortByKeyAt(es, i).1)
  {
    var sorted := SortByKey(es);
    SortSize(es);
    if Supported(Obj(es)) {
      forall i | 0 <= i < |es| ensures Supported(SortByKeyAt(es, i).1) {
        SortMember(es, sorted[i]);
      }
    }
    if forall i :: 0 <= i < |es| ==> Supported(SortByKeyAt(es, i).1) {
      forall i | 0 <= i < |es| ensures Supported(es[i].1) {
        SortMember(es, es[i]);
        var k :| 0 <= k < |sorted| && sorted[k] == es[i];
        assert SortByKeyAt(es, k) == es[i];
      }
    }
  }

  /** The i-th entry in key order. */
  function SortByKeyAt<T>(es: seq<(Text, T)>, i: nat): (r: (Text, T))
    requires i < |es|
    ensures r in es
  {
    SortSize(es);
    SortMember(es, SortByKey(es)[i]);
    SortByKey(es)[i]
  }

  method CanonicalizeRecord<N>(c: NumCodec<N>, es: seq<(Text, Value<N>)>) returns (r: Option<Text>)
    ensures r == Canonical(c, Obj(es))
    decreases es, 0
  {
    SupportedEntries(es);
    SortSize(es);
    var parts := [];
    for k := 0 to |es|
      invariant |parts| == k
      invariant forall i :: 0 <= i < k ==> Supported(SortByKeyAt(es, i).1) && parts[i] == PrintMember(c, NormEntry(SortByKeyAt(es, i)))
    {
      var entry := SortByKeyAt(es, k);
      var part := Canonicalize(c, entry.1);
      if part.None? {
        return None;
      }
      parts := parts + [QuoteText(entry.0) + [COLON] + part.value];
    }
    SortNormalized(es);
    JoinMembers(c, NormEntries(SortByKey(es)), parts);
    return Some([OPEN_OBJ] + Join(parts) + [CLOSE_OBJ]);
  }

  // ---------------------------------------------------------------------------------------------
  // The envelope digest

  lemma Wrap(open: Unit, body: Text, close: Unit)
    requires !IsSurrogate(open) && !IsSurrogate(close) && WellFormed(body)
    ensures WellFormed([open] + body + [close])
  {
    PlainIsWellFormed([open]);
    PlainIsWellFormed([close]);
    WellFormedConcat([open], body);
    WellFormedConcat([open] + body, [close]);
  }

  lemma Separate(a: Text, u: Unit, b: Text)
    requires WellFormed(a) && !IsSurrogate(u) && WellFormed(b)
    ensures WellFormed(a + [u] + b)
  {
    PlainIsWellFormed([u]);
    WellFormedConcat(a, [u]);
    WellFormedConcat(a + [u], b);
  }

  /** Printed JSON has no lone surrogate, so its UTF-8 encoding loses nothing. */
  lemma {:induction false} PrintIsWellFormed<N(!new)>(c: NumCodec<N>, v: Value<N>)
    requires Faithful(c)
    ensures WellFormed(Print(c, v))
    decreases v, 1
  {
    match v
    case Num(n) =>
      assert NumText(c.write(n));
      PlainIsWellFormed(c.write(n));
    case Str(s) => QuoteIsWellFormed(s);
    case Arr(items) =>
      PrintItemsIsWellFormed(c, items);
      Wrap(OPEN_ARR, PrintItems(c, items), CLOSE_ARR);
    case Obj(es) =>
      PrintMembersIsWellFormed(c, es);
      Wrap(OPEN_OBJ, PrintMembers(c, es), CLOSE_OBJ);
    case _ => PlainIsWellFormed(Print(c, v));
  }

  lemma {:induction false} PrintItemsIsWellFormed<N(!new)>(c: NumCodec<N>, items: seq<Value<N>>)
    requires Faithful(c)
    ensures WellFormed(PrintItems(c, items))
    decreases items, 0
  {
    if items != [] {
      PrintIsWellFormed(c, items[0]);
      PrintItemsIsWellFormed(c, items[1..]);
      Separate(Print(c, items[0]), COMMA, PrintItems(c, items[1..]));
    }
  }

  lemma {:induction false} PrintMemberIsWellFormed<N(!new)>(c: NumCodec<N>, e: (Text, Value<N>))
    requires Faithful(c)
    ensures WellFormed(PrintMember(c, e))
    decreases e, 2
  {
    QuoteIsWellFormed(e.0);
    PrintIsWellFormed(c, e.1);
    Separate(QuoteText(e.0), COLON, Print(c, e.1));
  }

  lemma {:induction false} PrintMembersIsWellFormed<N(!new)>(c: NumCodec<N>, es: seq<(Text, Value<N>)>)
    requires Faithful(c)
    ensures WellFormed(PrintMembers(c, es))
    decreases es, 0
  {
    if es != [] {
      PrintMemberIsWellFormed(c, es[0]);
      PrintMembersIsWellFormed(c, es[1..]);
      Separate(PrintMember(c, es[0]), COMMA, PrintMembers(c, es[1..]));
    }
  }

  const DIGEST_PREFIX: Text := Ascii("envelope:sha256:")

  /** The bytes the hash is taken of. */
  function DigestInput<N>(c: NumCodec<N>, v: Value<N>): Option<Utf8.Bytes> {
    if Canonical(c, v).None? then None else Some(Utf8.Encode(Canonical(c, v).value))
  }

  function EnvelopeDigest<N>(c: NumCodec<N>, hexHash: Utf8.Bytes -> Text, v: Value<N>): Option<Text> {
    if DigestInput(c, v).None? then None else Some(DIGEST_PREFIX + hexHash(DigestInput(c, v).value))
  }

  /** As long as the hash does not collide on the two inputs, two envelopes have one digest exactly
      when they differ at most in the order of object keys. */
  lemma DigestDecidesSameness<N(!new)>(c: NumCodec<N>, hexHash: Utf8.Bytes -> Text, v: Value<N>, w: Value<N>)
    requires Faithful(c) && Supported(v) && Supported(w) && WellKeyed(v) && WellKeyed(w)
    requires var a, b := DigestInput(c, v).value, DigestInput(c, w).value; hexHash(a) == hexHash(b) ==> a == b
    ensures EnvelopeDigest(c, hexHash, v) == EnvelopeDigest(c, hexHash, w) <==> SameValue(v, w)
    ensures EnvelopeDigest(c, hexHash, v) == Some(Ascii("envelope:sha256:") + hexHash(Utf8.Encode(Print(c, Norm(v)))))
  {
    CanonicalDecidesSameness(c, v, w);
    var a, b := hexHash(DigestInput(c, v).value), hexHash(DigestInput(c, w).value);
    if DIGEST_PREFIX + a == DIGEST_PREFIX + b {
      assert (DIGEST_PREFIX + a)[|DIGEST_PREFIX|..] == a && (DIGEST_PREFIX + b)[|DIGEST_PREFIX|..] == b;
      PrintIsWellFormed(c, Norm(v));
      PrintIsWellFormed(c, Norm(w));
      Utf8.EncodeInjective(Canonical(c, v).value, Canonical(c, w).value);
    }
  }
}
