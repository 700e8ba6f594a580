/** Structured redaction of finite trees. */
module TreeRedaction {
  import opened Wrappers
  import opened JsonText
  import opened RedactionKeys

  /** `Other` is a primitive passed through: undefined, a function, a symbol, a big integer.
      `Exotic` is an object that is not plain, `BackEdge` a reference to an object being visited. */
  datatype Tree<N> =
    | Null
    | Bool(b: bool)
    | Num(n: N)
    | Str(s: Text)
    | Other
    | Items(items: seq<Tree<N>>)
    | Record(entries: seq<(Text, Tree<N>)>)
    | Exotic
    | BackEdge

  datatype Location = Ordinary | AuthMethods | AuthMethod

  /** Text redaction, which throws when it cannot remove every secret. */
  type TextRedactor = Text -> Option<Text>

  const CREDENTIAL: Text := Ascii("[REDACTED:CREDENTIAL]")
  const SENSITIVE_CONTENT: Text := Ascii("[REDACTED:SENSITIVE_CONTENT]")
  const META: Text := Ascii("_meta")
  const ENV: Text := Ascii("env")
  const TYPE: Text := Ascii("type")
  const TERMINAL: Text := Ascii("terminal")
  const AUTH_METHODS: Text := Ascii("authMethods")

  predicate IsIdentityValue<N>(t: Tree<N>) {
    t.Str? || t.Num? || t.Null?
  }

  /** The value is returned as it is. */
  predicate Kept<N>(key: Option<Text>, t: Tree<N>) {
    key.Some? && IsIdentityKey(key.value) && IsIdentityValue(t)
  }

  predicate Hidden(key: Option<Text>) {
    key.Some? && IsSensitiveKey(key.value)
  }

  predicate IsTerminal<N>(es: seq<(Text, Tree<N>)>) {
    exists i :: 0 <= i < |es| && es[i].0 == TYPE && es[i].1 == Str(TERMINAL)
  }

  predicate Dropped(terminal: bool, key: Text) {
    key == META || (terminal && key == ENV)
  }

  function ItemLocation(l: Location): Location {
    if l == AuthMethods then AuthMethod else Ordinary
  }

  function EntryLocation(acp: bool, key: Text): Location {
    if acp && key == AUTH_METHODS then AuthMethods else Ordinary
  }

  function Redact<N>(f: TextRedactor, acp: bool, key: Option<Text>, l: Location, t: Tree<N>): Option<Tree<N>>
    decreases t, 1
  {
    if Kept(key, t) then Some(t)
    else if Hidden(key) then Some(Str(CREDENTIAL))
    else
      match t
      case Str(s) => RedactText(f, s)
      case Items(ts) =>
        var r := RedactItems(f, acp, ItemLocation(l), ts);
        if r.None? then None else Some(Items(r.value))
      case Record(es) =>
        var r := RedactEntries(f, acp, acp && l == AuthMethod && IsTerminal(es), es);
        if r.None? then None else Some(Record(r.value))
      case Exotic => Some(Str(SENSITIVE_CONTENT))
      case BackEdge => Some(Str(SENSITIVE_CONTENT))
      case _ => Some(t)
  }

  function RedactText<N>(f: TextRedactor, s: Text): Option<Tree<N>> {
    var r := f(s);
    if r.None? then None else Some(Str(r.value))
  }

  function RedactItems<N>(f: TextRedactor, acp: bool, l: Location, ts: seq<Tree<N>>): Option<seq<Tree<N>>>
    decreases ts, 0
  {
    if ts == [] then Some([])
    else
      var head, rest := Redact(f, acp, None, l, ts[0]), RedactItems(f, acp, l, ts[1..]);
      if head.None? || rest.None? then None else Some([head.value] + rest.value)
  }

  function RedactEntry<N>(f: TextRedactor, acp: bool, e: (Text, Tree<N>)): Option<Tree<N>>
    decreases e, 2
  {
    Redact(f, acp, Some(e.0), EntryLocation(acp, e.0), e.1)
  }

  function RedactEntries<N>(f: TextRedactor, acp: bool, terminal: bool, es: seq<(Text, Tree<N>)>): Option<seq<(Text, Tree<N>)>>
    decreases es, 0
  {
    if es == [] then Some([])
    else
      var rest := RedactEntries(f, acp, terminal, es[1..]);
      if Dropped(terminal, es[0].0) then rest
      else
        var head := RedactEntry(f, acp, es[0]);
        if head.None? || rest.None? then None else Some([(es[0].0, head.value)] + rest.value)
  }

  // ---------------------------------------------------------------------------------------------
  // What an output holds

  /** The positions, from `from` on, of the entries that stay in the object. */
  function StayAt<N>(terminal: bool, es: seq<(Text, Tree<N>)>, from: nat): (at: seq<nat>)
    requires from <= |es|
    ensures forall k :: 0 <= k < |at| ==> from <= at[k] < |es|
    decreases |es| - from
  {
    if from == |es| then []
    else
      var rest := StayAt(terminal, es, from + 1);
      if es[from].0 == Ascii("_meta") || (terminal && es[from].0 == Ascii("env")) then rest else [from] + rest
  }

  /** The object is a terminal auth method: an item of a list that a protocol payload has under
      "authMethods", with the type "terminal". */
  ghost predicate IsTerminalMethod<N>(acp: bool, l: Location, es: seq<(Text, Tree<N>)>) {
    acp && l.AuthMethod? && exists i :: 0 <= i < |es| && es[i].0 == Ascii("type") && es[i].1 == Tree.Str(Ascii("terminal"))
  }

  /** `out` is `t` redacted: identity values stay, credentials become the marker, texts go through the
      text redactor, dropped entries are left out and everything else keeps its place and value. */
  ghost predicate IsRedacted<N>(f: TextRedactor, acp: bool, key: Option<Text>, l: Location, t: Tree<N>, out: Tree<N>)
    decreases t, 1
  {
    if key.Some? && NamesIdentity(key.value) && (t.Str? || t.Num? || t.Null?) then out == t
    else if key.Some? && NamesCredential(key.value) then out == Str(Ascii("[REDACTED:CREDENTIAL]"))
    else
      match t
      case Str(s) => out.Str? && f(s) == Some(out.s)
      case Items(ts) => out.Items? && AreRedacted(f, acp, if l.AuthMethods? then AuthMethod else Ordinary, ts, out.items)
      case Record(es) => out.Record? && EntriesRedacted(f, acp, es, StayAt(IsTerminalMethod(acp, l, es), es, 0), out.entries)
      case Exotic => out == Str(Ascii("[REDACTED:SENSITIVE_CONTENT]"))
      case BackEdge => out == Str(Ascii("[REDACTED:SENSITIVE_CONTENT]"))
      case _ => out == t
  }

  ghost predicate AreRedacted<N>(f: TextRedactor, acp: bool, l: Location, ts: seq<Tree<N>>, out: seq<Tree<N>>)
    decreases ts, 0
  {
    |out| == |ts| && forall i :: 0 <= i < |ts| ==> IsRedacted(f, acp, None, l, ts[i], out[i])
  }

  ghost predicate EntriesRedacted<N>(f: TextRedactor, acp: bool, es: seq<(Text, Tree<N>)>, at: seq<nat>, out: seq<(Text, Tree<N>)>)
    requires forall k :: 0 <= k < |at| ==> at[k] < |es|
    decreases es, 0
  {
    && |out| == |at|
    && forall k :: 0 <= k < |at| ==> out[k].0 == es[at[k]].0 && EntryRedacted(f, acp, es[at[k]], out[k].1)
  }

  ghost predicate EntryRedacted<N>(f: TextRedactor, acp: bool, e: (Text, Tree<N>), out: Tree<N>)
    decreases e, 2
  {
    IsRedacted(f, acp, Some(e.0), if acp && e.0 == Ascii("authMethods") then AuthMethods else Ordinary, e.1, out)
  }

  lemma {:induction false} ItemsMean<N>(f: TextRedactor, acp: bool, l: Location, ts: seq<Tree<N>>, out: seq<Tree<N>>)
    ensures RedactItems(f, acp, l, ts) == Some(out) <==>
            |out| == |ts| && forall i :: 0 <= i < |ts| ==> Redact(f, acp, None, l, ts[i]) == Some(out[i])
  {
    if ts != [] {
      if out != [] {
        ItemsMean(f, acp, l, ts[1..], out[1..]);
        assert out == [out[0]] + out[1..];
      }
    }
  }

  /** Each output entry is a redacted input entry that stays. */
  ghost predicate EntriesFrom<N>(f: TextRedactor, acp: bool, es: seq<(Text, Tree<N>)>, at: seq<nat>, out: seq<(Text, Tree<N>)>)
    requires forall k :: 0 <= k < |at| ==> at[k] < |es|
  {
    |out| == |at| && forall k :: 0 <= k < |at| ==> out[k].0 == es[at[k]].0 && RedactEntry(f, acp, es[at[k]]) == Some(out[k].1)
  }

  lemma {:induction false} EntriesMean<N>(f: TextRedactor, acp: bool, terminal: bool, es: seq<(Text, Tree<N>)>, from: nat, out: seq<(Text, Tree<N>)>)
    requires from <= |es|
    ensures RedactEntries(f, acp, terminal, es[from..]) == Some(out) <==> EntriesFrom(f, acp, es, StayAt(terminal, es, from), out)
    decreases |es| - from
  {
    if from < |es| {
      assert es[from..][1..] == es[from + 1..];
      if Dropped(terminal, es[from].0) {
        EntriesMean(f, acp, terminal, es, from + 1, out);
      } else if out != [] {
        EntriesMean(f, acp, terminal, es, from + 1, out[1..]);
        EntriesPrepend(f, acp, es, from, StayAt(terminal, es, from + 1), out);
        assert out == [(out[0].0, out[0].1)] + out[1..];
      }
    }
  }

  lemma EntriesPrepend<N>(f: TextRedactor, acp: bool, es: seq<(Text, Tree<N>)>, i: nat, at: seq<nat>, out: seq<(Text, Tree<N>)>)
    requires i < |es| && out != [] && forall k :: 0 <= k < |at| ==> at[k] < |es|
    ensures EntriesFrom(f, acp, es, [i] + at, out) <==>
            out[0].0 == es[i].0 && RedactEntry(f, acp, es[i]) == Some(out[0].1) && EntriesFrom(f, acp, es, at, out[1..])
  {
    if EntriesFrom(f, acp, es, [i] + at, out) {
      forall k | 0 <= k < |at|
        ensures out[1..][k].0 == es[at[k]].0 && RedactEntry(f, acp, es[at[k]]) == Some(out[1..][k].1)
      {
        assert ([i] + at)[k + 1] == at[k] && out[k + 1] == out[1..][k];
      }
    }
  }

  lemma {:induction false} RedactItemsMeans<N>(f: TextRedactor, acp: bool, l: Location, ts: seq<Tree<N>>, out: seq<Tree<N>>)
    ensures RedactItems(f, acp, l, ts) == Some(out) <==> AreRedacted(f, acp, l, ts, out)
    decreases ts, 0
  {
    ItemsMean(f, acp, l, ts, out);
    if |out| == |ts| {
      forall i | 0 <= i < |ts| ensures Redact(f, acp, None, l, ts[i]) == Some(out[i]) <==> IsRedacted(f, acp, None, l, ts[i], out[i]) {
        RedactMeans(f, acp, None, l, ts[i], out[i]);
      }
    }
  }

  lemma {:induction false} RedactEntriesMeans<N>(f: TextRedactor, acp: bool, terminal: bool, es: seq<(Text, Tree<N>)>, out: seq<(Text, Tree<N>)>)
    ensures RedactEntries(f, acp, terminal, es) == Some(out) <==> EntriesRedacted(f, acp, es, StayAt(terminal, es, 0), out)
    decreases es, 0
  {
    var at := StayAt(terminal, es, 0);
    assert es[0..] == es;
    EntriesMean(f, acp, terminal, es, 0, out);
    if |out| == |at| {
      forall k | 0 <= k < |at|
        ensures RedactEntry(f, acp, es[at[k]]) == Some(out[k].1) <==> EntryRedacted(f, acp, es[at[k]], out[k].1)
      {
        RedactEntryMeans(f, acp, es[at[k]], out[k].1);
      }
    }
  }

  lemma {:induction false} RedactEntryMeans<N>(f: TextRedactor, acp: bool, e: (Text, Tree<N>), out: Tree<N>)
    ensures RedactEntry(f, acp, e) == Some(out) <==> EntryRedacted(f, acp, e, out)
    decreases e, 2
  {
    RedactMeans(f, acp, Some(e.0), EntryLocation(acp, e.0), e.1, out);
  }

  /** Values that are no array or record, and values under a special key. */
  lemma LeafMeans<N>(f: TextRedactor, acp: bool, key: Option<Text>, l: Location, t: Tree<N>, out: Tree<N>)
    requires Kept(key, t) || Hidden(key) || (!t.Items? && !t.Record?)
    ensures Redact(f, acp, key, l, t) == Some(out) <==> IsRedacted(f, acp, key, l, t, out)
  {
    if key.Some? {
      IdentityMeans(key.value);
      SensitiveMeans(key.value);
    }
  }

  lemma OrdinaryKey<N>(key: Option<Text>, t: Tree<N>)
    requires !Kept(key, t) && !Hidden(key) && (t.Items? || t.Record?)
    ensures key.Some? ==> !NamesCredential(key.value)
  {
    if key.Some? {
      SensitiveMeans(key.value);
    }
  }

  /** Redaction returns exactly what the redacted value has to be, and fails only where there is none. */
  lemma {:induction false} RedactMeans<N>(f: TextRedactor, acp: bool, key: Option<Text>, l: Location, t: Tree<N>, out: Tree<N>)
    ensures Redact(f, acp, key, l, t) == Some(out) <==> IsRedacted(f, acp, key, l, t, out)
    decreases t, 1
  {
    if Kept(key, t) || Hidden(key) || (!t.Items? && !t.Record?) {
      LeafMeans(f, acp, key, l, t, out);
    } else {
      OrdinaryKey(key, t);
      if t.Items? && out.Items? {
        RedactItemsMeans(f, acp, ItemLocation(l), t.items, out.items);
      } else if t.Record? && out.Record? {
        RedactEntriesMeans(f, acp, acp && l == AuthMethod && IsTerminal(t.entries), t.entries, out.entries);
      }
    }
  }

  // ---------------------------------------------------------------------------------------------
  // What an output never holds

  /** No object holds `_meta`, a sensitive key holds only the marker, no object reference is left
      unexpanded, and a terminal auth method has no environment. */
  ghost predicate Safe<N>(acp: bool, l: Location, t: Tree<N>)
    decreases t
  {
    match t
    case Items(ts) => forall i :: 0 <= i < |ts| ==> Safe(acp, ItemLocation(l), ts[i])
    case Record(es) =>
      && (forall i :: 0 <= i < |es| ==> SafeKey(es[i].0, es[i].1) && Safe(acp, EntryLocation(acp, es[i].0), es[i].1))
      && (acp && l == AuthMethod && IsTerminal(es) ==> forall i :: 0 <= i < |es| ==> es[i].0 != ENV)
    case Exotic => false
    case BackEdge => false
    case _ => true
  }

  ghost predicate SafeKey<N>(key: Text, t: Tree<N>) {
    key != META && (NamesCredential(key) ==> t == Str(CREDENTIAL))
  }

  /** The word "terminal" is no redaction of anything else. */
  ghost predicate TerminalIsOriginal(f: TextRedactor) {
    forall s :: f(s) == Some(TERMINAL) ==> s == TERMINAL
  }

  lemma TypeIsOrdinary()
    ensures !IsIdentityKey(TYPE) && !IsSensitiveKey(TYPE)
  {
    assert NormalizedKey(TYPE) == TYPE by {
      var t := TYPE;
      assert t[1..][1..][1..][1..] == [];
      assert NormalizedKey(t[1..][1..][1..]) == t[1..][1..][1..];
      assert NormalizedKey(t[1..][1..]) == t[1..][1..];
      assert NormalizedKey(t[1..]) == t[1..];
    }
    if IsIdentityKey(TYPE) {
      IdentityKeysEndInId(TYPE);
    }
    assert forall i :: 0 <= i < |SENSITIVE_ENDINGS| ==> |SENSITIVE_ENDINGS[i]| > |TYPE|;
  }

  /** Each output entry comes from an input entry with its key, dropped keys excepted. */
  lemma {:induction false} EntryOrigin<N>(f: TextRedactor, acp: bool, terminal: bool, es: seq<(Text, Tree<N>)>, k: nat) returns (i: nat)
    requires RedactEntries(f, acp, terminal, es).Some? && k < |RedactEntries(f, acp, terminal, es).value|
    ensures i < |es| && es[i].0 == RedactEntries(f, acp, terminal, es).value[k].0 && !Dropped(terminal, es[i].0)
    ensures RedactEntry(f, acp, es[i]) == Some(RedactEntries(f, acp, terminal, es).value[k].1)
  {
    if Dropped(terminal, es[0].0) {
      i := EntryOrigin(f, acp, terminal, es[1..], k);
      i := i + 1;
    } else if k == 0 {
      i := 0;
    } else {
      i := EntryOrigin(f, acp, terminal, es[1..], k - 1);
      i := i + 1;
    }
  }

  lemma {:induction false} ItemOrigin<N>(f: TextRedactor, acp: bool, l: Location, ts: seq<Tree<N>>)
    requires RedactItems(f, acp, l, ts).Some?
    ensures var r := RedactItems(f, acp, l, ts).value;
            |r| == |ts| && forall i :: 0 <= i < |ts| ==> Redact(f, acp, None, l, ts[i]) == Some(r[i])
  {
    if ts != [] {
      ItemOrigin(f, acp, l, ts[1..]);
    }
  }

  lemma TerminalOrigin<N>(f: TextRedactor, acp: bool, terminal: bool, es: seq<(Text, Tree<N>)>)
    requires TerminalIsOriginal(f) && RedactEntries(f, acp, terminal, es).Some?
    requires IsTerminal(RedactEntries(f, acp, terminal, es).value)
    ensures IsTerminal(es)
  {
    var out := RedactEntries(f, acp, terminal, es).value;
    var k :| 0 <= k < |out| && out[k].0 == TYPE && out[k].1 == Str(TERMINAL);
    var i := EntryOrigin(f, acp, terminal, es, k);
    TypeIsOrdinary();
    MarkersAreNotTerminal();
    assert RedactEntry(f, acp, es[i]) == Some(Str(TERMINAL));
    assert es[i].1 == Str(TERMINAL);
  }

  lemma MarkersAreNotTerminal()
    ensures CREDENTIAL != TERMINAL && SENSITIVE_CONTENT != TERMINAL && CREDENTIAL != SENSITIVE_CONTENT
  {
    assert |CREDENTIAL| != |TERMINAL| && |SENSITIVE_CONTENT| != |TERMINAL|;
  }

  /** Every output is safe. */
  lemma {:induction false} OutputIsSafe<N>(f: TextRedactor, acp: bool, key: Option<Text>, l: Location, t: Tree<N>)
    requires TerminalIsOriginal(f) && Redact(f, acp, key, l, t).Some?
    ensures Safe(acp, l, Redact(f, acp, key, l, t).value)
    ensures Hidden(key) ==> Redact(f, acp, key, l, t).value == Str(CREDENTIAL)
    decreases t, 1
  {
    if Hidden(key) && IsIdentityKey(key.value) {
      IdentityIsNotSensitive(key.value);
    }
    if Kept(key, t) || Hidden(key) {
    } else if t.Items? {
      ItemOrigin(f, acp, ItemLocation(l), t.items);
      forall i | 0 <= i < |t.items| ensures Safe(acp, ItemLocation(l), Redact(f, acp, None, ItemLocation(l), t.items[i]).value) {
        OutputIsSafe(f, acp, None, ItemLocation(l), t.items[i]);
      }
    } else if t.Record? {
      RecordIsSafe(f, acp, l, t);
    }
  }

  lemma {:induction false} RecordIsSafe<N>(f: TextRedactor, acp: bool, l: Location, t: Tree<N>)
    requires t.Record? && TerminalIsOriginal(f) && RedactEntries(f, acp, acp && l == AuthMethod && IsTerminal(t.entries), t.entries).Some?
    ensures Safe(acp, l, Record(RedactEntries(f, acp, acp && l == AuthMethod && IsTerminal(t.entries), t.entries).value))
    decreases t, 0
  {
    var es := t.entries;
    var terminal := acp && l == AuthMethod && IsTerminal(es);
    var out := RedactEntries(f, acp, terminal, es).value;
    forall k | 0 <= k < |out|
      ensures SafeKey(out[k].0, out[k].1) && Safe(acp, EntryLocation(acp, out[k].0), out[k].1)
      ensures terminal ==> out[k].0 != ENV
    {
      var i := EntryOrigin(f, acp, terminal, es, k);
      var e := es[i];
      OutputIsSafe(f, acp, Some(e.0), EntryLocation(acp, e.0), e.1);
      SensitiveMeans(e.0);
    }
    if acp && l == AuthMethod && IsTerminal(out) {
      TerminalOrigin(f, acp, terminal, es);
    }
  }

  // ---------------------------------------------------------------------------------------------
  // What text an output holds

  /** The text is a marker or what the text redactor made of some text. */
  ghost predicate RedactedText(f: TextRedactor, s: Text) {
    s == CREDENTIAL || s == SENSITIVE_CONTENT || exists original :: f(original) == Some(s)
  }

  /** Every string at any depth is redacted text, except right under a protocol identity key. */
  ghost predicate Clean<N>(f: TextRedactor, key: Option<Text>, t: Tree<N>)
    decreases t
  {
    match t
    case Str(s) => (key.Some? && NamesIdentity(key.value)) || RedactedText(f, s)
    case Items(ts) => forall i :: 0 <= i < |ts| ==> Clean(f, None, ts[i])
    case Record(es) => forall i :: 0 <= i < |es| ==> Clean(f, Some(es[i].0), es[i].1)
    case _ => true
  }

  /** Every string of an output is a marker, an output of the text redactor, or an identity value under
      an identity key. */
  lemma {:induction false} OutputIsClean<N>(f: TextRedactor, acp: bool, key: Option<Text>, l: Location, t: Tree<N>)
    requires Redact(f, acp, key, l, t).Some?
    ensures Clean(f, key, Redact(f, acp, key, l, t).value)
    decreases t
  {
    if key.Some? {
      IdentityMeans(key.value);
    }
    if Kept(key, t) || Hidden(key) {
    } else if t.Str? {
      assert f(t.s) == Some(f(t.s).value);
    } else if t.Items? {
      var at := ItemLocation(l);
      ItemOrigin(f, acp, at, t.items);
      forall i | 0 <= i < |t.items| ensures Clean(f, None, Redact(f, acp, None, at, t.items[i]).value) {
        OutputIsClean(f, acp, None, at, t.items[i]);
      }
    } else if t.Record? {
      var terminal := acp && l == AuthMethod && IsTerminal(t.entries);
      var out := RedactEntries(f, acp, terminal, t.entries).value;
      forall k | 0 <= k < |out| ensures Clean(f, Some(out[k].0), out[k].1) {
        var i := EntryOrigin(f, acp, terminal, t.entries, k);
        var e := t.entries[i];
        OutputIsClean(f, acp, Some(e.0), EntryLocation(acp, e.0), e.1);
      }
    }
  }

  // ---------------------------------------------------------------------------------------------
  // Redacting twice

  /** Text redaction leaves its own outputs and the markers alone. */
  ghost predicate Settles(f: TextRedactor) {
    && (forall s :: f(s).Some? ==> f(f(s).value) == f(s))
    && f(CREDENTIAL) == Some(CREDENTIAL) && f(SENSITIVE_CONTENT) == Some(SENSITIVE_CONTENT)
  }

  lemma {:induction false} FixedItems<N>(f: TextRedactor, acp: bool, l: Location, ts: seq<Tree<N>>)
    requires forall i :: 0 <= i < |ts| ==> Redact(f, acp, None, l, ts[i]) == Some(ts[i])
    ensures RedactItems(f, acp, l, ts) == Some(ts)
  {
    if ts != [] {
      FixedItems(f, acp, l, ts[1..]);
      assert ts == [ts[0]] + ts[1..];
    }
  }

  lemma {:induction false} FixedEntries<N>(f: TextRedactor, acp: bool, terminal: bool, es: seq<(Text, Tree<N>)>)
    requires forall i :: 0 <= i < |es| ==> !Dropped(terminal, es[i].0) && RedactEntry(f, acp, es[i]) == Some(es[i].1)
    ensures RedactEntries(f, acp, terminal, es) == Some(es)
  {
    if es != [] {
      FixedEntries(f, acp, terminal, es[1..]);
      assert es == [(es[0].0, es[0].1)] + es[1..];
    }
  }

  /** A redacted value is not changed by another redaction. */
  lemma {:induction false} RedactTwice<N>(f: TextRedactor, acp: bool, key: Option<Text>, l: Location, t: Tree<N>)
    requires TerminalIsOriginal(f) && Settles(f) && Redact(f, acp, key, l, t).Some?
    ensures Redact(f, acp, key, l, Redact(f, acp, key, l, t).value) == Redact(f, acp, key, l, t)
    decreases t, 1
  {
    if Kept(key, t) || Hidden(key) {
    } else if t.Items? {
      var at := ItemLocation(l);
      ItemOrigin(f, acp, at, t.items);
      var out := RedactItems(f, acp, at, t.items).value;
      forall i | 0 <= i < |out| ensures Redact(f, acp, None, at, out[i]) == Some(out[i]) {
        RedactTwice(f, acp, None, at, t.items[i]);
      }
      FixedItems(f, acp, at, out);
    } else if t.Record? {
      RecordTwice(f, acp, l, t);
    }
  }

  lemma {:induction false} RecordTwice<N>(f: TextRedactor, acp: bool, l: Location, t: Tree<N>)
    requires t.Record? && TerminalIsOriginal(f) && Settles(f)
    requires RedactEntries(f, acp, acp && l == AuthMethod && IsTerminal(t.entries), t.entries).Some?
    ensures var out := RedactEntries(f, acp, acp && l == AuthMethod && IsTerminal(t.entries), t.entries).value;
            RedactEntries(f, acp, acp && l == AuthMethod && IsTerminal(out), out) == Some(out)
    decreases t, 0
  {
    var es := t.entries;
    var terminal := acp && l == AuthMethod && IsTerminal(es);
    var out := RedactEntries(f, acp, terminal, es).value;
    var again := acp && l == AuthMethod && IsTerminal(out);
    if again {
      TerminalOrigin(f, acp, terminal, es);
    }
    forall k | 0 <= k < |out| ensures !Dropped(again, out[k].0) && RedactEntry(f, acp, out[k]) == Some(out[k].1) {
      var i := EntryOrigin(f, acp, terminal, es, k);
      var e := es[i];
      RedactTwice(f, acp, Some(e.0), EntryLocation(acp, e.0), e.1);
    }
    FixedEntries(f, acp, again, out);
  }
}

/** Object graphs, shared and cyclic ones included. */
module ObjectGraph {
  import opened JsonText
  import opened TreeRedaction

  type Id = nat

  datatype Value<N> = Null | Bool(b: bool) | Num(n: N) | Str(s: Text) | Other | Ref(id: Id)

  datatype Node<N> = ArrayNode(items: seq<Value<N>>) | RecordNode(entries: seq<(Text, Value<N>)>) | ExoticNode

  type Heap<N> = map<Id, Node<N>>

  /** An identifier outside the heap denotes no plain object. */
  function At<N>(h: Heap<N>, id: Id): Node<N> {
    if id in h then h[id] else ExoticNode
  }

  /** How many objects may still become ancestors. */
  function Unvisited<N>(h: Heap<N>, ancestors: set<Id>): nat {
    |h.Keys - ancestors|
  }

  lemma FewerUnvisited<N>(h: Heap<N>, ancestors: set<Id>, id: Id)
    requires id in h && id !in ancestors
    ensures Unvisited(h, ancestors + {id}) < Unvisited(h, ancestors)
  {
    assert h.Keys - (ancestors + {id}) == h.Keys - ancestors - {id};
  }

  /** The tree seen from a value when references to objects on the path are cut. */
  function Cut<N>(h: Heap<N>, ancestors: set<Id>, v: Value<N>): Tree<N>
    decreases Unvisited(h, ancestors), 0, 0
  {
    match v
    case Null => Tree.Null
    case Bool(b) => Tree.Bool(b)
    case Num(n) => Tree.Num(n)
    case Str(s) => Tree.Str(s)
    case Other => Tree.Other
    case Ref(id) =>
      if At(h, id).ExoticNode? then Exotic
      else if id in ancestors then BackEdge
      else
        FewerUnvisited(h, ancestors, id);
        if h[id].ArrayNode? then Items(CutItems(h, ancestors + {id}, h[id].items))
        else Record(CutEntries(h, ancestors + {id}, h[id].entries))
  }

  function CutItems<N>(h: Heap<N>, ancestors: set<Id>, vs: seq<Value<N>>): (r: seq<Tree<N>>)
    ensures |r| == |vs| && forall i :: 0 <= i < |vs| ==> r[i] == Cut(h, ancestors, vs[i])
    decreases Unvisited(h, ancestors), 1, |vs|
  {
    if vs == [] then [] else [Cut(h, ancestors, vs[0])] + CutItems(h, ancestors, vs[1..])
  }

  function CutEntries<N>(h: Heap<N>, ancestors: set<Id>, es: seq<(Text, Value<N>)>): (r: seq<(Text, Tree<N>)>)
    ensures |r| == |es| && forall i :: 0 <= i < |es| ==> r[i] == (es[i].0, Cut(h, ancestors, es[i].1))
    decreases Unvisited(h, ancestors), 1, |es|
  {
    if es == [] then [] else [(es[0].0, Cut(h, ancestors, es[0].1))] + CutEntries(h, ancestors, es[1..])
  }

  // ---------------------------------------------------------------------------------------------
  // Unfolding

  /** The finite tree is the full unfolding of the value: every occurrence of an object is expanded. */
  ghost predicate Unfolds<N>(h: Heap<N>, v: Value<N>, t: Tree<N>)
    decreases t
  {
    match v
    case Null => t == Tree.Null
    case Bool(b) => t == Tree.Bool(b)
    case Num(n) => t == Tree.Num(n)
    case Str(s) => t == Tree.Str(s)
    case Other => t == Tree.Other
    case Ref(id) =>
      match At(h, id)
      case ExoticNode => t == Exotic
      case ArrayNode(vs) => t.Items? && |t.items| == |vs| && forall i :: 0 <= i < |vs| ==> Unfolds(h, vs[i], t.items[i])
      case RecordNode(es) =>
        && t.Record? && |t.entries| == |es|
        && forall i :: 0 <= i < |es| ==> t.entries[i].0 == es[i].0 && Unfolds(h, es[i].1, t.entries[i].1)
  }

  ghost predicate NoBackEdge<N>(t: Tree<N>) {
    match t
    case Items(ts) => forall i :: 0 <= i < |ts| ==> NoBackEdge(ts[i])
    case Record(es) => forall i :: 0 <= i < |es| ==> NoBackEdge(es[i].1)
    case BackEdge => false
    case _ => true
  }

  /** A value has at most one unfolding. */
  lemma {:induction false} UnfoldingIsUnique<N>(h: Heap<N>, v: Value<N>, t: Tree<N>, u: Tree<N>)
    requires Unfolds(h, v, t) && Unfolds(h, v, u)
    ensures t == u
    decreases t
  {
    if t.Items? {
      forall i | 0 <= i < |t.items| ensures t.items[i] == u.items[i] {
        UnfoldingIsUnique(h, At(h, v.id).items[i], t.items[i], u.items[i]);
      }
    } else if t.Record? {
      forall i | 0 <= i < |t.entries| ensures t.entries[i] == u.entries[i] {
        UnfoldingIsUnique(h, At(h, v.id).entries[i].1, t.entries[i].1, u.entries[i].1);
      }
    }
  }

  /** The unfolding of every ancestor is strictly larger than this tree. */
  ghost predicate Below<N(!new)>(h: Heap<N>, ancestors: set<Id>, t: Tree<N>) {
    forall a :: a in ancestors ==> exists u :: Unfolds(h, Ref(a), u) && Larger(u, t)
  }

  function Size<N>(t: Tree<N>): nat
    decreases t, 1
  {
    match t
    case Items(ts) => 1 + SizeOfItems(ts)
    case Record(es) => 1 + SizeOfEntries(es)
    case _ => 1
  }

  function SizeOfItems<N>(ts: seq<Tree<N>>): (n: nat)
    ensures forall i :: 0 <= i < |ts| ==> Size(ts[i]) <= n
    decreases ts, 0
  {
    if ts == [] then 0 else Size(ts[0]) + SizeOfItems(ts[1..])
  }

  function SizeOfEntry<N>(e: (Text, Tree<N>)): nat
    decreases e, 2
  {
    Size(e.1)
  }

  function SizeOfEntries<N>(es: seq<(Text, Tree<N>)>): (n: nat)
    ensures forall i :: 0 <= i < |es| ==> SizeOfEntry(es[i]) <= n
    decreases es, 0
  {
    if es == [] then 0 else SizeOfEntry(es[0]) + SizeOfEntries(es[1..])
  }

  predicate Larger<N>(u: Tree<N>, t: Tree<N>) {
    Size(u) > Size(t)
  }

  /** Children stay below the ancestors and below their parent. */
  lemma BelowChild<N(!new)>(h: Heap<N>, ancestors: set<Id>, id: Id, t: Tree<N>, child: Tree<N>)
    requires Below(h, ancestors, t) && Unfolds(h, Ref(id), t) && Larger(t, child)
    ensures Below(h, ancestors + {id}, child)
  {
    forall a | a in ancestors + {id} ensures exists u :: Unfolds(h, Ref(a), u) && Larger(u, child) {
      if a == id {
      } else {
        var u :| Unfolds(h, Ref(a), u) && Larger(u, t);
        assert Larger(u, child);
      }
    }
  }

  /** Where an unfolding exists, nothing is cut. */
  lemma {:induction false} UnfoldingIsCut<N(!new)>(h: Heap<N>, ancestors: set<Id>, v: Value<N>, t: Tree<N>)
    requires Unfolds(h, v, t) && Below(h, ancestors, t)
    ensures Cut(h, ancestors, v) == t && NoBackEdge(t)
    decreases t
  {
    if v.Ref? {
      var id := v.id;
      if id in ancestors {
        var u :| Unfolds(h, Ref(id), u) && Larger(u, t);
        UnfoldingIsUnique(h, v, t, u);
      }
      if At(h, id).ArrayNode? {
        var inner := ancestors + {id};
        forall i | 0 <= i < |t.items| ensures Cut(h, inner, h[id].items[i]) == t.items[i] && NoBackEdge(t.items[i]) {
          BelowChild(h, ancestors, id, t, t.items[i]);
          UnfoldingIsCut(h, inner, h[id].items[i], t.items[i]);
        }
        assert CutItems(h, inner, h[id].items) == t.items;
      } else if At(h, id).RecordNode? {
        var inner := ancestors + {id};
        forall i | 0 <= i < |t.entries| ensures Cut(h, inner, h[id].entries[i].1) == t.entries[i].1 && NoBackEdge(t.entries[i].1) {
          BelowChild(h, ancestors, id, t, t.entries[i].1);
          UnfoldingIsCut(h, inner, h[id].entries[i].1, t.entries[i].1);
        }
        assert CutEntries(h, inner, h[id].entries) == t.entries;
      }
    }
  }

  /** Where nothing is cut, the tree is the unfolding. */
  lemma {:induction false} CutIsUnfolding<N>(h: Heap<N>, ancestors: set<Id>, v: Value<N>)
    requires NoBackEdge(Cut(h, ancestors, v))
    ensures Unfolds(h, v, Cut(h, ancestors, v))
    decreases Unvisited(h, ancestors)
  {
    if v.Ref? && v.id in h {
      var id := v.id;
      var inner := ancestors + {id};
      if id !in ancestors {
        FewerUnvisited(h, ancestors, id);
      }
      if h[id].ArrayNode? {
        forall i | 0 <= i < |h[id].items| ensures Unfolds(h, h[id].items[i], Cut(h, inner, h[id].items[i])) {
          assert CutItems(h, inner, h[id].items)[i] == Cut(h, inner, h[id].items[i]);
          CutIsUnfolding(h, inner, h[id].items[i]);
        }
      } else if h[id].RecordNode? {
        forall i | 0 <= i < |h[id].entries| ensures Unfolds(h, h[id].entries[i].1, Cut(h, inner, h[id].entries[i].1)) {
          assert CutEntries(h, inner, h[id].entries)[i].1 == Cut(h, inner, h[id].entries[i].1);
          CutIsUnfolding(h, inner, h[id].entries[i].1);
        }
      }
    }
  }

  /** A finite unfolding exists exactly when no reference closes a cycle. */
  lemma UnfoldsExactlyWhenUncut<N(!new)>(h: Heap<N>, v: Value<N>)
    ensures (exists t :: Unfolds(h, v, t)) <==> NoBackEdge(Cut(h, {}, v))
  {
    if exists t :: Unfolds(h, v, t) {
      var t :| Unfolds(h, v, t);
      UnfoldingIsCut(h, {}, v, t);
    }
    if NoBackEdge(Cut(h, {}, v)) {
      CutIsUnfolding(h, {}, v);
      assert Unfolds(h, v, Cut(h, {}, v));
    }
  }
}
