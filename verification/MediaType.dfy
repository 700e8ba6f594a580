/** Artifact media types: grammar, a deterministic parser and the canonical form. */
module MediaType {
  import opened Wrappers
  import opened JsonText

  const SLASH: Unit := 0x2F
  const SEMICOLON: Unit := 0x3B
  const EQUALS: Unit := 0x3D
  const SPACE: Unit := 0x20
  const MAX_LENGTH: nat := 255

  predicate IsTokenUnit(u: Unit) {
    0x41 <= u <= 0x5A || 0x61 <= u <= 0x7A || 0x30 <= u <= 0x39 || u == 0x21 || 0x23 <= u <= 0x27 || u == 0x2A || u == 0x2B ||
    u == 0x2D || u == 0x2E || u == 0x5E || u == 0x5F || u == 0x60 || u == 0x7C || u == 0x7E
  }

  predicate IsSpaceUnit(u: Unit) {
    u == 0x20 || u == 0x09
  }

  predicate IsVisible(u: Unit) {
    u == 0x09 || 0x20 <= u <= 0x7E
  }

  predicate IsToken(t: Text) {
    t != [] && forall i :: 0 <= i < |t| ==> IsTokenUnit(t[i])
  }

  predicate IsSpaces(t: Text) {
    forall i :: 0 <= i < |t| ==> IsSpaceUnit(t[i])
  }

  /** How far the rest of a quoted string reaches, its closing quote included. */
  function QuotedLength(t: Text): (r: Option<nat>)
    ensures r.Some? ==> 1 <= r.value <= |t|
  {
    if t == [] then None
    else if t[0] == QUOTE then Some(1)
    else if t[0] == BACKSLASH then
      if |t| < 2 || !IsVisible(t[1]) then None else Longer(2, QuotedLength(t[2..]))
    else if IsVisible(t[0]) then Longer(1, QuotedLength(t[1..]))
    else None
  }

  function Longer(n: nat, r: Option<nat>): Option<nat> {
    if r.None? then None else Some(n + r.value)
  }

  predicate IsQuoted(t: Text) {
    t != [] && t[0] == QUOTE && QuotedLength(t[1..]) == Some(|t| - 1)
  }

  predicate IsValue(t: Text) {
    IsToken(t) || IsQuoted(t)
  }

  // ---------------------------------------------------------------------------------------------
  // Grammar

  /** [left]=[right]value, where the bracketed parts are optional white space. */
  datatype Assignment = Assignment(left: Text, right: Text, value: Text)

  /** [before];[after]name and its assignment */
  datatype Parameter = Parameter(before: Text, after: Text, name: Text, assignment: Assignment)

  datatype Media = Media(kind: Text, subtype: Text, parameters: seq<Parameter>)

  predicate GoodAssignment(a: Assignment) {
    IsSpaces(a.left) && IsSpaces(a.right) && IsValue(a.value)
  }

  predicate GoodParameter(p: Parameter) {
    IsSpaces(p.before) && IsSpaces(p.after) && IsToken(p.name) && GoodAssignment(p.assignment)
  }

  predicate AllGood(ps: seq<Parameter>) {
    ps == [] || (GoodParameter(ps[0]) && AllGood(ps[1..]))
  }

  predicate GoodMedia(m: Media) {
    IsToken(m.kind) && IsToken(m.subtype) && AllGood(m.parameters)
  }

  /** The assignment in front of `rest`. */
  function PrintAssignment(a: Assignment, rest: Text): Text {
    a.left + ([EQUALS] + (a.right + (a.value + rest)))
  }

  function PrintParameter(p: Parameter, rest: Text): Text {
    p.before + ([SEMICOLON] + (p.after + (p.name + PrintAssignment(p.assignment, rest))))
  }

  function PrintParameters(ps: seq<Parameter>): Text {
    if ps == [] then [] else PrintParameter(ps[0], PrintParameters(ps[1..]))
  }

  function Print(m: Media): Text {
    m.kind + ([SLASH] + (m.subtype + PrintParameters(m.parameters)))
  }

  /** The strings the pattern matches. */
  ghost predicate InGrammar(t: Text) {
    exists m :: GoodMedia(m) && Print(m) == t
  }

  // ---------------------------------------------------------------------------------------------
  // The characters of the grammar

  /** A letter, a digit or one of the marks of a token. */
  lemma TokenUnits(u: Unit)
    ensures IsTokenUnit(u) <==> IsAlphanumeric(u) || u in Ascii("!#$%&'*+-.^_`|~")
  {
    var marks := Ascii("!#$%&'*+-.^_`|~");
    assert marks == [0x21, 0x23, 0x24, 0x25, 0x26, 0x27, 0x2A, 0x2B, 0x2D, 0x2E, 0x5E, 0x5F, 0x60, 0x7C, 0x7E];
  }

  /** One item of a quoted string: a visible character, a space or a tab, behind a backslash if it is a
      quote or a backslash itself, and in any case when a backslash is there. */
  ghost predicate QuotedItem(t: Text) {
    || (|t| == 1 && t[0] != 0x22 && t[0] != 0x5C && (t[0] == 0x09 || 0x20 <= t[0] < 0x7F))
    || (|t| == 2 && t[0] == 0x5C && (t[1] == 0x09 || 0x20 <= t[1] < 0x7F))
  }

  function Flat(items: seq<Text>): Text {
    if items == [] then [] else items[0] + Flat(items[1..])
  }

  /** The text is items and a closing quote. */
  ghost predicate Closes(t: Text, items: seq<Text>) {
    (forall k :: 0 <= k < |items| ==> QuotedItem(items[k])) && t == Flat(items) + [0x22]
  }

  lemma {:induction false} ItemsOf(t: Text) returns (items: seq<Text>)
    requires QuotedLength(t) == Some(|t|)
    ensures Closes(t, items)
  {
    if t[0] == QUOTE {
      items := [];
    } else {
      var n := if t[0] == BACKSLASH then 2 else 1;
      var rest := ItemsOf(t[n..]);
      items := [t[..n]] + rest;
      assert items[1..] == rest;
      assert t == t[..n] + t[n..];
    }
  }

  lemma {:induction false} LengthOf(items: seq<Text>)
    requires forall k :: 0 <= k < |items| ==> QuotedItem(items[k])
    ensures QuotedLength(Flat(items) + [0x22]) == Some(|Flat(items)| + 1)
  {
    if items != [] {
      LengthOf(items[1..]);
      var rest := Flat(items[1..]) + [0x22];
      Regroup(items[0], Flat(items[1..]), [0x22]);
      assert (items[0] + rest)[|items[0]|..] == rest;
      assert (items[0] + rest)[0] == items[0][0] && (|items[0]| == 2 ==> (items[0] + rest)[1] == items[0][1]);
    }
  }

  /** A quoted string is its items between two quotes. */
  lemma QuotedMeans(t: Text)
    ensures IsQuoted(t) <==> t != [] && t[0] == 0x22 && exists items :: Closes(t[1..], items)
  {
    if IsQuoted(t) {
      var items := ItemsOf(t[1..]);
    }
    if t != [] && t[0] == 0x22 {
      if items :| Closes(t[1..], items) {
        LengthOf(items);
      }
    }
  }

  /** What stands between type and subtype, in front of a parameter and between its name and value;
      optional white space is spaces and tabs. */
  lemma PrintedMarks(kind: Text, subtype: Text, p: Parameter)
    ensures Print(Media(kind, subtype, [])) == kind + [0x2F] + subtype
    ensures PrintParameters([p]) ==
            p.before + ([0x3B] + (p.after + (p.name + (p.assignment.left + ([0x3D] + (p.assignment.right + p.assignment.value))))))
    ensures IsSpaces(p.before) <==> forall i :: 0 <= i < |p.before| ==> p.before[i] == 0x20 || p.before[i] == 0x09
  {
    assert [p][1..] == [];
    assert p.assignment.value + [] == p.assignment.value;
  }

  // ---------------------------------------------------------------------------------------------
  // Parsing

  /** The longest token at the start, and the rest. */
  function TakeToken(t: Text): (r: (Text, Text))
    ensures r.0 + r.1 == t && (r.0 != [] ==> IsToken(r.0))
  {
    if t == [] || !IsTokenUnit(t[0]) then ([], t)
    else
      var r := TakeToken(t[1..]);
      LongerToken(t[0], r.0);
      assert [t[0]] + r.0 + r.1 == [t[0]] + (r.0 + r.1) == t;
      ([t[0]] + r.0, r.1)
  }

  lemma LongerToken(u: Unit, t: Text)
    requires IsTokenUnit(u) && (t != [] ==> IsToken(t))
    ensures IsToken([u] + t)
  {
  }

  function TakeSpaces(t: Text): (r: (Text, Text))
    ensures r.0 + r.1 == t && IsSpaces(r.0)
  {
    if t == [] || !IsSpaceUnit(t[0]) then ([], t)
    else var r := TakeSpaces(t[1..]); ([t[0]] + r.0, r.1)
  }

  /** A token or a quoted string; nothing when there is neither. */
  function TakeValue(t: Text): (r: (Text, Text))
    ensures r.0 + r.1 == t && (r.0 != [] ==> IsValue(r.0))
  {
    if t != [] && t[0] == QUOTE then
      if QuotedLength(t[1..]).None? then ([], t)
      else
        var n := 1 + QuotedLength(t[1..]).value;
        QuotedPrefix(t[1..]);
        assert t[..n][1..] == t[1..][..n - 1];
        (t[..n], t[n..])
    else TakeToken(t)
  }

  /** The text after a given unit. */
  function Skip(t: Text, u: Unit): (r: Option<Text>)
    ensures r.Some? ==> t == [u] + r.value
  {
    if t != [] && t[0] == u then Some(t[1..]) else None
  }

  function ParseAssignment(t: Text): (r: Option<(Assignment, Text)>)
    ensures r.Some? ==> GoodAssignment(r.value.0) && PrintAssignment(r.value.0, r.value.1) == t
  {
    var (left, t1) := TakeSpaces(t);
    var t2 := Skip(t1, EQUALS);
    if t2.None? then None
    else
      var (right, t3) := TakeSpaces(t2.value);
      var (value, rest) := TakeValue(t3);
      if value == [] then None else Some((Assignment(left, right, value), rest))
  }

  /** A parameter at the start of the text, and what follows it. */
  function ParseParameter(t: Text): (r: Option<(Parameter, Text)>)
    ensures r.Some? ==> GoodParameter(r.value.0) && PrintParameter(r.value.0, r.value.1) == t
  {
    var (before, t1) := TakeSpaces(t);
    var t2 := Skip(t1, SEMICOLON);
    if t2.None? then None
    else
      var (after, t3) := TakeSpaces(t2.value);
      var (name, t4) := TakeToken(t3);
      var a := ParseAssignment(t4);
      if name == [] || a.None? then None else Some((Parameter(before, after, name, a.value.0), a.value.1))
  }

  function ParseParameters(t: Text): (r: Option<seq<Parameter>>)
    ensures r.Some? ==> AllGood(r.value) && PrintParameters(r.value) == t
    decreases |t|
  {
    if t == [] then Some([])
    else
      var first := ParseParameter(t);
      if first.None? then None
      else
        ParameterShrinks(first.value.0, first.value.1);
        var rest := ParseParameters(first.value.1);
        if rest.None? then None else Some([first.value.0] + rest.value)
  }

  lemma ParameterShrinks(p: Parameter, rest: Text)
    ensures |PrintParameter(p, rest)| > |rest|
  {
  }

  function Parse(t: Text): (r: Option<Media>)
    ensures r.Some? ==> GoodMedia(r.value) && Print(r.value) == t
  {
    var (kind, t1) := TakeToken(t);
    var t2 := Skip(t1, SLASH);
    if kind == [] || t2.None? then None
    else
      var (subtype, t3) := TakeToken(t2.value);
      var ps := ParseParameters(t3);
      if subtype == [] || ps.None? then None else Some(Media(kind, subtype, ps.value))
  }

  // ---------------------------------------------------------------------------------------------
  // The parser recognises the grammar

  lemma {:induction false} TakeTokenSpan(s: Text, rest: Text)
    requires (forall i :: 0 <= i < |s| ==> IsTokenUnit(s[i])) && (rest == [] || !IsTokenUnit(rest[0]))
    ensures TakeToken(s + rest) == (s, rest)
  {
    if s == [] {
      assert s + rest == rest;
    } else {
      assert (s + rest)[1..] == s[1..] + rest;
      TakeTokenSpan(s[1..], rest);
      assert s == [s[0]] + s[1..];
    }
  }

  lemma {:induction false} TakeSpacesSpan(s: Text, rest: Text)
    requires IsSpaces(s) && (rest == [] || !IsSpaceUnit(rest[0]))
    ensures TakeSpaces(s + rest) == (s, rest)
  {
    if s == [] {
      assert s + rest == rest;
    } else {
      assert (s + rest)[1..] == s[1..] + rest;
      TakeSpacesSpan(s[1..], rest);
      assert s == [s[0]] + s[1..];
    }
  }

  lemma {:induction false} QuotedSpan(s: Text, rest: Text)
    requires QuotedLength(s) == Some(|s|)
    ensures QuotedLength(s + rest) == Some(|s|)
  {
    if s[0] == QUOTE {
    } else if s[0] == BACKSLASH {
      QuotedSpan(s[2..], rest);
      assert (s + rest)[2..] == s[2..] + rest;
    } else {
      QuotedSpan(s[1..], rest);
      assert (s + rest)[1..] == s[1..] + rest;
    }
  }

  /** The text after a quoted string plays no part in it. */
  lemma {:induction false} QuotedPrefix(t: Text)
    requires QuotedLength(t).Some?
    ensures QuotedLength(t[..QuotedLength(t).value]) == QuotedLength(t)
  {
    var n := QuotedLength(t).value;
    if t[0] == QUOTE {
    } else if t[0] == BACKSLASH {
      QuotedPrefix(t[2..]);
      assert t[..n][2..] == t[2..][..n - 2];
    } else {
      QuotedPrefix(t[1..]);
      assert t[..n][1..] == t[1..][..n - 1];
    }
  }

  lemma TakeValueSpan(v: Text, rest: Text)
    requires IsValue(v) && (rest == [] || !IsTokenUnit(rest[0]))
    ensures TakeValue(v + rest) == (v, rest)
  {
    if IsQuoted(v) {
      QuotedSpan(v[1..], rest);
      assert (v + rest)[1..] == v[1..] + rest;
      assert (v + rest)[..|v|] == v && (v + rest)[|v|..] == rest;
    } else {
      TakeTokenSpan(v, rest);
    }
  }

  lemma SkipHead(u: Unit, rest: Text)
    ensures Skip([u] + rest, u) == Some(rest)
  {
  }

  /** What a value can start with is not white space. */
  lemma ValueStart(v: Text, rest: Text)
    requires IsValue(v)
    ensures v + rest != [] && !IsSpaceUnit((v + rest)[0])
  {
  }

  lemma ParsePrintedAssignment(a: Assignment, rest: Text)
    requires GoodAssignment(a) && (rest == [] || !IsTokenUnit(rest[0]))
    ensures ParseAssignment(PrintAssignment(a, rest)) == Some((a, rest))
  {
    var t3 := a.value + rest;
    var t2 := a.right + t3;
    ValueStart(a.value, rest);
    TakeSpacesSpan(a.left, [EQUALS] + t2);
    SkipHead(EQUALS, t2);
    TakeSpacesSpan(a.right, t3);
    TakeValueSpan(a.value, rest);
  }

  lemma AssignmentStart(a: Assignment, rest: Text)
    requires GoodAssignment(a)
    ensures PrintAssignment(a, rest) != [] && !IsTokenUnit(PrintAssignment(a, rest)[0])
  {
  }

  /** A printed parameter is read back, with what followed it. */
  lemma ParsePrintedParameter(p: Parameter, rest: Text)
    requires GoodParameter(p) && (rest == [] || !IsTokenUnit(rest[0]))
    ensures ParseParameter(PrintParameter(p, rest)) == Some((p, rest))
  {
    var t4 := PrintAssignment(p.assignment, rest);
    var t3 := p.name + t4;
    var t2 := p.after + t3;
    ParsePrintedAssignment(p.assignment, rest);
    AssignmentStart(p.assignment, rest);
    TakeTokenSpan(p.name, t4);
    TakeSpacesSpan(p.after, t3);
    SkipHead(SEMICOLON, t2);
    TakeSpacesSpan(p.before, [SEMICOLON] + t2);
  }

  lemma ParametersStart(ps: seq<Parameter>)
    requires AllGood(ps)
    ensures PrintParameters(ps) == [] || !IsTokenUnit(PrintParameters(ps)[0])
  {
  }

  lemma ParametersStep(t: Text, p: Parameter, rest: Text)
    requires ParseParameter(t) == Some((p, rest)) && ParseParameters(rest).Some?
    ensures ParseParameters(t) == Some([p] + ParseParameters(rest).value)
  {
    ParameterShrinks(p, rest);
  }

  lemma {:induction false} ParsePrintedParameters(ps: seq<Parameter>)
    requires AllGood(ps)
    ensures ParseParameters(PrintParameters(ps)) == Some(ps)
  {
    if ps != [] {
      var rest := PrintParameters(ps[1..]);
      ParsePrintedParameters(ps[1..]);
      ParametersStart(ps[1..]);
      ParsePrintedParameter(ps[0], rest);
      ParametersStep(PrintParameter(ps[0], rest), ps[0], rest);
      assert ps == [ps[0]] + ps[1..];
    }
  }

  /** Every string of the grammar has one reading. */
  lemma ParsePrinted(m: Media)
    requires GoodMedia(m)
    ensures Parse(Print(m)) == Some(m)
  {
    var t3 := PrintParameters(m.parameters);
    ParsePrintedParameters(m.parameters);
    ParametersStart(m.parameters);
    TakeTokenSpan(m.subtype, t3);
    SkipHead(SLASH, m.subtype + t3);
    TakeTokenSpan(m.kind, [SLASH] + (m.subtype + t3));
  }

  /** The parser accepts exactly the grammar. */
  lemma ParserIsGrammar(t: Text)
    ensures Parse(t).Some? <==> InGrammar(t)
  {
    if InGrammar(t) {
      var m :| GoodMedia(m) && Print(m) == t;
      ParsePrinted(m);
    }
  }

  // ---------------------------------------------------------------------------------------------
  // The canonical form

  function LowerUnit(u: Unit): Unit {
    if 0x41 <= u <= 0x5A then u + 0x20 else u
  }

  /** `toLowerCase` on ASCII text. */
  function Lower(t: Text): (r: Text)
    ensures |r| == |t| && forall i :: 0 <= i < |t| ==> r[i] == LowerUnit(t[i])
  {
    seq(|t|, i requires 0 <= i < |t| => LowerUnit(t[i]))
  }

  /** What the replacement writes for one parameter: "; name=value". */
  function CanonicalParameter(p: Parameter): Parameter {
    Parameter([], [SPACE], Lower(p.name), Assignment([], [], p.assignment.value))
  }

  function CanonicalParameters(ps: seq<Parameter>): seq<Parameter> {
    if ps == [] then [] else [CanonicalParameter(ps[0])] + CanonicalParameters(ps[1..])
  }

  function CanonicalMedia(m: Media): Media {
    Media(Lower(m.kind), Lower(m.subtype), CanonicalParameters(m.parameters))
  }

  /** The global `replace`: the text is scanned from the left, and where the parameter pattern matches
      the match is rewritten and skipped. */
  function Replace(t: Text): Text
    decreases |t|
  {
    if t == [] then []
    else
      var found := ParseParameter(t);
      if found.None? then [t[0]] + Replace(t[1..])
      else
        var (p, rest) := found.value;
        ParameterShrinks(p, rest);
        PrintParameter(CanonicalParameter(p), []) + Replace(rest)
  }

  /** `canonicalizeArtifactMediaType`; the text of the parameters is the third group of the match. */
  function Canonicalize(t: Text): Text {
    var m := Parse(t);
    if m.None? then t
    else Lower(m.value.kind) + ([SLASH] + (Lower(m.value.subtype) + Replace(PrintParameters(m.value.parameters))))
  }

  /** The schema: a bounded string of the grammar, replaced by its canonical form. */
  function Accept(t: Text): Option<Text> {
    if 1 <= |t| <= MAX_LENGTH && Parse(t).Some? then Some(Canonicalize(t)) else None
  }

  /** `b` is `a` with its ASCII capitals made small. */
  ghost predicate MadeSmall(a: Text, b: Text) {
    |b| == |a| && forall i :: 0 <= i < |a| ==> if 0x41 <= a[i] <= 0x5A then b[i] == a[i] + 0x20 else b[i] == a[i]
  }

  /** `q` says what `p` says, with the name made small and one space in front of it. */
  ghost predicate Tidied(p: Parameter, q: Parameter) {
    MadeSmall(p.name, q.name) && q == Parameter([], [0x20], q.name, Assignment([], [], p.assignment.value))
  }

  /** `n` says what `m` says, in canonical form. */
  ghost predicate TidiedMedia(m: Media, n: Media) {
    && MadeSmall(m.kind, n.kind) && MadeSmall(m.subtype, n.subtype) && |n.parameters| == |m.parameters|
    && forall i :: 0 <= i < |m.parameters| ==> Tidied(m.parameters[i], n.parameters[i])
  }

  lemma LowerToken(t: Text)
    requires IsToken(t)
    ensures IsToken(Lower(t)) && Lower(Lower(t)) == Lower(t)
  {
  }

  lemma {:induction false} CanonicalParametersGood(ps: seq<Parameter>)
    requires AllGood(ps)
    ensures var cs := CanonicalParameters(ps);
            AllGood(cs) && CanonicalParameters(cs) == cs && |cs| == |ps| && forall i :: 0 <= i < |ps| ==> Tidied(ps[i], cs[i])
  {
    if ps != [] {
      LowerToken(ps[0].name);
      CanonicalParametersGood(ps[1..]);
      assert CanonicalParameters(ps)[1..] == CanonicalParameters(ps[1..]);
    }
  }

  lemma CanonicalMediaGood(m: Media)
    requires GoodMedia(m)
    ensures GoodMedia(CanonicalMedia(m)) && CanonicalMedia(CanonicalMedia(m)) == CanonicalMedia(m)
  {
    LowerToken(m.kind);
    LowerToken(m.subtype);
    CanonicalParametersGood(m.parameters);
  }

  lemma PrintParameterSplit(p: Parameter, rest: Text)
    ensures PrintParameter(p, rest) == PrintParameter(p, []) + rest
  {
    var a := p.assignment;
    assert a.value + [] == a.value;
    Regroup(a.right, a.value, rest);
    Regroup([EQUALS], a.right + a.value, rest);
    Regroup(a.left, [EQUALS] + (a.right + a.value), rest);
    Regroup(p.name, PrintAssignment(a, []), rest);
    Regroup(p.after, p.name + PrintAssignment(a, []), rest);
    Regroup([SEMICOLON], p.after + (p.name + PrintAssignment(a, [])), rest);
    Regroup(p.before, [SEMICOLON] + (p.after + (p.name + PrintAssignment(a, []))), rest);
  }

  /** On the parameters of a media type the scan matches each parameter, in order, and nothing else. */
  lemma {:induction false} ReplaceVisitsParameters(ps: seq<Parameter>)
    requires AllGood(ps)
    ensures Replace(PrintParameters(ps)) == PrintParameters(CanonicalParameters(ps))
  {
    if ps != [] {
      var rest := PrintParameters(ps[1..]);
      ReplaceVisitsParameters(ps[1..]);
      ParametersStart(ps[1..]);
      ParsePrintedParameter(ps[0], rest);
      ParameterShrinks(ps[0], rest);
      PrintParameterSplit(CanonicalParameter(ps[0]), PrintParameters(CanonicalParameters(ps[1..])));
      assert CanonicalParameters(ps)[1..] == CanonicalParameters(ps[1..]);
    }
  }

  /** Rewriting the text computes the canonical form of what it says. */
  lemma CanonicalizeIsPrint(t: Text)
    requires Parse(t).Some?
    ensures Canonicalize(t) == Print(CanonicalMedia(Parse(t).value))
  {
    ReplaceVisitsParameters(Parse(t).value.parameters);
  }

  /** The canonical form stays in the grammar and is its own canonical form. It says what the text says:
      type, subtype and parameter names in small letters, the values as they were, in their order. */
  lemma CanonicalFormStays(t: Text)
    requires Parse(t).Some?
    ensures var c := Canonicalize(t);
            && InGrammar(c) && Canonicalize(c) == c
            && Parse(c).Some? && TidiedMedia(Parse(t).value, Parse(c).value)
  {
    ParserIsGrammar(t);
    CanonicalizeIsPrint(t);
    CanonicalMediaGood(Parse(t).value);
    CanonicalParametersGood(Parse(t).value.parameters);
    ParsePrinted(CanonicalMedia(Parse(t).value));
    CanonicalizeIsPrint(Canonicalize(t));
  }

  /** On every string, canonicalising twice is canonicalising once. */
  lemma CanonicalizeIdempotent(t: Text)
    ensures Canonicalize(Canonicalize(t)) == Canonicalize(t)
  {
    ParserIsGrammar(t);
    if InGrammar(t) {
      CanonicalFormStays(t);
    }
  }

  /** The white space around the separators of the parameters. */
  function SpaceCount(ps: seq<Parameter>): nat {
    if ps == [] then 0
    else |ps[0].before| + |ps[0].after| + |ps[0].assignment.left| + |ps[0].assignment.right| + SpaceCount(ps[1..])
  }

  lemma {:induction false} ParametersLength(ps: seq<Parameter>)
    ensures |PrintParameters(CanonicalParameters(ps))| + SpaceCount(ps) == |PrintParameters(ps)| + |ps|
  {
    if ps != [] {
      ParametersLength(ps[1..]);
      assert CanonicalParameters(ps)[1..] == CanonicalParameters(ps[1..]);
    }
  }

  /** The canonical form loses the optional white space and gains one space for each parameter. */
  lemma CanonicalLength(t: Text)
    requires Parse(t).Some?
    ensures var ps := Parse(t).value.parameters;
            && |Canonicalize(t)| + SpaceCount(ps) == |t| + |ps|
            && |Canonicalize(t)| <= |t| + |ps|
  {
    ParserIsGrammar(t);
    CanonicalizeIsPrint(t);
    ParametersLength(Parse(t).value.parameters);
  }

  /** The schema accepts its own output exactly when the spaces gained keep within the limit. */
  lemma OutputIsAcceptedAgain(t: Text)
    requires Accept(t).Some?
    ensures var ps := Parse(t).value.parameters;
            Accept(Accept(t).value) == Accept(t) <==> |t| + |ps| - SpaceCount(ps) <= MAX_LENGTH
  {
    ParserIsGrammar(t);
    CanonicalFormStays(t);
    ParserIsGrammar(Canonicalize(t));
    CanonicalLength(t);
  }

  /** A type of 255 units whose canonical form has 256 and is refused. */
  lemma LimitIsExceeded()
    ensures var t := Print(Media([0x61], [0x62], [Parameter([], [], seq(249, i => 0x63), Assignment([], [], [0x64]))]));
            |t| == 255 && Accept(t).Some? && |Accept(t).value| == 256 && Accept(Accept(t).value).None?
  {
    var p := Parameter([], [], seq(249, i => 0x63), Assignment([], [], [0x64]));
    var m := Media([0x61], [0x62], [p]);
    assert IsToken(p.name) && IsToken(p.assignment.value);
    assert [p][1..] == [];
    ParsePrinted(m);
    CanonicalLength(Print(m));
    assert |PrintParameters([p])| == 252;
  }
}
