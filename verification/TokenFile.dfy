/** The JSON shape of the persisted token file and its parser. */
module TokenFile {
  import opened Wrappers
  import opened JsonValue
  import opened TokenStore

  type FileJson = Json<string, int>

  datatype ParseError = NotAnObject | UnsupportedFormat | InvalidToken

  function KindName(k: Kind): string {
    if k.Access? then "access" else "refresh"
  }

  function KindOf(v: Option<FileJson>): Option<Kind> {
    if v == Some(Str("access")) then Some(Access)
    else if v == Some(Str("refresh")) then Some(Refresh)
    else None
  }

  predicate IsText(v: Option<FileJson>) {
    v.Some? && v.value.Str?
  }

  /** `migrated` overrides the stored kind, as for files of version 1. An array is an object to
      JavaScript but has none of the properties, so it fails like an object without them. */
  function ParseToken(v: FileJson, migrated: Option<Kind>): Result<Token, ParseError> {
    if !v.Obj? then Err(InvalidToken) else
    var kind := if migrated.Some? then migrated else KindOf(Field(v.entries, "kind"));
    var hash := Field(v.entries, "tokenHash");
    var client := Field(v.entries, "clientId");
    var expiry := Field(v.entries, "expiresAt");
    var resource := Field(v.entries, "resource");
    var scope := Field(v.entries, "scope");
    if kind.Some? && IsText(hash) && IsText(client) && expiry.Some? && expiry.value.Num?
       && IsText(resource) && IsText(scope)
    then Ok(Token(kind.value, hash.value.s, client.value.s, expiry.value.n, resource.value.s, scope.value.s))
    else Err(InvalidToken)
  }

  function ParseTokens(vs: seq<FileJson>, migrated: Option<Kind>): (r: Result<seq<Token>, ParseError>)
    ensures r.Ok? <==> forall i :: 0 <= i < |vs| ==> ParseToken(vs[i], migrated).Ok?
    ensures r.Ok? ==> |r.value| == |vs|
    ensures r.Ok? ==> forall i :: 0 <= i < |vs| ==> ParseToken(vs[i], migrated) == Ok(r.value[i])
  {
    if vs == [] then Ok([])
    else
      var first := ParseToken(vs[0], migrated);
      var rest := ParseTokens(vs[1..], migrated);
      if first.Err? then Err(first.error)
      else if rest.Err? then Err(rest.error)
      else Ok([first.value] + rest.value)
  }

  function ParseFile(v: FileJson): Result<seq<Token>, ParseError> {
    if v.Arr? then Err(UnsupportedFormat)
    else if !v.Obj? then Err(NotAnObject)
    else
      var tokens, version := Field(v.entries, "tokens"), Field(v.entries, "version");
      if !(tokens.Some? && tokens.value.Arr?) then Err(UnsupportedFormat)
      else if version == Some(Num(1)) then ParseTokens(tokens.value.items, Some(Access))
      else if version == Some(Num(2)) then ParseTokens(tokens.value.items, None)
      else Err(UnsupportedFormat)
  }

  /** The object has the fields of the token; `migrated` files say nothing of the kind, which is then
      access. */
  ghost predicate Describes(v: FileJson, migrated: bool, t: Token) {
    && v.Obj?
    && (if migrated then t.kind.Access? else Field(v.entries, "kind") == Some(Str(if t.kind.Access? then "access" else "refresh")))
    && Field(v.entries, "tokenHash") == Some(Str(t.hash)) && Field(v.entries, "clientId") == Some(Str(t.clientId))
    && Field(v.entries, "expiresAt") == Some(Num(t.expiresAt)) && Field(v.entries, "resource") == Some(Str(t.resource))
    && Field(v.entries, "scope") == Some(Str(t.scope))
  }

  /** The items describe the tokens one by one. */
  ghost predicate DescribesAll(items: seq<FileJson>, migrated: bool, ts: seq<Token>) {
    |items| == |ts| && forall i :: 0 <= i < |ts| ==> Describes(items[i], migrated, ts[i])
  }

  lemma ParseTokenMeans(v: FileJson, migrated: bool, t: Token)
    ensures ParseToken(v, if migrated then Some(Access) else None) == Ok(t) <==> Describes(v, migrated, t)
  {
    assert "access"[0] != "refresh"[0];
  }

  lemma ParseTokensMean(items: seq<FileJson>, migrated: bool, ts: seq<Token>)
    ensures ParseTokens(items, if migrated then Some(Access) else None) == Ok(ts) <==> DescribesAll(items, migrated, ts)
  {
    var kind := if migrated then Some(Access) else None;
    var r := ParseTokens(items, kind);
    if r == Ok(ts) || |items| == |ts| {
      forall i | 0 <= i < |items| ensures ParseToken(items[i], kind) == Ok(ts[i]) <==> Describes(items[i], migrated, ts[i]) {
        ParseTokenMeans(items[i], migrated, ts[i]);
      }
    }
    if DescribesAll(items, migrated, ts) {
      assert r.value == ts;
    }
  }

  /** A file is read exactly when it is an object of version 1 or 2 whose tokens can all be read, and it
      then gives all of them in order; those of version 1 become access tokens. */
  lemma ParseFileMeans(v: FileJson, ts: seq<Token>)
    ensures ParseFile(v) == Ok(ts) <==>
              && v.Obj? && Field(v.entries, "tokens").Some? && Field(v.entries, "tokens").value.Arr?
              && Field(v.entries, "version") in {Some(Num(1)), Some(Num(2))}
              && DescribesAll(Field(v.entries, "tokens").value.items, Field(v.entries, "version") == Some(Num(1)), ts)
  {
    if v.Obj? && Field(v.entries, "tokens").Some? && Field(v.entries, "tokens").value.Arr? {
      ParseTokensMean(Field(v.entries, "tokens").value.items, Field(v.entries, "version") == Some(Num(1)), ts);
    }
  }

  function TokenJson(t: Token): FileJson {
    Obj([("kind", Str(KindName(t.kind))), ("tokenHash", Str(t.hash)), ("clientId", Str(t.clientId)),
         ("expiresAt", Num(t.expiresAt)), ("resource", Str(t.resource)), ("scope", Str(t.scope))])
  }

  /** What `persist` writes for a list of tokens. */
  function FileFor(ts: seq<Token>): FileJson {
    Obj([("version", Num(2)), ("tokens", Arr(seq(|ts|, i requires 0 <= i < |ts| => TokenJson(ts[i]))))])
  }

  lemma {:induction false} FieldAt(entries: seq<(string, FileJson)>, i: nat)
    requires i < |entries|
    requires forall j :: i < j < |entries| ==> entries[j].0 != entries[i].0
    ensures Field(entries, entries[i].0) == Some(entries[i].1)
  {
    if i < |entries| - 1 {
      FieldAt(entries[..|entries| - 1], i);
    }
  }

  lemma FieldIs(entries: seq<(string, FileJson)>, i: nat, key: string, value: FileJson)
    requires i < |entries| && entries[i] == (key, value)
    requires forall j :: i < j < |entries| ==> entries[j].0 != key
    ensures Field(entries, key) == Some(value)
  {
    FieldAt(entries, i);
  }

  lemma ParseTokenJson(t: Token)
    ensures ParseToken(TokenJson(t), None) == Ok(t)
  {
    var e := TokenJson(t).entries;
    assert |"kind"| == 4 && |"tokenHash"| == |"expiresAt"| == 9;
    assert |"clientId"| == |"resource"| == 8 && |"scope"| == 5;
    assert "tokenHash"[0] != "expiresAt"[0] && "clientId"[0] != "resource"[0];
    FieldIs(e, 0, "kind", Str(KindName(t.kind)));
    FieldIs(e, 1, "tokenHash", Str(t.hash));
    FieldIs(e, 2, "clientId", Str(t.clientId));
    FieldIs(e, 3, "expiresAt", Num(t.expiresAt));
    FieldIs(e, 4, "resource", Str(t.resource));
    FieldIs(e, 5, "scope", Str(t.scope));
    assert "access"[0] != "refresh"[0];
  }

  /** Parsing what was written gives back the list. */
  lemma ParseFileFor(ts: seq<Token>)
    ensures ParseFile(FileFor(ts)) == Ok(ts)
  {
    var e := FileFor(ts).entries;
    assert "version"[0] != "tokens"[0];
    FieldIs(e, 0, "version", Num(2));
    FieldIs(e, 1, "tokens", e[1].1);
    var items := e[1].1.items;
    forall i | 0 <= i < |ts| ensures ParseToken(items[i], None) == Ok(ts[i]) {
      ParseTokenJson(ts[i]);
    }
    assert ParseTokens(items, None).value == ts;
  }

  /** `ts` lists the values of `m`, in any order; `persist` sorts them by hash. */
  ghost predicate Lists(ts: seq<Token>, m: Tokens) {
    && (forall i, j :: 0 <= i < j < |ts| ==> ts[i].hash != ts[j].hash)
    && (forall t :: t in ts <==> t.hash in m && m[t.hash] == t)
  }

  /** What `load` would put in memory: nothing to read gives the empty map, a file that does not
      parse gives no map. */
  function LoadMap(disk: Option<FileJson>): Option<Tokens> {
    match disk
    case None => Some(map[])
    case Some(v) =>
      var r := ParseFile(v);
      if r.Ok? then Some(SetAll(map[], r.value)) else None
  }

  /** Nothing to read loads as no tokens. A file that is read loads as its tokens by hash, later ones
      winning; any other file fails to load. */
  lemma LoadMeans(v: FileJson, ts: seq<Token>, h: string, t: Token)
    ensures LoadMap(None) == Some(map[])
    ensures LoadMap(Some(v)).Some? <==> ParseFile(v).Ok?
    ensures ParseFile(v) == Ok(ts) ==> (Holds(LoadMap(Some(v)).value, h, t) <==> LastWith(ts, h, t))
  {
    SetAllHolds(map[], ts, h, t);
  }

  lemma {:induction false} SetAllAt(m: Tokens, ts: seq<Token>, i: nat)
    requires i < |ts|
    requires forall a, b :: 0 <= a < b < |ts| ==> ts[a].hash != ts[b].hash
    ensures Lookup(SetAll(m, ts), ts[i].hash) == Some(ts[i])
  {
    if i < |ts| - 1 {
      SetAllAt(m, ts[..|ts| - 1], i);
    }
  }

  lemma LoadedLookup(ts: seq<Token>, m: Tokens, h: string)
    requires WellKeyed(m) && Lists(ts, m)
    ensures Lookup(SetAll(map[], ts), h) == Lookup(m, h)
  {
    SetAllKeys(map[], ts);
    if h in m {
      assert m[h] in ts;
      var i :| 0 <= i < |ts| && ts[i] == m[h];
      SetAllAt(map[], ts, i);
    } else {
      assert h !in (set t | t in ts :: t.hash);
    }
  }

  lemma SameLookups(a: Tokens, b: Tokens)
    requires forall h :: Lookup(a, h) == Lookup(b, h)
    ensures a == b
  {
    assert forall h :: h in a <==> Lookup(a, h).Some?;
    assert forall h :: h in b <==> Lookup(b, h).Some?;
    assert forall h :: h in b ==> b[h] == Lookup(b, h).value == Lookup(a, h).value;
  }

  /** Loading what was persisted gives back the same map, whatever order the file lists it in. */
  lemma LoadUndoesPersist(ts: seq<Token>, m: Tokens)
    requires WellKeyed(m) && Lists(ts, m)
    ensures LoadMap(Some(FileFor(ts))) == Some(m)
  {
    ParseFileFor(ts);
    forall h ensures Lookup(SetAll(map[], ts), h) == Lookup(m, h) {
      LoadedLookup(ts, m, h);
    }
    SameLookups(SetAll(map[], ts), m);
  }

  /** A listing always exists, so writing is never stuck. */
  lemma {:induction false} ListingExists(m: Tokens) returns (ts: seq<Token>)
    requires WellKeyed(m)
    ensures Lists(ts, m)
    decreases |m|
  {
    if m == map[] {
      ts := [];
    } else {
      var h :| h in m;
      var rest := ListingExists(Without(m, h));
      ts := rest + [m[h]];
      forall i, j | 0 <= i < j < |ts| ensures ts[i].hash != ts[j].hash {
        assert rest[i] in rest;
      }
      forall t ensures t in ts <==> t.hash in m && m[t.hash] == t {
        assert t in ts <==> t in rest || t == m[h];
      }
    }
  }
}
