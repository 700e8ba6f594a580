/** Strict object schemas: unknown keys are refused and the output lists the fields in order. */
module StrictSchema {
  import opened Wrappers
  import opened JsonText
  import opened KeyOrder
  import opened JsonValue
  import opened CanonicalJson
  import WhiteSpace

  type Rule<!N> = Value<N> -> Option<Value<N>>

  datatype Field<!N> = Field(name: Text, optional: bool, rule: Rule<N>)

  function Lookup<N>(es: seq<(Text, Value<N>)>, name: Text): Option<Value<N>> {
    if es == [] then None else if es[0].0 == name then Some(es[0].1) else Lookup(es[1..], name)
  }

  predicate Known<N>(fields: seq<Field<N>>, key: Text) {
    exists i :: 0 <= i < |fields| && fields[i].name == key
  }

  function Collect<N>(fields: seq<Field<N>>, es: seq<(Text, Value<N>)>): Option<seq<(Text, Value<N>)>> {
    if fields == [] then Some([])
    else
      var f, rest := fields[0], Collect(fields[1..], es);
      var found := Lookup(es, f.name);
      if rest.None? then None
      else if found.None? then if f.optional then rest else None
      else
        var value := f.rule(found.value);
        if value.None? then None else Some([(f.name, value.value)] + rest.value)
  }

  function StrictObject<N>(fields: seq<Field<N>>, v: Value<N>): Option<Value<N>> {
    if !v.Obj? || exists i :: 0 <= i < |v.entries| && !Known(fields, v.entries[i].0) then None
    else
      var es := Collect(fields, v.entries);
      if es.None? then None else Some(Obj(es.value))
  }

  // ---------------------------------------------------------------------------------------------
  // What is accepted, and what comes out

  /** The object has what the field asks for. */
  ghost predicate Passes<N>(f: Field<N>, es: seq<(Text, Value<N>)>) {
    var found := Lookup(es, f.name);
    if found.None? then f.optional else f.rule(found.value).Some?
  }

  lemma {:induction false} CollectsAll<N>(fields: seq<Field<N>>, es: seq<(Text, Value<N>)>)
    ensures Collect(fields, es).Some? <==> forall i :: 0 <= i < |fields| ==> Passes(fields[i], es)
  {
    if fields != [] {
      CollectsAll(fields[1..], es);
      assert forall i :: 1 <= i < |fields| ==> fields[i] == fields[1..][i - 1];
      assert Passes(fields[0], es) || Collect(fields, es).None?;
    }
  }

  /** An object is accepted exactly when it has no key but those of the fields and every field passes. */
  lemma StrictObjectAccepts<N>(fields: seq<Field<N>>, v: Value<N>)
    ensures StrictObject(fields, v).Some? <==>
            && v.Obj? && (forall k :: 0 <= k < |v.entries| ==> Known(fields, v.entries[k].0))
            && forall i :: 0 <= i < |fields| ==> Passes(fields[i], v.entries)
  {
    if v.Obj? {
      CollectsAll(fields, v.entries);
    }
  }

  /** The value that the field's rule makes of what the object has. */
  ghost function Made<N>(f: Field<N>, es: seq<(Text, Value<N>)>): Option<Value<N>> {
    var found := Lookup(es, f.name);
    if found.None? then None else f.rule(found.value)
  }

  predicate At<N>(fields: seq<Field<N>>, i: int, name: Text) {
    0 <= i < |fields| && fields[i].name == name
  }

  /** The keys come in the order of the fields. */
  ghost predicate InOrder<N>(fields: seq<Field<N>>, out: seq<(Text, Value<N>)>) {
    forall k, l, i, j :: 0 <= k < l < |out| && At(fields, i, out[k].0) && At(fields, j, out[l].0) ==> i < j
  }

  lemma {:induction false} CollectsInOrder<N>(fields: seq<Field<N>>, es: seq<(Text, Value<N>)>)
    requires DistinctNames(fields) && Collect(fields, es).Some?
    ensures var out := Collect(fields, es).value;
            && InOrder(fields, out) && (forall k :: 0 <= k < |out| ==> Known(fields, out[k].0))
            && forall i :: 0 <= i < |fields| ==> Lookup(out, fields[i].name) == Made(fields[i], es)
  {
    if fields != [] {
      var f, tail := fields[0], fields[1..];
      CollectsInOrder(tail, es);
      var rest, out := Collect(tail, es).value, Collect(fields, es).value;
      assert forall i :: 1 <= i < |fields| ==> fields[i] == tail[i - 1];
      forall k | 0 <= k < |rest| ensures Known(fields, rest[k].0) && rest[k].0 != f.name {
        var i :| 0 <= i < |tail| && tail[i].name == rest[k].0;
        assert fields[i + 1].name == rest[k].0;
      }
      NotFound(rest, f.name);
      if out != rest {
        forall i | 0 <= i < |fields| ensures Lookup(out, fields[i].name) == Made(fields[i], es) {
          LookupSkips(out[0], rest, fields[i].name);
        }
        assert Known(fields, out[0].0);
      }
      StaysInOrder(fields, rest, out);
    }
  }

  lemma StaysInOrder<N>(fields: seq<Field<N>>, rest: seq<(Text, Value<N>)>, out: seq<(Text, Value<N>)>)
    requires fields != [] && DistinctNames(fields) && InOrder(fields[1..], rest)
    requires forall k :: 0 <= k < |rest| ==> rest[k].0 != fields[0].name
    requires out == rest || (out != [] && out[1..] == rest && out[0].0 == fields[0].name)
    ensures InOrder(fields, out)
  {
    var tail := fields[1..];
    assert forall i :: 1 <= i < |fields| ==> fields[i] == tail[i - 1];
    forall k, l, i, j | 0 <= k < l < |out| && At(fields, i, out[k].0) && At(fields, j, out[l].0) ensures i < j {
      if out == rest {
        assert At(tail, i - 1, rest[k].0) && At(tail, j - 1, rest[l].0);
      } else {
        assert out[l] == rest[l - 1];
        if k > 0 {
          assert out[k] == rest[k - 1];
          assert At(tail, i - 1, rest[k - 1].0) && At(tail, j - 1, rest[l - 1].0);
        }
      }
    }
  }

  /** What comes out is an object with what the rules made of the fields that were there, in the order of
      the fields, and nothing else. */
  lemma StrictObjectMakes<N>(fields: seq<Field<N>>, v: Value<N>)
    requires DistinctNames(fields) && StrictObject(fields, v).Some?
    ensures var w := StrictObject(fields, v).value;
            && w.Obj? && InOrder(fields, w.entries) && (forall k :: 0 <= k < |w.entries| ==> Known(fields, w.entries[k].0))
            && forall i :: 0 <= i < |fields| ==> Lookup(w.entries, fields[i].name) == Made(fields[i], v.entries)
  {
    CollectsInOrder(fields, v.entries);
  }

  // ---------------------------------------------------------------------------------------------
  // Stability

  /** A rule whose outputs are plain JSON and pass it unchanged. */
  ghost predicate Stable<N(!new)>(rule: Rule<N>) {
    forall v :: rule(v).Some? ==> var w := rule(v).value; Supported(w) && WellKeyed(w) && rule(w) == Some(w)
  }

  ghost predicate DistinctNames<N>(fields: seq<Field<N>>) {
    forall i, j :: 0 <= i < j < |fields| ==> fields[i].name != fields[j].name
  }

  ghost predicate StableFields<N(!new)>(fields: seq<Field<N>>) {
    DistinctNames(fields) && forall i :: 0 <= i < |fields| ==> Stable(fields[i].rule)
  }

  /** Every output entry belongs to a field and is plain JSON. */
  lemma {:induction false} CollectedEntries<N(!new)>(fields: seq<Field<N>>, es: seq<(Text, Value<N>)>)
    requires StableFields(fields) && Collect(fields, es).Some?
    ensures var out := Collect(fields, es).value;
            && DistinctKeys(out)
            && forall k :: 0 <= k < |out| ==> Known(fields, out[k].0) && Supported(out[k].1) && WellKeyed(out[k].1)
  {
    if fields != [] {
      var tail := fields[1..];
      CollectedEntries(tail, es);
      var rest := Collect(tail, es).value;
      forall k | 0 <= k < |rest| ensures Known(fields, rest[k].0) && rest[k].0 != fields[0].name {
        var i :| 0 <= i < |tail| && tail[i].name == rest[k].0;
        assert fields[i + 1].name == rest[k].0;
      }
    }
  }

  lemma {:induction false} LookupSkips<N>(head: (Text, Value<N>), rest: seq<(Text, Value<N>)>, name: Text)
    ensures Lookup([head] + rest, name) == if head.0 == name then Some(head.1) else Lookup(rest, name)
  {
    assert ([head] + rest)[1..] == rest;
  }

  /** Entries under other names do not change what is collected. */
  lemma {:induction false} CollectFrame<N>(fields: seq<Field<N>>, head: (Text, Value<N>), rest: seq<(Text, Value<N>)>)
    requires forall i :: 0 <= i < |fields| ==> fields[i].name != head.0
    ensures Collect(fields, [head] + rest) == Collect(fields, rest)
  {
    if fields != [] {
      CollectFrame(fields[1..], head, rest);
      LookupSkips(head, rest, fields[0].name);
    }
  }

  lemma {:induction false} NotFound<N>(es: seq<(Text, Value<N>)>, name: Text)
    requires forall k :: 0 <= k < |es| ==> es[k].0 != name
    ensures Lookup(es, name).None?
  {
    if es != [] {
      NotFound(es[1..], name);
    }
  }

  lemma {:induction false} CollectAgain<N(!new)>(fields: seq<Field<N>>, es: seq<(Text, Value<N>)>)
    requires StableFields(fields) && Collect(fields, es).Some?
    ensures Collect(fields, Collect(fields, es).value) == Collect(fields, es)
  {
    if fields != [] {
      var f, tail := fields[0], fields[1..];
      CollectAgain(tail, es);
      CollectedEntries(tail, es);
      var rest := Collect(tail, es).value;
      forall k | 0 <= k < |rest| ensures rest[k].0 != f.name {
        var i :| 0 <= i < |tail| && tail[i].name == rest[k].0;
        assert fields[i + 1].name == rest[k].0;
      }
      var found := Lookup(es, f.name);
      if found.None? {
        NotFound(rest, f.name);
      } else {
        var w := f.rule(found.value).value;
        assert Stable(fields[0].rule);
        assert forall i :: 0 <= i < |tail| ==> tail[i] == fields[i + 1];
        CollectFrame(tail, (f.name, w), rest);
        LookupSkips((f.name, w), rest, f.name);
      }
    }
  }

  /** A strict object of stable fields is stable. */
  lemma StrictObjectStable<N(!new)>(fields: seq<Field<N>>, rule: Rule<N>)
    requires StableFields(fields) && forall v :: rule(v) == StrictObject(fields, v)
    ensures Stable(rule)
  {
    forall v | rule(v).Some?
      ensures var w := rule(v).value; Supported(w) && WellKeyed(w) && rule(w) == Some(w)
    {
      CollectedEntries(fields, v.entries);
      CollectAgain(fields, v.entries);
    }
  }

  // ---------------------------------------------------------------------------------------------
  // Leaf rules

  function CheckedText<N>(ok: Text -> bool, v: Value<N>): Option<Value<N>> {
    if v.Str? && ok(v.s) then Some(v) else None
  }

  function TrimmedText<N>(min: nat, max: nat, v: Value<N>): Option<Value<N>> {
    if v.Str? && min <= |Trim(v.s)| <= max then Some(Str(Trim(v.s))) else None
  }

  lemma CheckedTextStable<N(!new)>(ok: Text -> bool)
    ensures Stable((v: Value<N>) => CheckedText(ok, v))
  {
  }

  lemma TrimmedTextStable<N(!new)>(min: nat, max: nat)
    ensures Stable((v: Value<N>) => TrimmedText(min, max, v))
  {
    forall v: Value<N> | TrimmedText(min, max, v).Some?
      ensures TrimmedText(min, max, TrimmedText(min, max, v).value) == TrimmedText(min, max, v)
    {
      WhiteSpace.TrimIdempotent(IsWhiteUnit, v.s);
    }
  }
}

/** The setup handoff: a schema-checked record printed as JSON behind a prefix and an expiry. */
module SetupHandoff {
  import opened Wrappers
  import opened JsonText
  import opened JsonValue
  import opened CanonicalJson
  import opened StrictSchema
  import CanonicalPrinter
  import Base64Url
  import Utf8

  const PREFIX: Text := Ascii("planweave-agent-host-setup:")
  const VERSION: Text := Ascii("agent-host-setup/v2")
  const EXPIRES_AT: Text := Ascii("expiresAt")

  /** The field rules defined elsewhere, and how a timestamp is read. */
  datatype Rules<!N> = Rules(
    endpoint: Rule<N>, policy: Rule<N>, isIdentifier: Text -> bool, isCode: Text -> bool, isDatetime: Text -> bool, time: Text -> int)

  function DisplayFields<N>(): seq<Field<N>> {
    [Field(Ascii("workspaceName"), false, (v: Value<N>) => TrimmedText(1, 128, v)),
     Field(Ascii("serverName"), false, (v: Value<N>) => TrimmedText(1, 128, v))]
  }

  function HandoffFields<N>(r: Rules<N>): (fs: seq<Field<N>>) {
    [Field(Ascii("version"), false, (v: Value<N>) => CheckedText(t => t == VERSION, v)),
     Field(Ascii("endpoint"), false, r.endpoint),
     Field(Ascii("workspaceId"), true, (v: Value<N>) => CheckedText(r.isIdentifier, v)),
     Field(Ascii("enrollmentCode"), false, (v: Value<N>) => CheckedText(r.isCode, v)),
     Field(EXPIRES_AT, false, (v: Value<N>) => CheckedText(r.isDatetime, v)),
     Field(Ascii("credentialExpiresAt"), false, (v: Value<N>) => CheckedText(r.isDatetime, v)),
     Field(Ascii("credentialPolicy"), false, r.policy),
     Field(Ascii("display"), false, (v: Value<N>) => StrictObject(DisplayFields(), v))]
  }

  function Handoff<N>(r: Rules<N>, v: Value<N>): Option<Value<N>> {
    StrictObject(HandoffFields(r), v)
  }

  lemma HandoffFieldsStable<N(!new)>(r: Rules<N>)
    requires Stable(r.endpoint) && Stable(r.policy)
    ensures StableFields(HandoffFields(r))
  {
    var fs := HandoffFields(r);
    CheckedTextStable<N>(t => t == VERSION);
    CheckedTextStable<N>(r.isIdentifier);
    CheckedTextStable<N>(r.isCode);
    CheckedTextStable<N>(r.isDatetime);
    TrimmedTextStable<N>(1, 128);
    var ds := DisplayFields<N>();
    assert StableFields(ds);
    StrictObjectStable(ds, fs[7].rule);
    assert fs[0].name[0] != fs[7].name[0];
  }

  /** A text of the given kind. */
  ghost predicate IsTextOf<N>(v: Option<Value<N>>, ok: Text -> bool) {
    v.Some? && v.value.Str? && ok(v.value.s)
  }

  /** A text of 1 to 128 units once trimmed. */
  ghost predicate IsShortText<N>(v: Option<Value<N>>) {
    v.Some? && v.value.Str? && 1 <= |Trim(v.value.s)| <= 128
  }

  ghost predicate IsDisplay<N>(v: Value<N>) {
    && v.Obj? && (forall k :: 0 <= k < |v.entries| ==> v.entries[k].0 == Ascii("workspaceName") || v.entries[k].0 == Ascii("serverName"))
    && IsShortText(Lookup(v.entries, Ascii("workspaceName"))) && IsShortText(Lookup(v.entries, Ascii("serverName")))
  }

  ghost predicate HandoffKey(key: Text) {
    || key == Ascii("version") || key == Ascii("endpoint") || key == Ascii("workspaceId") || key == Ascii("enrollmentCode")
    || key == Ascii("expiresAt") || key == Ascii("credentialExpiresAt") || key == Ascii("credentialPolicy") || key == Ascii("display")
  }

  lemma DisplayAccepts<N>(v: Value<N>)
    ensures StrictObject(DisplayFields(), v).Some? <==> IsDisplay(v)
  {
    var fs := DisplayFields<N>();
    StrictObjectAccepts(fs, v);
    assert |fs| == 2 && fs[0].name == Ascii("workspaceName") && fs[1].name == Ascii("serverName");
    if v.Obj? {
      assert forall key :: Known(fs, key) <==> key == fs[0].name || key == fs[1].name;
      assert Passes(fs[0], v.entries) <==> IsShortText(Lookup(v.entries, fs[0].name));
      assert Passes(fs[1], v.entries) <==> IsShortText(Lookup(v.entries, fs[1].name));
    }
  }

  /** The handoffs that are accepted. */
  ghost predicate IsHandoff<N>(r: Rules<N>, v: Value<N>) {
    && v.Obj? && (forall k :: 0 <= k < |v.entries| ==> HandoffKey(v.entries[k].0))
    && var es := v.entries;
       && Lookup(es, Ascii("version")) == Some(Str(Ascii("agent-host-setup/v2")))
       && Lookup(es, Ascii("endpoint")).Some? && r.endpoint(Lookup(es, Ascii("endpoint")).value).Some?
       && (Lookup(es, Ascii("workspaceId")).None? || IsTextOf(Lookup(es, Ascii("workspaceId")), r.isIdentifier))
       && IsTextOf(Lookup(es, Ascii("enrollmentCode")), r.isCode)
       && IsTextOf(Lookup(es, Ascii("expiresAt")), r.isDatetime) && IsTextOf(Lookup(es, Ascii("credentialExpiresAt")), r.isDatetime)
       && Lookup(es, Ascii("credentialPolicy")).Some? && r.policy(Lookup(es, Ascii("credentialPolicy")).value).Some?
       && Lookup(es, Ascii("display")).Some? && IsDisplay(Lookup(es, Ascii("display")).value)
  }

  lemma HandoffNames<N>(r: Rules<N>)
    ensures var fs := HandoffFields(r);
            && |fs| == 8 && fs[0].name == Ascii("version") && fs[1].name == Ascii("endpoint") && fs[2].name == Ascii("workspaceId")
            && fs[3].name == Ascii("enrollmentCode") && fs[4].name == Ascii("expiresAt") && fs[5].name == Ascii("credentialExpiresAt")
            && fs[6].name == Ascii("credentialPolicy") && fs[7].name == Ascii("display")
            && forall key :: Known(fs, key) <==> HandoffKey(key)
  {
    var fs := HandoffFields(r);
    forall key ensures Known(fs, key) <==> HandoffKey(key) {
      assert HandoffKey(key) <==>
             key == fs[0].name || key == fs[1].name || key == fs[2].name || key == fs[3].name ||
             key == fs[4].name || key == fs[5].name || key == fs[6].name || key == fs[7].name;
    }
  }

  /** The schema accepts exactly the objects with these fields and no others. */
  lemma HandoffAccepts<N>(r: Rules<N>, v: Value<N>)
    ensures Handoff(r, v).Some? <==> IsHandoff(r, v)
  {
    var fs := HandoffFields(r);
    StrictObjectAccepts(fs, v);
    HandoffNames(r);
    if v.Obj? {
      var es := v.entries;
      TextFieldsPass(r, es);
      OtherFieldsPass(r, es);
      AllEight(fs, es);
    }
  }

  lemma AllEight<N>(fs: seq<Field<N>>, es: seq<(Text, Value<N>)>)
    requires |fs| == 8
    ensures (forall i :: 0 <= i < |fs| ==> Passes(fs[i], es)) <==>
            && Passes(fs[0], es) && Passes(fs[1], es) && Passes(fs[2], es) && Passes(fs[3], es)
            && Passes(fs[4], es) && Passes(fs[5], es) && Passes(fs[6], es) && Passes(fs[7], es)
  {
  }

  /** What each field asks for: those that hold texts, then the others. */
  lemma TextFieldsPass<N>(r: Rules<N>, es: seq<(Text, Value<N>)>)
    ensures var fs := HandoffFields(r);
            && |fs| == 8
            && (Passes(fs[0], es) <==> Lookup(es, fs[0].name) == Some(Str(Ascii("agent-host-setup/v2"))))
            && (Passes(fs[2], es) <==> Lookup(es, fs[2].name).None? || IsTextOf(Lookup(es, fs[2].name), r.isIdentifier))
            && (Passes(fs[3], es) <==> IsTextOf(Lookup(es, fs[3].name), r.isCode))
            && (Passes(fs[4], es) <==> IsTextOf(Lookup(es, fs[4].name), r.isDatetime))
            && (Passes(fs[5], es) <==> IsTextOf(Lookup(es, fs[5].name), r.isDatetime))
  {
    var fs := HandoffFields(r);
    assert Passes(fs[0], es) <==> Lookup(es, fs[0].name) == Some(Str(VERSION));
  }

  lemma OtherFieldsPass<N>(r: Rules<N>, es: seq<(Text, Value<N>)>)
    ensures var fs := HandoffFields(r);
            && |fs| == 8
            && (Passes(fs[1], es) <==> Lookup(es, fs[1].name).Some? && r.endpoint(Lookup(es, fs[1].name).value).Some?)
            && (Passes(fs[6], es) <==> Lookup(es, fs[6].name).Some? && r.policy(Lookup(es, fs[6].name).value).Some?)
            && (Passes(fs[7], es) <==> Lookup(es, fs[7].name).Some? && IsDisplay(Lookup(es, fs[7].name).value))
  {
    var fs := HandoffFields(r);
    if Lookup(es, fs[7].name).Some? {
      DisplayAccepts(Lookup(es, fs[7].name).value);
    }
  }

  lemma NamesDiffer<N>(r: Rules<N>)
    ensures DistinctNames(HandoffFields(r)) && DistinctNames(DisplayFields<N>())
  {
    HandoffNames(r);
    assert HandoffFields(r)[0].name[0] != HandoffFields(r)[7].name[0];
  }

  /** The display with its two names trimmed. */
  ghost predicate IsTrimmedDisplay<N>(v: Value<N>, w: Value<N>)
    requires IsDisplay(v)
  {
    && w.Obj? && (forall k :: 0 <= k < |w.entries| ==> Known(DisplayFields<N>(), w.entries[k].0)) && InOrder(DisplayFields<N>(), w.entries)
    && (forall name :: name == Ascii("workspaceName") || name == Ascii("serverName") ==>
          Lookup(w.entries, name) == Some(Str(Trim(Lookup(v.entries, name).value.s))))
  }

  lemma DisplayMakes<N>(v: Value<N>)
    requires IsDisplay(v)
    ensures StrictObject(DisplayFields(), v).Some? && IsTrimmedDisplay(v, StrictObject(DisplayFields(), v).value)
  {
    var fs := DisplayFields<N>();
    DisplayAccepts(v);
    assert fs[0].name == Ascii("workspaceName") && fs[1].name == Ascii("serverName");
    StrictObjectMakes(fs, v);
    assert Made(fs[0], v.entries) == Some(Str(Trim(Lookup(v.entries, fs[0].name).value.s)));
    assert Made(fs[1], v.entries) == Some(Str(Trim(Lookup(v.entries, fs[1].name).value.s)));
  }

  /** The accepted record keeps the texts as they were, has the endpoint and the policy as their rules
      make them and the display names trimmed, and lists its fields in order. */
  lemma HandoffMakes<N>(r: Rules<N>, v: Value<N>)
    requires IsHandoff(r, v)
    ensures Handoff(r, v).Some? && Handoff(r, v).value.Obj?
    ensures var es, out := v.entries, Handoff(r, v).value.entries;
            && InOrder(HandoffFields(r), out) && (forall k :: 0 <= k < |out| ==> HandoffKey(out[k].0))
            && Lookup(out, Ascii("version")) == Lookup(es, Ascii("version")) && Lookup(out, Ascii("workspaceId")) == Lookup(es, Ascii("workspaceId"))
            && Lookup(out, Ascii("enrollmentCode")) == Lookup(es, Ascii("enrollmentCode"))
            && Lookup(out, Ascii("expiresAt")) == Lookup(es, Ascii("expiresAt"))
            && Lookup(out, Ascii("credentialExpiresAt")) == Lookup(es, Ascii("credentialExpiresAt"))
            && Lookup(out, Ascii("endpoint")) == r.endpoint(Lookup(es, Ascii("endpoint")).value)
            && Lookup(out, Ascii("credentialPolicy")) == r.policy(Lookup(es, Ascii("credentialPolicy")).value)
            && Lookup(out, Ascii("display")).Some? && IsTrimmedDisplay(Lookup(es, Ascii("display")).value, Lookup(out, Ascii("display")).value)
  {
    var fs := HandoffFields(r);
    HandoffAccepts(r, v);
    HandoffNames(r);
    NamesDiffer(r);
    StrictObjectMakes(fs, v);
    FieldsMake(r, v.entries);
    var out := Handoff(r, v).value.entries;
    assert forall i :: 0 <= i < |fs| ==> Lookup(out, fs[i].name) == Made(fs[i], v.entries);
  }

  lemma FieldsMake<N>(r: Rules<N>, es: seq<(Text, Value<N>)>)
    requires IsHandoff(r, Obj(es))
    ensures var fs := HandoffFields(r);
            && |fs| == 8
            && Made(fs[0], es) == Lookup(es, Ascii("version")) && Made(fs[1], es) == r.endpoint(Lookup(es, Ascii("endpoint")).value)
            && Made(fs[2], es) == Lookup(es, Ascii("workspaceId")) && Made(fs[3], es) == Lookup(es, Ascii("enrollmentCode"))
            && Made(fs[4], es) == Lookup(es, Ascii("expiresAt")) && Made(fs[5], es) == Lookup(es, Ascii("credentialExpiresAt"))
            && Made(fs[6], es) == r.policy(Lookup(es, Ascii("credentialPolicy")).value)
            && Made(fs[7], es).Some? && IsTrimmedDisplay(Lookup(es, Ascii("display")).value, Made(fs[7], es).value)
  {
    HandoffNames(r);
    DisplayMakes(Lookup(es, Ascii("display")).value);
  }

  // ---------------------------------------------------------------------------------------------
  // Serializing and parsing

  datatype HandoffError = PrefixInvalid | Invalid | Expired

  /** Fails exactly where the schema does. */
  function Serialize<N>(c: NumCodec<N>, r: Rules<N>, input: Value<N>): Option<Text> {
    var value := Handoff(r, input);
    if value.None? then None else Some(PREFIX + Base64Url.Encoded(Print(c, value.value)))
  }

  function ExpiryOf<N>(r: Rules<N>, v: Value<N>): Option<int> {
    if !v.Obj? then None
    else
      var at := Lookup(v.entries, EXPIRES_AT);
      if at.Some? && at.value.Str? then Some(r.time(at.value.s)) else None
  }

  /** `read` stands for `JSON.parse`. */
  function Parse<N>(read: Text -> Option<Value<N>>, r: Rules<N>, t: Text, now: int): Result<Value<N>, HandoffError> {
    if !(PREFIX <= t) then Err(PrefixInvalid)
    else
      var text := Base64Url.Decoded(t[|PREFIX|..]);
      var decoded := if text.None? then None else read(text.value);
      if decoded.None? then Err(Invalid)
      else
        var parsed := Handoff(r, decoded.value);
        if parsed.None? then Err(Invalid)
        else
          var expiry := ExpiryOf(r, parsed.value);
          if expiry.Some? && expiry.value <= now then Err(Expired) else Ok(parsed.value)
  }

  /** The reader gives back this value from its text. It may list the keys of other values in an order
      of its own, as `JSON.parse` does with integer-like keys. */
  predicate ReadsBack<N(==)>(c: NumCodec<N>, read: Text -> Option<Value<N>>, v: Value<N>) {
    read(Print(c, v)) == Some(v)
  }

  /** The JSON parser of this model reads back every value. */
  lemma ParserReads<N(!new)>(c: NumCodec<N>, v: Value<N>)
    requires Faithful(c) && Supported(v)
    ensures ReadsBack(c, (t: Text) => CanonicalJson.Parse(c, t), v)
  {
    ParsePrinted(c, v, []);
    assert Print(c, v) + [] == Print(c, v);
  }

  lemma HandoffStable<N(!new)>(r: Rules<N>, input: Value<N>)
    requires Stable(r.endpoint) && Stable(r.policy) && Handoff(r, input).Some?
    ensures var w := Handoff(r, input).value; w.Obj? && Supported(w) && WellKeyed(w) && Handoff(r, w) == Some(w)
  {
    HandoffFieldsStable(r);
    var rule := (v: Value<N>) => Handoff(r, v);
    StrictObjectStable(HandoffFields(r), rule);
    assert rule(input).Some?;
  }

  /** A JSON object text survives the codec. */
  lemma ObjectTextRoundTrip<N(!new)>(c: NumCodec<N>, v: Value<N>)
    requires Faithful(c) && v.Obj?
    ensures Base64Url.Decoded(Base64Url.Encoded(Print(c, v))) == Some(Print(c, v))
  {
    CanonicalPrinter.PrintIsWellFormed(c, v);
    assert Print(c, v)[0] == OPEN_OBJ;
    Base64Url.RoundTrip(Print(c, v));
  }

  lemma {:induction false} CollectFinds<N(!new)>(fields: seq<Field<N>>, es: seq<(Text, Value<N>)>, k: nat)
    requires StableFields(fields) && Collect(fields, es).Some? && k < |fields| && !fields[k].optional
    ensures var found, out := Lookup(es, fields[k].name), Lookup(Collect(fields, es).value, fields[k].name);
            found.Some? && out.Some? && fields[k].rule(found.value) == out
  {
    var f, tail := fields[0], fields[1..];
    CollectedEntries(fields, es);
    if k == 0 {
      LookupSkips((f.name, f.rule(Lookup(es, f.name).value).value), Collect(tail, es).value, f.name);
    } else {
      CollectFinds(tail, es, k - 1);
      assert tail[k - 1] == fields[k];
      if Lookup(es, f.name).Some? {
        LookupSkips((f.name, f.rule(Lookup(es, f.name).value).value), Collect(tail, es).value, fields[k].name);
      }
    }
  }

  /** An accepted handoff has an expiry. */
  lemma HandoffHasExpiry<N(!new)>(r: Rules<N>, input: Value<N>)
    requires Stable(r.endpoint) && Stable(r.policy) && Handoff(r, input).Some?
    ensures ExpiryOf(r, Handoff(r, input).value).Some?
  {
    HandoffFieldsStable(r);
    CollectFinds(HandoffFields(r), input.entries, 4);
  }

  lemma BehindPrefix(prefix: Text, rest: Text)
    ensures prefix <= prefix + rest && (prefix + rest)[|prefix|..] == rest
  {
  }

  /** A text is rejected for its prefix, or as invalid when what follows does not decode, is no JSON or
      no handoff. Otherwise the accepted record is returned before its expiry and refused from then on. */
  lemma ParseDecides<N(!new)>(read: Text -> Option<Value<N>>, r: Rules<N>, t: Text, now: int)
    requires Stable(r.endpoint) && Stable(r.policy)
    ensures var p, v := Parse(read, r, t, now), Carried(read, t);
            if !(Ascii("planweave-agent-host-setup:") <= t) then p == Err(PrefixInvalid)
            else if v.None? || !IsHandoff(r, v.value) then p == Err(Invalid)
            else if r.time(ExpiryText(r, v.value)) <= now then p == Err(Expired)
            else p.Ok? && Handoff(r, v.value) == Some(p.value)
  {
    var v := Carried(read, t);
    if v.Some? {
      HandoffAccepts(r, v.value);
      if IsHandoff(r, v.value) {
        HandoffMakes(r, v.value);
      }
    }
  }

  /** The JSON value that a text carries behind the prefix, if any. */
  ghost function Carried<N>(read: Text -> Option<Value<N>>, t: Text): Option<Value<N>> {
    if !(Ascii("planweave-agent-host-setup:") <= t) then None
    else
      var text := Base64Url.Decoded(t[27..]);
      if text.None? then None else read(text.value)
  }

  ghost function ExpiryText<N>(r: Rules<N>, v: Value<N>): Text
    requires IsHandoff(r, v)
  {
    Lookup(v.entries, Ascii("expiresAt")).value.s
  }

  /** Parsing a serialized handoff returns the accepted record while it has not expired, and reports
      the expiry from that moment on. */
  lemma ParseSerialized<N(!new)>(c: NumCodec<N>, read: Text -> Option<Value<N>>, r: Rules<N>, input: Value<N>, now: int)
    requires Faithful(c) && Stable(r.endpoint) && Stable(r.policy)
    requires Handoff(r, input).Some? && ReadsBack(c, read, Handoff(r, input).value)
    ensures var w := Handoff(r, input).value;
            && ExpiryOf(r, w).Some?
            && Serialize(c, r, input).Some?
            && Serialize(c, r, input).value == Ascii("planweave-agent-host-setup:") + Base64Url.Encoded(Print(c, w))
            && Parse(read, r, Serialize(c, r, input).value, now) == if now < ExpiryOf(r, w).value then Ok(w) else Err(Expired)
  {
    var w := Handoff(r, input).value;
    HandoffStable(r, input);
    HandoffHasExpiry(r, input);
    ObjectTextRoundTrip(c, w);
    BehindPrefix(PREFIX, Base64Url.Encoded(Print(c, w)));
  }
}
