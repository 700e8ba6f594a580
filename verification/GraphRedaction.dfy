/** `redactStructuredValue` as it runs: a depth-first walk that keeps its ancestors in a mutable set. */
module GraphRedaction {
  import opened Wrappers
  import opened JsonText
  import opened RedactionKeys
  import opened TreeRedaction
  import opened ObjectGraph

  class AncestorSet {
    var members: set<Id>

    constructor ()
      ensures members == {}
    {
      members := {};
    }
  }

  /** Both parts succeeded, and one follows the other. */
  function Then<T>(x: Option<seq<T>>, y: Option<seq<T>>): Option<seq<T>> {
    if x.None? || y.None? then None else Some(x.value + y.value)
  }

  lemma ThenOne<T>(head: T, x: Option<seq<T>>, y: Option<seq<T>>)
    ensures Then(Then(Some([head]), x), y) == Then(Some([head]), Then(x, y))
  {
    if x.Some? && y.Some? {
      assert [head] + x.value + y.value == [head] + (x.value + y.value);
    }
  }

  lemma ThenNil<T>(x: Option<seq<T>>)
    ensures Then(Some([]), x) == x && Then(x, Some([])) == x
  {
    if x.Some? {
      assert [] + x.value == x.value && x.value + [] == x.value;
    }
  }

  lemma {:induction false} ItemsConcat<N>(f: TextRedactor, acp: bool, l: Location, a: seq<Tree<N>>, b: seq<Tree<N>>)
    ensures RedactItems(f, acp, l, a + b) == Then(RedactItems(f, acp, l, a), RedactItems(f, acp, l, b))
  {
    if a == [] {
      assert a + b == b;
      ThenNil(RedactItems(f, acp, l, b));
    } else {
      ItemsConcat(f, acp, l, a[1..], b);
      assert (a + b)[1..] == a[1..] + b;
      var head := Redact(f, acp, None, l, a[0]);
      if head.Some? {
        ThenOne(head.value, RedactItems(f, acp, l, a[1..]), RedactItems(f, acp, l, b));
      }
    }
  }

  lemma {:induction false} EntriesConcat<N>(f: TextRedactor, acp: bool, terminal: bool, a: seq<(Text, Tree<N>)>, b: seq<(Text, Tree<N>)>)
    ensures RedactEntries(f, acp, terminal, a + b) == Then(RedactEntries(f, acp, terminal, a), RedactEntries(f, acp, terminal, b))
  {
    if a == [] {
      assert a + b == b;
      ThenNil(RedactEntries(f, acp, terminal, b));
    } else {
      EntriesConcat(f, acp, terminal, a[1..], b);
      assert (a + b)[1..] == a[1..] + b;
      var head := RedactEntry(f, acp, a[0]);
      if !Dropped(terminal, a[0].0) && head.Some? {
        ThenOne((a[0].0, head.value), RedactEntries(f, acp, terminal, a[1..]), RedactEntries(f, acp, terminal, b));
      }
    }
  }

  function One<T>(x: Option<T>): Option<seq<T>> {
    if x.None? then None else Some([x.value])
  }

  /** The next item decides the next prefix, and a failure decides the whole. */
  lemma NextItem<N>(f: TextRedactor, acp: bool, l: Location, ts: seq<Tree<N>>, k: nat)
    requires k < |ts|
    ensures var y := Redact(f, acp, None, l, ts[k]);
            && RedactItems(f, acp, l, ts[..k + 1]) == Then(RedactItems(f, acp, l, ts[..k]), One(y))
            && (y.None? ==> RedactItems(f, acp, l, ts).None?)
  {
    ItemsConcat(f, acp, l, ts[..k], [ts[k]]);
    assert ts[..k] + [ts[k]] == ts[..k + 1];
    ThenNil(One(Redact(f, acp, None, l, ts[k])));
    assert RedactItems(f, acp, l, [ts[k]]) == One(Redact(f, acp, None, l, ts[k]));
    ItemsConcat(f, acp, l, ts[..k + 1], ts[k + 1..]);
    assert ts[..k + 1] + ts[k + 1..] == ts;
  }

  function EntryPart<N>(f: TextRedactor, acp: bool, terminal: bool, e: (Text, Tree<N>)): Option<seq<(Text, Tree<N>)>> {
    if Dropped(terminal, e.0) then Some([])
    else if RedactEntry(f, acp, e).None? then None
    else Some([(e.0, RedactEntry(f, acp, e).value)])
  }

  lemma NextEntry<N>(f: TextRedactor, acp: bool, terminal: bool, es: seq<(Text, Tree<N>)>, k: nat)
    requires k < |es|
    ensures var y := EntryPart(f, acp, terminal, es[k]);
            && RedactEntries(f, acp, terminal, es[..k + 1]) == Then(RedactEntries(f, acp, terminal, es[..k]), y)
            && (y.None? ==> RedactEntries(f, acp, terminal, es).None?)
  {
    EntriesConcat(f, acp, terminal, es[..k], [es[k]]);
    assert es[..k] + [es[k]] == es[..k + 1];
    ThenNil(EntryPart(f, acp, terminal, es[k]));
    assert RedactEntries(f, acp, terminal, [es[k]]) == EntryPart(f, acp, terminal, es[k]);
    EntriesConcat(f, acp, terminal, es[..k + 1], es[k + 1..]);
    assert es[..k + 1] + es[k + 1..] == es;
  }

  predicate IsTerminalNode<N>(es: seq<(Text, Value<N>)>) {
    exists i :: 0 <= i < |es| && es[i].0 == TYPE && es[i].1 == Value.Str(TERMINAL)
  }

  lemma TerminalSurvivesCut<N>(h: Heap<N>, ancestors: set<Id>, es: seq<(Text, Value<N>)>)
    ensures IsTerminal(CutEntries(h, ancestors, es)) <==> IsTerminalNode(es)
  {
    var cut := CutEntries(h, ancestors, es);
    if IsTerminal(cut) {
      var i :| 0 <= i < |cut| && cut[i].0 == TYPE && cut[i].1 == Tree.Str(TERMINAL);
      assert cut[i] == (es[i].0, Cut(h, ancestors, es[i].1));
    }
    if IsTerminalNode(es) {
      var i :| 0 <= i < |es| && es[i].0 == TYPE && es[i].1 == Value.Str(TERMINAL);
      assert cut[i] == (es[i].0, Cut(h, ancestors, es[i].1));
    }
  }

  lemma RedactArrayNode<N>(f: TextRedactor, acp: bool, key: Option<Text>, l: Location, h: Heap<N>, ancestors: set<Id>, id: Id)
    requires !Hidden(key) && id in h && h[id].ArrayNode? && id !in ancestors
    ensures var r := RedactItems(f, acp, ItemLocation(l), CutItems(h, ancestors + {id}, h[id].items));
            Redact(f, acp, key, l, Cut(h, ancestors, Ref(id))) == if r.None? then None else Some(Items(r.value))
  {
  }

  lemma RedactRecordNode<N>(f: TextRedactor, acp: bool, key: Option<Text>, l: Location, h: Heap<N>, ancestors: set<Id>, id: Id)
    requires !Hidden(key) && id in h && h[id].RecordNode? && id !in ancestors
    ensures var terminal := acp && l == AuthMethod && IsTerminalNode(h[id].entries);
            var r := RedactEntries(f, acp, terminal, CutEntries(h, ancestors + {id}, h[id].entries));
            Redact(f, acp, key, l, Cut(h, ancestors, Ref(id))) == if r.None? then None else Some(Record(r.value))
  {
    TerminalSurvivesCut(h, ancestors + {id}, h[id].entries);
  }

  lemma CutLeaf<N>(f: TextRedactor, acp: bool, key: Option<Text>, l: Location, h: Heap<N>, ancestors: set<Id>, v: Value<N>)
    ensures IsIdentityValue(Cut(h, ancestors, v)) <==> v.Str? || v.Num? || v.Null?
    ensures !v.Ref? ==> Cut(h, ancestors, v) == Cut(h, {}, v)
    ensures v.Ref? && !Hidden(key) && (At(h, v.id).ExoticNode? || v.id in ancestors) ==>
              Redact(f, acp, key, l, Cut(h, ancestors, v)) == Some(Tree.Str(SENSITIVE_CONTENT))
  {
  }

  /** On every finite graph the walk ends, computes the redaction of the tree with cycles cut, and on
      a normal return leaves the ancestors as it found them. */
  method RedactStructured<N>(f: TextRedactor, h: Heap<N>, v: Value<N>, key: Option<Text>, ancestors: AncestorSet, acp: bool, l: Location)
    returns (r: Option<Tree<N>>)
    modifies ancestors
    ensures r == Redact(f, acp, key, l, Cut(h, old(ancestors.members), v))
    ensures r.Some? ==> ancestors.members == old(ancestors.members)
    decreases Unvisited(h, ancestors.members), 0, 1
  {
    // A value that is not a reference is its own tree, whatever the ancestors.
    CutLeaf(f, acp, key, l, h, ancestors.members, v);
    if key.Some? && IsIdentityKey(key.value) && (v.Str? || v.Num? || v.Null?) {
      return Some(Cut(h, {}, v));
    }
    if key.Some? && IsSensitiveKey(key.value) {
      return Some(Tree.Str(CREDENTIAL));
    }
    if v.Str? {
      return RedactText(f, v.s);
    }
    if v.Ref? {
      r := RedactObject(f, h, v.id, key, ancestors, acp, l);
    } else {
      r := Some(Cut(h, {}, v));
    }
  }

  method RedactObject<N>(f: TextRedactor, h: Heap<N>, id: Id, key: Option<Text>, ancestors: AncestorSet, acp: bool, l: Location)
    returns (r: Option<Tree<N>>)
    requires !Hidden(key)
    modifies ancestors
    ensures r == Redact(f, acp, key, l, Cut(h, old(ancestors.members), Ref(id)))
    ensures r.Some? ==> ancestors.members == old(ancestors.members)
    decreases Unvisited(h, ancestors.members), 0, 0
  {
    ghost var before := ancestors.members;
    CutLeaf(f, acp, key, l, h, before, Ref(id));
    if At(h, id).ExoticNode? || id in ancestors.members {
      return Some(Tree.Str(SENSITIVE_CONTENT));
    }
    FewerUnvisited(h, before, id);
    assert before + {id} - {id} == before;
    ancestors.members := ancestors.members + {id};
    if h[id].ArrayNode? {
      RedactArrayNode(f, acp, key, l, h, before, id);
      var items := RedactArray(f, h, h[id].items, ancestors, acp, ItemLocation(l));
      if items.None? {
        return None;
      }
      r := Some(Items(items.value));
    } else {
      RedactRecordNode(f, acp, key, l, h, before, id);
      var entries := RedactRecord(f, h, h[id].entries, ancestors, acp, acp && l == AuthMethod && IsTerminalNode(h[id].entries));
      if entries.None? {
        return None;
      }
      r := Some(Record(entries.value));
    }
    ancestors.members := ancestors.members - {id};
  }

  method RedactArray<N>(f: TextRedactor, h: Heap<N>, vs: seq<Value<N>>, ancestors: AncestorSet, acp: bool, l: Location)
    returns (r: Option<seq<Tree<N>>>)
    modifies ancestors
    ensures r == RedactItems(f, acp, l, CutItems(h, old(ancestors.members), vs))
    ensures r.Some? ==> ancestors.members == old(ancestors.members)
    decreases Unvisited(h, ancestors.members), 1, 0
  {
    ghost var before := ancestors.members;
    ghost var cut := CutItems(h, before, vs);
    var out := [];
    for k := 0 to |vs|
      invariant ancestors.members == before
      invariant RedactItems(f, acp, l, cut[..k]) == Some(out)
    {
      NextItem(f, acp, l, cut, k);
      assert cut[k] == Cut(h, before, vs[k]);
      var item := RedactStructured(f, h, vs[k], None, ancestors, acp, l);
      if item.None? {
        return None;
      }
      out := out + [item.value];
    }
    assert cut[..|vs|] == cut;
    return Some(out);
  }

  method RedactRecord<N>(f: TextRedactor, h: Heap<N>, es: seq<(Text, Value<N>)>, ancestors: AncestorSet, acp: bool, terminal: bool)
    returns (r: Option<seq<(Text, Tree<N>)>>)
    modifies ancestors
    ensures r == RedactEntries(f, acp, terminal, CutEntries(h, old(ancestors.members), es))
    ensures r.Some? ==> ancestors.members == old(ancestors.members)
    decreases Unvisited(h, ancestors.members), 1, 0
  {
    ghost var cut := CutEntries(h, ancestors.members, es);
    var out := [];
    for k := 0 to |es|
      invariant ancestors.members == old(ancestors.members)
      invariant RedactEntries(f, acp, terminal, cut[..k]) == Some(out)
    {
      var key := es[k].0;
      NextEntry(f, acp, terminal, cut, k);
      ThenNil(Some(out));
      if !(key == META || (terminal && key == ENV)) {
        var value := RedactStructured(f, h, es[k].1, Some(key), ancestors, acp, EntryLocation(acp, key));
        if value.None? {
          return None;
        }
        out := out + [(key, value.value)];
      }
    }
    assert cut[..|es|] == cut;
    return Some(out);
  }

  /** The two entry points: `acp` is false for runner events and true for protocol payloads. */
  method RedactPayload<N(!new)>(f: TextRedactor, h: Heap<N>, v: Value<N>, acp: bool) returns (r: Option<Tree<N>>)
    ensures r == Redact(f, acp, None, Ordinary, Cut(h, {}, v))
    ensures r.Some? && TerminalIsOriginal(f) ==> Safe(acp, Ordinary, r.value)
    ensures r.Some? ==> Clean(f, None, r.value)
    ensures forall t :: Unfolds(h, v, t) ==> r == Redact(f, acp, None, Ordinary, t)
  {
    var ancestors := new AncestorSet();
    r := RedactStructured(f, h, v, None, ancestors, acp, Ordinary);
    if r.Some? {
      OutputIsClean(f, acp, None, Ordinary, Cut(h, {}, v));
    }
    if r.Some? && TerminalIsOriginal(f) {
      OutputIsSafe(f, acp, None, Ordinary, Cut(h, {}, v));
    }
    forall t | Unfolds(h, v, t) ensures r == Redact(f, acp, None, Ordinary, t) {
      UnfoldingIsCut(h, {}, v, t);
    }
  }
}
