/** The token map behind the OAuth token stores and the sequential meaning of every operation on it. */
module TokenStore {
  import opened Wrappers

  datatype Kind = Access | Refresh

  datatype Token = Token(
    kind: Kind, hash: string, clientId: string, expiresAt: int, resource: string, scope: string)

  type Tokens = map<string, Token>

  /** `set(token)` of the source is `SetMany([token])`. */
  datatype Op =
    | SetMany(tokens: seq<Token>)
    | Delete(hash: string)
    | Replace(hash: string, replacements: seq<Token>)

  ghost predicate WellKeyed(m: Tokens) {
    forall h :: h in m ==> m[h].hash == h
  }

  function Lookup(m: Tokens, h: string): Option<Token> {
    if h in m then Some(m[h]) else None
  }

  /** The effect of the insertion loops: later tokens of the list win. */
  function SetAll(m: Tokens, ts: seq<Token>): Tokens {
    if ts == [] then m
    else var last := ts[|ts| - 1]; SetAll(m, ts[..|ts| - 1])[last.hash := last]
  }

  function Without(m: Tokens, h: string): Tokens {
    m - {h}
  }

  predicate Live(m: Tokens, h: string, now: int) {
    h in m && m[h].expiresAt > now
  }

  /** The map after `op` ran on `m` at clock value `now`. */
  function Apply(op: Op, m: Tokens, now: int): Tokens {
    match op
    case SetMany(ts) => SetAll(m, ts)
    case Delete(h) => Without(m, h)
    case Replace(h, ts) => if Live(m, h, now) then SetAll(Without(m, h), ts) else Without(m, h)
  }

  /** What the caller of `op` is given back. */
  function ResultOf(op: Op, m: Tokens, now: int): Option<Token> {
    match op
    case Replace(h, _) => if Live(m, h, now) then Some(m[h]) else None
    case _ => None
  }

  /** The map without the tokens that have expired at `now`. */
  function Purge(m: Tokens, now: int): Tokens {
    map h | h in m && m[h].expiresAt > now :: m[h]
  }

  /** What a committed write of the file store leaves behind. */
  function Write(op: Op, m: Tokens, opTime: int, persistTime: int): Tokens {
    Purge(Apply(op, m, opTime), persistTime)
  }

  lemma {:induction false} SetAllKeepsKeys(m: Tokens, ts: seq<Token>)
    requires WellKeyed(m)
    ensures WellKeyed(SetAll(m, ts))
  {
    if ts != [] {
      SetAllKeepsKeys(m, ts[..|ts| - 1]);
    }
  }

  lemma ApplyKeepsKeys(op: Op, m: Tokens, now: int)
    requires WellKeyed(m)
    ensures WellKeyed(Apply(op, m, now))
  {
    match op
    case SetMany(ts) => SetAllKeepsKeys(m, ts);
    case Delete(h) =>
    case Replace(h, ts) => SetAllKeepsKeys(Without(m, h), ts);
  }

  /** Every token of the result was in the map before or is one the operation brought. */
  lemma {:induction false} SetAllSources(m: Tokens, ts: seq<Token>, h: string)
    requires h in SetAll(m, ts)
    ensures var t := SetAll(m, ts)[h]; (t in ts && t.hash == h) || (h in m && t == m[h])
  {
    if ts != [] {
      var last := ts[|ts| - 1];
      if h != last.hash {
        SetAllSources(m, ts[..|ts| - 1], h);
      }
    }
  }

  /** Whatever a token list holds ends up in the map under its own hash. */
  lemma {:induction false} SetAllKeys(m: Tokens, ts: seq<Token>)
    ensures SetAll(m, ts).Keys == m.Keys + (set t | t in ts :: t.hash)
  {
    if ts != [] {
      var front := ts[..|ts| - 1];
      SetAllKeys(m, front);
      assert ts == front + [ts[|ts| - 1]];
    }
  }

  // ---------------------------------------------------------------------------------------------
  // What a map holds afterwards

  predicate Holds(m: Tokens, h: string, t: Token) {
    h in m && m[h] == t
  }

  /** The list has a token with this hash. */
  ghost predicate Names(ts: seq<Token>, h: string) {
    exists i :: 0 <= i < |ts| && ts[i].hash == h
  }

  /** The last token of the list with this hash is `t`. */
  ghost predicate LastWith(ts: seq<Token>, h: string, t: Token) {
    exists i :: 0 <= i < |ts| && ts[i] == t && t.hash == h && forall j :: i < j < |ts| ==> ts[j].hash != h
  }

  /** `t` is under `h` after the operation: it was brought, or was there and nothing took its place. */
  ghost predicate HoldsAfter(op: Op, m: Tokens, now: int, h: string, t: Token) {
    match op
    case SetMany(ts) => LastWith(ts, h, t) || (!Names(ts, h) && Holds(m, h, t))
    case Delete(k) => h != k && Holds(m, h, t)
    case Replace(k, ts) =>
      if k in m && m[k].expiresAt > now then LastWith(ts, h, t) || (!Names(ts, h) && h != k && Holds(m, h, t))
      else h != k && Holds(m, h, t)
  }

  lemma {:induction false} SetAllHolds(m: Tokens, ts: seq<Token>, h: string, t: Token)
    ensures Holds(SetAll(m, ts), h, t) <==> LastWith(ts, h, t) || (!Names(ts, h) && Holds(m, h, t))
  {
    if ts != [] {
      var n := |ts| - 1;
      var front := ts[..n];
      if ts[n].hash == h {
        assert Holds(SetAll(m, ts), h, t) <==> ts[n] == t;
        assert LastWith(ts, h, t) <==> ts[n] == t;
        assert Names(ts, h);
      } else {
        SetAllHolds(m, front, h, t);
        LastBefore(ts, h, t);
        NamedBefore(ts, h);
      }
    }
  }

  lemma LastBefore(ts: seq<Token>, h: string, t: Token)
    requires ts != [] && ts[|ts| - 1].hash != h
    ensures LastWith(ts, h, t) <==> LastWith(ts[..|ts| - 1], h, t)
  {
    var front := ts[..|ts| - 1];
    if LastWith(front, h, t) {
      var i :| 0 <= i < |front| && front[i] == t && t.hash == h && forall j :: i < j < |front| ==> front[j].hash != h;
      LastAt(ts, h, t, i);
    }
    if LastWith(ts, h, t) {
      var i :| 0 <= i < |ts| && ts[i] == t && t.hash == h && forall j :: i < j < |ts| ==> ts[j].hash != h;
      LastInFront(ts, h, t, i);
    }
  }

  lemma LastAt(ts: seq<Token>, h: string, t: Token, i: nat)
    requires ts != [] && ts[|ts| - 1].hash != h
    requires var front := ts[..|ts| - 1]; i < |front| && front[i] == t && t.hash == h && forall j :: i < j < |front| ==> front[j].hash != h
    ensures LastWith(ts, h, t)
  {
    assert forall j :: 0 <= j < |ts| - 1 ==> ts[j] == ts[..|ts| - 1][j];
  }

  lemma LastInFront(ts: seq<Token>, h: string, t: Token, i: nat)
    requires i < |ts| && ts[i] == t && t.hash == h && (forall j :: i < j < |ts| ==> ts[j].hash != h)
    requires ts[|ts| - 1].hash != h
    ensures LastWith(ts[..|ts| - 1], h, t)
  {
    assert ts[..|ts| - 1][i] == t;
  }

  lemma NamedBefore(ts: seq<Token>, h: string)
    requires ts != [] && ts[|ts| - 1].hash != h
    ensures Names(ts, h) <==> Names(ts[..|ts| - 1], h)
  {
    var front := ts[..|ts| - 1];
    if Names(front, h) {
      var i :| 0 <= i < |front| && front[i].hash == h;
      assert ts[i].hash == h;
    }
    if Names(ts, h) {
      var i :| 0 <= i < |ts| && ts[i].hash == h;
      assert front[i].hash == h;
    }
  }

  /** What an operation leaves under each hash and returns. A deleted or replaced token is gone unless
      the operation brings it again; an expired one is replaced by nothing. */
  lemma ApplyMeans(op: Op, m: Tokens, now: int, h: string, t: Token)
    ensures Holds(Apply(op, m, now), h, t) <==> HoldsAfter(op, m, now, h, t)
    ensures ResultOf(op, m, now) == Some(t) <==> op.Replace? && Holds(m, op.hash, t) && t.expiresAt > now
  {
    match op
    case SetMany(ts) => SetAllHolds(m, ts, h, t);
    case Delete(_) =>
    case Replace(k, ts) => SetAllHolds(Without(m, k), ts, h, t);
  }

  /** A write leaves what its operation leaves, expired tokens excepted. */
  lemma WriteMeans(op: Op, m: Tokens, opTime: int, persistTime: int, h: string, t: Token)
    ensures Holds(Write(op, m, opTime, persistTime), h, t) <==> HoldsAfter(op, m, opTime, h, t) && t.expiresAt > persistTime
  {
    ApplyMeans(op, m, opTime, h, t);
  }

  // ---------------------------------------------------------------------------------------------
  // The file store purges expired tokens on every write and the memory store never does.

  /** The maps hold the same unexpired tokens at `t`. */
  ghost predicate Agree(a: Tokens, b: Tokens, t: int) {
    Purge(a, t) == Purge(b, t)
  }

  lemma AgreeOnLive(a: Tokens, b: Tokens, t: int, h: string)
    requires Agree(a, b, t)
    ensures Live(a, h, t) <==> Live(b, h, t)
    ensures Live(a, h, t) ==> a[h] == b[h]
  {
    assert h in Purge(a, t) <==> Live(a, h, t);
    assert h in Purge(b, t) <==> Live(b, h, t);
    if Live(a, h, t) {
      assert Purge(a, t)[h] == a[h] && Purge(b, t)[h] == b[h];
    }
  }

  lemma AgreeIfLiveAgree(a: Tokens, b: Tokens, t: int)
    requires forall h :: (Live(a, h, t) <==> Live(b, h, t)) && (Live(a, h, t) ==> a[h] == b[h])
    ensures Agree(a, b, t)
  {
    forall h
      ensures h in Purge(a, t) <==> h in Purge(b, t)
      ensures h in Purge(a, t) ==> Purge(a, t)[h] == Purge(b, t)[h]
    {
      assert Live(a, h, t) <==> Live(b, h, t);
    }
  }

  lemma AgreeLater(a: Tokens, b: Tokens, s: int, t: int)
    requires Agree(a, b, s) && s <= t
    ensures Agree(a, b, t)
  {
    forall h ensures (Live(a, h, t) <==> Live(b, h, t)) && (Live(a, h, t) ==> a[h] == b[h]) {
      AgreeOnLive(a, b, s, h);
    }
    AgreeIfLiveAgree(a, b, t);
  }

  lemma PurgeAgrees(a: Tokens, s: int, t: int)
    requires s <= t
    ensures Agree(Purge(a, s), a, t)
  {
    AgreeIfLiveAgree(Purge(a, s), a, t);
  }

  lemma {:induction false} SetAllAgrees(a: Tokens, b: Tokens, ts: seq<Token>, t: int)
    requires Agree(a, b, t)
    ensures Agree(SetAll(a, ts), SetAll(b, ts), t)
  {
    if ts != [] {
      var front, last := ts[..|ts| - 1], ts[|ts| - 1];
      SetAllAgrees(a, b, front, t);
      var a', b' := SetAll(a, ts), SetAll(b, ts);
      forall h ensures (Live(a', h, t) <==> Live(b', h, t)) && (Live(a', h, t) ==> a'[h] == b'[h]) {
        AgreeOnLive(SetAll(a, front), SetAll(b, front), t, h);
      }
      AgreeIfLiveAgree(a', b', t);
    }
  }

  lemma WithoutAgrees(a: Tokens, b: Tokens, h: string, t: int)
    requires Agree(a, b, t)
    ensures Agree(Without(a, h), Without(b, h), t)
  {
    var a', b' := Without(a, h), Without(b, h);
    forall k ensures (Live(a', k, t) <==> Live(b', k, t)) && (Live(a', k, t) ==> a'[k] == b'[k]) {
      AgreeOnLive(a, b, t, k);
    }
    AgreeIfLiveAgree(a', b', t);
  }

  /** An operation cannot tell apart two maps that agree on the tokens unexpired when it runs. */
  lemma ApplyAgrees(op: Op, a: Tokens, b: Tokens, now: int)
    requires Agree(a, b, now)
    ensures Agree(Apply(op, a, now), Apply(op, b, now), now)
    ensures ResultOf(op, a, now) == ResultOf(op, b, now)
  {
    match op
    case SetMany(ts) => SetAllAgrees(a, b, ts, now);
    case Delete(h) => WithoutAgrees(a, b, h, now);
    case Replace(h, ts) =>
      AgreeOnLive(a, b, now, h);
      WithoutAgrees(a, b, h, now);
      SetAllAgrees(Without(a, h), Without(b, h), ts, now);
  }

  /** One successful write: the operation, the clock it read, and the clock `persist` read. */
  datatype Commit = Commit(op: Op, opTime: int, persistTime: int)

  function FileFold(m: Tokens, cs: seq<Commit>): Tokens {
    if cs == [] then m
    else var c := cs[|cs| - 1]; Write(c.op, FileFold(m, cs[..|cs| - 1]), c.opTime, c.persistTime)
  }

  function MemoryFold(m: Tokens, cs: seq<Commit>): Tokens {
    if cs == [] then m
    else var c := cs[|cs| - 1]; Apply(c.op, MemoryFold(m, cs[..|cs| - 1]), c.opTime)
  }

  /** Clock reads never go backwards, within a write and from one write to the next. */
  ghost predicate Monotone(cs: seq<Commit>) {
    && (forall i :: 0 <= i < |cs| ==> cs[i].opTime <= cs[i].persistTime)
    && (forall i, j :: 0 <= i < j < |cs| ==> cs[i].persistTime <= cs[j].opTime)
  }

  lemma WriteAgrees(op: Op, a: Tokens, b: Tokens, opTime: int, persistTime: int, now: int)
    requires Agree(a, b, opTime) && opTime <= persistTime <= now
    ensures Agree(Write(op, a, opTime, persistTime), Apply(op, b, opTime), now)
    ensures ResultOf(op, a, opTime) == ResultOf(op, b, opTime)
  {
    ApplyAgrees(op, a, b, opTime);
    AgreeLater(Apply(op, a, opTime), Apply(op, b, opTime), opTime, now);
    PurgeAgrees(Apply(op, a, opTime), persistTime, now);
  }

  /** For every sequence of successful operations under a non-decreasing clock the file store and
      the memory store agree on all unexpired tokens. */
  lemma {:induction false} FileRefinesMemory(m: Tokens, cs: seq<Commit>, now: int)
    requires Monotone(cs)
    requires forall i :: 0 <= i < |cs| ==> cs[i].persistTime <= now
    ensures Agree(FileFold(m, cs), MemoryFold(m, cs), now)
  {
    if cs != [] {
      var front, c := cs[..|cs| - 1], cs[|cs| - 1];
      FileRefinesMemory(m, front, c.opTime);
      WriteAgrees(c.op, FileFold(m, front), MemoryFold(m, front), c.opTime, c.persistTime, now);
    }
  }

  /** Under the same clock every operation, `replace` included, returns the same result in both. */
  lemma SameResults(m: Tokens, cs: seq<Commit>, i: nat)
    requires Monotone(cs) && i < |cs|
    ensures ResultOf(cs[i].op, FileFold(m, cs[..i]), cs[i].opTime) ==
            ResultOf(cs[i].op, MemoryFold(m, cs[..i]), cs[i].opTime)
  {
    FileRefinesMemory(m, cs[..i], cs[i].opTime);
    ApplyAgrees(cs[i].op, FileFold(m, cs[..i]), MemoryFold(m, cs[..i]), cs[i].opTime);
  }
}
