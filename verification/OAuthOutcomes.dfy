/** How the token endpoint and the access check end: what each answers, what it leaves in the store, and
    that whoever holds a grant gets what it grants. */
module OAuthOutcomes {
  import opened Wrappers
  import opened Paths
  import opened TokenStore
  import opened OAuthScope
  import opened OAuthAuthorization
  import opened OAuthServer
  import opened OAuthInvariant
  import opened OAuthSteps
  import opened OAuthTheorems
  import opened OAuthHistory

  // ---------------------------------------------------------------------------------------------
  // Store events

  /** The operation that a request waits for. */
  ghost function Awaited(r: Request): Op
    requires r.ExchangeAwaitsStore? || r.RefreshAwaitsReplace? || r.DeleteAwaitsStore?
  {
    match r
    case ExchangeAwaitsStore(_, _, access, refresh) => SetMany(if refresh.Some? then [access, refresh.value] else [access])
    case RefreshAwaitsReplace(h, _, access, refresh) => Replace(h, if refresh.Some? then [access, refresh.value] else [access])
    case DeleteAwaitsStore(h, _) => Delete(h)
  }

  /** The store holds what the operation leaves; one that persists drops what has expired by then. */
  ghost predicate Leaves(op: Op, m: Tokens, m': Tokens, opTime: int, persistTime: Option<int>) {
    forall h, t :: Holds(m', h, t) <==> HoldsAfter(op, m, opTime, h, t) && (persistTime.Some? ==> t.expiresAt > persistTime.value)
  }

  /** What the request is told when the write has succeeded. */
  ghost function Told(r: Request, tokens: Tokens, opTime: int): Response
    requires r.ExchangeAwaitsStore? || r.RefreshAwaitsReplace? || r.DeleteAwaitsStore?
  {
    match r
    case ExchangeAwaitsStore(_, _, access, refresh) => TokensIssued(access, refresh)
    case RefreshAwaitsReplace(h, _, access, refresh) =>
      if h in tokens && tokens[h].expiresAt > opTime then TokensIssued(access, refresh) else Rejected(InvalidGrant)
    case DeleteAwaitsStore(_, response) => response
  }

  lemma EffectLeaves(r: Request, m: Tokens, opTime: int, persistTime: Option<int>)
    requires r.ExchangeAwaitsStore? || r.RefreshAwaitsReplace? || r.DeleteAwaitsStore?
    ensures Leaves(Awaited(r), m, Effect(Awaited(r), m, opTime, persistTime), opTime, persistTime)
  {
    forall h, t
      ensures Holds(Effect(Awaited(r), m, opTime, persistTime), h, t) <==>
              HoldsAfter(Awaited(r), m, opTime, h, t) && (persistTime.Some? ==> t.expiresAt > persistTime.value)
    {
      ApplyMeans(Awaited(r), m, opTime, h, t);
      if persistTime.Some? {
        WriteMeans(Awaited(r), m, opTime, persistTime.value, h, t);
      }
    }
  }

  lemma CommitOutcome(s: State, i: nat, opTime: int, persistTime: Option<int>)
    requires Enabled(s, StoreCommits(i, true, opTime, persistTime))
    requires s.requests[i].RefreshAwaitsReplace? && s.requests[i].presented in s.tokens ==> s.tokens[s.requests[i].presented].kind == Refresh
    ensures var r, s' := s.requests[i], StoreCommit(s, i, true, opTime, persistTime);
            && s'.requests == s.requests[i := Done(Told(r, s.tokens, opTime))]
            && s'.tokens == Effect(Awaited(r), s.tokens, opTime, persistTime)
  {
    var r := s.requests[i];
    if !r.DeleteAwaitsStore? {
      assert Both(r.access, r.refresh) == if r.refresh.Some? then [r.access, r.refresh.value] else [r.access];
    }
  }

  lemma FailedCommit(s: State, i: nat, opTime: int, persistTime: Option<int>)
    requires Enabled(s, StoreCommits(i, false, opTime, persistTime))
    ensures StoreCommit(s, i, false, opTime, persistTime) == s.(requests := s.requests[i := Done(Rejected(StoreFailed))])
  {
  }

  /** In every run a store write that fails changes nothing and is reported. One that succeeds leaves
      exactly what its operation leaves, and its request is told: new tokens for an exchange, and for a
      refresh whenever the presented token was still there unexpired. */
  lemma CommitsAnswer(cfg: Config, states: seq<State>, events: seq<Event>, n: nat)
    requires IsRun(cfg, states, events) && n < |events| && events[n].StoreCommits?
    ensures var s, s', e := states[n], states[n + 1], events[n];
            && Enabled(s, e)
            && var r := s.requests[e.request];
               if e.ok then
                 && s'.requests == s.requests[e.request := Done(Told(r, s.tokens, e.opTime))]
                 && Leaves(Awaited(r), s.tokens, s'.tokens, e.opTime, e.persistTime)
               else s' == s.(requests := s.requests[e.request := Done(Rejected(StoreFailed))])
  {
    var s, e := states[n], events[n];
    RunInv(cfg, states, events, n);
    var r := s.requests[e.request];
    if e.ok {
      if r.RefreshAwaitsReplace? && r.presented in s.tokens {
        ReplaceFindsGranted(cfg, s, e.request);
      }
      CommitOutcome(s, e.request, e.opTime, e.persistTime);
      EffectLeaves(r, s.tokens, e.opTime, e.persistTime);
    } else {
      FailedCommit(s, e.request, e.opTime, e.persistTime);
    }
  }

  /** A read finds what the store holds under the presented hash. */
  lemma ReadsFind(s: State, i: nat, t: Token)
    requires Enabled(s, StoreReads(i))
    ensures var r, q := s.requests[i], StoreRead(s, i).requests[i];
            && StoreRead(s, i) == s.(requests := s.requests[i := q]) && (q.CheckRead? || q.RefreshRead?)
            && (q.CheckRead? <==> r.CheckAwaitsRead?) && q.presented == r.presented && q.localResource == r.localResource
            && (q.RefreshRead? ==> q.form == r.form)
            && (q.stored == Some(t) <==> Holds(s.tokens, r.presented, t))
  {
  }

  // ---------------------------------------------------------------------------------------------
  // Refusals

  /** Everything about the refresh fits but the scope it asks for. */
  ghost predicate AllButScope(cfg: Config, r: Request, now: int)
    requires r.RefreshRead?
  {
    && r.stored.Some? && r.stored.value.kind == Refresh && r.stored.value.expiresAt > now
    && var t := r.stored.value;
       && GetOrEmpty(r.form, "client_id") == t.clientId && GetOrEmpty(r.form, "resource") in {"", t.resource}
       && (t.resource == r.localResource || cfg.isTunnel(t.resource)) && !ScopeWithin(r.form, t.scope)
  }

  /** A refresh that does not go on is refused for its scope when only that is wrong. Otherwise the grant
      is invalid, and an expired token is deleted first. */
  lemma RefreshRefuses(cfg: Config, s: State, i: nat, now: int, later: int, m: Mint)
    requires Enabled(s, RefreshResumes(i, now, later, m))
    ensures var r, s' := s.requests[i], RefreshResume(cfg, s, i, now, later, m);
            var q := s'.requests[i];
            && (q.RefreshAwaitsReplace? || s' == s.(requests := s.requests[i := q]))
            && (q == Done(Rejected(InvalidScope)) <==> AllButScope(cfg, r, now))
            && (q == DeleteAwaitsStore(r.presented, Rejected(InvalidGrant)) <==>
                  r.stored.Some? && (r.stored.value.kind != Refresh || r.stored.value.expiresAt <= now) && r.stored.value.expiresAt <= later)
            && (q.RefreshAwaitsReplace? || q == Done(Rejected(InvalidScope)) || q == Done(Rejected(InvalidGrant))
                || q == DeleteAwaitsStore(r.presented, Rejected(InvalidGrant)))
  {
    var r := s.requests[i];
    if r.stored.Some? {
      RequestedScopeWithin(r.form, r.stored.value.scope);
      ResourceNotGiven(r.form, r.stored.value.resource);
    }
  }

  /** What a resumed check does with the token it read. */
  ghost function Checked(cfg: Config, r: Request, now: int): Request
    requires r.CheckRead?
  {
    if r.stored.Some? && r.stored.value.expiresAt <= now then DeleteAwaitsStore(r.presented, Denied)
    else if r.stored.Some? && r.stored.value.kind == Access &&
            (r.stored.value.resource == r.localResource || cfg.isTunnel(r.stored.value.resource))
    then Done(Allowed)
    else Done(Denied)
  }

  lemma CheckOutcome(cfg: Config, s: State, i: nat, now: int)
    requires Enabled(s, CheckResumes(i, now)) && (s.requests[i].stored.Some? ==> IncludesDefault(s.requests[i].stored.value.scope))
    ensures CheckResume(cfg, s, i, now).requests == s.requests[i := Checked(cfg, s.requests[i], now)]
  {
  }

  lemma ReadScope(cfg: Config, s: State, i: nat)
    requires Inv(cfg, s) && i < |s.requests| && s.requests[i].CheckRead? && s.requests[i].stored.Some?
    ensures IncludesDefault(s.requests[i].stored.value.scope)
  {
    assert RequestOk(cfg, s.log, s.requests[i]);
    MintedScope(cfg, s.log, s.requests[i].stored.value);
    NormalFormIncludes(s.requests[i].stored.value.scope);
  }

  /** In every run a check passes exactly for an unexpired access token of an allowed resource; an expired
      token of either kind is deleted before the check is denied. */
  lemma ChecksDecide(cfg: Config, states: seq<State>, events: seq<Event>, n: nat)
    requires IsRun(cfg, states, events) && n < |events| && events[n].CheckResumes?
    ensures var s, e := states[n], events[n];
            && Enabled(s, e)
            && states[n + 1].requests == s.requests[e.request := Checked(cfg, s.requests[e.request], e.now)]
  {
    var s, e := states[n], events[n];
    RunInv(cfg, states, events, n);
    if s.requests[e.request].stored.Some? {
      ReadScope(cfg, s, e.request);
    }
    CheckOutcome(cfg, s, e.request, e.now);
  }

  // ---------------------------------------------------------------------------------------------
  // Grants can be used

  lemma LeadsTwo(cfg: Config, s: State, a: Event, b: Event)
    requires Enabled(s, a) && Enabled(After(cfg, s, a), b)
    ensures Leads(Step(cfg), s, [a, b], After(cfg, After(cfg, s, a), b))
  {
    assert [a, b][1..] == [b] && [b][1..] == [];
    assert Leads(Step(cfg), After(cfg, s, a), [b], After(cfg, After(cfg, s, a), b));
  }

  lemma ExchangeRuns(cfg: Config, s: State, f: Fields, localResource: string, now: int, m: Mint, k: nat, v: string)
    requires Enabled(s, ExchangeStarts(f, localResource, now, m))
    requires PresentsCode(cfg, s, ExchangeStarts(f, localResource, now, m), k, v)
    ensures var s1, p := ExchangeStart(cfg, s, f, localResource, now, m), s.codes[GetOrEmpty(f, "code")].params;
            && |s1.requests| == |s.requests| + 1 && s1.requests[|s.requests|].ExchangeAwaitsStore? && s1.tokens == s.tokens
            && var r := s1.requests[|s.requests|]; Issued(cfg, r.access, r.refresh, p.clientId, p.resource, p.scope, m)
  {
    ExchangeGoesOn(cfg, s, f, localResource, now, m);
    ExchangeMintsForCode(cfg, s, GetOrEmpty(f, "code"), GetOrEmpty(f, "code_verifier"), m);
  }

  lemma BroughtTokens(access: Token, refresh: Option<Token>, m: Tokens, now: int, t: Token)
    requires refresh.Some? ==> refresh.value.hash != access.hash
    requires t == access || Some(t) == refresh
    ensures HoldsAfter(SetMany(if refresh.Some? then [access, refresh.value] else [access]), m, now, t.hash, t)
  {
    var ts := if refresh.Some? then [access, refresh.value] else [access];
    if t == access {
      assert ts[0] == t;
    } else {
      assert ts[1] == t;
    }
  }

  /** From every reachable state whoever presents a fitting unexpired code is given tokens for the client,
      the resource and the scope of the code once the store has written, and the store then holds those
      of them that have not expired by that time. */
  lemma CodeIsRedeemed(cfg: Config, states: seq<State>, events: seq<Event>, n: nat, f: Fields, localResource: string, now: int,
                       m: Mint, opTime: int, persistTime: Option<int>, k: nat, v: string) returns (more: seq<Event>, s': State)
    requires IsRun(cfg, states, events) && n < |states| && FreshMint(states[n], m)
    requires PresentsCode(cfg, states[n], ExchangeStarts(f, localResource, now, m), k, v)
    ensures Leads(Step(cfg), states[n], more, s') && |s'.requests| == |states[n].requests| + 1
    ensures var r, p := s'.requests[|states[n].requests|], states[n].codes[GetOrEmpty(f, "code")].params;
            && r.Done? && r.response.TokensIssued?
            && var access, refresh := r.response.access, r.response.refresh;
               && Issued(cfg, access, refresh, p.clientId, p.resource, p.scope, m)
               && forall t :: (t == access || Some(t) == refresh) && (persistTime.Some? ==> t.expiresAt > persistTime.value) ==> Holds(s'.tokens, t.hash, t)
  {
    var s, i := states[n], |states[n].requests|;
    var e := ExchangeStarts(f, localResource, now, m);
    ExchangeRuns(cfg, s, f, localResource, now, m, k, v);
    var s1 := After(cfg, s, e);
    var r := s1.requests[i];
    var c := StoreCommits(i, true, opTime, persistTime);
    CommitOutcome(s1, i, opTime, persistTime);
    EffectLeaves(r, s.tokens, opTime, persistTime);
    s' := After(cfg, s1, c);
    more := [e, c];
    LeadsTwo(cfg, s, e, c);
    forall t | (t == r.access || Some(t) == r.refresh) && (persistTime.Some? ==> t.expiresAt > persistTime.value) ensures Holds(s'.tokens, t.hash, t) {
      BroughtTokens(r.access, r.refresh, s.tokens, opTime, t);
    }
  }

  lemma CheckReads(cfg: Config, s: State, localResource: string, h: string)
    requires h in s.tokens
    ensures var s1 := s.(requests := s.requests + [CheckAwaitsRead(localResource, h)]);
            && After(cfg, s, CheckStarts(localResource, h)) == s1 && Enabled(s1, StoreReads(|s.requests|))
            && After(cfg, s1, StoreReads(|s.requests|)) == s.(requests := s.requests + [CheckRead(localResource, h, Some(s.tokens[h]))])
  {
  }

  lemma CheckResumesAt(cfg: Config, s: State, localResource: string, h: string, now: int)
    requires h in s.tokens
    ensures Enabled(s.(requests := s.requests + [CheckRead(localResource, h, Some(s.tokens[h]))]), CheckResumes(|s.requests|, now))
  {
  }

  lemma LeadsThree(cfg: Config, s: State, s1: State, s2: State, s3: State, a: Event, b: Event, c: Event)
    requires Enabled(s, a) && s1 == After(cfg, s, a) && Enabled(s1, b) && s2 == After(cfg, s1, b)
    requires Enabled(s2, c) && s3 == After(cfg, s2, c)
    ensures Leads(Step(cfg), s, [a, b, c], s3)
  {
    LeadsTwo(cfg, s1, b, c);
    assert [a, b, c][1..] == [b, c];
  }

  lemma CheckPasses(cfg: Config, s: State, localResource: string, h: string, now: int) returns (s': State)
    requires h in s.tokens && s.tokens[h].kind == Access && s.tokens[h].expiresAt > now
    requires AllowedResource(s.tokens[h].resource, localResource, cfg.isTunnel) && IncludesDefault(s.tokens[h].scope)
    ensures Leads(Step(cfg), s, [CheckStarts(localResource, h), StoreReads(|s.requests|), CheckResumes(|s.requests|, now)], s')
    ensures s'.requests == s.requests + [Done(Allowed)]
  {
    var i := |s.requests|;
    var a, b, c := CheckStarts(localResource, h), StoreReads(i), CheckResumes(i, now);
    var s1 := s.(requests := s.requests + [CheckAwaitsRead(localResource, h)]);
    var s2 := s.(requests := s.requests + [CheckRead(localResource, h, Some(s.tokens[h]))]);
    CheckReads(cfg, s, localResource, h);
    s' := After(cfg, s2, c);
    CheckOutcome(cfg, s2, i, now);
    CheckResumesAt(cfg, s, localResource, h, now);
    LeadsThree(cfg, s, s1, s2, s', a, b, c);
  }

  /** From every reachable state a request that presents the hash of a stored, unexpired access token of
      an allowed resource passes. */
  lemma StoredTokenPasses(cfg: Config, states: seq<State>, events: seq<Event>, n: nat, localResource: string, h: string, now: int)
    returns (s': State)
    requires IsRun(cfg, states, events) && n < |states|
    requires h in states[n].tokens && states[n].tokens[h].kind == Access && states[n].tokens[h].expiresAt > now
    requires states[n].tokens[h].resource == localResource || cfg.isTunnel(states[n].tokens[h].resource)
    ensures var i := |states[n].requests|;
            && Leads(Step(cfg), states[n], [CheckStarts(localResource, h), StoreReads(i), CheckResumes(i, now)], s')
            && s'.requests == states[n].requests + [Done(Allowed)]
  {
    RunInv(cfg, states, events, n);
    MintedScope(cfg, states[n].log, states[n].tokens[h]);
    NormalFormIncludes(states[n].tokens[h].scope);
    s' := CheckPasses(cfg, states[n], localResource, h, now);
  }
}
