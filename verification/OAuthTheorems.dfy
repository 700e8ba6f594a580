/** What every run of the authorization server guarantees, whatever the interleaving. */
module OAuthTheorems {
  import opened Wrappers
  import opened TokenStore
  import opened OAuthScope
  import opened OAuthAuthorization
  import opened OAuthServer
  import opened OAuthInvariant
  import opened OAuthSteps

  // ---------------------------------------------------------------------------------------------
  // Provenance

  /** Fact `i` refreshed with the refresh token that fact `parent` had minted. */
  ghost predicate Follows(log: seq<Fact>, parent: nat, i: nat) {
    && parent < |log| && i < |log| && log[i].Refreshed? && log[i].parent == parent
    && RefreshOf(log[parent]).Some? && RefreshOf(log[parent]).value.hash == log[i].presented
  }

  /** `path` leads from a consent through one code and one exchange, then through refreshes that
      each presented the refresh token of the fact before, to the fact that minted `t`. */
  ghost predicate Lineage(log: seq<Fact>, path: seq<nat>, t: Token) {
    && |path| >= 3 && (forall k :: 0 <= k < |path| ==> path[k] < |log|)
    && log[path[0]].Consented?
    && log[path[1]].CodeIssued? && log[path[1]].consent == path[0]
    && log[path[2]].Exchanged? && log[path[2]].code == path[1]
    && (forall k :: 3 <= k < |path| ==> Follows(log, path[k - 1], path[k]))
    && MintsToken(log[path[|path| - 1]], t)
  }

  /** The token is for the client and the resource that were consented to, and for no more scope. */
  ghost predicate WithinConsent(t: Token, p: Params) {
    t.clientId == p.clientId && t.resource == p.resource && IsSubset(t.scope, p.scope)
  }

  lemma ExchangedWithin(cfg: Config, log: seq<Fact>, i: nat, t: Token)
    requires LogInv(cfg, log) && i < |log| && log[i].Exchanged? && MintsToken(log[i], t)
    ensures var k := log[i].code;
            && k < i && log[k].CodeIssued? && log[k].consent < k && log[log[k].consent].Consented?
            && WithinConsent(t, log[log[k].consent].params)
            && cfg.pkceOk(log[i].verifier, log[log[k].consent].params.codeChallenge)
  {
    assert FactOk(cfg, log, i);
    assert FactOk(cfg, log, log[i].code);
    SubsetReflexive(t.scope);
  }

  lemma RefreshedWithin(cfg: Config, log: seq<Fact>, i: nat, t: Token, p: Params)
    requires LogInv(cfg, log) && i < |log| && log[i].Refreshed? && MintsToken(log[i], t)
    requires log[i].parent < i && RefreshOf(log[log[i].parent]).Some?
    requires WithinConsent(RefreshOf(log[log[i].parent]).value, p)
    ensures WithinConsent(t, p)
  {
    assert FactOk(cfg, log, i);
    SubsetTransitive(t.scope, RefreshOf(log[log[i].parent]).value.scope, p.scope);
  }

  lemma LineageGrows(log: seq<Fact>, path: seq<nat>, u: Token, i: nat, t: Token)
    requires Lineage(log, path, u) && i < |log| && Follows(log, path[|path| - 1], i) && MintsToken(log[i], t)
    ensures Lineage(log, path + [i], t)
  {
    var path' := path + [i];
    forall k | 3 <= k < |path'| ensures Follows(log, path'[k - 1], path'[k]) {
      if k < |path| {
        assert path'[k - 1] == path[k - 1] && path'[k] == path[k];
      }
    }
  }

  /** Every minted token has a lineage and stays within its consent; the code at its root was
      exchanged by whoever knew the verifier for the consent's challenge. */
  lemma {:induction false} MintedHasLineage(cfg: Config, log: seq<Fact>, i: nat, t: Token) returns (path: seq<nat>)
    requires LogInv(cfg, log) && i < |log| && MintsToken(log[i], t)
    ensures Lineage(log, path, t) && path[|path| - 1] == i
    ensures WithinConsent(t, log[path[0]].params)
    ensures cfg.pkceOk(log[path[2]].verifier, log[path[0]].params.codeChallenge)
    ensures path[2] == Root(log, i)
    decreases i
  {
    assert FactOk(cfg, log, i);
    if log[i].Exchanged? {
      ExchangedWithin(cfg, log, i, t);
      path := [log[log[i].code].consent, log[i].code, i];
    } else {
      var parent := log[i].parent;
      var u := RefreshOf(log[parent]).value;
      var before := MintedHasLineage(cfg, log, parent, u);
      path := before + [i];
      LineageGrows(log, before, u, i, t);
      RefreshedWithin(cfg, log, i, t, log[path[0]].params);
    }
  }

  lemma AuthorizedDescends(cfg: Config, log: seq<Fact>, i: nat) returns (path: seq<nat>)
    requires LogInv(cfg, log) && i < |log| && log[i].Authorized?
    ensures log[i].token.kind == Access && Lineage(log, path, log[i].token) && path[|path| - 1] < i
    ensures WithinConsent(log[i].token, log[path[0]].params)
    ensures cfg.pkceOk(log[path[2]].verifier, log[path[0]].params.codeChallenge)
  {
    assert FactOk(cfg, log, i);
    var k :| 0 <= k < |log[..i]| && MintsToken(log[..i][k], log[i].token);
    path := MintedHasLineage(cfg, log, k, log[i].token);
  }

  /** In every run from an empty store, each access token that was ever accepted descends from a
      consent for the same client and resource and carries no more scope than was consented to. */
  lemma AcceptedTokensDescend(cfg: Config, states: seq<State>, events: seq<Event>, n: nat, i: nat) returns (path: seq<nat>)
    requires IsRun(cfg, states, events) && n < |states|
    requires i < |states[n].log| && states[n].log[i].Authorized?
    ensures var log, t := states[n].log, states[n].log[i].token;
            && t.kind == Access && Lineage(log, path, t) && path[|path| - 1] < i
            && WithinConsent(t, log[path[0]].params)
            && cfg.pkceOk(log[path[2]].verifier, log[path[0]].params.codeChallenge)
  {
    RunInv(cfg, states, events, n);
    path := AuthorizedDescends(cfg, states[n].log, i);
  }

  // ---------------------------------------------------------------------------------------------
  // What a request has to bring

  /** The form fields that have to match the session when they are posted at all. */
  function PostedFields(p: Params): map<string, string> {
    map["client_id" := p.clientId, "redirect_uri" := p.redirectUri, "resource" := p.resource, "code_challenge" := p.codeChallenge,
        "scope" := p.scope, "state" := if p.state.Some? then p.state.value else ""]
  }

  lemma PostedMatchIsAgreement(f: Fields, p: Params)
    ensures PostedMatch(f, p) <==> forall name :: name in f && name in PostedFields(p) ==> f[name] == PostedFields(p)[name]
  {
    assert |"client_id"| == 9 && |"redirect_uri"| == 12 && |"resource"| == 8 && |"code_challenge"| == 14;
    assert |"scope"| == |"state"| == 5 && "scope"[1] != "state"[1];
    var e := PostedFields(p);
    assert e["client_id"] == p.clientId && e["redirect_uri"] == p.redirectUri && e["resource"] == p.resource;
    assert e["code_challenge"] == p.codeChallenge && e["scope"] == p.scope;
    assert e["state"] == if p.state.Some? then p.state.value else "";
  }

  /** The form presents an unexpired session and agrees with it. */
  ghost predicate Presents(sessions: Entries, f: Fields, now: int) {
    var nonce := GetOrEmpty(f, "csrf_nonce");
    && nonce != "" && nonce in sessions && sessions[nonce].expiresAt > now
    && var p := sessions[nonce].params;
       forall name :: name in f && name in PostedFields(p) ==> f[name] == PostedFields(p)[name]
  }

  /** A pending consent that a confirmation may go on with. */
  ghost predicate Confirmable(cfg: Config, sessions: Entries, f: Fields, localResource: string, now: int) {
    Presents(sessions, f, now) && AllowedResource(sessions[GetOrEmpty(f, "csrf_nonce")].params.resource, localResource, cfg.isTunnel)
  }

  lemma ConfirmOutcome(cfg: Config, s: State, f: Fields, localResource: string, now: int)
    ensures var nonce, s' := GetOrEmpty(f, "csrf_nonce"), ConfirmStart(cfg, s, f, localResource, now);
            && |s'.requests| == |s.requests| + 1
            && var r := s'.requests[|s.requests|];
               && s' == s.(sessions := if nonce == "" then s.sessions else s.sessions - {nonce}, requests := s.requests + [r])
               && (if nonce != "" && nonce in s.sessions && s.sessions[nonce].expiresAt > now && PostedMatch(f, s.sessions[nonce].params)
                   then var v := ValidateFields(SessionFields(s.sessions[nonce].params), localResource, cfg.isTunnel);
                        r == if v.Ok? then ConfirmAwaitsClient(s.sessions[nonce].id, v.value) else Done(Rejected(v.error))
                   else r == Done(Rejected(InvalidCsrfNonce)))
  {
  }

  /** In every run a confirmation uses up its nonce whatever else it does, and no other. It goes on to the
      client lookup exactly when the session is unexpired, every posted field agrees with it and its
      resource is still allowed: no other check of the second validation can fail. */
  lemma ConfirmGoesOn(cfg: Config, states: seq<State>, events: seq<Event>, n: nat, f: Fields, localResource: string, now: int)
    requires IsRun(cfg, states, events) && n < |states|
    ensures var s, nonce := states[n], GetOrEmpty(f, "csrf_nonce");
            var s' := ConfirmStart(cfg, s, f, localResource, now);
            && |s'.requests| == |s.requests| + 1
            && var r := s'.requests[|s.requests|];
               && s' == s.(sessions := if nonce == "" then s.sessions else s.sessions - {nonce}, requests := s.requests + [r])
               && (r.ConfirmAwaitsClient? <==> Confirmable(cfg, s.sessions, f, localResource, now))
               && (r == Done(Rejected(InvalidResource)) <==> Presents(s.sessions, f, now) && !r.ConfirmAwaitsClient?)
               && (r == Done(Rejected(InvalidCsrfNonce)) <==> !Presents(s.sessions, f, now))
  {
    RunInv(cfg, states, events, n);
    var s, nonce := states[n], GetOrEmpty(f, "csrf_nonce");
    ConfirmOutcome(cfg, s, f, localResource, now);
    if nonce in s.sessions {
      PostedMatchIsAgreement(f, s.sessions[nonce].params);
      SessionShapeOf(cfg, s, nonce);
      Revalidation(s.sessions[nonce].params, localResource, cfg.isTunnel);
    }
  }

  lemma SessionShapeOf(cfg: Config, s: State, nonce: string)
    requires Inv(cfg, s) && nonce in s.sessions
    ensures SessionShape(s.sessions[nonce].params)
  {
    assert FactOk(cfg, s.log, s.sessions[nonce].id);
  }

  /** An exchange goes on exactly when it presents an unexpired code together with the client, the
      redirect URI and the resource the code was issued for and the verifier of its challenge. The
      code is then gone; a mismatch leaves it, an expired one is removed. */
  lemma ExchangeGoesOn(cfg: Config, s: State, f: Fields, localResource: string, now: int, m: Mint)
    ensures var code, s' := GetOrEmpty(f, "code"), ExchangeStart(cfg, s, f, localResource, now, m);
            && |s'.requests| == |s.requests| + 1 && s'.tokens == s.tokens
            && var r := s'.requests[|s.requests|];
               && (r.ExchangeAwaitsStore? || r == Done(Rejected(InvalidGrant)))
               && (r.ExchangeAwaitsStore? <==>
                     && code in s.codes && s.codes[code].expiresAt > now
                     && var p := s.codes[code].params;
                        && GetOrEmpty(f, "client_id") == p.clientId && GetOrEmpty(f, "redirect_uri") == p.redirectUri
                        && GetOrEmpty(f, "resource") == p.resource && (p.resource == localResource || cfg.isTunnel(p.resource))
                        && cfg.pkceOk(GetOrEmpty(f, "code_verifier"), p.codeChallenge))
               && s'.codes == (if r.ExchangeAwaitsStore? || (code in s.codes && s.codes[code].expiresAt <= now)
                               then s.codes - {code} else s.codes)
  {
    var code := GetOrEmpty(f, "code");
    assert code !in s.codes ==> s.codes - {code} == s.codes;
  }

  /** New tokens for a client, a resource and a scope, with a refresh token exactly when the scope says
      offline access. The access token lives for the configured time, the refresh token for 90 days. */
  ghost predicate Issued(cfg: Config, access: Token, refresh: Option<Token>, clientId: string, resource: string, scope: string, m: Mint) {
    && TokensFor(access, refresh, clientId, resource, scope) && (refresh.Some? <==> IsWordOf(OFFLINE_SCOPE, scope))
    && access.hash == m.accessHash && access.expiresAt == m.accessTime + cfg.accessTtlMs
    && (refresh.Some? ==> refresh.value.hash == m.refreshHash && refresh.value.expiresAt == m.refreshTime + 7_776_000_000)
  }

  lemma NewTokensIssued(cfg: Config, clientId: string, resource: string, scope: string, m: Mint)
    requires m.accessHash != m.refreshHash
    ensures Issued(cfg, AccessToken(cfg, clientId, resource, scope, m), RefreshToken(clientId, resource, scope, m), clientId, resource, scope, m)
  {
    IncludesMeans(scope);
  }

  /** The tokens it mints are for the client, the resource and the scope of the code. */
  lemma ExchangeMintsForCode(cfg: Config, s: State, code: string, verifier: string, m: Mint)
    requires code in s.codes && FreshMint(s, m)
    ensures var r, p := ConsumeCode(cfg, s, code, verifier, m).requests[|s.requests|], s.codes[code].params;
            && r.ExchangeAwaitsStore? && r.code == s.codes[code].id
            && Issued(cfg, r.access, r.refresh, p.clientId, p.resource, p.scope, m)
  {
    var p := s.codes[code].params;
    NewTokensIssued(cfg, p.clientId, p.resource, p.scope, m);
  }

  /** The words of the scope, when given, are known and granted, with the default among them if any. */
  ghost predicate ScopeWithin(f: Fields, granted: string) {
    "scope" in f ==> WithinWords(f["scope"], granted)
  }

  /** The scope that the request asks for: the granted one when it gives none, otherwise the normal form
      of what it gives. */
  ghost predicate AsksFor(f: Fields, granted: string, scope: string) {
    if "scope" in f then IsNormalFormOf(scope, f["scope"]) else scope == granted
  }

  lemma RequestedScopeWithin(f: Fields, granted: string)
    ensures RequestedScope(f, granted).Some? <==> ScopeWithin(f, granted)
    ensures RequestedScope(f, granted).Some? ==> AsksFor(f, granted, RequestedScope(f, granted).value)
  {
    if "scope" in f {
      NormalWithin(f["scope"], granted);
      if NormalizeScope(Some(f["scope"])).Some? {
        NormalizeMeans(f["scope"], NormalizeScope(Some(f["scope"])).value);
      }
    }
  }

  lemma ResourceNotGiven(f: Fields, resource: string)
    ensures NonEmptyOr(Get(f, "resource"), resource) == resource <==> GetOrEmpty(f, "resource") in {"", resource}
  {
  }

  /** A refresh goes on exactly when the stored token is an unexpired refresh token, the client is its
      own, the resource is its own or not given, and the scope is within what was granted. */
  lemma RefreshGoesOn(cfg: Config, s: State, i: nat, now: int, later: int, m: Mint)
    requires Enabled(s, RefreshResumes(i, now, later, m))
    ensures var r, s' := s.requests[i], RefreshResume(cfg, s, i, now, later, m);
            && s'.tokens == s.tokens && s'.log == s.log
            && (s'.requests[i].RefreshAwaitsReplace? <==>
                  && r.stored.Some? && r.stored.value.kind == Refresh && r.stored.value.expiresAt > now
                  && var t := r.stored.value;
                     && GetOrEmpty(r.form, "client_id") == t.clientId
                     && GetOrEmpty(r.form, "resource") in {"", t.resource}
                     && AllowedResource(t.resource, r.localResource, cfg.isTunnel)
                     && ScopeWithin(r.form, t.scope))
  {
    var r := s.requests[i];
    if r.stored.Some? {
      RequestedScopeWithin(r.form, r.stored.value.scope);
      ResourceNotGiven(r.form, r.stored.value.resource);
    }
  }

  /** The tokens it mints are for the client and the resource of the token that was read, and for the
      scope asked for. */
  lemma RefreshMintsForToken(cfg: Config, s: State, i: nat, now: int, later: int, m: Mint)
    requires Enabled(s, RefreshResumes(i, now, later, m)) && RefreshResume(cfg, s, i, now, later, m).requests[i].RefreshAwaitsReplace?
    ensures var form, q := s.requests[i].form, RefreshResume(cfg, s, i, now, later, m).requests[i];
            && s.requests[i].stored == Some(q.granted) && AsksFor(form, q.granted.scope, q.access.scope)
            && Issued(cfg, q.access, q.refresh, q.granted.clientId, q.granted.resource, q.access.scope, m)
  {
    var r := s.requests[i];
    var t := r.stored.value;
    RefreshOutcome(cfg, s, i, now, later, m);
    RequestedScopeWithin(r.form, t.scope);
    NewTokensIssued(cfg, t.clientId, t.resource, RequestedScope(r.form, t.scope).value, m);
  }

  // ---------------------------------------------------------------------------------------------
  // At most once

  /** In every run a stored consent yields at most one code, a code at most one exchange, and a
      refresh token at most one successful refresh. */
  lemma AtMostOnce(cfg: Config, states: seq<State>, events: seq<Event>, n: nat, i: nat, j: nat)
    requires IsRun(cfg, states, events) && n < |states|
    requires i < j < |states[n].log|
    ensures var f, g := states[n].log[i], states[n].log[j];
            && !(f.CodeIssued? && g.CodeIssued? && f.consent == g.consent)
            && !(f.Exchanged? && g.Exchanged? && f.code == g.code)
            && !(f.Refreshed? && g.Refreshed? && f.presented == g.presented)
  {
    RunInv(cfg, states, events, n);
    var log := states[n].log;
    assert Spends(log[i]).Some? ==> Spends(log[i]) != Spends(log[j]);
  }

  /** In every run each grant has at most one refresh token in the store, failed writes included:
      two of them that go back to one exchange are one token. */
  lemma OneLiveRefreshPerGrant(cfg: Config, states: seq<State>, events: seq<Event>, n: nat, g: string, h: string,
                               p: seq<nat>, q: seq<nat>)
    requires IsRun(cfg, states, events) && n < |states|
    requires LiveRefresh(states[n].tokens, g) && LiveRefresh(states[n].tokens, h)
    requires Lineage(states[n].log, p, states[n].tokens[g]) && Lineage(states[n].log, q, states[n].tokens[h])
    requires p[2] == q[2]
    ensures g == h
  {
    RunInv(cfg, states, events, n);
    var s := states[n];
    LineageRoot(cfg, s.log, s.requests, s.minted, s.tokens, p, s.tokens[g]);
    LineageRoot(cfg, s.log, s.requests, s.minted, s.tokens, q, s.tokens[h]);
  }

  lemma {:induction false} PathRoot(cfg: Config, log: seq<Fact>, path: seq<nat>, k: nat)
    requires LogInv(cfg, log) && 2 <= k < |path| && (forall m :: 0 <= m < |path| ==> path[m] < |log|)
    requires log[path[2]].Exchanged?
    requires forall m :: 3 <= m < |path| ==> Follows(log, path[m - 1], path[m])
    ensures Root(log, path[k]) == path[2]
  {
    assert FactOk(cfg, log, path[k]);
    if k > 2 {
      assert Follows(log, path[k - 1], path[k]);
      PathRoot(cfg, log, path, k - 1);
    }
  }

  /** Any lineage of a stored token starts at the exchange that its hash is rooted in. */
  lemma LineageRoot(cfg: Config, log: seq<Fact>, requests: seq<Request>, minted: set<string>, tokens: Tokens,
                    path: seq<nat>, t: Token)
    requires LogInv(cfg, log) && MintInv(log, requests, minted) && StoreInv(log, tokens)
    requires t.hash in tokens && Lineage(log, path, t)
    ensures RootOf(log, t.hash) == path[2]
  {
    var last := path[|path| - 1];
    StoredIsIndexed(log, tokens, t.hash);
    assert Mints(log[last], t.hash) && Mints(log[MintIndex(log, t.hash)], t.hash);
    PathRoot(cfg, log, path, |path| - 1);
  }

  /** The second check of what a replace consumed never fires: the token found under the presented
      hash is the refresh token that was read. */
  lemma ConsumedIsWhatWasRead(cfg: Config, states: seq<State>, events: seq<Event>, n: nat, i: nat, opTime: int)
    requires IsRun(cfg, states, events) && n < |states|
    requires i < |states[n].requests| && states[n].requests[i].RefreshAwaitsReplace?
    ensures var r := states[n].requests[i];
            var consumed := ResultOf(Replace(r.presented, Both(r.access, r.refresh)), states[n].tokens, opTime);
            consumed.None? || (consumed == Some(r.granted) && r.granted.kind == Refresh)
  {
    RunInv(cfg, states, events, n);
    if states[n].requests[i].presented in states[n].tokens {
      ReplaceFindsGranted(cfg, states[n], i);
    }
  }

  // ---------------------------------------------------------------------------------------------
  // Bounded maps

  /** In every run there are never more than 128 sessions or codes. */
  lemma MapsStayBounded(cfg: Config, states: seq<State>, events: seq<Event>, n: nat)
    requires IsRun(cfg, states, events) && n < |states|
    ensures |states[n].sessions| <= 128 && |states[n].codes| <= 128
  {
    RunInv(cfg, states, events, n);
  }
}
