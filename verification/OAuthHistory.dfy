/** What every run says about the past and the future of a grant: where exchanges, refreshes and
    acceptances came from, and what a failed store write leaves behind. */
module OAuthHistory {
  import opened Wrappers
  import opened TokenStore
  import opened OAuthScope
  import opened OAuthAuthorization
  import opened OAuthServer
  import opened OAuthInvariant
  import opened OAuthSteps
  import opened OAuthTheorems

  // ---------------------------------------------------------------------------------------------
  // What one event brings about

  /** The event presents the unexpired code recorded as `k`, for its client, redirect URI and resource,
      with the verifier of its challenge. */
  ghost predicate PresentsCode(cfg: Config, s: State, e: Event, k: nat, verifier: string) {
    && e.ExchangeStarts?
    && var code := GetOrEmpty(e.fields, "code");
       && code in s.codes && s.codes[code].id == k && s.codes[code].expiresAt > e.now
       && verifier == GetOrEmpty(e.fields, "code_verifier")
       && var p := s.codes[code].params;
          && GetOrEmpty(e.fields, "client_id") == p.clientId && GetOrEmpty(e.fields, "redirect_uri") == p.redirectUri
          && GetOrEmpty(e.fields, "resource") == p.resource && AllowedResource(p.resource, e.localResource, cfg.isTunnel)
          && cfg.pkceOk(verifier, p.codeChallenge)
  }

  /** The request is for the client and the resource of the token and for no more than its scope. */
  ghost predicate FitsToken(cfg: Config, t: Token, f: Fields, localResource: string) {
    && GetOrEmpty(f, "client_id") == t.clientId && GetOrEmpty(f, "resource") in {"", t.resource}
    && AllowedResource(t.resource, localResource, cfg.isTunnel) && ScopeWithin(f, t.scope)
  }

  /** The event goes on with a refresh that read the unexpired refresh token `t`. */
  ghost predicate PresentsRefresh(cfg: Config, s: State, e: Event, h: string, t: Token) {
    && e.RefreshResumes? && e.request < |s.requests| && s.requests[e.request].RefreshRead?
    && var r := s.requests[e.request];
       && r.presented == h && r.stored == Some(t) && t.kind == Refresh && t.expiresAt > e.now
       && FitsToken(cfg, t, r.form, r.localResource)
  }

  /** The event lets a check pass that read the unexpired access token `t`. */
  ghost predicate PresentsAccess(cfg: Config, s: State, e: Event, t: Token) {
    && e.CheckResumes? && e.request < |s.requests| && s.requests[e.request].CheckRead?
    && var r := s.requests[e.request];
       && r.stored == Some(t) && t.kind == Access && t.expiresAt > e.now
       && IncludesDefault(t.scope) && AllowedResource(t.resource, r.localResource, cfg.isTunnel)
  }

  ghost predicate ReadsToken(s: State, e: Event, h: string, t: Token) {
    e.StoreReads? && h in s.tokens && s.tokens[h] == t
  }

  /** Where a request that holds something came from: it was there, or this event made it so. */
  ghost predicate Comes(cfg: Config, s: State, e: Event, i: nat, r: Request) {
    || (i < |s.requests| && r == s.requests[i])
    || match r
       case ExchangeAwaitsStore(k, v, _, _) => PresentsCode(cfg, s, e, k, v)
       case RefreshRead(_, _, h, stored) => stored.Some? ==> ReadsToken(s, e, h, stored.value)
       case CheckRead(_, h, stored) => stored.Some? ==> ReadsToken(s, e, h, stored.value)
       case RefreshAwaitsReplace(h, t, _, _) => PresentsRefresh(cfg, s, e, h, t)
       case _ => true
  }

  lemma RefreshComes(cfg: Config, s: State, j: nat, now: int, later: int, m: Mint)
    requires Enabled(s, RefreshResumes(j, now, later, m))
    ensures var s' := RefreshResume(cfg, s, j, now, later, m);
            Comes(cfg, s, RefreshResumes(j, now, later, m), j, s'.requests[j])
  {
    RefreshGoesOn(cfg, s, j, now, later, m);
    RefreshOutcome(cfg, s, j, now, later, m);
  }

  lemma ExchangeComes(cfg: Config, s: State, f: Fields, localResource: string, now: int, m: Mint)
    ensures var s' := ExchangeStart(cfg, s, f, localResource, now, m);
            && |s'.requests| == |s.requests| + 1
            && Comes(cfg, s, ExchangeStarts(f, localResource, now, m), |s.requests|, s'.requests[|s.requests|])
  {
    ExchangeGoesOn(cfg, s, f, localResource, now, m);
  }

  lemma StoreReadComes(cfg: Config, s: State, j: nat)
    requires Enabled(s, StoreReads(j))
    ensures Comes(cfg, s, StoreReads(j), j, StoreRead(s, j).requests[j])
  {
  }

  lemma PageComes(cfg: Config, s: State, e: Event, i: nat)
    requires Enabled(s, e) && (e.PageStarts? || e.PageStores?) && i < |After(cfg, s, e).requests|
    ensures Comes(cfg, s, e, i, After(cfg, s, e).requests[i])
  {
  }

  lemma ConfirmComes(cfg: Config, s: State, e: Event, i: nat)
    requires Enabled(s, e) && (e.ConfirmStarts? || e.ConfirmIssues?) && i < |After(cfg, s, e).requests|
    ensures Comes(cfg, s, e, i, After(cfg, s, e).requests[i])
  {
  }

  lemma CommitComes(cfg: Config, s: State, e: Event, i: nat)
    requires Enabled(s, e) && e.StoreCommits? && i < |After(cfg, s, e).requests|
    ensures Comes(cfg, s, e, i, After(cfg, s, e).requests[i])
  {
  }

  lemma CheckComes(cfg: Config, s: State, e: Event, i: nat)
    requires Enabled(s, e) && e.CheckResumes? && i < |After(cfg, s, e).requests|
    ensures Comes(cfg, s, e, i, After(cfg, s, e).requests[i])
  {
  }

  lemma OthersCome(cfg: Config, s: State, e: Event, i: nat)
    requires Enabled(s, e) && (e.Arrives? || e.RefreshStarts? || e.CheckStarts? || e.Restarts?) && i < |After(cfg, s, e).requests|
    ensures Comes(cfg, s, e, i, After(cfg, s, e).requests[i])
  {
  }

  /** Only the request of the event changes. */
  lemma OneChanges(cfg: Config, s: State, e: Event, j: nat, i: nat)
    requires Enabled(s, e) && i < |s.requests| && i != j
    requires e.RefreshResumes? || e.StoreReads?
    requires j == e.request
    ensures i < |After(cfg, s, e).requests| && After(cfg, s, e).requests[i] == s.requests[i]
  {
  }

  /** Each request of the new state comes from the old one or from the event. */
  lemma RequestOrigin(cfg: Config, s: State, e: Event, i: nat)
    requires Enabled(s, e) && i < |After(cfg, s, e).requests|
    ensures Comes(cfg, s, e, i, After(cfg, s, e).requests[i])
  {
    match e
    case ExchangeStarts(f, local, now, m) => ExchangeComes(cfg, s, f, local, now, m);
    case RefreshResumes(j, now, later, m) =>
      RefreshComes(cfg, s, j, now, later, m);
      RefreshSize(cfg, s, j, now, later, m);
      if i != j {
        OneChanges(cfg, s, e, j, i);
      }
    case StoreReads(j) =>
      StoreReadComes(cfg, s, j);
      if i != j {
        OneChanges(cfg, s, e, j, i);
      }
    case PageStarts(_, _) => PageComes(cfg, s, e, i);
    case PageStores(_, _, _, _) => PageComes(cfg, s, e, i);
    case ConfirmStarts(_, _, _) => ConfirmComes(cfg, s, e, i);
    case ConfirmIssues(_, _, _, _) => ConfirmComes(cfg, s, e, i);
    case StoreCommits(_, _, _, _) => CommitComes(cfg, s, e, i);
    case CheckResumes(_, _) => CheckComes(cfg, s, e, i);
    case _ => OthersCome(cfg, s, e, i);
  }

  lemma RefreshSize(cfg: Config, s: State, j: nat, now: int, later: int, m: Mint)
    requires j < |s.requests| && s.requests[j].RefreshRead?
    ensures |RefreshResume(cfg, s, j, now, later, m).requests| == |s.requests|
  {
  }

  /** What a new fact rests on. */
  ghost predicate Rests(cfg: Config, s: State, e: Event, f: Fact) {
    match f
    case Exchanged(k, v, access, refresh) =>
      exists i :: 0 <= i < |s.requests| && s.requests[i] == ExchangeAwaitsStore(k, v, access, refresh)
    case Refreshed(_, h, access, refresh) =>
      exists i :: 0 <= i < |s.requests| && s.requests[i].RefreshAwaitsReplace? && s.requests[i].presented == h
                  && s.requests[i].access == access && s.requests[i].refresh == refresh
    case Authorized(t) => PresentsAccess(cfg, s, e, t)
    case _ => true
  }

  /** The log after the event is the log before it, or that with one justified fact. */
  ghost predicate LogGrowsBy(cfg: Config, s: State, e: Event, log: seq<Fact>) {
    log == s.log || (|log| == |s.log| + 1 && log[..|s.log|] == s.log && Rests(cfg, s, e, log[|s.log|]))
  }

  lemma CommitFact(cfg: Config, s: State, e: Event)
    requires Enabled(s, e) && e.StoreCommits?
    ensures LogGrowsBy(cfg, s, e, After(cfg, s, e).log)
  {
    var r := s.requests[e.request];
    if r.ExchangeAwaitsStore? {
      assert Rests(cfg, s, e, Exchanged(r.code, r.verifier, r.access, r.refresh));
    } else if r.RefreshAwaitsReplace? {
      assert Rests(cfg, s, e, Refreshed(MintIndex(s.log, r.presented), r.presented, r.access, r.refresh));
    }
  }

  lemma AppendedFact(cfg: Config, s: State, e: Event, f: Fact)
    requires Rests(cfg, s, e, f)
    ensures LogGrowsBy(cfg, s, e, s.log + [f])
  {
  }

  lemma CheckLog(cfg: Config, s: State, i: nat, now: int)
    requires i < |s.requests| && s.requests[i].CheckRead?
    ensures var log, r := CheckResume(cfg, s, i, now).log, s.requests[i];
            || log == s.log
            || (r.stored.Some? && log == s.log + [Authorized(r.stored.value)]
                && PresentsAccess(cfg, s, CheckResumes(i, now), r.stored.value))
  {
  }

  lemma CheckFact(cfg: Config, s: State, e: Event)
    requires Enabled(s, e) && e.CheckResumes?
    ensures LogGrowsBy(cfg, s, e, CheckResume(cfg, s, e.request, e.now).log)
  {
    CheckLog(cfg, s, e.request, e.now);
    if CheckResume(cfg, s, e.request, e.now).log != s.log {
      AppendedFact(cfg, s, e, Authorized(s.requests[e.request].stored.value));
    }
  }

  lemma PageFact(cfg: Config, s: State, e: Event)
    requires Enabled(s, e) && (e.PageStores? || e.ConfirmIssues?)
    ensures LogGrowsBy(cfg, s, e, After(cfg, s, e).log)
  {
  }

  lemma QuietFacts(cfg: Config, s: State, e: Event)
    requires Enabled(s, e) && !e.PageStores? && !e.ConfirmIssues? && !e.CheckResumes? && !e.StoreCommits?
    ensures After(cfg, s, e).log == s.log
  {
  }

  lemma FactOrigin(cfg: Config, s: State, e: Event)
    requires Enabled(s, e)
    ensures LogGrowsBy(cfg, s, e, After(cfg, s, e).log)
  {
    match e
    case PageStores(_, _, _, _) => PageFact(cfg, s, e);
    case ConfirmIssues(_, _, _, _) => PageFact(cfg, s, e);
    case CheckResumes(_, _) => CheckFact(cfg, s, e);
    case StoreCommits(_, _, _, _) => CommitFact(cfg, s, e);
    case _ => QuietFacts(cfg, s, e);
  }

  // ---------------------------------------------------------------------------------------------
  // Where facts come from

  /** At some earlier event the store was read under `h` and held `t`. */
  ghost predicate WasRead(states: seq<State>, events: seq<Event>, n: nat, h: string, t: Token) {
    exists m :: 0 <= m < n && m < |states| && m < |events| && ReadsToken(states[m], events[m], h, t)
  }

  ghost predicate CodeWasPresented(cfg: Config, states: seq<State>, events: seq<Event>, n: nat, k: nat, verifier: string) {
    exists m :: 0 <= m < n && m < |states| && m < |events| && PresentsCode(cfg, states[m], events[m], k, verifier)
  }

  /** At some earlier event a refresh went on with `t`, which an event before that had read. */
  ghost predicate RefreshWasPresented(cfg: Config, states: seq<State>, events: seq<Event>, n: nat, h: string) {
    exists m, t :: 0 <= m < n && m < |states| && m < |events| && PresentsRefresh(cfg, states[m], events[m], h, t)
                   && WasRead(states, events, m, h, t)
  }

  /** At some earlier event a check passed with `t`, which an event before that had read. */
  ghost predicate AccessWasPresented(cfg: Config, states: seq<State>, events: seq<Event>, n: nat, t: Token) {
    exists m, h :: 0 <= m < n && m < |states| && m < |events| && PresentsAccess(cfg, states[m], events[m], t)
                   && WasRead(states, events, m, h, t)
  }

  /** What a request in flight rests on. */
  ghost predicate RequestRests(cfg: Config, states: seq<State>, events: seq<Event>, n: nat, r: Request) {
    match r
    case ExchangeAwaitsStore(k, v, _, _) => CodeWasPresented(cfg, states, events, n, k, v)
    case RefreshRead(_, _, h, stored) => stored.Some? ==> WasRead(states, events, n, h, stored.value)
    case CheckRead(_, h, stored) => stored.Some? ==> WasRead(states, events, n, h, stored.value)
    case RefreshAwaitsReplace(h, _, _, _) => RefreshWasPresented(cfg, states, events, n, h)
    case _ => true
  }

  ghost predicate FactRests(cfg: Config, states: seq<State>, events: seq<Event>, n: nat, f: Fact) {
    match f
    case Exchanged(k, v, _, _) => CodeWasPresented(cfg, states, events, n, k, v)
    case Refreshed(_, h, _, _) => RefreshWasPresented(cfg, states, events, n, h)
    case Authorized(t) => AccessWasPresented(cfg, states, events, n, t)
    case _ => true
  }

  ghost predicate AllRest(cfg: Config, states: seq<State>, events: seq<Event>, n: nat)
    requires n < |states|
  {
    && (forall i :: 0 <= i < |states[n].requests| ==> RequestRests(cfg, states, events, n, states[n].requests[i]))
    && (forall i :: 0 <= i < |states[n].log| ==> FactRests(cfg, states, events, n, states[n].log[i]))
  }

  lemma RestsLater(cfg: Config, states: seq<State>, events: seq<Event>, n: nat, r: Request)
    requires RequestRests(cfg, states, events, n, r)
    ensures RequestRests(cfg, states, events, n + 1, r)
  {
  }

  lemma FactRestsLater(cfg: Config, states: seq<State>, events: seq<Event>, n: nat, f: Fact)
    requires FactRests(cfg, states, events, n, f)
    ensures FactRests(cfg, states, events, n + 1, f)
  {
  }

  lemma NewRequestRests(cfg: Config, states: seq<State>, events: seq<Event>, n: nat, i: nat, r: Request)
    requires n < |states| && n < |events| && AllRest(cfg, states, events, n)
    requires Comes(cfg, states[n], events[n], i, r)
    ensures RequestRests(cfg, states, events, n + 1, r)
  {
    var s, e := states[n], events[n];
    if i < |s.requests| && r == s.requests[i] {
      RestsLater(cfg, states, events, n, r);
    } else if r.RefreshAwaitsReplace? {
      assert RequestRests(cfg, states, events, n, s.requests[e.request]);
      assert WasRead(states, events, n, r.presented, r.granted);
      assert PresentsRefresh(cfg, states[n], events[n], r.presented, r.granted);
    }
  }

  lemma NewFactRests(cfg: Config, states: seq<State>, events: seq<Event>, n: nat, f: Fact)
    requires n < |states| && n < |events| && AllRest(cfg, states, events, n)
    requires Rests(cfg, states[n], events[n], f)
    ensures FactRests(cfg, states, events, n + 1, f)
  {
    var s, e := states[n], events[n];
    match f
    case Exchanged(k, v, access, refresh) =>
      var i :| 0 <= i < |s.requests| && s.requests[i] == ExchangeAwaitsStore(k, v, access, refresh);
      RestsLater(cfg, states, events, n, s.requests[i]);
    case Refreshed(_, h, access, refresh) =>
      var i :| 0 <= i < |s.requests| && s.requests[i].RefreshAwaitsReplace? && s.requests[i].presented == h;
      RestsLater(cfg, states, events, n, s.requests[i]);
    case Authorized(t) =>
      assert RequestRests(cfg, states, events, n, s.requests[e.request]);
      assert WasRead(states, events, n, s.requests[e.request].presented, t);
      assert PresentsAccess(cfg, states[n], events[n], t);
    case _ =>
  }

  lemma RequestsRest(cfg: Config, states: seq<State>, events: seq<Event>, n: nat, i: nat)
    requires n < |states| && n < |events| && AllRest(cfg, states, events, n) && Enabled(states[n], events[n])
    requires i < |After(cfg, states[n], events[n]).requests|
    ensures RequestRests(cfg, states, events, n + 1, After(cfg, states[n], events[n]).requests[i])
  {
    RequestOrigin(cfg, states[n], events[n], i);
    NewRequestRests(cfg, states, events, n, i, After(cfg, states[n], events[n]).requests[i]);
  }

  lemma FactsRest(cfg: Config, states: seq<State>, events: seq<Event>, n: nat, log: seq<Fact>, i: nat)
    requires n < |states| && n < |events| && AllRest(cfg, states, events, n) && i < |log|
    requires LogGrowsBy(cfg, states[n], events[n], log)
    ensures FactRests(cfg, states, events, n + 1, log[i])
  {
    var before := states[n].log;
    if i < |before| {
      assert log == before || log[..|before|][i] == log[i];
      FactRestsLater(cfg, states, events, n, before[i]);
    } else {
      NewFactRests(cfg, states, events, n, log[i]);
    }
  }

  lemma RestsStep(cfg: Config, states: seq<State>, events: seq<Event>, n: nat)
    requires n + 1 < |states| && n < |events| && AllRest(cfg, states, events, n)
    requires Enabled(states[n], events[n]) && states[n + 1] == After(cfg, states[n], events[n])
    ensures AllRest(cfg, states, events, n + 1)
  {
    var s' := states[n + 1];
    FactOrigin(cfg, states[n], events[n]);
    forall i | 0 <= i < |s'.requests| ensures RequestRests(cfg, states, events, n + 1, s'.requests[i]) {
      RequestsRest(cfg, states, events, n, i);
    }
    forall i | 0 <= i < |s'.log| ensures FactRests(cfg, states, events, n + 1, s'.log[i]) {
      FactsRest(cfg, states, events, n, s'.log, i);
    }
  }

  lemma {:induction false} EverythingRests(cfg: Config, states: seq<State>, events: seq<Event>, n: nat)
    requires IsRun(cfg, states, events) && n < |states|
    ensures AllRest(cfg, states, events, n)
  {
    if n > 0 {
      EverythingRests(cfg, states, events, n - 1);
      RestsStep(cfg, states, events, n - 1);
    }
  }

  /** In every run each successful exchange was asked for by a request that presented the unexpired
      code with its client, redirect URI and resource and the verifier of its challenge. */
  lemma ExchangesWerePresented(cfg: Config, states: seq<State>, events: seq<Event>, n: nat, i: nat) returns (m: nat)
    requires IsRun(cfg, states, events) && n < |states|
    requires i < |states[n].log| && states[n].log[i].Exchanged?
    ensures m < n && PresentsCode(cfg, states[m], events[m], states[n].log[i].code, states[n].log[i].verifier)
  {
    EverythingRests(cfg, states, events, n);
    assert FactRests(cfg, states, events, n, states[n].log[i]);
    var f := states[n].log[i];
    m :| 0 <= m < n && m < |states| && m < |events| && PresentsCode(cfg, states[m], events[m], f.code, f.verifier);
  }

  /** In every run each successful refresh was asked for by a request that presented an unexpired
      refresh token, for its client, resource and scope, which the store had held when it was read. */
  lemma RefreshesWerePresented(cfg: Config, states: seq<State>, events: seq<Event>, n: nat, i: nat) returns (k: nat, m: nat, t: Token)
    requires IsRun(cfg, states, events) && n < |states|
    requires i < |states[n].log| && states[n].log[i].Refreshed?
    ensures k < m < n && ReadsToken(states[k], events[k], states[n].log[i].presented, t)
    ensures PresentsRefresh(cfg, states[m], events[m], states[n].log[i].presented, t)
  {
    EverythingRests(cfg, states, events, n);
    var h := states[n].log[i].presented;
    assert FactRests(cfg, states, events, n, states[n].log[i]);
    m, t :| 0 <= m < n && m < |states| && m < |events| && PresentsRefresh(cfg, states[m], events[m], h, t) && WasRead(states, events, m, h, t);
    k :| 0 <= k < m && k < |states| && k < |events| && ReadsToken(states[k], events[k], h, t);
  }

  /** In every run each accepted access token was unexpired, of an allowed resource and with the
      default scope when it was accepted, and the store had held it when it was read. */
  lemma AcceptancesWerePresented(cfg: Config, states: seq<State>, events: seq<Event>, n: nat, i: nat) returns (k: nat, m: nat, h: string)
    requires IsRun(cfg, states, events) && n < |states|
    requires i < |states[n].log| && states[n].log[i].Authorized?
    ensures k < m < n && ReadsToken(states[k], events[k], h, states[n].log[i].token)
    ensures PresentsAccess(cfg, states[m], events[m], states[n].log[i].token)
  {
    EverythingRests(cfg, states, events, n);
    var t := states[n].log[i].token;
    assert FactRests(cfg, states, events, n, states[n].log[i]);
    m, h :| 0 <= m < n && m < |states| && m < |events| && PresentsAccess(cfg, states[m], events[m], t) && WasRead(states, events, m, h, t);
    k :| 0 <= k < m && k < |states| && k < |events| && ReadsToken(states[k], events[k], h, t);
  }

  /** In every run every minted token has a lineage and stays within its consent. */
  lemma MintedTokensDescend(cfg: Config, states: seq<State>, events: seq<Event>, n: nat, i: nat, t: Token) returns (path: seq<nat>)
    requires IsRun(cfg, states, events) && n < |states| && i < |states[n].log| && MintsToken(states[n].log[i], t)
    ensures var log := states[n].log;
            && Lineage(log, path, t) && path[|path| - 1] == i && WithinConsent(t, log[path[0]].params)
            && cfg.pkceOk(log[path[2]].verifier, log[path[0]].params.codeChallenge)
  {
    RunInv(cfg, states, events, n);
    path := MintedHasLineage(cfg, states[n].log, i, t);
  }

  // ---------------------------------------------------------------------------------------------
  // Who goes on

  lemma CodeIsRecorded(cfg: Config, s: State, code: string)
    requires Inv(cfg, s) && code in s.codes
    ensures var k := s.codes[code].id;
            && k < |s.log| && s.log[k].CodeIssued? && s.log[k].params == s.codes[code].params
            && (forall i :: 0 <= i < |s.log| && s.log[i].Exchanged? ==> s.log[i].code != k)
            && (forall other :: other in s.codes && other != code ==> s.codes[other].id != k)
  {
    var k := s.codes[code].id;
    assert TicketAt(s.sessions, s.codes, s.requests, CodeEntry(code)) == Some(Code(k));
    forall i | 0 <= i < |s.log| && s.log[i].Exchanged? ensures s.log[i].code != k {
      assert Spends(s.log[i]) == Some(Code(s.log[i].code));
    }
    forall other | other in s.codes && other != code ensures s.codes[other].id != k {
      assert TicketAt(s.sessions, s.codes, s.requests, CodeEntry(other)) == Some(Code(s.codes[other].id));
    }
  }

  /** In every run an exchange goes on to the store exactly when it presents a code. The code was never
      exchanged before and is then in no map; the tokens are new ones for the client, the resource and
      the scope it was issued for. */
  lemma ExchangesGoOn(cfg: Config, states: seq<State>, events: seq<Event>, n: nat)
    requires IsRun(cfg, states, events) && n < |events| && events[n].ExchangeStarts?
    ensures var s, s', e := states[n], states[n + 1], events[n];
            && |s'.requests| == |s.requests| + 1 && s'.tokens == s.tokens
            && var r := s'.requests[|s.requests|];
               && (r.ExchangeAwaitsStore? <==> exists k, v :: PresentsCode(cfg, s, e, k, v))
               && (r.ExchangeAwaitsStore? ==> PresentsCode(cfg, s, e, r.code, r.verifier) && GoesOnWith(cfg, s, s', r, e.mint))
  {
    var s, e := states[n], events[n];
    RunInv(cfg, states, events, n);
    ExchangeGoesOn(cfg, s, e.fields, e.localResource, e.now, e.mint);
    ExchangeComes(cfg, s, e.fields, e.localResource, e.now, e.mint);
    var code := GetOrEmpty(e.fields, "code");
    if exists k, v :: PresentsCode(cfg, s, e, k, v) {
      assert code in s.codes;
      CodeIsRecorded(cfg, s, code);
      ExchangeMintsForCode(cfg, s, code, GetOrEmpty(e.fields, "code_verifier"), e.mint);
    }
  }

  /** The exchange of a code recorded as `r.code`. */
  ghost predicate GoesOnWith(cfg: Config, s: State, s': State, r: Request, m: Mint)
    requires r.ExchangeAwaitsStore?
  {
    && r.code < |s.log| && s.log[r.code].CodeIssued?
    && (forall i :: 0 <= i < |s.log| && s.log[i].Exchanged? ==> s.log[i].code != r.code)
    && (forall k :: k in s'.codes ==> s'.codes[k].id != r.code)
    && var p := s.log[r.code].params;
       Issued(cfg, r.access, r.refresh, p.clientId, p.resource, p.scope, m)
  }

  /** In every run a refresh goes on to the store exactly when it presents a refresh token. That token
      was minted by a recorded exchange or refresh. The new tokens are for its client and resource; their
      scope is its own when the request gives none, and otherwise the normal form of what it gives. */
  lemma RefreshesGoOn(cfg: Config, states: seq<State>, events: seq<Event>, n: nat)
    requires IsRun(cfg, states, events) && n < |events| && events[n].RefreshResumes?
    ensures var s, s', e := states[n], states[n + 1], events[n];
            && e.request < |s.requests| && |s'.requests| == |s.requests| && s'.tokens == s.tokens
            && var r := s'.requests[e.request];
               && (r.RefreshAwaitsReplace? <==> exists h, t :: PresentsRefresh(cfg, s, e, h, t))
               && (r.RefreshAwaitsReplace? ==> PresentsRefresh(cfg, s, e, r.presented, r.granted) && RefreshesWith(cfg, s, r, s.requests[e.request].form, e.mint))
  {
    var s, e := states[n], events[n];
    RunInv(cfg, states, events, n);
    RefreshGoesOn(cfg, s, e.request, e.now, e.later, e.mint);
    RefreshComes(cfg, s, e.request, e.now, e.later, e.mint);
    RefreshSize(cfg, s, e.request, e.now, e.later, e.mint);
    assert RequestOk(cfg, s.log, s.requests[e.request]);
    if exists h, t :: PresentsRefresh(cfg, s, e, h, t) {
      var h, t :| PresentsRefresh(cfg, s, e, h, t);
      assert s.requests[e.request].stored == Some(t);
      RefreshesWithToken(cfg, s, e.request, e.now, e.later, e.mint);
    }
  }

  lemma RefreshesWithToken(cfg: Config, s: State, i: nat, now: int, later: int, m: Mint)
    requires Inv(cfg, s) && Enabled(s, RefreshResumes(i, now, later, m))
    requires RefreshResume(cfg, s, i, now, later, m).requests[i].RefreshAwaitsReplace?
    ensures RefreshesWith(cfg, s, RefreshResume(cfg, s, i, now, later, m).requests[i], s.requests[i].form, m)
  {
    var r := RefreshResume(cfg, s, i, now, later, m).requests[i];
    RefreshMintsForToken(cfg, s, i, now, later, m);
    assert RequestOk(cfg, s.log, s.requests[i]);
    MintedScope(cfg, s.log, r.granted);
    NewScope(s.requests[i].form, r.granted.scope, r.access.scope);
  }

  lemma NewScope(f: Fields, granted: string, scope: string)
    requires AsksFor(f, granted, scope) && granted in {DEFAULT_SCOPE, BOTH_SCOPES}
    ensures scope in {DEFAULT_SCOPE, BOTH_SCOPES}
  {
  }

  /** The refresh of the minted token `r.granted`, as the request asks for it. */
  ghost predicate RefreshesWith(cfg: Config, s: State, r: Request, form: Fields, m: Mint)
    requires r.RefreshAwaitsReplace?
  {
    && MintedIn(s.log, r.granted) && AsksFor(form, r.granted.scope, r.access.scope)
    && r.granted.scope in {DEFAULT_SCOPE, BOTH_SCOPES} && r.access.scope in {DEFAULT_SCOPE, BOTH_SCOPES}
    && Issued(cfg, r.access, r.refresh, r.granted.clientId, r.granted.resource, r.access.scope, m)
  }
}
