/** The authorization server as a state machine. Each event is one stretch of a handler between two
    `await`s; any number of requests interleave. Clock values, random tokens, client lookups and
    the outcome of store writes are parameters of the events. */
module OAuthServer {
  import opened Wrappers
  import opened TokenStore
  import opened OAuthScope
  import opened OAuthAuthorization

  const MAX_ENTRIES := 128
  const MAX_ATTEMPTS := 8
  const REFRESH_TTL_MS := 90 * 24 * 60 * 60 * 1000

  datatype Config = Config(
    codeTtlMs: int, accessTtlMs: int, isTunnel: string -> bool, pkceOk: (string, string) -> bool)

  /** A consent session or an authorization code. `id` is where the log records its creation. */
  datatype Entry = Entry(params: Params, expiresAt: int, id: nat)

  type Entries = map<string, Entry>

  /** The history of what was granted; nothing in the handlers reads it. */
  datatype Fact =
    | Consented(params: Params)
    | CodeIssued(consent: nat, params: Params)
    | Exchanged(code: nat, verifier: string, access: Token, refresh: Option<Token>)
    | Refreshed(parent: nat, presented: string, access: Token, refresh: Option<Token>)
    | Authorized(token: Token)

  datatype Response =
    | Rejected(error: OAuthError)
    | ConsentPage(nonce: string)
    | Redirected(code: string, redirectUri: string, state: Option<string>)
    | TokensIssued(access: Token, refresh: Option<Token>)
    | Allowed
    | Denied

  datatype Request =
    | PageAwaitsClient(params: Params)
    | ConfirmAwaitsClient(consent: nat, params: Params)
    | ExchangeAwaitsStore(code: nat, verifier: string, access: Token, refresh: Option<Token>)
    | RefreshAwaitsRead(form: Fields, localResource: string, presented: string)
    | RefreshRead(form: Fields, localResource: string, presented: string, stored: Option<Token>)
    | RefreshAwaitsReplace(presented: string, granted: Token, access: Token, refresh: Option<Token>)
    | CheckAwaitsRead(localResource: string, presented: string)
    | CheckRead(localResource: string, presented: string, stored: Option<Token>)
    | DeleteAwaitsStore(presented: string, response: Response)
    | Done(response: Response)

  datatype State = State(
    sessions: Entries, codes: Entries, tokens: Tokens, requests: seq<Request>,
    log: seq<Fact>, minted: set<string>)

  /** Hashes of two random tokens and the clock when each was stamped. */
  datatype Mint = Mint(accessHash: string, accessTime: int, refreshHash: string, refreshTime: int)

  datatype Event =
    | Arrives(now: int)
    | PageStarts(fields: Fields, localResource: string)
    | PageStores(request: nat, client: Option<seq<string>>, now: int, candidates: seq<string>)
    | ConfirmStarts(fields: Fields, localResource: string, now: int)
    | ConfirmIssues(request: nat, client: Option<seq<string>>, now: int, candidates: seq<string>)
    | ExchangeStarts(fields: Fields, localResource: string, now: int, mint: Mint)
    | RefreshStarts(fields: Fields, localResource: string, presented: string)
    | RefreshResumes(request: nat, now: int, later: int, mint: Mint)
    | CheckStarts(localResource: string, presented: string)
    | CheckResumes(request: nat, now: int)
    | StoreReads(request: nat)
    | StoreCommits(request: nat, ok: bool, opTime: int, persistTime: Option<int>)
    | Restarts(durable: bool)

  function Init(): State {
    State(map[], map[], map[], [], [], {})
  }

  // ---------------------------------------------------------------------------------------------
  // Bounded maps

  function Prune(m: Entries, now: int): Entries {
    map k | k in m && m[k].expiresAt > now :: m[k]
  }

  /** The first candidate that is not a key. */
  function PickUnique(m: Entries, candidates: seq<string>): (r: Option<string>)
    ensures r.Some? ==> r.value !in m
  {
    if candidates == [] then None
    else if candidates[0] !in m then Some(candidates[0])
    else PickUnique(m, candidates[1..])
  }

  /** Where a new entry goes after pruning: nowhere when the map is full or no key is free. A null
      or empty key counts as none. */
  function Slot(pruned: Entries, candidates: seq<string>): (r: Option<string>)
    ensures r.Some? ==> |pruned| < MAX_ENTRIES && r.value !in pruned
  {
    if |pruned| >= MAX_ENTRIES then None
    else
      var c := PickUnique(pruned, candidates);
      if c == Some("") then None else c
  }

  /** When an entry stored now runs out. */
  function Expiry(cfg: Config, now: int): int {
    now + cfg.codeTtlMs
  }

  // ---------------------------------------------------------------------------------------------
  // Requests

  function Append(s: State, r: Request): State {
    s.(requests := s.requests + [r])
  }

  function SetRequest(s: State, i: nat, r: Request): State
    requires i < |s.requests|
  {
    s.(requests := s.requests[i := r])
  }

  function Finish(s: State, i: nat, response: Response): State
    requires i < |s.requests|
  {
    SetRequest(s, i, Done(response))
  }

  // ---------------------------------------------------------------------------------------------
  // Consent page

  function PageStart(cfg: Config, s: State, f: Fields, localResource: string): State {
    var v := ValidateFields(f, localResource, cfg.isTunnel);
    Append(s, if v.Ok? then PageAwaitsClient(v.value) else Done(Rejected(v.error)))
  }

  /** The insertion of a session once the map is pruned. */
  function InsertSession(s: State, i: nat, p: Params, expiresAt: int, slot: Option<string>): State
    requires i < |s.requests|
  {
    if slot.None? then Finish(s, i, Rejected(TemporarilyUnavailable))
    else Finish(s.(sessions := s.sessions[slot.value := Entry(p, expiresAt, |s.log|)],
                   log := s.log + [Consented(p)]),
                i, ConsentPage(slot.value))
  }

  function PageStore(cfg: Config, s: State, i: nat, client: Option<seq<string>>, now: int,
                     candidates: seq<string>): State
    requires i < |s.requests| && s.requests[i].PageAwaitsClient?
  {
    var v := ValidateClient(s.requests[i].params, client);
    if v.Err? then Finish(s, i, Rejected(v.error))
    else
      var pruned := Prune(s.sessions, now);
      InsertSession(s.(sessions := pruned), i, v.value, Expiry(cfg, now), Slot(pruned, candidates))
  }

  // ---------------------------------------------------------------------------------------------
  // Confirmation

  predicate PostedField(f: Fields, name: string, expected: string) {
    name !in f || f[name] == expected
  }

  /** Every posted OAuth field matches the pending consent. */
  predicate PostedMatch(f: Fields, p: Params) {
    && PostedField(f, "client_id", p.clientId) && PostedField(f, "redirect_uri", p.redirectUri)
    && PostedField(f, "resource", p.resource) && PostedField(f, "code_challenge", p.codeChallenge)
    && PostedField(f, "scope", p.scope)
    && PostedField(f, "state", if p.state.Some? then p.state.value else "")
  }

  function ConfirmStart(cfg: Config, s: State, f: Fields, localResource: string, now: int): State {
    var nonce := GetOrEmpty(f, "csrf_nonce");
    if nonce == "" then Append(s, Done(Rejected(InvalidCsrfNonce)))
    else
      var s' := s.(sessions := s.sessions - {nonce});
      if nonce !in s.sessions || s.sessions[nonce].expiresAt <= now || !PostedMatch(f, s.sessions[nonce].params)
      then Append(s', Done(Rejected(InvalidCsrfNonce)))
      else
        var v := ValidateFields(SessionFields(s.sessions[nonce].params), localResource, cfg.isTunnel);
        Append(s', if v.Ok? then ConfirmAwaitsClient(s.sessions[nonce].id, v.value) else Done(Rejected(v.error)))
  }

  /** What a code remembers of the validated parameters. */
  function CodeParams(p: Params): Params {
    p.(state := None)
  }

  /** The insertion of a code once the map is pruned. */
  function InsertCode(s: State, i: nat, consent: nat, p: Params, expiresAt: int, slot: Option<string>): State
    requires i < |s.requests|
  {
    if slot.None? then Finish(s, i, Rejected(TemporarilyUnavailable))
    else Finish(s.(codes := s.codes[slot.value := Entry(CodeParams(p), expiresAt, |s.log|)],
                   log := s.log + [CodeIssued(consent, CodeParams(p))]),
                i, Redirected(slot.value, p.redirectUri, p.state))
  }

  function ConfirmIssue(cfg: Config, s: State, i: nat, client: Option<seq<string>>, now: int,
                        candidates: seq<string>): State
    requires i < |s.requests| && s.requests[i].ConfirmAwaitsClient?
  {
    var r := s.requests[i];
    var v := ValidateClient(r.params, client);
    if v.Err? then Finish(s, i, Rejected(v.error))
    else
      var pruned := Prune(s.codes, now);
      InsertCode(s.(codes := pruned), i, r.consent, v.value, Expiry(cfg, now), Slot(pruned, candidates))
  }

  // ---------------------------------------------------------------------------------------------
  // Tokens

  function AccessToken(cfg: Config, clientId: string, resource: string, scope: string, m: Mint): Token {
    Token(Access, m.accessHash, clientId, m.accessTime + cfg.accessTtlMs, resource, scope)
  }

  function RefreshToken(clientId: string, resource: string, scope: string, m: Mint): Option<Token> {
    if IncludesOffline(scope)
    then Some(Token(Refresh, m.refreshHash, clientId, m.refreshTime + REFRESH_TTL_MS, resource, scope))
    else None
  }

  function Both(access: Token, refresh: Option<Token>): seq<Token> {
    [access] + if refresh.Some? then [refresh.value] else []
  }

  function NewHashes(access: Token, refresh: Option<Token>): set<string> {
    {access.hash} + if refresh.Some? then {refresh.value.hash} else {}
  }

  predicate ExchangeMatches(cfg: Config, p: Params, f: Fields, localResource: string) {
    && p.clientId == GetOrEmpty(f, "client_id") && p.redirectUri == GetOrEmpty(f, "redirect_uri")
    && p.resource == GetOrEmpty(f, "resource") && AllowedResource(p.resource, localResource, cfg.isTunnel)
    && cfg.pkceOk(GetOrEmpty(f, "code_verifier"), p.codeChallenge)
  }

  /** A code whose exchange checks out leaves the map before its tokens reach the store. */
  function ConsumeCode(cfg: Config, s: State, code: string, verifier: string, m: Mint): State
    requires code in s.codes
  {
    var p := s.codes[code].params;
    var access := AccessToken(cfg, p.clientId, p.resource, p.scope, m);
    var refresh := RefreshToken(p.clientId, p.resource, p.scope, m);
    Append(s.(codes := s.codes - {code}, minted := s.minted + NewHashes(access, refresh)),
           ExchangeAwaitsStore(s.codes[code].id, verifier, access, refresh))
  }

  function ExchangeStart(cfg: Config, s: State, f: Fields, localResource: string, now: int, m: Mint): State {
    var code := GetOrEmpty(f, "code");
    if code !in s.codes || s.codes[code].expiresAt <= now
    then Append(s.(codes := s.codes - {code}), Done(Rejected(InvalidGrant)))
    else if !ExchangeMatches(cfg, s.codes[code].params, f, localResource)
    then Append(s, Done(Rejected(InvalidGrant)))
    else ConsumeCode(cfg, s, code, GetOrEmpty(f, "code_verifier"), m)
  }

  function NonEmptyOr(v: Option<string>, default: string): string {
    if v.Some? && v.value != "" then v.value else default
  }

  /** The scope of the new tokens, or none when the request asks for more than was granted. */
  function RequestedScope(f: Fields, granted: string): Option<string> {
    if "scope" !in f then Some(granted)
    else
      var requested := NormalizeScope(Get(f, "scope"));
      if requested.Some? && IsSubset(requested.value, granted) then requested else None
  }

  /** The request is for the client and the resource of the stored token. */
  predicate RefreshMatches(cfg: Config, t: Token, f: Fields, localResource: string) {
    && GetOrEmpty(f, "client_id") == t.clientId
    && NonEmptyOr(Get(f, "resource"), t.resource) == t.resource
    && AllowedResource(t.resource, localResource, cfg.isTunnel)
  }

  function Replacing(cfg: Config, s: State, i: nat, presented: string, t: Token, scope: string, m: Mint): State
    requires i < |s.requests|
  {
    var access := AccessToken(cfg, t.clientId, t.resource, scope, m);
    var refresh := RefreshToken(t.clientId, t.resource, scope, m);
    SetRequest(s.(minted := s.minted + NewHashes(access, refresh)), i,
               RefreshAwaitsReplace(presented, t, access, refresh))
  }

  /** What a refresh makes of the token it read: it goes on with a scope, or the request ends up
      otherwise. */
  datatype Decision = GoOn(scope: string) | Stop(next: Request)

  function Decide(cfg: Config, r: Request, now: int, later: int): (d: Decision)
    requires r.RefreshRead?
    ensures d.GoOn? ==> r.stored.Some?
    ensures d.Stop? ==> d.next.Done? || d.next.DeleteAwaitsStore?
  {
    if r.stored.None? then Stop(Done(Rejected(InvalidGrant)))
    else
      var t := r.stored.value;
      if t.kind != Refresh || t.expiresAt <= now then
        if t.expiresAt <= later then Stop(DeleteAwaitsStore(r.presented, Rejected(InvalidGrant)))
        else Stop(Done(Rejected(InvalidGrant)))
      else if !RefreshMatches(cfg, t, r.form, r.localResource) then Stop(Done(Rejected(InvalidGrant)))
      else
        var scope := RequestedScope(r.form, t.scope);
        if scope.None? then Stop(Done(Rejected(InvalidScope))) else GoOn(scope.value)
  }

  function RefreshResume(cfg: Config, s: State, i: nat, now: int, later: int, m: Mint): State
    requires i < |s.requests| && s.requests[i].RefreshRead?
  {
    var r := s.requests[i];
    match Decide(cfg, r, now, later)
    case GoOn(scope) => Replacing(cfg, s, i, r.presented, r.stored.value, scope, m)
    case Stop(next) => SetRequest(s, i, next)
  }

  function CheckResume(cfg: Config, s: State, i: nat, now: int): State
    requires i < |s.requests| && s.requests[i].CheckRead?
  {
    var r := s.requests[i];
    if r.stored.None? then Finish(s, i, Denied)
    else
      var t := r.stored.value;
      if t.expiresAt <= now then SetRequest(s, i, DeleteAwaitsStore(r.presented, Denied))
      else if t.kind == Access && AllowedResource(t.resource, r.localResource, cfg.isTunnel) && IncludesDefault(t.scope)
      then Finish(s.(log := s.log + [Authorized(t)]), i, Allowed)
      else Finish(s, i, Denied)
  }

  // ---------------------------------------------------------------------------------------------
  // The token store seen from the handlers: a map on which each operation takes effect at once

  function StoreRead(s: State, i: nat): State
    requires i < |s.requests| && (s.requests[i].RefreshAwaitsRead? || s.requests[i].CheckAwaitsRead?)
  {
    var r := s.requests[i];
    var stored := Lookup(s.tokens, r.presented);
    SetRequest(s, i, if r.CheckAwaitsRead? then CheckRead(r.localResource, r.presented, stored)
                     else RefreshRead(r.form, r.localResource, r.presented, stored))
  }

  /** A store that persists purges expired tokens as it commits; the memory store does not. */
  function Effect(op: Op, m: Tokens, opTime: int, persistTime: Option<int>): Tokens {
    if persistTime.Some? then Write(op, m, opTime, persistTime.value) else Apply(op, m, opTime)
  }

  /** The fact put a token with this hash in the store. */
  predicate Mints(f: Fact, h: string) {
    (f.Exchanged? || f.Refreshed?) && (f.access.hash == h || (f.refresh.Some? && f.refresh.value.hash == h))
  }

  /** The first fact that created the hash; `|log|` when there is none. */
  function MintIndex(log: seq<Fact>, h: string): (i: nat)
    ensures i <= |log|
    ensures i < |log| ==> Mints(log[i], h)
    ensures forall k :: 0 <= k < i ==> !Mints(log[k], h)
  {
    if log == [] then 0
    else if Mints(log[0], h) then 0
    else 1 + MintIndex(log[1..], h)
  }

  function StoreCommit(s: State, i: nat, ok: bool, opTime: int, persistTime: Option<int>): State
    requires i < |s.requests|
    requires var r := s.requests[i]; r.ExchangeAwaitsStore? || r.RefreshAwaitsReplace? || r.DeleteAwaitsStore?
  {
    var r := s.requests[i];
    if !ok then Finish(s, i, Rejected(StoreFailed))
    else match r
      case ExchangeAwaitsStore(code, verifier, access, refresh) =>
        Finish(s.(tokens := Effect(SetMany(Both(access, refresh)), s.tokens, opTime, persistTime),
                  log := s.log + [Exchanged(code, verifier, access, refresh)]),
               i, TokensIssued(access, refresh))
      case RefreshAwaitsReplace(presented, _, access, refresh) =>
        var op := Replace(presented, Both(access, refresh));
        var consumed := ResultOf(op, s.tokens, opTime);
        var s' := s.(tokens := Effect(op, s.tokens, opTime, persistTime));
        if consumed.None? || consumed.value.kind != Refresh then Finish(s', i, Rejected(InvalidGrant))
        else Finish(s'.(log := s.log + [Refreshed(MintIndex(s.log, presented), presented, access, refresh)]),
                    i, TokensIssued(access, refresh))
      case DeleteAwaitsStore(presented, response) =>
        Finish(s.(tokens := Effect(Delete(presented), s.tokens, opTime, persistTime)), i, response)
  }

  /** A new process: sessions, codes and requests in flight are lost, and so are the tokens unless the
      store is a durable one. */
  function Restart(s: State, durable: bool): State {
    State(map[], map[], if durable then s.tokens else map[], [], s.log, s.minted)
  }

  // ---------------------------------------------------------------------------------------------
  // Runs

  /** Random tokens are drawn fresh: no hash was ever drawn before. */
  predicate FreshMint(s: State, m: Mint) {
    m.accessHash != m.refreshHash && m.accessHash !in s.minted && m.refreshHash !in s.minted
  }

  predicate Enabled(s: State, e: Event) {
    match e
    case Arrives(_) => true
    case PageStarts(_, _) => true
    case PageStores(i, _, _, cs) => i < |s.requests| && s.requests[i].PageAwaitsClient? && |cs| == MAX_ATTEMPTS
    case ConfirmStarts(_, _, _) => true
    case ConfirmIssues(i, _, _, cs) => i < |s.requests| && s.requests[i].ConfirmAwaitsClient? && |cs| == MAX_ATTEMPTS
    case ExchangeStarts(_, _, _, m) => FreshMint(s, m)
    case RefreshStarts(_, _, _) => true
    case RefreshResumes(i, _, _, m) => i < |s.requests| && s.requests[i].RefreshRead? && FreshMint(s, m)
    case CheckStarts(_, _) => true
    case CheckResumes(i, _) => i < |s.requests| && s.requests[i].CheckRead?
    case Restarts(_) => true
    case StoreReads(i) => i < |s.requests| && (s.requests[i].RefreshAwaitsRead? || s.requests[i].CheckAwaitsRead?)
    case StoreCommits(i, _, _, _) =>
      && i < |s.requests|
      && (s.requests[i].ExchangeAwaitsStore? || s.requests[i].RefreshAwaitsReplace? || s.requests[i].DeleteAwaitsStore?)
  }

  function After(cfg: Config, s: State, e: Event): State
    requires Enabled(s, e)
  {
    match e
    case Arrives(now) => s.(sessions := Prune(s.sessions, now), codes := Prune(s.codes, now))
    case PageStarts(f, local) => PageStart(cfg, s, f, local)
    case PageStores(i, client, now, cs) => PageStore(cfg, s, i, client, now, cs)
    case ConfirmStarts(f, local, now) => ConfirmStart(cfg, s, f, local, now)
    case ConfirmIssues(i, client, now, cs) => ConfirmIssue(cfg, s, i, client, now, cs)
    case ExchangeStarts(f, local, now, m) => ExchangeStart(cfg, s, f, local, now, m)
    case RefreshStarts(f, local, presented) => Append(s, RefreshAwaitsRead(f, local, presented))
    case RefreshResumes(i, now, later, m) => RefreshResume(cfg, s, i, now, later, m)
    case CheckStarts(local, presented) => Append(s, CheckAwaitsRead(local, presented))
    case CheckResumes(i, now) => CheckResume(cfg, s, i, now)
    case StoreReads(i) => StoreRead(s, i)
    case StoreCommits(i, ok, opTime, persistTime) => StoreCommit(s, i, ok, opTime, persistTime)
    case Restarts(durable) => Restart(s, durable)
  }

  function Step(cfg: Config): (State, Event) -> Option<State> {
    (s, e) => if Enabled(s, e) then Some(After(cfg, s, e)) else None
  }

  ghost predicate IsRun(cfg: Config, states: seq<State>, events: seq<Event>) {
    && |states| == |events| + 1 && states[0] == Init()
    && forall i :: 0 <= i < |events| ==>
         Enabled(states[i], events[i]) && states[i + 1] == After(cfg, states[i], events[i])
  }
}
