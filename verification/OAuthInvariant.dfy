/** What every step of the authorization server keeps. */
module OAuthInvariant {
  import opened Wrappers
  import opened Sets
  import opened TokenStore
  import opened OAuthScope
  import opened OAuthAuthorization
  import opened OAuthServer

  // ---------------------------------------------------------------------------------------------
  // The log

  /** The parameters agree on everything but the client's opaque state. */
  predicate SameGrant(p: Params, q: Params) {
    p.(state := None) == q.(state := None)
  }

  ghost predicate TokenFor(t: Token, kind: Kind, clientId: string, resource: string, scope: string) {
    t.kind == kind && t.clientId == clientId && t.resource == resource && t.scope == scope
  }

  /** An access token and maybe a refresh token for one client, resource and scope. */
  ghost predicate TokensFor(access: Token, refresh: Option<Token>, clientId: string, resource: string, scope: string) {
    && TokenFor(access, Access, clientId, resource, scope)
    && (refresh.Some? ==> TokenFor(refresh.value, Refresh, clientId, resource, scope) && refresh.value.hash != access.hash)
  }

  function RefreshOf(f: Fact): Option<Token> {
    if f.Exchanged? || f.Refreshed? then f.refresh else None
  }

  predicate MintsToken(f: Fact, t: Token) {
    (f.Exchanged? || f.Refreshed?) && (f.access == t || f.refresh == Some(t))
  }

  ghost predicate MintedIn(log: seq<Fact>, t: Token) {
    exists i :: 0 <= i < |log| && MintsToken(log[i], t)
  }

  ghost predicate ExchangeOk(cfg: Config, log: seq<Fact>, code: nat, verifier: string, access: Token, refresh: Option<Token>) {
    && code < |log| && log[code].CodeIssued?
    && var p := log[code].params;
       cfg.pkceOk(verifier, p.codeChallenge) && TokensFor(access, refresh, p.clientId, p.resource, p.scope)
  }

  ghost predicate RefreshOk(granted: Token, presented: string, access: Token, refresh: Option<Token>) {
    && granted.kind == Refresh && granted.hash == presented
    && TokensFor(access, refresh, granted.clientId, granted.resource, access.scope)
    && IsSubset(access.scope, granted.scope) && access.scope in {DEFAULT_SCOPE, BOTH_SCOPES}
  }

  /** A fact is justified by facts before it. */
  ghost predicate FactOk(cfg: Config, log: seq<Fact>, i: nat)
    requires i < |log|
  {
    match log[i]
    case Consented(p) => SessionShape(p)
    case CodeIssued(c, p) => c < i && log[c].Consented? && SameGrant(p, log[c].params)
    case Exchanged(k, v, access, refresh) => ExchangeOk(cfg, log[..i], k, v, access, refresh)
    case Refreshed(parent, h, access, refresh) =>
      parent < i && RefreshOf(log[parent]).Some? && RefreshOk(RefreshOf(log[parent]).value, h, access, refresh)
    case Authorized(t) => t.kind == Access && MintedIn(log[..i], t)
  }

  ghost predicate LogInv(cfg: Config, log: seq<Fact>) {
    forall i :: 0 <= i < |log| ==> FactOk(cfg, log, i)
  }

  // ---------------------------------------------------------------------------------------------
  // Tickets: what a fact uses up, and who holds what has not been used yet

  datatype Ticket = Consent(id: nat) | Code(id: nat) | RefreshHash(hash: string)

  function Spends(f: Fact): Option<Ticket> {
    match f
    case CodeIssued(c, _) => Some(Consent(c))
    case Exchanged(k, _, _, _) => Some(Code(k))
    case Refreshed(_, h, _, _) => Some(RefreshHash(h))
    case _ => None
  }

  ghost predicate Spent(log: seq<Fact>, t: Ticket) {
    exists i :: 0 <= i < |log| && Spends(log[i]) == Some(t)
  }

  ghost predicate SpendOnce(log: seq<Fact>) {
    forall i, j :: 0 <= i < j < |log| && Spends(log[i]).Some? ==> Spends(log[i]) != Spends(log[j])
  }

  datatype Place = Session(nonce: string) | CodeEntry(code: string) | Pending(request: nat)

  function TicketAt(sessions: Entries, codes: Entries, requests: seq<Request>, p: Place): Option<Ticket> {
    match p
    case Session(k) => if k in sessions then Some(Consent(sessions[k].id)) else None
    case CodeEntry(k) => if k in codes then Some(Code(codes[k].id)) else None
    case Pending(i) =>
      if i >= |requests| then None
      else if requests[i].ConfirmAwaitsClient? then Some(Consent(requests[i].consent))
      else if requests[i].ExchangeAwaitsStore? then Some(Code(requests[i].code))
      else None
  }

  ghost predicate Unheld(sessions: Entries, codes: Entries, requests: seq<Request>, t: Ticket) {
    forall p :: TicketAt(sessions, codes, requests, p) != Some(t)
  }

  /** Nothing that is held has been used, and nothing is held twice. */
  ghost predicate TicketInv(log: seq<Fact>, sessions: Entries, codes: Entries, requests: seq<Request>) {
    && (forall p :: TicketAt(sessions, codes, requests, p).Some? ==> !Spent(log, TicketAt(sessions, codes, requests, p).value))
    && (forall p, q ::
          (TicketAt(sessions, codes, requests, p).Some? &&
           TicketAt(sessions, codes, requests, p) == TicketAt(sessions, codes, requests, q)) ==> p == q)
  }

  ghost predicate SessionInv(log: seq<Fact>, sessions: Entries) {
    && |sessions| <= MAX_ENTRIES
    && (forall k :: k in sessions ==> sessions[k].id < |log| && log[sessions[k].id] == Consented(sessions[k].params))
  }

  ghost predicate CodeInv(log: seq<Fact>, codes: Entries) {
    && |codes| <= MAX_ENTRIES
    && (forall k :: k in codes ==>
          codes[k].id < |log| && log[codes[k].id].CodeIssued? && log[codes[k].id].params == codes[k].params)
  }

  // ---------------------------------------------------------------------------------------------
  // Requests in flight

  ghost predicate RequestOk(cfg: Config, log: seq<Fact>, r: Request) {
    match r
    case PageAwaitsClient(p) => SessionShape(p)
    case ConfirmAwaitsClient(c, p) => c < |log| && log[c].Consented? && p == KeptState(log[c].params)
    case ExchangeAwaitsStore(k, v, access, refresh) => ExchangeOk(cfg, log, k, v, access, refresh)
    case RefreshRead(_, _, h, stored) => stored.Some? ==> MintedIn(log, stored.value) && stored.value.hash == h
    case CheckRead(_, h, stored) => stored.Some? ==> MintedIn(log, stored.value) && stored.value.hash == h
    case RefreshAwaitsReplace(h, granted, access, refresh) =>
      MintedIn(log, granted) && RefreshOk(granted, h, access, refresh)
    case _ => true
  }

  ghost predicate RequestInv(cfg: Config, log: seq<Fact>, requests: seq<Request>) {
    forall i :: 0 <= i < |requests| ==> RequestOk(cfg, log, requests[i])
  }

  /** The request will put a token with this hash in the store. */
  predicate Brings(r: Request, h: string) {
    && (r.ExchangeAwaitsStore? || r.RefreshAwaitsReplace?)
    && (r.access.hash == h || (r.refresh.Some? && r.refresh.value.hash == h))
  }

  /** Hashes are unique: among the facts, among the requests in flight, and between the two. */
  ghost predicate MintInv(log: seq<Fact>, requests: seq<Request>, minted: set<string>) {
    && (forall i, h :: 0 <= i < |log| && Mints(log[i], h) ==> h in minted)
    && (forall i, j, h :: 0 <= i < |log| && 0 <= j < |log| && Mints(log[i], h) && Mints(log[j], h) ==> i == j)
    && (forall r, h :: 0 <= r < |requests| && Brings(requests[r], h) ==> h in minted)
    && (forall r, i, h :: 0 <= r < |requests| && 0 <= i < |log| && Brings(requests[r], h) ==> !Mints(log[i], h))
    && (forall r, q, h :: 0 <= r < |requests| && 0 <= q < |requests| && Brings(requests[r], h) && Brings(requests[q], h) ==> r == q)
  }

  // ---------------------------------------------------------------------------------------------
  // The store

  ghost predicate StoreInv(log: seq<Fact>, tokens: Tokens) {
    && WellKeyed(tokens)
    && (forall h :: h in tokens ==> MintedIn(log, tokens[h]))
    && (forall i :: 0 <= i < |log| && log[i].Refreshed? ==> log[i].presented !in tokens)
  }

  /** The exchange from which the tokens of a fact descend. */
  function Root(log: seq<Fact>, i: nat): nat
    decreases i
  {
    if i < |log| && log[i].Refreshed? && log[i].parent < i then Root(log, log[i].parent) else i
  }

  function RootOf(log: seq<Fact>, h: string): nat {
    Root(log, MintIndex(log, h))
  }

  predicate LiveRefresh(tokens: Tokens, h: string) {
    h in tokens && tokens[h].kind == Refresh
  }

  /** No grant has two refresh tokens in the store. */
  ghost predicate OneLive(log: seq<Fact>, tokens: Tokens) {
    forall g, h :: LiveRefresh(tokens, g) && LiveRefresh(tokens, h) && RootOf(log, g) == RootOf(log, h) ==> g == h
  }

  ghost predicate Inv(cfg: Config, s: State) {
    && LogInv(cfg, s.log) && SpendOnce(s.log) && TicketInv(s.log, s.sessions, s.codes, s.requests)
    && SessionInv(s.log, s.sessions) && CodeInv(s.log, s.codes) && RequestInv(cfg, s.log, s.requests)
    && MintInv(s.log, s.requests, s.minted) && StoreInv(s.log, s.tokens) && OneLive(s.log, s.tokens)
  }

  lemma InitInv(cfg: Config)
    ensures Inv(cfg, Init())
  {
  }

  // ---------------------------------------------------------------------------------------------
  // Changes that only forget

  lemma FewerEntries(m: Entries, m': Entries)
    requires m'.Keys <= m.Keys
    ensures |m'| <= |m|
  {
    SubsetSize(m'.Keys, m.Keys);
    assert |m'| == |m'.Keys| && |m| == |m.Keys|;
  }

  ghost predicate SubEntries(m': Entries, m: Entries) {
    forall k :: k in m' ==> k in m && m'[k] == m[k]
  }

  /** Whatever fewer places hold, they held before. */
  lemma FewerTickets(log: seq<Fact>, sessions: Entries, codes: Entries, requests: seq<Request>,
                     sessions': Entries, codes': Entries, requests': seq<Request>)
    requires TicketInv(log, sessions, codes, requests)
    requires forall p :: TicketAt(sessions', codes', requests', p).Some? ==>
               TicketAt(sessions', codes', requests', p) == TicketAt(sessions, codes, requests, p)
    ensures TicketInv(log, sessions', codes', requests')
  {
  }

  lemma SubSessions(log: seq<Fact>, m: Entries, m': Entries)
    requires SessionInv(log, m) && SubEntries(m', m)
    ensures SessionInv(log, m')
  {
    FewerEntries(m, m');
  }

  lemma SubCodes(log: seq<Fact>, m: Entries, m': Entries)
    requires CodeInv(log, m) && SubEntries(m', m)
    ensures CodeInv(log, m')
  {
    FewerEntries(m, m');
  }

  lemma SubTickets(log: seq<Fact>, sessions: Entries, codes: Entries, requests: seq<Request>,
                   sessions': Entries, codes': Entries)
    requires TicketInv(log, sessions, codes, requests)
    requires SubEntries(sessions', sessions) && SubEntries(codes', codes)
    ensures TicketInv(log, sessions', codes', requests)
  {
    FewerTickets(log, sessions, codes, requests, sessions', codes', requests);
  }

  /** Dropping sessions and codes is always safe. */
  lemma DropEntries(cfg: Config, s: State, sessions: Entries, codes: Entries)
    requires Inv(cfg, s) && SubEntries(sessions, s.sessions) && SubEntries(codes, s.codes)
    ensures Inv(cfg, s.(sessions := sessions, codes := codes))
  {
    SubSessions(s.log, s.sessions, sessions);
    SubCodes(s.log, s.codes, codes);
    SubTickets(s.log, s.sessions, s.codes, s.requests, sessions, codes);
  }

  /** So is dropping tokens. */
  lemma DropTokens(cfg: Config, s: State, tokens: Tokens)
    requires Inv(cfg, s) && forall h :: h in tokens ==> h in s.tokens && tokens[h] == s.tokens[h]
    ensures Inv(cfg, s.(tokens := tokens))
  {
    assert forall h :: LiveRefresh(tokens, h) ==> LiveRefresh(s.tokens, h);
  }

  /** A request that holds no ticket and brings no token. */
  predicate Neutral(r: Request) {
    !r.ConfirmAwaitsClient? && !r.ExchangeAwaitsStore? && !r.RefreshAwaitsReplace?
  }

  lemma MintAppend(log: seq<Fact>, requests: seq<Request>, minted: set<string>, r: Request, drawn: set<string>)
    requires MintInv(log, requests, minted) && drawn !! minted && forall h :: Brings(r, h) ==> h in drawn
    ensures MintInv(log, requests + [r], minted + drawn)
  {
  }

  lemma MintSet(log: seq<Fact>, requests: seq<Request>, minted: set<string>, i: nat, r: Request, drawn: set<string>)
    requires MintInv(log, requests, minted) && i < |requests| && drawn !! minted && forall h :: Brings(r, h) ==> h in drawn
    ensures MintInv(log, requests[i := r], minted + drawn)
  {
  }

  lemma RequestAppended(cfg: Config, log: seq<Fact>, R: seq<Request>, r: Request)
    requires RequestInv(cfg, log, R) && RequestOk(cfg, log, r)
    ensures RequestInv(cfg, log, R + [r])
  {
  }

  lemma RequestChanged(cfg: Config, log: seq<Fact>, R: seq<Request>, i: nat, r: Request)
    requires RequestInv(cfg, log, R) && i < |R| && RequestOk(cfg, log, r)
    ensures RequestInv(cfg, log, R[i := r])
  {
  }

  /** A request without a ticket can take any place in the table. */
  lemma TicketsWithout(log: seq<Fact>, S: Entries, C: Entries, R: seq<Request>, i: nat, r: Request)
    requires TicketInv(log, S, C, R) && !r.ConfirmAwaitsClient? && !r.ExchangeAwaitsStore? && i <= |R|
    ensures TicketInv(log, S, C, if i == |R| then R + [r] else R[i := r])
  {
    FewerTickets(log, S, C, R, S, C, if i == |R| then R + [r] else R[i := r]);
  }

  lemma AppendNeutral(cfg: Config, s: State, r: Request)
    requires Inv(cfg, s) && Neutral(r) && RequestOk(cfg, s.log, r)
    ensures Inv(cfg, Append(s, r))
  {
    TicketsWithout(s.log, s.sessions, s.codes, s.requests, |s.requests|, r);
    RequestAppended(cfg, s.log, s.requests, r);
    MintAppend(s.log, s.requests, s.minted, r, {});
    assert s.minted + {} == s.minted;
  }

  lemma SetNeutral(cfg: Config, s: State, i: nat, r: Request)
    requires Inv(cfg, s) && i < |s.requests| && Neutral(r) && RequestOk(cfg, s.log, r)
    ensures Inv(cfg, SetRequest(s, i, r))
  {
    TicketsWithout(s.log, s.sessions, s.codes, s.requests, i, r);
    RequestChanged(cfg, s.log, s.requests, i, r);
    MintSet(s.log, s.requests, s.minted, i, r, {});
    assert s.minted + {} == s.minted;
  }
}
