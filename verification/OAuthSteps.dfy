/** Every event of the authorization server keeps its invariant, and so does every run. */
module OAuthSteps {
  import opened Wrappers
  import opened TokenStore
  import opened OAuthScope
  import opened OAuthAuthorization
  import opened OAuthServer
  import opened OAuthInvariant

  // ---------------------------------------------------------------------------------------------
  // Extending the log

  lemma MintedInGrows(log: seq<Fact>, f: Fact, t: Token)
    requires MintedIn(log, t)
    ensures MintedIn(log + [f], t)
  {
    var i :| 0 <= i < |log| && MintsToken(log[i], t);
    assert (log + [f])[i] == log[i];
  }

  lemma LogGrows(cfg: Config, log: seq<Fact>, f: Fact)
    requires LogInv(cfg, log) && FactOk(cfg, log + [f], |log|)
    ensures LogInv(cfg, log + [f])
  {
    forall i | 0 <= i < |log| ensures FactOk(cfg, log + [f], i) {
      assert FactOk(cfg, log, i);
      assert (log + [f])[..i] == log[..i];
    }
  }

  lemma RequestsSurvive(cfg: Config, log: seq<Fact>, f: Fact, requests: seq<Request>)
    requires RequestInv(cfg, log, requests)
    ensures RequestInv(cfg, log + [f], requests)
  {
    forall i | 0 <= i < |requests| ensures RequestOk(cfg, log + [f], requests[i]) {
      assert RequestOk(cfg, log, requests[i]);
      forall t | MintedIn(log, t) ensures MintedIn(log + [f], t) {
        MintedInGrows(log, f, t);
      }
    }
  }

  lemma SpendGrows(log: seq<Fact>, f: Fact)
    requires SpendOnce(log) && (Spends(f).Some? ==> !Spent(log, Spends(f).value))
    ensures SpendOnce(log + [f])
  {
    assert forall i :: 0 <= i < |log| && Spends(log[i]).Some? && Spends(log[i]) == Spends(f) ==> Spent(log, Spends(f).value);
  }

  lemma SpentGrows(log: seq<Fact>, f: Fact, t: Ticket)
    ensures Spent(log + [f], t) <==> Spent(log, t) || Spends(f) == Some(t)
  {
    if Spent(log, t) {
      var i :| 0 <= i < |log| && Spends(log[i]) == Some(t);
      assert Spends((log + [f])[i]) == Some(t);
    }
    if Spends(f) == Some(t) {
      assert Spends((log + [f])[|log|]) == Some(t);
    }
  }

  lemma MintQuiet(log: seq<Fact>, f: Fact, requests: seq<Request>, minted: set<string>)
    requires MintInv(log, requests, minted) && !f.Exchanged? && !f.Refreshed?
    ensures MintInv(log + [f], requests, minted)
  {
  }

  lemma StoreQuiet(log: seq<Fact>, f: Fact, tokens: Tokens)
    requires StoreInv(log, tokens) && !f.Refreshed?
    ensures StoreInv(log + [f], tokens)
  {
    forall h | h in tokens ensures MintedIn(log + [f], tokens[h]) {
      MintedInGrows(log, f, tokens[h]);
    }
  }

  lemma {:induction false} RootStable(log: seq<Fact>, f: Fact, i: nat)
    requires i < |log|
    ensures Root(log + [f], i) == Root(log, i) <= i
    decreases i
  {
    assert (log + [f])[i] == log[i];
    if log[i].Refreshed? && log[i].parent < i {
      RootStable(log, f, log[i].parent);
    }
  }

  lemma {:induction false} MintIndexStable(log: seq<Fact>, f: Fact, h: string)
    ensures MintIndex(log, h) < |log| ==> MintIndex(log + [f], h) == MintIndex(log, h)
    ensures MintIndex(log, h) == |log| && Mints(f, h) ==> MintIndex(log + [f], h) == |log|
  {
    if log == [] {
      assert log + [f] == [f];
    } else {
      assert (log + [f])[1..] == log[1..] + [f] && (log + [f])[0] == log[0];
      MintIndexStable(log[1..], f, h);
    }
  }

  lemma StoredIsIndexed(log: seq<Fact>, tokens: Tokens, h: string)
    requires StoreInv(log, tokens) && h in tokens
    ensures MintIndex(log, h) < |log|
  {
    var i :| 0 <= i < |log| && MintsToken(log[i], tokens[h]);
    assert Mints(log[i], h);
  }

  lemma RootOfStable(log: seq<Fact>, f: Fact, tokens: Tokens, h: string)
    requires StoreInv(log, tokens) && h in tokens
    ensures RootOf(log + [f], h) == RootOf(log, h) < |log|
  {
    StoredIsIndexed(log, tokens, h);
    MintIndexStable(log, f, h);
    RootStable(log, f, MintIndex(log, h));
  }

  lemma OneLiveSurvives(log: seq<Fact>, f: Fact, tokens: Tokens)
    requires StoreInv(log, tokens) && OneLive(log, tokens)
    ensures OneLive(log + [f], tokens)
  {
    forall h | LiveRefresh(tokens, h) ensures RootOf(log + [f], h) == RootOf(log, h) {
      RootOfStable(log, f, tokens, h);
    }
  }

  // ---------------------------------------------------------------------------------------------
  // Tickets

  /** A ticket moves from one place to another that held none. */
  lemma TicketMove(log: seq<Fact>, S: Entries, C: Entries, R: seq<Request>,
                   S': Entries, C': Entries, R': seq<Request>, from: Place, to: Place)
    requires TicketInv(log, S, C, R) && TicketAt(S, C, R, to).None?
    requires forall p :: TicketAt(S', C', R', p) ==
               if p == to then TicketAt(S, C, R, from) else if p == from then None else TicketAt(S, C, R, p)
    ensures TicketInv(log, S', C', R')
  {
  }

  /** Tickets that are held or spent were created by facts already in the log. */
  lemma NewTicketUnspent(cfg: Config, log: seq<Fact>, t: Ticket)
    requires LogInv(cfg, log) && (t == Consent(|log|) || t == Code(|log|))
    ensures !Spent(log, t)
  {
    forall i | 0 <= i < |log| ensures Spends(log[i]) != Some(t) {
      assert FactOk(cfg, log, i);
    }
  }

  lemma NewTicketUnheld(cfg: Config, log: seq<Fact>, S: Entries, C: Entries, R: seq<Request>, t: Ticket)
    requires SessionInv(log, S) && CodeInv(log, C) && RequestInv(cfg, log, R)
    requires t == Consent(|log|) || t == Code(|log|)
    ensures Unheld(S, C, R, t)
  {
    forall p ensures TicketAt(S, C, R, p) != Some(t) {
      if p.Pending? && p.request < |R| {
        assert RequestOk(cfg, log, R[p.request]);
      }
    }
  }

  lemma RefreshHashUnheld(S: Entries, C: Entries, R: seq<Request>, h: string)
    ensures Unheld(S, C, R, RefreshHash(h))
  {
  }

  lemma UnheldAfterFinish(S: Entries, C: Entries, R: seq<Request>, i: nat, r: Request, t: Ticket)
    requires i < |R| && Neutral(r) && Unheld(S, C, R, t)
    ensures Unheld(S, C, R[i := r], t)
  {
    var R' := R[i := r];
    assert forall p :: TicketAt(S, C, R', p).Some? ==> TicketAt(S, C, R', p) == TicketAt(S, C, R, p);
  }

  lemma TicketFact(log: seq<Fact>, f: Fact, S: Entries, C: Entries, R: seq<Request>)
    requires TicketInv(log, S, C, R) && (Spends(f).Some? ==> Unheld(S, C, R, Spends(f).value))
    ensures TicketInv(log + [f], S, C, R)
  {
    forall p | TicketAt(S, C, R, p).Some? ensures !Spent(log + [f], TicketAt(S, C, R, p).value) {
      SpentGrows(log, f, TicketAt(S, C, R, p).value);
    }
  }

  lemma TicketFinish(log: seq<Fact>, S: Entries, C: Entries, R: seq<Request>, i: nat, r: Request)
    requires TicketInv(log, S, C, R) && i < |R| && Neutral(r)
    ensures TicketInv(log, S, C, R[i := r])
    ensures forall t :: TicketAt(S, C, R, Pending(i)) == Some(t) ==> Unheld(S, C, R[i := r], t)
  {
    var R' := R[i := r];
    FewerTickets(log, S, C, R, S, C, R');
    assert forall p :: TicketAt(S, C, R', p).Some? ==> p != Pending(i) && TicketAt(S, C, R', p) == TicketAt(S, C, R, p);
  }

  /** A request that gives up its ticket to the fact that spends it. */
  lemma TicketSpent(log: seq<Fact>, f: Fact, S: Entries, C: Entries, R: seq<Request>, i: nat, r: Request)
    requires TicketInv(log, S, C, R) && i < |R| && Neutral(r)
    requires Spends(f).Some? && !f.Refreshed? ==> TicketAt(S, C, R, Pending(i)) == Spends(f)
    ensures TicketInv(log + [f], S, C, R[i := r])
  {
    TicketFinish(log, S, C, R, i, r);
    if f.Refreshed? {
      RefreshHashUnheld(S, C, R[i := r], f.presented);
    }
    TicketFact(log, f, S, C, R[i := r]);
  }

  lemma TicketGains(log: seq<Fact>, S: Entries, C: Entries, R: seq<Request>, S': Entries, C': Entries, q: Place, t: Ticket)
    requires TicketInv(log, S, C, R) && !Spent(log, t) && Unheld(S, C, R, t)
    requires forall p :: TicketAt(S', C', R, p) == if p == q then Some(t) else TicketAt(S, C, R, p)
    ensures TicketInv(log, S', C', R)
  {
  }

  // ---------------------------------------------------------------------------------------------
  // Entries

  lemma SessionsSurvive(log: seq<Fact>, f: Fact, m: Entries)
    requires SessionInv(log, m)
    ensures SessionInv(log + [f], m)
  {
  }

  lemma CodesSurvive(log: seq<Fact>, f: Fact, m: Entries)
    requires CodeInv(log, m)
    ensures CodeInv(log + [f], m)
  {
  }

  lemma OneMore(m: Entries, k: string, e: Entry)
    requires k !in m
    ensures |m[k := e]| == |m| + 1
  {
    assert m[k := e].Keys == m.Keys + {k};
    assert |m[k := e]| == |m[k := e].Keys| && |m| == |m.Keys|;
  }

  lemma SessionAdded(log: seq<Fact>, m: Entries, k: string, e: Entry)
    requires SessionInv(log, m) && k !in m && |m| < MAX_ENTRIES
    requires e.id < |log| && log[e.id] == Consented(e.params)
    ensures SessionInv(log, m[k := e])
  {
    OneMore(m, k, e);
  }

  lemma CodeAdded(log: seq<Fact>, m: Entries, k: string, e: Entry)
    requires CodeInv(log, m) && k !in m && |m| < MAX_ENTRIES
    requires e.id < |log| && log[e.id].CodeIssued? && log[e.id].params == e.params
    ensures CodeInv(log, m[k := e])
  {
    OneMore(m, k, e);
  }

  // ---------------------------------------------------------------------------------------------
  // Consent, code

  /** A fact that mints nothing, spends nothing held elsewhere and comes with a finished request. */
  lemma QuietFact(cfg: Config, s: State, f: Fact, i: nat, response: Response)
    requires Inv(cfg, s) && FactOk(cfg, s.log + [f], |s.log|) && i < |s.requests|
    requires !f.Exchanged? && !f.Refreshed?
    requires Spends(f).Some? ==> TicketAt(s.sessions, s.codes, s.requests, Pending(i)) == Spends(f)
    ensures Inv(cfg, Finish(s.(log := s.log + [f]), i, response))
  {
    var r := Done(response);
    LogGrows(cfg, s.log, f);
    RequestsSurvive(cfg, s.log, f, s.requests);
    SpendGrows(s.log, f);
    MintQuiet(s.log, f, s.requests, s.minted);
    MintSet(s.log + [f], s.requests, s.minted, i, r, {});
    assert s.minted + {} == s.minted;
    RequestChanged(cfg, s.log + [f], s.requests, i, r);
    StoreQuiet(s.log, f, s.tokens);
    OneLiveSurvives(s.log, f, s.tokens);
    TicketSpent(s.log, f, s.sessions, s.codes, s.requests, i, r);
    SessionsSurvive(s.log, f, s.sessions);
    CodesSurvive(s.log, f, s.codes);
  }

  /** Storing the session or code that the last fact of the log records. */
  lemma StoreSession(cfg: Config, s: State, n: nat, nonce: string, e: Entry)
    requires Inv(cfg, s) && nonce !in s.sessions && |s.sessions| < MAX_ENTRIES
    requires e.id == n < |s.log| && s.log[n] == Consented(e.params) && !Spent(s.log, Consent(n))
    requires Unheld(s.sessions, s.codes, s.requests, Consent(n))
    ensures Inv(cfg, s.(sessions := s.sessions[nonce := e]))
  {
    SessionAdded(s.log, s.sessions, nonce, e);
    TicketGains(s.log, s.sessions, s.codes, s.requests, s.sessions[nonce := e], s.codes, Session(nonce), Consent(n));
  }

  lemma StoreCode(cfg: Config, s: State, n: nat, code: string, e: Entry)
    requires Inv(cfg, s) && code !in s.codes && |s.codes| < MAX_ENTRIES
    requires e.id == n < |s.log| && s.log[n].CodeIssued? && s.log[n].params == e.params && !Spent(s.log, Code(n))
    requires Unheld(s.sessions, s.codes, s.requests, Code(n))
    ensures Inv(cfg, s.(codes := s.codes[code := e]))
  {
    CodeAdded(s.log, s.codes, code, e);
    TicketGains(s.log, s.sessions, s.codes, s.requests, s.sessions, s.codes[code := e], CodeEntry(code), Code(n));
  }

  /** After a quiet fact the ticket it created is still unknown to everyone. */
  lemma TicketOfLastFact(cfg: Config, s: State, f: Fact, i: nat, response: Response, t: Ticket)
    requires Inv(cfg, s) && i < |s.requests| && (t == Consent(|s.log|) || t == Code(|s.log|))
    requires Spends(f) != Some(t)
    ensures !Spent(s.log + [f], t)
    ensures Unheld(s.sessions, s.codes, s.requests[i := Done(response)], t)
  {
    NewTicketUnspent(cfg, s.log, t);
    SpentGrows(s.log, f, t);
    NewTicketUnheld(cfg, s.log, s.sessions, s.codes, s.requests, t);
    UnheldAfterFinish(s.sessions, s.codes, s.requests, i, Done(response), t);
  }

  lemma AddConsent(cfg: Config, s: State, i: nat, nonce: string, p: Params, expiresAt: int)
    requires Inv(cfg, s) && nonce !in s.sessions && |s.sessions| < MAX_ENTRIES && SessionShape(p) && i < |s.requests|
    ensures Inv(cfg, InsertSession(s, i, p, expiresAt, Some(nonce)))
  {
    var f, n := Consented(p), |s.log|;
    QuietFact(cfg, s, f, i, ConsentPage(nonce));
    TicketOfLastFact(cfg, s, f, i, ConsentPage(nonce), Consent(n));
    StoreSession(cfg, Finish(s.(log := s.log + [f]), i, ConsentPage(nonce)), n, nonce, Entry(p, expiresAt, n));
  }

  lemma IssueCode(cfg: Config, s: State, i: nat, code: string, p: Params, expiresAt: int)
    requires Inv(cfg, s) && code !in s.codes && |s.codes| < MAX_ENTRIES
    requires i < |s.requests| && s.requests[i].ConfirmAwaitsClient? && p == s.requests[i].params
    ensures Inv(cfg, InsertCode(s, i, s.requests[i].consent, p, expiresAt, Some(code)))
  {
    var f, n := CodeIssued(s.requests[i].consent, CodeParams(p)), |s.log|;
    var answer := Redirected(code, p.redirectUri, p.state);
    assert RequestOk(cfg, s.log, s.requests[i]);
    QuietFact(cfg, s, f, i, answer);
    TicketOfLastFact(cfg, s, f, i, answer, Code(n));
    StoreCode(cfg, Finish(s.(log := s.log + [f]), i, answer), n, code, Entry(CodeParams(p), expiresAt, n));
  }

  lemma ConsentMoves(log: seq<Fact>, S: Entries, C: Entries, R: seq<Request>, nonce: string, r: Request)
    requires TicketInv(log, S, C, R) && nonce in S && r.ConfirmAwaitsClient? && r.consent == S[nonce].id
    ensures TicketInv(log, S - {nonce}, C, R + [r])
  {
    TicketMove(log, S, C, R, S - {nonce}, C, R + [r], Session(nonce), Pending(|R|));
  }

  lemma CodeMoves(log: seq<Fact>, S: Entries, C: Entries, R: seq<Request>, code: string, r: Request)
    requires TicketInv(log, S, C, R) && code in C && r.ExchangeAwaitsStore? && r.code == C[code].id
    ensures TicketInv(log, S, C - {code}, R + [r])
  {
    TicketMove(log, S, C, R, S, C - {code}, R + [r], CodeEntry(code), Pending(|R|));
  }

  /** The nonce leaves the sessions as its request enters the second half of confirmation. */
  lemma TakeConsent(cfg: Config, s: State, nonce: string, p: Params)
    requires Inv(cfg, s) && nonce in s.sessions && p == KeptState(s.sessions[nonce].params)
    ensures Inv(cfg, Append(s.(sessions := s.sessions - {nonce}), ConfirmAwaitsClient(s.sessions[nonce].id, p)))
  {
    var r := ConfirmAwaitsClient(s.sessions[nonce].id, p);
    SubSessions(s.log, s.sessions, s.sessions - {nonce});
    ConsentMoves(s.log, s.sessions, s.codes, s.requests, nonce, r);
    RequestAppended(cfg, s.log, s.requests, r);
    MintAppend(s.log, s.requests, s.minted, r, {});
    assert s.minted + {} == s.minted;
  }

  /** The code leaves the codes as its tokens are minted. */
  lemma TakeCode(cfg: Config, s: State, code: string, verifier: string, access: Token, refresh: Option<Token>)
    requires Inv(cfg, s) && code in s.codes
    requires var p := s.codes[code].params;
             cfg.pkceOk(verifier, p.codeChallenge) && TokensFor(access, refresh, p.clientId, p.resource, p.scope)
    requires NewHashes(access, refresh) !! s.minted
    ensures Inv(cfg, Append(s.(codes := s.codes - {code}, minted := s.minted + NewHashes(access, refresh)),
                            ExchangeAwaitsStore(s.codes[code].id, verifier, access, refresh)))
  {
    var r := ExchangeAwaitsStore(s.codes[code].id, verifier, access, refresh);
    SubCodes(s.log, s.codes, s.codes - {code});
    CodeMoves(s.log, s.sessions, s.codes, s.requests, code, r);
    MintAppend(s.log, s.requests, s.minted, r, NewHashes(access, refresh));
    RequestAppended(cfg, s.log, s.requests, r);
  }

  lemma StartReplace(cfg: Config, s: State, i: nat, granted: Token, access: Token, refresh: Option<Token>)
    requires Inv(cfg, s) && i < |s.requests| && MintedIn(s.log, granted)
    requires RefreshOk(granted, granted.hash, access, refresh) && NewHashes(access, refresh) !! s.minted
    ensures Inv(cfg, SetRequest(s.(minted := s.minted + NewHashes(access, refresh)), i,
                                RefreshAwaitsReplace(granted.hash, granted, access, refresh)))
  {
    var r := RefreshAwaitsReplace(granted.hash, granted, access, refresh);
    MintSet(s.log, s.requests, s.minted, i, r, NewHashes(access, refresh));
    RequestChanged(cfg, s.log, s.requests, i, r);
    TicketsWithout(s.log, s.sessions, s.codes, s.requests, i, r);
  }

  // ---------------------------------------------------------------------------------------------
  // Commits

  /** The fact records exactly the tokens that the request was about to store. */
  ghost predicate Records(f: Fact, r: Request) {
    && (f.Exchanged? || f.Refreshed?) && (r.ExchangeAwaitsStore? || r.RefreshAwaitsReplace?)
    && f.access == r.access && f.refresh == r.refresh
  }

  ghost predicate NewTo(log: seq<Fact>, f: Fact) {
    forall i, h :: 0 <= i < |log| && Mints(f, h) ==> !Mints(log[i], h)
  }

  /** A request's new tokens become a fact. */
  lemma MintCommit(log: seq<Fact>, requests: seq<Request>, minted: set<string>, i: nat, f: Fact, r: Request)
    requires MintInv(log, requests, minted) && i < |requests| && Records(f, requests[i]) && Neutral(r)
    ensures MintInv(log + [f], requests[i := r], minted)
  {
    assert forall h :: Mints(f, h) <==> Brings(requests[i], h);
  }

  lemma NewHashesUnknown(log: seq<Fact>, requests: seq<Request>, minted: set<string>, i: nat, f: Fact)
    requires MintInv(log, requests, minted) && i < |requests| && Records(f, requests[i])
    ensures NewTo(log, f)
  {
    assert forall h :: Mints(f, h) <==> Brings(requests[i], h);
  }

  lemma PresentedIsMinted(cfg: Config, log: seq<Fact>, i: nat)
    requires LogInv(cfg, log) && i < |log| && log[i].Refreshed?
    ensures log[i].parent < i && Mints(log[log[i].parent], log[i].presented)
  {
    assert FactOk(cfg, log, i);
  }

  /** The keys of a commit are those kept and those the fact mints. */
  lemma CommitKeys(f: Fact, kept: Tokens, h: string)
    requires f.Exchanged? || f.Refreshed?
    ensures h in SetAll(kept, Both(f.access, f.refresh)) <==> h in kept || Mints(f, h)
  {
    SetAllKeys(kept, Both(f.access, f.refresh));
    assert f.access in Both(f.access, f.refresh);
    assert f.refresh.Some? ==> f.refresh.value in Both(f.access, f.refresh);
  }

  lemma CommitSources(f: Fact, kept: Tokens, h: string)
    requires (f.Exchanged? || f.Refreshed?) && h in SetAll(kept, Both(f.access, f.refresh))
    ensures var t := SetAll(kept, Both(f.access, f.refresh))[h];
            (MintsToken(f, t) && t.hash == h) || (h in kept && t == kept[h])
  {
    SetAllSources(kept, Both(f.access, f.refresh), h);
  }

  /** The committed tokens are those that were there and those the fact brings. */
  lemma StoreCommitInv(cfg: Config, log: seq<Fact>, f: Fact, kept: Tokens)
    requires LogInv(cfg, log) && StoreInv(log, kept) && (f.Exchanged? || f.Refreshed?) && NewTo(log, f)
    requires f.Refreshed? ==> f.presented !in kept && !Mints(f, f.presented)
    ensures StoreInv(log + [f], SetAll(kept, Both(f.access, f.refresh)))
  {
    var log', tokens := log + [f], SetAll(kept, Both(f.access, f.refresh));
    SetAllKeepsKeys(kept, Both(f.access, f.refresh));
    forall h | h in tokens ensures MintedIn(log', tokens[h]) {
      CommitSources(f, kept, h);
      if h in kept && tokens[h] == kept[h] {
        MintedInGrows(log, f, tokens[h]);
      } else {
        assert MintsToken(log'[|log|], tokens[h]);
      }
    }
    forall i | 0 <= i < |log'| && log'[i].Refreshed? ensures log'[i].presented !in tokens {
      CommitKeys(f, kept, log'[i].presented);
      if i < |log| {
        PresentedIsMinted(cfg, log, i);
      }
    }
  }

  lemma NewRoot(log: seq<Fact>, f: Fact, h: string)
    requires NewTo(log, f) && Mints(f, h)
    ensures RootOf(log + [f], h) == Root(log + [f], |log|)
  {
    MintIndexStable(log, f, h);
  }

  lemma CommittedKind(f: Fact, kept: Tokens, h: string)
    requires (f.Exchanged? || f.Refreshed?) && f.access.kind == Access
    requires LiveRefresh(SetAll(kept, Both(f.access, f.refresh)), h) && !LiveRefresh(kept, h)
    ensures f.refresh.Some? && h == f.refresh.value.hash
  {
    CommitSources(f, kept, h);
  }

  /** A live refresh token after the commit that was not live before is the fact's own. */
  lemma CommittedRoot(log: seq<Fact>, f: Fact, kept: Tokens, h: string)
    requires (f.Exchanged? || f.Refreshed?) && NewTo(log, f) && f.access.kind == Access
    requires LiveRefresh(SetAll(kept, Both(f.access, f.refresh)), h) && !LiveRefresh(kept, h)
    ensures f.refresh.Some? && h == f.refresh.value.hash && RootOf(log + [f], h) == Root(log + [f], |log|)
  {
    CommittedKind(f, kept, h);
    NewRoot(log, f, h);
  }

  lemma NewOrKeptRoot(log: seq<Fact>, f: Fact, kept: Tokens, h: string)
    requires StoreInv(log, kept) && (f.Exchanged? || f.Refreshed?) && NewTo(log, f) && f.access.kind == Access
    requires LiveRefresh(SetAll(kept, Both(f.access, f.refresh)), h)
    ensures if LiveRefresh(kept, h) then RootOf(log + [f], h) == RootOf(log, h)
            else f.refresh.Some? && h == f.refresh.value.hash && RootOf(log + [f], h) == Root(log + [f], |log|)
  {
    if LiveRefresh(kept, h) {
      RootOfStable(log, f, kept, h);
    } else {
      CommittedRoot(log, f, kept, h);
    }
  }

  /** If every kept refresh token has a root other than the new fact's, one live token per root remains. */
  lemma OneLiveCommit(log: seq<Fact>, f: Fact, kept: Tokens)
    requires StoreInv(log, kept) && OneLive(log, kept) && (f.Exchanged? || f.Refreshed?) && NewTo(log, f)
    requires f.access.kind == Access
    requires forall h :: LiveRefresh(kept, h) ==> RootOf(log, h) != Root(log + [f], |log|)
    ensures OneLive(log + [f], SetAll(kept, Both(f.access, f.refresh)))
  {
    var log', tokens := log + [f], SetAll(kept, Both(f.access, f.refresh));
    forall g, h | LiveRefresh(tokens, g) && LiveRefresh(tokens, h) && RootOf(log', g) == RootOf(log', h) ensures g == h {
      NewOrKeptRoot(log, f, kept, g);
      NewOrKeptRoot(log, f, kept, h);
    }
  }

  /** A minting fact whose request is done and whose tokens are in the store. */
  lemma LoudFact(cfg: Config, s: State, f: Fact, i: nat, kept: Tokens)
    requires Inv(cfg, s) && FactOk(cfg, s.log + [f], |s.log|) && i < |s.requests|
    requires Records(f, s.requests[i])
    requires if f.Refreshed? then !Spent(s.log, Spends(f).value)
             else TicketAt(s.sessions, s.codes, s.requests, Pending(i)) == Spends(f)
    requires StoreInv(s.log + [f], SetAll(kept, Both(f.access, f.refresh)))
    requires OneLive(s.log + [f], SetAll(kept, Both(f.access, f.refresh)))
    ensures Inv(cfg, Finish(s.(tokens := SetAll(kept, Both(f.access, f.refresh)), log := s.log + [f]),
                            i, TokensIssued(f.access, f.refresh)))
  {
    var r := Done(TokensIssued(f.access, f.refresh));
    LogGrows(cfg, s.log, f);
    RequestsSurvive(cfg, s.log, f, s.requests);
    SpendGrows(s.log, f);
    MintCommit(s.log, s.requests, s.minted, i, f, r);
    RequestChanged(cfg, s.log + [f], s.requests, i, r);
    TicketSpent(s.log, f, s.sessions, s.codes, s.requests, i, r);
    SessionsSurvive(s.log, f, s.sessions);
    CodesSurvive(s.log, f, s.codes);
  }

  lemma CommitExchange(cfg: Config, s: State, i: nat)
    requires Inv(cfg, s) && i < |s.requests| && s.requests[i].ExchangeAwaitsStore?
    ensures var r := s.requests[i];
            Inv(cfg, Finish(s.(tokens := SetAll(s.tokens, Both(r.access, r.refresh)),
                               log := s.log + [Exchanged(r.code, r.verifier, r.access, r.refresh)]),
                            i, TokensIssued(r.access, r.refresh)))
  {
    var r := s.requests[i];
    var f := Exchanged(r.code, r.verifier, r.access, r.refresh);
    assert RequestOk(cfg, s.log, r);
    assert (s.log + [f])[..|s.log|] == s.log;
    NewHashesUnknown(s.log, s.requests, s.minted, i, f);
    StoreCommitInv(cfg, s.log, f, s.tokens);
    forall h | LiveRefresh(s.tokens, h) ensures RootOf(s.log, h) != Root(s.log + [f], |s.log|) {
      RootOfStable(s.log, f, s.tokens, h);
    }
    OneLiveCommit(s.log, f, s.tokens);
    LoudFact(cfg, s, f, i, s.tokens);
  }

  lemma MintedRefresh(cfg: Config, log: seq<Fact>, i: nat, t: Token)
    requires LogInv(cfg, log) && i < |log| && MintsToken(log[i], t) && t.kind == Refresh
    ensures RefreshOf(log[i]) == Some(t)
  {
    assert FactOk(cfg, log, i);
  }

  lemma SameFactSameToken(cfg: Config, log: seq<Fact>, i: nat, t: Token, u: Token)
    requires i < |log| && FactOk(cfg, log, i) && t.hash == u.hash
    requires MintsToken(log[i], t) && MintsToken(log[i], u)
    ensures t == u
  {
  }

  /** Two tokens with one hash are one token, minted by the fact that its hash points to. */
  lemma MintedOnce(cfg: Config, log: seq<Fact>, requests: seq<Request>, minted: set<string>, t: Token, u: Token)
    requires LogInv(cfg, log) && MintInv(log, requests, minted)
    requires MintedIn(log, t) && MintedIn(log, u) && t.hash == u.hash
    ensures t == u && MintIndex(log, t.hash) < |log| && MintsToken(log[MintIndex(log, t.hash)], t)
  {
    var i :| 0 <= i < |log| && MintsToken(log[i], t);
    var j :| 0 <= j < |log| && MintsToken(log[j], u);
    var k := MintIndex(log, t.hash);
    assert Mints(log[i], t.hash) && Mints(log[j], t.hash);
    assert k == i == j;
    SameFactSameToken(cfg, log, k, t, u);
  }

  /** What a replace finds under the presented hash is what the request had read. */
  lemma ReplaceFindsGranted(cfg: Config, s: State, i: nat)
    requires Inv(cfg, s) && i < |s.requests| && s.requests[i].RefreshAwaitsReplace?
    requires s.requests[i].presented in s.tokens
    ensures var r := s.requests[i];
            && s.tokens[r.presented] == r.granted && r.granted.kind == Refresh
            && var k := MintIndex(s.log, r.presented);
               k < |s.log| && RefreshOf(s.log[k]) == Some(r.granted) && k == MintIndex(s.log, r.presented)
  {
    var r := s.requests[i];
    assert RequestOk(cfg, s.log, r);
    MintedOnce(cfg, s.log, s.requests, s.minted, s.tokens[r.presented], r.granted);
    MintedRefresh(cfg, s.log, MintIndex(s.log, r.presented), r.granted);
  }

  lemma PresentedNotNew(s: State, i: nat, k: nat)
    requires MintInv(s.log, s.requests, s.minted) && i < |s.requests| && s.requests[i].RefreshAwaitsReplace?
    requires k < |s.log| && Mints(s.log[k], s.requests[i].presented)
    ensures !Brings(s.requests[i], s.requests[i].presented)
  {
  }

  lemma RootOfNewFact(log: seq<Fact>, f: Fact)
    requires f.Refreshed? && f.parent < |log|
    ensures Root(log + [f], |log|) == Root(log, f.parent)
  {
    RootStable(log, f, f.parent);
  }

  lemma PresentedUnspent(log: seq<Fact>, tokens: Tokens, h: string)
    requires StoreInv(log, tokens) && h in tokens
    ensures !Spent(log, RefreshHash(h))
  {
  }

  lemma WithoutStore(log: seq<Fact>, tokens: Tokens, h: string)
    requires StoreInv(log, tokens) && OneLive(log, tokens)
    ensures StoreInv(log, Without(tokens, h)) && OneLive(log, Without(tokens, h))
  {
    assert forall k :: LiveRefresh(Without(tokens, h), k) ==> LiveRefresh(tokens, k);
  }

  /** The store after a replace: the presented token is gone, its root passes to the new one. */
  lemma ReplaceStore(cfg: Config, s: State, i: nat, f: Fact)
    requires Inv(cfg, s) && i < |s.requests| && s.requests[i].RefreshAwaitsReplace?
    requires var r := s.requests[i];
             && r.presented in s.tokens && LiveRefresh(s.tokens, r.presented) && r.access.kind == Access
             && MintIndex(s.log, r.presented) < |s.log|
             && f == Refreshed(MintIndex(s.log, r.presented), r.presented, r.access, r.refresh)
    ensures var tokens := SetAll(Without(s.tokens, f.presented), Both(f.access, f.refresh));
            StoreInv(s.log + [f], tokens) && OneLive(s.log + [f], tokens)
  {
    var kept := Without(s.tokens, f.presented);
    WithoutStore(s.log, s.tokens, f.presented);
    PresentedNotNew(s, i, f.parent);
    NewHashesUnknown(s.log, s.requests, s.minted, i, f);
    StoreCommitInv(cfg, s.log, f, kept);
    RootOfNewFact(s.log, f);
    forall h | LiveRefresh(kept, h) ensures RootOf(s.log, h) != Root(s.log + [f], |s.log|) {
      assert LiveRefresh(s.tokens, h) && RootOf(s.log, f.presented) == Root(s.log, f.parent);
    }
    OneLiveCommit(s.log, f, kept);
  }

  lemma CommitReplace(cfg: Config, s: State, i: nat)
    requires Inv(cfg, s) && i < |s.requests| && s.requests[i].RefreshAwaitsReplace?
    requires s.requests[i].presented in s.tokens
    ensures var r := s.requests[i];
            Inv(cfg, Finish(s.(tokens := SetAll(Without(s.tokens, r.presented), Both(r.access, r.refresh)),
                               log := s.log + [Refreshed(MintIndex(s.log, r.presented), r.presented, r.access, r.refresh)]),
                            i, TokensIssued(r.access, r.refresh)))
  {
    var r := s.requests[i];
    var k := MintIndex(s.log, r.presented);
    var f, kept := Refreshed(k, r.presented, r.access, r.refresh), Without(s.tokens, r.presented);
    assert RequestOk(cfg, s.log, r);
    ReplaceFindsGranted(cfg, s, i);
    assert (s.log + [f])[k] == s.log[k];
    PresentedUnspent(s.log, s.tokens, r.presented);
    ReplaceStore(cfg, s, i, f);
    LoudFact(cfg, s, f, i, kept);
  }

  lemma LogAuthorized(cfg: Config, s: State, i: nat, t: Token)
    requires Inv(cfg, s) && i < |s.requests| && t.kind == Access && MintedIn(s.log, t)
    ensures Inv(cfg, Finish(s.(log := s.log + [Authorized(t)]), i, Allowed))
  {
    assert (s.log + [Authorized(t)])[..|s.log|] == s.log;
    QuietFact(cfg, s, Authorized(t), i, Allowed);
  }

  // ---------------------------------------------------------------------------------------------
  // Events

  lemma PageStartInv(cfg: Config, s: State, f: Fields, localResource: string)
    requires Inv(cfg, s)
    ensures Inv(cfg, PageStart(cfg, s, f, localResource))
  {
    var v := ValidateFields(f, localResource, cfg.isTunnel);
    if v.Ok? {
      ValidatedShape(f, localResource, cfg.isTunnel);
      AppendNeutral(cfg, s, PageAwaitsClient(v.value));
    } else {
      AppendNeutral(cfg, s, Done(Rejected(v.error)));
    }
  }

  lemma InsertSessionInv(cfg: Config, s: State, i: nat, p: Params, expiresAt: int, slot: Option<string>)
    requires Inv(cfg, s) && i < |s.requests| && SessionShape(p)
    requires slot.Some? ==> slot.value !in s.sessions && |s.sessions| < MAX_ENTRIES
    ensures Inv(cfg, InsertSession(s, i, p, expiresAt, slot))
  {
    if slot.None? {
      SetNeutral(cfg, s, i, Done(Rejected(TemporarilyUnavailable)));
    } else {
      AddConsent(cfg, s, i, slot.value, p, expiresAt);
    }
  }

  lemma PruneAndInsertSession(cfg: Config, s: State, i: nat, p: Params, now: int, expiresAt: int, candidates: seq<string>)
    requires Inv(cfg, s) && i < |s.requests| && SessionShape(p)
    ensures var pruned := Prune(s.sessions, now);
            Inv(cfg, InsertSession(s.(sessions := pruned), i, p, expiresAt, Slot(pruned, candidates)))
  {
    var pruned := Prune(s.sessions, now);
    DropEntries(cfg, s, pruned, s.codes);
    InsertSessionInv(cfg, s.(sessions := pruned), i, p, expiresAt, Slot(pruned, candidates));
  }

  lemma PageStoreInv(cfg: Config, s: State, i: nat, client: Option<seq<string>>, now: int, candidates: seq<string>)
    requires Inv(cfg, s) && i < |s.requests| && s.requests[i].PageAwaitsClient?
    ensures Inv(cfg, PageStore(cfg, s, i, client, now, candidates))
  {
    var v := ValidateClient(s.requests[i].params, client);
    assert RequestOk(cfg, s.log, s.requests[i]);
    if v.Err? {
      SetNeutral(cfg, s, i, Done(Rejected(v.error)));
    } else {
      PruneAndInsertSession(cfg, s, i, v.value, now, Expiry(cfg, now), candidates);
    }
  }

  lemma DropSession(cfg: Config, s: State, nonce: string, r: Request)
    requires Inv(cfg, s) && r.Done?
    ensures Inv(cfg, Append(s.(sessions := s.sessions - {nonce}), r))
  {
    DropEntries(cfg, s, s.sessions - {nonce}, s.codes);
    AppendNeutral(cfg, s.(sessions := s.sessions - {nonce}), r);
  }

  lemma DropCode(cfg: Config, s: State, code: string, r: Request)
    requires Inv(cfg, s) && r.Done?
    ensures Inv(cfg, Append(s.(codes := s.codes - {code}), r))
  {
    DropEntries(cfg, s, s.sessions, s.codes - {code});
    AppendNeutral(cfg, s.(codes := s.codes - {code}), r);
  }

  /** The session that was consented to is validated once more. */
  lemma RevalidateSession(cfg: Config, s: State, nonce: string, localResource: string)
    requires Inv(cfg, s) && nonce in s.sessions
    ensures var p := s.sessions[nonce].params;
            var v := ValidateFields(SessionFields(p), localResource, cfg.isTunnel);
            v.Ok? ==> v.value == KeptState(p)
  {
    assert FactOk(cfg, s.log, s.sessions[nonce].id);
    Revalidation(s.sessions[nonce].params, localResource, cfg.isTunnel);
  }

  /** A confirmed session goes on, or is rejected by the second validation. */
  lemma ConfirmValidated(cfg: Config, s: State, nonce: string, localResource: string)
    requires Inv(cfg, s) && nonce in s.sessions
    ensures var v := ValidateFields(SessionFields(s.sessions[nonce].params), localResource, cfg.isTunnel);
            Inv(cfg, Append(s.(sessions := s.sessions - {nonce}),
                            if v.Ok? then ConfirmAwaitsClient(s.sessions[nonce].id, v.value) else Done(Rejected(v.error))))
  {
    var v := ValidateFields(SessionFields(s.sessions[nonce].params), localResource, cfg.isTunnel);
    RevalidateSession(cfg, s, nonce, localResource);
    if v.Ok? {
      TakeConsent(cfg, s, nonce, v.value);
    } else {
      DropSession(cfg, s, nonce, Done(Rejected(v.error)));
    }
  }

  lemma ConfirmStartInv(cfg: Config, s: State, f: Fields, localResource: string, now: int)
    requires Inv(cfg, s)
    ensures Inv(cfg, ConfirmStart(cfg, s, f, localResource, now))
  {
    var nonce := GetOrEmpty(f, "csrf_nonce");
    if nonce == "" {
      AppendNeutral(cfg, s, Done(Rejected(InvalidCsrfNonce)));
    } else if nonce !in s.sessions || s.sessions[nonce].expiresAt <= now || !PostedMatch(f, s.sessions[nonce].params) {
      DropSession(cfg, s, nonce, Done(Rejected(InvalidCsrfNonce)));
    } else {
      ConfirmValidated(cfg, s, nonce, localResource);
    }
  }

  lemma InsertCodeInv(cfg: Config, s: State, i: nat, c: nat, p: Params, expiresAt: int, slot: Option<string>)
    requires Inv(cfg, s) && i < |s.requests| && s.requests[i].ConfirmAwaitsClient?
    requires c == s.requests[i].consent && p == s.requests[i].params
    requires slot.Some? ==> slot.value !in s.codes && |s.codes| < MAX_ENTRIES
    ensures Inv(cfg, InsertCode(s, i, c, p, expiresAt, slot))
  {
    if slot.None? {
      SetNeutral(cfg, s, i, Done(Rejected(TemporarilyUnavailable)));
    } else {
      IssueCode(cfg, s, i, slot.value, p, expiresAt);
    }
  }

  lemma PruneAndInsertCode(cfg: Config, s: State, i: nat, c: nat, p: Params, now: int, expiresAt: int, candidates: seq<string>)
    requires Inv(cfg, s) && i < |s.requests| && s.requests[i].ConfirmAwaitsClient?
    requires c == s.requests[i].consent && p == s.requests[i].params
    ensures var pruned := Prune(s.codes, now);
            Inv(cfg, InsertCode(s.(codes := pruned), i, c, p, expiresAt, Slot(pruned, candidates)))
  {
    var pruned := Prune(s.codes, now);
    DropEntries(cfg, s, s.sessions, pruned);
    InsertCodeInv(cfg, s.(codes := pruned), i, c, p, expiresAt, Slot(pruned, candidates));
  }

  lemma ConfirmIssueInv(cfg: Config, s: State, i: nat, client: Option<seq<string>>, now: int, candidates: seq<string>)
    requires Inv(cfg, s) && i < |s.requests| && s.requests[i].ConfirmAwaitsClient?
    ensures Inv(cfg, ConfirmIssue(cfg, s, i, client, now, candidates))
  {
    var v := ValidateClient(s.requests[i].params, client);
    if v.Err? {
      SetNeutral(cfg, s, i, Done(Rejected(v.error)));
    } else {
      PruneAndInsertCode(cfg, s, i, s.requests[i].consent, v.value, now, Expiry(cfg, now), candidates);
    }
  }

  lemma FreshHashes(s: State, m: Mint, access: Token, refresh: Option<Token>)
    requires FreshMint(s, m) && access.hash == m.accessHash && (refresh.Some? ==> refresh.value.hash == m.refreshHash)
    ensures NewHashes(access, refresh) !! s.minted
  {
  }

  lemma ConsumeCodeInv(cfg: Config, s: State, code: string, verifier: string, m: Mint)
    requires Inv(cfg, s) && code in s.codes && FreshMint(s, m) && cfg.pkceOk(verifier, s.codes[code].params.codeChallenge)
    ensures Inv(cfg, ConsumeCode(cfg, s, code, verifier, m))
  {
    var p := s.codes[code].params;
    var access := AccessToken(cfg, p.clientId, p.resource, p.scope, m);
    var refresh := RefreshToken(p.clientId, p.resource, p.scope, m);
    FreshHashes(s, m, access, refresh);
    TakeCode(cfg, s, code, verifier, access, refresh);
  }

  lemma ExchangeStartInv(cfg: Config, s: State, f: Fields, localResource: string, now: int, m: Mint)
    requires Inv(cfg, s) && FreshMint(s, m)
    ensures Inv(cfg, ExchangeStart(cfg, s, f, localResource, now, m))
  {
    var code := GetOrEmpty(f, "code");
    if code !in s.codes || s.codes[code].expiresAt <= now {
      DropCode(cfg, s, code, Done(Rejected(InvalidGrant)));
    } else if !ExchangeMatches(cfg, s.codes[code].params, f, localResource) {
      AppendNeutral(cfg, s, Done(Rejected(InvalidGrant)));
    } else {
      ConsumeCodeInv(cfg, s, code, GetOrEmpty(f, "code_verifier"), m);
    }
  }

  lemma ScopeNarrows(f: Fields, granted: string)
    requires RequestedScope(f, granted).Some?
    ensures IsSubset(RequestedScope(f, granted).value, granted)
    ensures granted in {DEFAULT_SCOPE, BOTH_SCOPES} ==> RequestedScope(f, granted).value in {DEFAULT_SCOPE, BOTH_SCOPES}
  {
    SubsetReflexive(granted);
    if "scope" in f {
      NormalizeIdempotent(Get(f, "scope"));
    }
  }

  /** Every minted token has a scope in normal form. */
  lemma MintedScope(cfg: Config, log: seq<Fact>, t: Token)
    requires LogInv(cfg, log) && MintedIn(log, t)
    ensures t.scope in {DEFAULT_SCOPE, BOTH_SCOPES}
  {
    var i :| 0 <= i < |log| && MintsToken(log[i], t);
    assert FactOk(cfg, log, i);
    if log[i].Exchanged? {
      assert FactOk(cfg, log, log[i].code);
      assert FactOk(cfg, log, log[log[i].code].consent);
    }
  }

  lemma ReplacingInv(cfg: Config, s: State, i: nat, t: Token, scope: string, m: Mint)
    requires Inv(cfg, s) && i < |s.requests| && FreshMint(s, m)
    requires MintedIn(s.log, t) && t.kind == Refresh && IsSubset(scope, t.scope) && scope in {DEFAULT_SCOPE, BOTH_SCOPES}
    ensures Inv(cfg, Replacing(cfg, s, i, t.hash, t, scope, m))
  {
    var access := AccessToken(cfg, t.clientId, t.resource, scope, m);
    var refresh := RefreshToken(t.clientId, t.resource, scope, m);
    FreshHashes(s, m, access, refresh);
    StartReplace(cfg, s, i, t, access, refresh);
  }

  /** What the resumed request becomes: it goes on to replace the token it read, or it gives up. */
  lemma RefreshOutcome(cfg: Config, s: State, i: nat, now: int, later: int, m: Mint)
    requires i < |s.requests| && s.requests[i].RefreshRead?
    ensures var r, s' := s.requests[i], RefreshResume(cfg, s, i, now, later, m);
            if s'.requests[i].RefreshAwaitsReplace? then
              && r.stored.Some? && r.stored.value.kind == Refresh && RequestedScope(r.form, r.stored.value.scope).Some?
              && s' == Replacing(cfg, s, i, r.presented, r.stored.value, RequestedScope(r.form, r.stored.value.scope).value, m)
            else s' == SetRequest(s, i, s'.requests[i]) && (s'.requests[i].Done? || s'.requests[i].DeleteAwaitsStore?)
  {
  }

  lemma RefreshResumeInv(cfg: Config, s: State, i: nat, now: int, later: int, m: Mint)
    requires Inv(cfg, s) && i < |s.requests| && s.requests[i].RefreshRead? && FreshMint(s, m)
    ensures Inv(cfg, RefreshResume(cfg, s, i, now, later, m))
  {
    var r, s' := s.requests[i], RefreshResume(cfg, s, i, now, later, m);
    RefreshOutcome(cfg, s, i, now, later, m);
    if s'.requests[i].RefreshAwaitsReplace? {
      assert RequestOk(cfg, s.log, r);
      var t := r.stored.value;
      MintedScope(cfg, s.log, t);
      ScopeNarrows(r.form, t.scope);
      ReplacingInv(cfg, s, i, t, RequestedScope(r.form, t.scope).value, m);
    } else {
      SetNeutral(cfg, s, i, s'.requests[i]);
    }
  }

  lemma CheckRefuses(cfg: Config, s: State, i: nat, now: int)
    requires i < |s.requests| && s.requests[i].CheckRead?
    ensures var s' := CheckResume(cfg, s, i, now);
            if s'.requests[i] == Done(Allowed) then
              && s.requests[i].stored.Some? && s.requests[i].stored.value.kind == Access
              && s' == Finish(s.(log := s.log + [Authorized(s.requests[i].stored.value)]), i, Allowed)
            else s' == SetRequest(s, i, s'.requests[i]) && (s'.requests[i].Done? || s'.requests[i].DeleteAwaitsStore?)
  {
  }

  lemma CheckResumeInv(cfg: Config, s: State, i: nat, now: int)
    requires Inv(cfg, s) && i < |s.requests| && s.requests[i].CheckRead?
    ensures Inv(cfg, CheckResume(cfg, s, i, now))
  {
    var r, s' := s.requests[i], CheckResume(cfg, s, i, now);
    CheckRefuses(cfg, s, i, now);
    if s'.requests[i] == Done(Allowed) {
      assert RequestOk(cfg, s.log, r);
      LogAuthorized(cfg, s, i, r.stored.value);
    } else {
      SetNeutral(cfg, s, i, s'.requests[i]);
    }
  }

  lemma StoreReadInv(cfg: Config, s: State, i: nat)
    requires Inv(cfg, s) && i < |s.requests| && (s.requests[i].RefreshAwaitsRead? || s.requests[i].CheckAwaitsRead?)
    ensures Inv(cfg, StoreRead(s, i))
  {
    SetNeutral(cfg, s, i, StoreRead(s, i).requests[i]);
  }

  /** A purge after the operation only drops tokens. */
  lemma Purged(cfg: Config, s: State, op: Op, m: Tokens, opTime: int, persistTime: Option<int>)
    requires Inv(cfg, s.(tokens := Apply(op, m, opTime)))
    ensures Inv(cfg, s.(tokens := Effect(op, m, opTime, persistTime)))
  {
    DropTokens(cfg, s.(tokens := Apply(op, m, opTime)), Effect(op, m, opTime, persistTime));
  }

  lemma CommitExchangeInv(cfg: Config, s: State, i: nat, opTime: int, persistTime: Option<int>)
    requires Inv(cfg, s) && i < |s.requests| && s.requests[i].ExchangeAwaitsStore?
    ensures Inv(cfg, StoreCommit(s, i, true, opTime, persistTime))
  {
    var op := SetMany(Both(s.requests[i].access, s.requests[i].refresh));
    var s' := StoreCommit(s, i, true, opTime, persistTime);
    CommitExchange(cfg, s, i);
    Purged(cfg, s', op, s.tokens, opTime, persistTime);
    assert s'.(tokens := Effect(op, s.tokens, opTime, persistTime)) == s';
  }

  lemma ReplaceOutcome(s: State, i: nat, opTime: int, persistTime: Option<int>)
    requires i < |s.requests| && s.requests[i].RefreshAwaitsReplace?
    requires Live(s.tokens, s.requests[i].presented, opTime) && s.tokens[s.requests[i].presented].kind == Refresh
    ensures var r := s.requests[i];
            var op := Replace(r.presented, Both(r.access, r.refresh));
            && Apply(op, s.tokens, opTime) == SetAll(Without(s.tokens, r.presented), Both(r.access, r.refresh))
            && StoreCommit(s, i, true, opTime, persistTime) ==
                 Finish(s.(log := s.log + [Refreshed(MintIndex(s.log, r.presented), r.presented, r.access, r.refresh)]),
                        i, TokensIssued(r.access, r.refresh)).(tokens := Effect(op, s.tokens, opTime, persistTime))
  {
  }

  lemma CommitReplaceInv(cfg: Config, s: State, i: nat, opTime: int, persistTime: Option<int>)
    requires Inv(cfg, s) && i < |s.requests| && s.requests[i].RefreshAwaitsReplace?
    requires Live(s.tokens, s.requests[i].presented, opTime)
    ensures Inv(cfg, StoreCommit(s, i, true, opTime, persistTime))
  {
    var r := s.requests[i];
    var op := Replace(r.presented, Both(r.access, r.refresh));
    var f := Refreshed(MintIndex(s.log, r.presented), r.presented, r.access, r.refresh);
    var s' := Finish(s.(log := s.log + [f]), i, TokensIssued(r.access, r.refresh));
    ReplaceFindsGranted(cfg, s, i);
    ReplaceOutcome(s, i, opTime, persistTime);
    CommitReplace(cfg, s, i);
    Purged(cfg, s', op, s.tokens, opTime, persistTime);
  }

  /** A commit that finishes its request and at most drops tokens. */
  lemma DroppingCommitInv(cfg: Config, s: State, i: nat, response: Response, tokens: Tokens)
    requires Inv(cfg, s) && i < |s.requests|
    requires forall h :: h in tokens ==> h in s.tokens && tokens[h] == s.tokens[h]
    ensures Inv(cfg, Finish(s.(tokens := tokens), i, response))
  {
    DropTokens(cfg, s, tokens);
    SetNeutral(cfg, s.(tokens := tokens), i, Done(response));
  }

  lemma StoreCommitsInv(cfg: Config, s: State, i: nat, ok: bool, opTime: int, persistTime: Option<int>)
    requires Inv(cfg, s) && Enabled(s, StoreCommits(i, ok, opTime, persistTime))
    ensures Inv(cfg, StoreCommit(s, i, ok, opTime, persistTime))
  {
    var r := s.requests[i];
    if !ok {
      SetNeutral(cfg, s, i, Done(Rejected(StoreFailed)));
    } else if r.ExchangeAwaitsStore? {
      CommitExchangeInv(cfg, s, i, opTime, persistTime);
    } else if r.DeleteAwaitsStore? {
      DroppingCommitInv(cfg, s, i, r.response, Effect(Delete(r.presented), s.tokens, opTime, persistTime));
    } else if Live(s.tokens, r.presented, opTime) {
      CommitReplaceInv(cfg, s, i, opTime, persistTime);
    } else {
      var op := Replace(r.presented, Both(r.access, r.refresh));
      DroppingCommitInv(cfg, s, i, Rejected(InvalidGrant), Effect(op, s.tokens, opTime, persistTime));
    }
  }

  lemma NothingInFlight(log: seq<Fact>, requests: seq<Request>, minted: set<string>)
    requires MintInv(log, requests, minted)
    ensures MintInv(log, [], minted) && TicketInv(log, map[], map[], [])
  {
  }

  lemma FewerTokens(log: seq<Fact>, tokens: Tokens, kept: Tokens)
    requires StoreInv(log, tokens) && OneLive(log, tokens) && (kept == tokens || kept == map[])
    ensures StoreInv(log, kept) && OneLive(log, kept)
  {
  }

  /** A restart only forgets. */
  lemma RestartInv(cfg: Config, s: State, durable: bool)
    requires Inv(cfg, s)
    ensures Inv(cfg, Restart(s, durable))
  {
    NothingInFlight(s.log, s.requests, s.minted);
    FewerTokens(s.log, s.tokens, if durable then s.tokens else map[]);
  }

  lemma StepInv(cfg: Config, s: State, e: Event)
    requires Inv(cfg, s) && Enabled(s, e)
    ensures Inv(cfg, After(cfg, s, e))
  {
    match e
    case Arrives(now) => DropEntries(cfg, s, Prune(s.sessions, now), Prune(s.codes, now));
    case PageStarts(f, local) => PageStartInv(cfg, s, f, local);
    case PageStores(i, client, now, cs) => PageStoreInv(cfg, s, i, client, now, cs);
    case ConfirmStarts(f, local, now) => ConfirmStartInv(cfg, s, f, local, now);
    case ConfirmIssues(i, client, now, cs) => ConfirmIssueInv(cfg, s, i, client, now, cs);
    case ExchangeStarts(f, local, now, m) => ExchangeStartInv(cfg, s, f, local, now, m);
    case RefreshStarts(f, local, h) => AppendNeutral(cfg, s, RefreshAwaitsRead(f, local, h));
    case RefreshResumes(i, now, later, m) => RefreshResumeInv(cfg, s, i, now, later, m);
    case CheckStarts(local, h) => AppendNeutral(cfg, s, CheckAwaitsRead(local, h));
    case CheckResumes(i, now) => CheckResumeInv(cfg, s, i, now);
    case StoreReads(i) => StoreReadInv(cfg, s, i);
    case StoreCommits(i, ok, opTime, persistTime) => StoreCommitsInv(cfg, s, i, ok, opTime, persistTime);
    case Restarts(durable) => RestartInv(cfg, s, durable);
  }

  lemma {:induction false} RunInv(cfg: Config, states: seq<State>, events: seq<Event>, i: nat)
    requires IsRun(cfg, states, events) && i < |states|
    ensures Inv(cfg, states[i])
  {
    if i == 0 {
      InitInv(cfg);
    } else {
      RunInv(cfg, states, events, i - 1);
      StepInv(cfg, states[i - 1], events[i - 1]);
    }
  }
}
