/** What a failed store write means for the rest of every run. */
module OAuthFailures {
  import opened Wrappers
  import opened Paths
  import opened TokenStore
  import opened OAuthScope
  import opened OAuthAuthorization
  import opened OAuthServer
  import opened OAuthInvariant
  import opened OAuthSteps
  import opened OAuthTheorems
  import opened OAuthHistory

  // ---------------------------------------------------------------------------------------------
  // A failed exchange

  /** The code recorded as `c` is in no map, in no request and in no exchange. */
  ghost predicate CodeGone(s: State, c: nat) {
    && c < |s.log|
    && (forall k :: k in s.codes ==> s.codes[k].id != c)
    && (forall i :: 0 <= i < |s.requests| && s.requests[i].ExchangeAwaitsStore? ==> s.requests[i].code != c)
    && (forall i :: 0 <= i < |s.log| && s.log[i].Exchanged? ==> s.log[i].code != c)
  }

  /** The hash was drawn, is not in the store, and no request will put it there. */
  ghost predicate HashGone(s: State, h: string) {
    && h in s.minted && h !in s.tokens
    && (forall i :: 0 <= i < |s.requests| ==> !Brings(s.requests[i], h))
  }

  /** Where the codes of the new state come from. */
  ghost predicate CodesFrom(s: State, codes: Entries) {
    forall k :: k in codes ==> (k in s.codes && codes[k] == s.codes[k]) || codes[k].id >= |s.log|
  }

  lemma CodesOrigin(cfg: Config, s: State, e: Event)
    requires Enabled(s, e)
    ensures CodesFrom(s, After(cfg, s, e).codes)
  {
    match e
    case ConfirmIssues(i, client, now, cs) => IssuedCodes(cfg, s, i, client, now, cs);
    case StoreCommits(_, _, _, _) => CommitCodes(cfg, s, e);
    case _ => OtherTokens(cfg, s, e);
  }

  lemma IssuedCodes(cfg: Config, s: State, i: nat, client: Option<seq<string>>, now: int, candidates: seq<string>)
    requires i < |s.requests| && s.requests[i].ConfirmAwaitsClient?
    ensures CodesFrom(s, ConfirmIssue(cfg, s, i, client, now, candidates).codes)
  {
  }

  lemma CodeGoneRequest(cfg: Config, s: State, e: Event, c: nat, i: nat)
    requires Enabled(s, e) && CodeGone(s, c) && i < |After(cfg, s, e).requests|
    ensures var r := After(cfg, s, e).requests[i]; r.ExchangeAwaitsStore? ==> r.code != c
  {
    RequestOrigin(cfg, s, e, i);
  }

  lemma CodeGoneFacts(cfg: Config, s: State, e: Event, c: nat, log: seq<Fact>)
    requires CodeGone(s, c) && LogGrowsBy(cfg, s, e, log)
    ensures |log| >= |s.log| && forall i :: 0 <= i < |log| && log[i].Exchanged? ==> log[i].code != c
  {
    if log != s.log {
      forall i | 0 <= i < |log| && log[i].Exchanged? ensures log[i].code != c {
        if i < |s.log| {
          assert log[i] == log[..|s.log|][i];
        }
      }
    }
  }

  lemma CodeGoneStep(cfg: Config, s: State, e: Event, c: nat)
    requires Enabled(s, e) && CodeGone(s, c)
    ensures CodeGone(After(cfg, s, e), c)
  {
    var s' := After(cfg, s, e);
    CodesOrigin(cfg, s, e);
    FactOrigin(cfg, s, e);
    CodeGoneFacts(cfg, s, e, c, s'.log);
    forall i | 0 <= i < |s'.requests| && s'.requests[i].ExchangeAwaitsStore? ensures s'.requests[i].code != c {
      CodeGoneRequest(cfg, s, e, c, i);
    }
  }

  /** What a request newly brings was drawn fresh. */
  lemma BringsFresh(cfg: Config, s: State, e: Event, i: nat, h: string)
    requires Enabled(s, e) && i < |After(cfg, s, e).requests| && Brings(After(cfg, s, e).requests[i], h)
    requires i >= |s.requests| || !Brings(s.requests[i], h)
    ensures h !in s.minted
  {
    match e
    case ExchangeStarts(f, local, now, m) => ExchangeBrings(cfg, s, f, local, now, m, i, h);
    case RefreshResumes(j, now, later, m) => RefreshBrings(cfg, s, j, now, later, m, i, h);
    case _ => OthersBringNothing(cfg, s, e, i, h);
  }

  lemma ExchangeBrings(cfg: Config, s: State, f: Fields, localResource: string, now: int, m: Mint, i: nat, h: string)
    requires FreshMint(s, m)
    ensures var s' := ExchangeStart(cfg, s, f, localResource, now, m);
            i < |s'.requests| && Brings(s'.requests[i], h) ==> (i < |s.requests| && Brings(s.requests[i], h)) || h !in s.minted
  {
  }

  lemma RefreshBrings(cfg: Config, s: State, j: nat, now: int, later: int, m: Mint, i: nat, h: string)
    requires FreshMint(s, m) && j < |s.requests| && s.requests[j].RefreshRead?
    ensures var s' := RefreshResume(cfg, s, j, now, later, m);
            i < |s'.requests| && Brings(s'.requests[i], h) ==> (i < |s.requests| && Brings(s.requests[i], h)) || h !in s.minted
  {
    RefreshOutcome(cfg, s, j, now, later, m);
  }

  lemma OthersBringNothing(cfg: Config, s: State, e: Event, i: nat, h: string)
    requires Enabled(s, e) && !e.ExchangeStarts? && !e.RefreshResumes?
    requires i < |After(cfg, s, e).requests| && Brings(After(cfg, s, e).requests[i], h)
    ensures i < |s.requests| && Brings(s.requests[i], h)
  {
    RequestOrigin(cfg, s, e, i);
  }

  /** A commit adds only what its request brings. */
  lemma CommitAdds(cfg: Config, s: State, e: Event, h: string)
    requires Enabled(s, e) && e.StoreCommits? && h in After(cfg, s, e).tokens && h !in s.tokens
    ensures Brings(s.requests[e.request], h)
  {
    var r := s.requests[e.request];
    if r.ExchangeAwaitsStore? || r.RefreshAwaitsReplace? {
      BothKeys(s.tokens, r.access, r.refresh, h);
      BothKeys(Without(s.tokens, if r.RefreshAwaitsReplace? then r.presented else ""), r.access, r.refresh, h);
    }
  }

  lemma BothKeys(m: Tokens, access: Token, refresh: Option<Token>, h: string)
    ensures h in SetAll(m, Both(access, refresh)) <==> h in m || access.hash == h || (refresh.Some? && refresh.value.hash == h)
  {
    SetAllKeys(m, Both(access, refresh));
    assert access in Both(access, refresh);
    assert refresh.Some? ==> refresh.value in Both(access, refresh);
  }

  lemma FrontTokens(cfg: Config, s: State, e: Event)
    requires Enabled(s, e) && (e.PageStarts? || e.PageStores? || e.ConfirmStarts? || e.ConfirmIssues?)
    ensures After(cfg, s, e).tokens == s.tokens && SameOrFewerCodes(s, e, After(cfg, s, e).codes)
    ensures s.minted <= After(cfg, s, e).minted
  {
  }

  lemma BackTokens(cfg: Config, s: State, e: Event)
    requires Enabled(s, e) && (e.Arrives? || e.ExchangeStarts? || e.CheckStarts? || e.CheckResumes? || e.StoreReads? || e.RefreshStarts?)
    ensures After(cfg, s, e).tokens == s.tokens && SameOrFewerCodes(s, e, After(cfg, s, e).codes)
    ensures s.minted <= After(cfg, s, e).minted
  {
  }

  lemma RefreshTokens(cfg: Config, s: State, e: Event)
    requires Enabled(s, e) && e.RefreshResumes?
    ensures After(cfg, s, e).tokens == s.tokens && SameOrFewerCodes(s, e, After(cfg, s, e).codes)
    ensures s.minted <= After(cfg, s, e).minted
  {
    RefreshOutcome(cfg, s, e.request, e.now, e.later, e.mint);
  }

  lemma CommitCodes(cfg: Config, s: State, e: Event)
    requires Enabled(s, e) && e.StoreCommits?
    ensures After(cfg, s, e).codes == s.codes && After(cfg, s, e).minted == s.minted
  {
  }

  predicate SameOrFewerCodes(s: State, e: Event, codes: Entries) {
    e.ConfirmIssues? || forall k :: k in codes ==> k in s.codes && codes[k] == s.codes[k]
  }

  lemma OtherTokens(cfg: Config, s: State, e: Event)
    requires Enabled(s, e) && !e.StoreCommits?
    ensures After(cfg, s, e).tokens.Keys <= s.tokens.Keys && SameOrFewerCodes(s, e, After(cfg, s, e).codes)
    ensures s.minted <= After(cfg, s, e).minted
  {
    if e.Restarts? {
    } else if e.RefreshResumes? {
      RefreshTokens(cfg, s, e);
    } else if e.PageStarts? || e.PageStores? || e.ConfirmStarts? || e.ConfirmIssues? {
      FrontTokens(cfg, s, e);
    } else {
      BackTokens(cfg, s, e);
    }
  }

  lemma MintedGrows(cfg: Config, s: State, e: Event)
    requires Enabled(s, e)
    ensures s.minted <= After(cfg, s, e).minted
  {
    if e.StoreCommits? {
      CommitCodes(cfg, s, e);
    } else {
      OtherTokens(cfg, s, e);
    }
  }

  lemma HashGoneStep(cfg: Config, s: State, e: Event, h: string)
    requires Enabled(s, e) && HashGone(s, h)
    ensures HashGone(After(cfg, s, e), h)
  {
    var s' := After(cfg, s, e);
    MintedGrows(cfg, s, e);
    if h in s'.tokens {
      if e.StoreCommits? {
        CommitAdds(cfg, s, e, h);
      } else {
        OtherTokens(cfg, s, e);
      }
    }
    forall i | 0 <= i < |s'.requests| ensures !Brings(s'.requests[i], h) {
      if Brings(s'.requests[i], h) {
        BringsFresh(cfg, s, e, i, h);
      }
    }
  }

  /** What a failed exchange leaves: its code and the hashes of its tokens are nowhere. */
  ghost predicate ExchangeGone(s: State, r: Request) {
    && r.ExchangeAwaitsStore? && CodeGone(s, r.code) && HashGone(s, r.access.hash)
    && (r.refresh.Some? ==> HashGone(s, r.refresh.value.hash))
  }

  lemma ExchangeGoneStep(cfg: Config, s: State, e: Event, r: Request)
    requires Enabled(s, e) && ExchangeGone(s, r)
    ensures ExchangeGone(After(cfg, s, e), r)
  {
    CodeGoneStep(cfg, s, e, r.code);
    HashGoneStep(cfg, s, e, r.access.hash);
    if r.refresh.Some? {
      HashGoneStep(cfg, s, e, r.refresh.value.hash);
    }
  }

  lemma HeldCodeIsElsewhereGone(cfg: Config, s: State, i: nat)
    requires Inv(cfg, s) && i < |s.requests| && s.requests[i].ExchangeAwaitsStore?
    ensures CodeGone(SetRequest(s, i, Done(Rejected(StoreFailed))), s.requests[i].code)
  {
    var c := s.requests[i].code;
    assert RequestOk(cfg, s.log, s.requests[i]);
    assert TicketAt(s.sessions, s.codes, s.requests, Pending(i)) == Some(Code(c));
    forall k | k in s.codes ensures s.codes[k].id != c {
      assert TicketAt(s.sessions, s.codes, s.requests, CodeEntry(k)) == Some(Code(s.codes[k].id));
    }
    forall j | 0 <= j < |s.requests| && j != i && s.requests[j].ExchangeAwaitsStore? ensures s.requests[j].code != c {
      assert TicketAt(s.sessions, s.codes, s.requests, Pending(j)) == Some(Code(s.requests[j].code));
    }
    forall j | 0 <= j < |s.log| && s.log[j].Exchanged? ensures s.log[j].code != c {
      assert Spends(s.log[j]) == Some(Code(s.log[j].code));
    }
  }

  lemma BroughtIsUnstored(cfg: Config, s: State, i: nat, h: string)
    requires Inv(cfg, s) && i < |s.requests| && Brings(s.requests[i], h)
    ensures HashGone(SetRequest(s, i, Done(Rejected(StoreFailed))), h)
  {
    if h in s.tokens {
      assert MintedIn(s.log, s.tokens[h]);
      var j :| 0 <= j < |s.log| && MintsToken(s.log[j], s.tokens[h]);
      assert Mints(s.log[j], h);
    }
  }

  lemma ExchangeFails(cfg: Config, s: State, i: nat, opTime: int, persistTime: Option<int>)
    requires Inv(cfg, s) && Enabled(s, StoreCommits(i, false, opTime, persistTime)) && s.requests[i].ExchangeAwaitsStore?
    ensures ExchangeGone(After(cfg, s, StoreCommits(i, false, opTime, persistTime)), s.requests[i])
  {
    HeldCodeIsElsewhereGone(cfg, s, i);
    BroughtIsUnstored(cfg, s, i, s.requests[i].access.hash);
    if s.requests[i].refresh.Some? {
      BroughtIsUnstored(cfg, s, i, s.requests[i].refresh.value.hash);
    }
  }

  /** In every run, once the store write of an exchange has failed, its code is never in the code map
      again and yields no exchange, and the hashes it minted are never in the token map. */
  lemma {:induction false} FailedExchangeIsFinal(cfg: Config, states: seq<State>, events: seq<Event>, n: nat, m: nat)
    requires IsRun(cfg, states, events) && n < m < |states|
    requires events[n].StoreCommits? && !events[n].ok && states[n].requests[events[n].request].ExchangeAwaitsStore?
    ensures ExchangeGone(states[m], states[n].requests[events[n].request])
  {
    var e := events[n];
    if m == n + 1 {
      RunInv(cfg, states, events, n);
      ExchangeFails(cfg, states[n], e.request, e.opTime, e.persistTime);
    } else {
      FailedExchangeIsFinal(cfg, states, events, n, m - 1);
      ExchangeGoneStep(cfg, states[m - 1], events[m - 1], states[n].requests[e.request]);
    }
  }

  // ---------------------------------------------------------------------------------------------
  // A failed refresh

  /** A refresh that reads, goes on and commits before the token expires succeeds. */
  lemma RefreshSucceeds(cfg: Config, s: State, f: Fields, localResource: string, h: string, now: int, later: int, m: Mint,
                        opTime: int, persistTime: Option<int>) returns (events: seq<Event>, s': State)
    requires h in s.tokens && s.tokens[h].kind == Refresh && FreshMint(s, m)
    requires s.tokens[h].expiresAt > now && s.tokens[h].expiresAt > opTime && FitsToken(cfg, s.tokens[h], f, localResource)
    ensures Leads(Step(cfg), s, events, s') && |s'.requests| == |s.requests| + 1
    ensures s'.requests[|s.requests|].Done? && s'.requests[|s.requests|].response.TokensIssued?
    ensures h !in s'.tokens || h == m.accessHash || h == m.refreshHash
  {
    var i := |s.requests|;
    var e1, e2, e3, e4 := RefreshStarts(f, localResource, h), StoreReads(i), RefreshResumes(i, now, later, m), StoreCommits(i, true, opTime, persistTime);
    var s1 := Append(s, RefreshAwaitsRead(f, localResource, h));
    var s2 := ReadingStep(s, f, localResource, h);
    var s3 := ResumingStep(cfg, s2, i, now, later, m);
    CommitSucceeds(cfg, s3, i, opTime, persistTime);
    s' := StoreCommit(s3, i, true, opTime, persistTime);
    events := [e1, e2, e3, e4];
    LeadsFour(cfg, s, s1, s2, s3, s', events);
  }

  lemma ReadingStep(s: State, f: Fields, localResource: string, h: string) returns (s2: State)
    requires h in s.tokens
    ensures var i, s1 := |s.requests|, Append(s, RefreshAwaitsRead(f, localResource, h));
            && s1.requests[i].RefreshAwaitsRead? && s2 == StoreRead(s1, i)
            && s2 == s.(requests := s.requests + [RefreshRead(f, localResource, h, Some(s.tokens[h]))])
  {
    s2 := StoreRead(Append(s, RefreshAwaitsRead(f, localResource, h)), |s.requests|);
  }

  lemma ResumingStep(cfg: Config, s: State, i: nat, now: int, later: int, m: Mint) returns (s3: State)
    requires Enabled(s, RefreshResumes(i, now, later, m))
    requires var r := s.requests[i];
             && r.stored.Some? && r.stored.value.kind == Refresh && r.stored.value.expiresAt > now
             && FitsToken(cfg, r.stored.value, r.form, r.localResource)
    ensures s3 == RefreshResume(cfg, s, i, now, later, m) && |s3.requests| == |s.requests| && s3.tokens == s.tokens
    ensures var r := s3.requests[i];
            && r.RefreshAwaitsReplace? && r.presented == s.requests[i].presented
            && (forall h :: Brings(r, h) ==> h == m.accessHash || h == m.refreshHash)
  {
    RefreshGoesOn(cfg, s, i, now, later, m);
    RefreshOutcome(cfg, s, i, now, later, m);
    s3 := RefreshResume(cfg, s, i, now, later, m);
  }

  lemma LeadsFour(cfg: Config, s: State, s1: State, s2: State, s3: State, s4: State, events: seq<Event>)
    requires |events| == 4
    requires Enabled(s, events[0]) && s1 == After(cfg, s, events[0]) && Enabled(s1, events[1]) && s2 == After(cfg, s1, events[1])
    requires Enabled(s2, events[2]) && s3 == After(cfg, s2, events[2]) && Enabled(s3, events[3]) && s4 == After(cfg, s3, events[3])
    ensures Leads(Step(cfg), s, events, s4)
  {
    assert events[1..][1..] == events[2..] && events[2..][1..] == events[3..] && events[3..][1..] == [];
    assert Leads(Step(cfg), s3, events[3..], s4);
    assert Leads(Step(cfg), s2, events[2..], s4);
    assert Leads(Step(cfg), s1, events[1..], s4);
  }

  lemma CommitSucceeds(cfg: Config, s: State, i: nat, opTime: int, persistTime: Option<int>)
    requires i < |s.requests| && s.requests[i].RefreshAwaitsReplace?
    requires var h := s.requests[i].presented; Live(s.tokens, h, opTime) && s.tokens[h].kind == Refresh
    ensures var r, s' := s.requests[i], StoreCommit(s, i, true, opTime, persistTime);
            && |s'.requests| == |s.requests| && s'.requests[i] == Done(TokensIssued(r.access, r.refresh))
            && (r.presented in s'.tokens ==> Brings(r, r.presented))
  {
    var r := s.requests[i];
    BothKeys(Without(s.tokens, r.presented), r.access, r.refresh, r.presented);
  }

  /** In every run a failed refresh takes nothing away: the presented refresh token is as it was, and
      a request that presents it in time, for its client, resource and scope, still succeeds. */
  lemma FailedRefreshCanBeRepeated(cfg: Config, states: seq<State>, events: seq<Event>, n: nat, f: Fields, localResource: string,
                                   now: int, later: int, m: Mint, opTime: int, persistTime: Option<int>)
    returns (more: seq<Event>, s': State)
    requires IsRun(cfg, states, events) && n < |events|
    requires events[n].StoreCommits? && !events[n].ok && states[n].requests[events[n].request].RefreshAwaitsReplace?
    requires var h := states[n].requests[events[n].request].presented;
             && h in states[n].tokens && states[n].tokens[h].expiresAt > now && states[n].tokens[h].expiresAt > opTime
             && FitsToken(cfg, states[n].tokens[h], f, localResource)
    requires FreshMint(states[n + 1], m)
    ensures states[n + 1].tokens == states[n].tokens
    ensures Leads(Step(cfg), states[n + 1], more, s') && |s'.requests| == |states[n + 1].requests| + 1
    ensures s'.requests[|states[n + 1].requests|].Done? && s'.requests[|states[n + 1].requests|].response.TokensIssued?
  {
    var h := FailedRefresh(cfg, states, events, n);
    more, s' := RefreshSucceeds(cfg, states[n + 1], f, localResource, h, now, later, m, opTime, persistTime);
  }

  lemma FailedRefresh(cfg: Config, states: seq<State>, events: seq<Event>, n: nat) returns (h: string)
    requires IsRun(cfg, states, events) && n < |events|
    requires events[n].StoreCommits? && !events[n].ok && states[n].requests[events[n].request].RefreshAwaitsReplace?
    ensures h == states[n].requests[events[n].request].presented && states[n + 1].tokens == states[n].tokens
    ensures h in states[n].tokens ==> states[n].tokens[h].kind == Refresh
  {
    RunInv(cfg, states, events, n);
    h := states[n].requests[events[n].request].presented;
    if h in states[n].tokens {
      ReplaceFindsGranted(cfg, states[n], events[n].request);
    }
  }
}
