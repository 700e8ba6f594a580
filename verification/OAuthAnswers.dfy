/** What the clients are told: every answer that grants something rests on its own recorded fact. */
module OAuthAnswers {
  import opened Wrappers
  import opened TokenStore
  import opened OAuthScope
  import opened OAuthAuthorization
  import opened OAuthServer
  import opened OAuthInvariant
  import opened OAuthSteps
  import opened OAuthTheorems
  import opened OAuthHistory

  predicate Grants(response: Response) {
    response.ConsentPage? || response.Redirected? || response.TokensIssued? || response.Allowed?
  }

  /** The fact is what the answer tells; for tokens, exactly the tokens of the answer. */
  predicate Justifies(f: Fact, response: Response) {
    match response
    case ConsentPage(_) => f.Consented?
    case Redirected(_, redirectUri, _) => f.CodeIssued? && f.params.redirectUri == redirectUri
    case TokensIssued(access, refresh) => (f.Exchanged? || f.Refreshed?) && f.access == access && f.refresh == refresh
    case Allowed => f.Authorized?
    case _ => false
  }

  predicate Answering(e: Event, i: nat) {
    match e
    case PageStores(j, _, _, _) => i == j
    case ConfirmIssues(j, _, _, _) => i == j
    case CheckResumes(j, _) => i == j
    case StoreCommits(j, _, _, _) => i == j
    case _ => false
  }

  /** The event answers request `i` and records the fact behind the answer; a nonce or code in the
      answer is the key of the entry that was stored. */
  ghost predicate Answers(cfg: Config, s: State, e: Event, i: nat, response: Response) {
    && Enabled(s, e) && Answering(e, i)
    && var s' := After(cfg, s, e);
       && |s'.log| == |s.log| + 1 && Justifies(s'.log[|s.log|], response)
       && (response.ConsentPage? ==> response.nonce in s'.sessions && s'.sessions[response.nonce].id == |s.log|)
       && (response.Redirected? ==> response.code in s'.codes && s'.codes[response.code].id == |s.log|)
  }

  /** What a request that has been answered, or is about to be refused, promises. */
  predicate Settled(r: Request, response: Response) {
    r == Done(response) || (r.DeleteAwaitsStore? && r.response == response)
  }

  /** An answer that grants was there, or this event gave it. */
  ghost predicate AnswerComes(cfg: Config, s: State, e: Event, i: nat, r: Request) {
    forall response :: Settled(r, response) && Grants(response) ==>
      || (i < |s.requests| && Settled(s.requests[i], response) && (s.requests[i].Done? ==> r == s.requests[i]))
      || (r.Done? && Answers(cfg, s, e, i, response))
  }

  lemma PageAnswers(cfg: Config, s: State, e: Event, i: nat)
    requires Enabled(s, e) && (e.PageStarts? || e.PageStores?) && i < |After(cfg, s, e).requests|
    ensures AnswerComes(cfg, s, e, i, After(cfg, s, e).requests[i])
  {
  }

  lemma ConfirmAnswers(cfg: Config, s: State, e: Event, i: nat)
    requires Enabled(s, e) && e.ConfirmIssues? && i < |After(cfg, s, e).requests|
    ensures AnswerComes(cfg, s, e, i, After(cfg, s, e).requests[i])
  {
  }

  lemma ConfirmStartAnswers(cfg: Config, s: State, e: Event, i: nat)
    requires Enabled(s, e) && e.ConfirmStarts? && i < |ConfirmStart(cfg, s, e.fields, e.localResource, e.now).requests|
    ensures AnswerComes(cfg, s, e, i, ConfirmStart(cfg, s, e.fields, e.localResource, e.now).requests[i])
  {
  }

  lemma ExchangeAnswers(cfg: Config, s: State, e: Event, i: nat)
    requires Enabled(s, e) && e.ExchangeStarts? && i < |After(cfg, s, e).requests|
    ensures AnswerComes(cfg, s, e, i, After(cfg, s, e).requests[i])
  {
  }

  lemma RefreshAnswers(cfg: Config, s: State, e: Event, i: nat)
    requires Enabled(s, e) && e.RefreshResumes? && i < |RefreshResume(cfg, s, e.request, e.now, e.later, e.mint).requests|
    ensures AnswerComes(cfg, s, e, i, RefreshResume(cfg, s, e.request, e.now, e.later, e.mint).requests[i])
  {
  }

  /** A check passes exactly when it records the acceptance of the unexpired access token it read, of
      an allowed resource and with the default scope. */
  lemma AcceptanceIsRecorded(cfg: Config, s: State, i: nat, now: int)
    requires Enabled(s, CheckResumes(i, now))
    ensures var r, s' := s.requests[i], CheckResume(cfg, s, i, now);
            && |s'.requests| == |s.requests| && (forall j :: 0 <= j < |s.requests| && j != i ==> s'.requests[j] == s.requests[j])
            && (s'.requests[i] == Done(Allowed) <==> r.stored.Some? && PresentsAccess(cfg, s, CheckResumes(i, now), r.stored.value))
            && (s'.requests[i] == Done(Allowed) ==> s'.log == s.log + [Authorized(r.stored.value)])
            && (s'.requests[i] != Done(Allowed) ==>
                  s'.log == s.log && s'.requests[i] in {Done(Denied), DeleteAwaitsStore(r.presented, Denied)})
  {
  }

  lemma CheckAnswers(cfg: Config, s: State, e: Event, i: nat)
    requires Enabled(s, e) && e.CheckResumes? && i < |CheckResume(cfg, s, e.request, e.now).requests|
    ensures AnswerComes(cfg, s, e, i, CheckResume(cfg, s, e.request, e.now).requests[i])
  {
    AcceptanceIsRecorded(cfg, s, e.request, e.now);
    if i == e.request && CheckResume(cfg, s, i, e.now).requests[i] == Done(Allowed) {
      AcceptanceAnswers(cfg, s, i, e.now);
    }
  }

  lemma AcceptanceAnswers(cfg: Config, s: State, i: nat, now: int)
    requires Enabled(s, CheckResumes(i, now)) && CheckResume(cfg, s, i, now).requests[i] == Done(Allowed)
    ensures Answers(cfg, s, CheckResumes(i, now), i, Allowed)
  {
    AcceptanceIsRecorded(cfg, s, i, now);
  }

  lemma CommitAnswers(cfg: Config, s: State, e: Event, i: nat)
    requires Enabled(s, e) && e.StoreCommits? && i < |After(cfg, s, e).requests|
    ensures AnswerComes(cfg, s, e, i, After(cfg, s, e).requests[i])
  {
  }

  lemma OtherAnswers(cfg: Config, s: State, e: Event, i: nat)
    requires Enabled(s, e) && (e.Arrives? || e.RefreshStarts? || e.CheckStarts? || e.StoreReads? || e.Restarts?)
    requires i < |After(cfg, s, e).requests|
    ensures AnswerComes(cfg, s, e, i, After(cfg, s, e).requests[i])
  {
  }

  lemma AnswerOrigin(cfg: Config, s: State, e: Event, i: nat)
    requires Enabled(s, e) && i < |After(cfg, s, e).requests|
    ensures AnswerComes(cfg, s, e, i, After(cfg, s, e).requests[i])
  {
    match e
    case PageStarts(_, _) => PageAnswers(cfg, s, e, i);
    case PageStores(_, _, _, _) => PageAnswers(cfg, s, e, i);
    case ConfirmStarts(_, _, _) => ConfirmStartAnswers(cfg, s, e, i);
    case ConfirmIssues(_, _, _, _) => ConfirmAnswers(cfg, s, e, i);
    case ExchangeStarts(_, _, _, _) => ExchangeAnswers(cfg, s, e, i);
    case RefreshResumes(_, _, _, _) => RefreshAnswers(cfg, s, e, i);
    case CheckResumes(_, _) => CheckAnswers(cfg, s, e, i);
    case StoreCommits(_, _, _, _) => CommitAnswers(cfg, s, e, i);
    case _ => OtherAnswers(cfg, s, e, i);
  }

  // ---------------------------------------------------------------------------------------------
  // Over runs

  ghost predicate WasAnswered(cfg: Config, states: seq<State>, events: seq<Event>, n: nat, i: nat, response: Response) {
    exists m :: 0 <= m < n && m < |states| && m < |events| && Answers(cfg, states[m], events[m], i, response)
  }

  /** A request that grants something has been answered. */
  ghost predicate RequestAnswered(cfg: Config, states: seq<State>, events: seq<Event>, n: nat, i: nat, r: Request) {
    forall response :: Settled(r, response) && Grants(response) ==> r.Done? && WasAnswered(cfg, states, events, n, i, response)
  }

  ghost predicate AllAnswered(cfg: Config, states: seq<State>, events: seq<Event>, n: nat)
    requires n < |states|
  {
    forall i :: 0 <= i < |states[n].requests| ==> RequestAnswered(cfg, states, events, n, i, states[n].requests[i])
  }

  lemma AnsweredLater(cfg: Config, states: seq<State>, events: seq<Event>, n: nat, i: nat, response: Response)
    requires WasAnswered(cfg, states, events, n, i, response)
    ensures WasAnswered(cfg, states, events, n + 1, i, response)
  {
  }

  lemma RequestStep(cfg: Config, states: seq<State>, events: seq<Event>, n: nat, i: nat, r: Request)
    requires n < |states| && n < |events| && AllAnswered(cfg, states, events, n) && AnswerComes(cfg, states[n], events[n], i, r)
    ensures RequestAnswered(cfg, states, events, n + 1, i, r)
  {
    var s := states[n];
    forall response | Settled(r, response) && Grants(response)
      ensures r.Done? && WasAnswered(cfg, states, events, n + 1, i, response)
    {
      if i < |s.requests| && Settled(s.requests[i], response) {
        assert RequestAnswered(cfg, states, events, n, i, s.requests[i]);
        AnsweredLater(cfg, states, events, n, i, response);
      }
    }
  }

  lemma AnswersStep(cfg: Config, states: seq<State>, events: seq<Event>, n: nat)
    requires n + 1 < |states| && n < |events| && AllAnswered(cfg, states, events, n)
    requires Enabled(states[n], events[n]) && states[n + 1] == After(cfg, states[n], events[n])
    ensures AllAnswered(cfg, states, events, n + 1)
  {
    var s' := states[n + 1];
    forall i | 0 <= i < |s'.requests| ensures RequestAnswered(cfg, states, events, n + 1, i, s'.requests[i]) {
      AnswerOrigin(cfg, states[n], events[n], i);
      RequestStep(cfg, states, events, n, i, s'.requests[i]);
    }
  }

  lemma {:induction false} EverythingAnswered(cfg: Config, states: seq<State>, events: seq<Event>, n: nat)
    requires IsRun(cfg, states, events) && n < |states|
    ensures AllAnswered(cfg, states, events, n)
  {
    if n > 0 {
      EverythingAnswered(cfg, states, events, n - 1);
      AnswersStep(cfg, states, events, n - 1);
    }
  }

  ghost predicate IsPrefix(a: seq<Fact>, b: seq<Fact>) {
    |a| <= |b| && forall i :: 0 <= i < |a| ==> a[i] == b[i]
  }

  lemma LogStep(cfg: Config, s: State, e: Event)
    requires Enabled(s, e)
    ensures IsPrefix(s.log, After(cfg, s, e).log)
  {
    FactOrigin(cfg, s, e);
    var log := After(cfg, s, e).log;
    if log != s.log {
      assert forall i :: 0 <= i < |s.log| ==> log[..|s.log|][i] == log[i];
    }
  }

  lemma LogInRun(cfg: Config, states: seq<State>, events: seq<Event>, n: nat)
    requires IsRun(cfg, states, events) && n < |events|
    ensures IsPrefix(states[n].log, states[n + 1].log)
  {
    LogStep(cfg, states[n], events[n]);
  }

  lemma {:induction false} PrefixChain(logs: seq<seq<Fact>>, m: nat, n: nat)
    requires m <= n < |logs| && forall k :: 0 <= k < |logs| - 1 ==> IsPrefix(logs[k], logs[k + 1])
    ensures IsPrefix(logs[m], logs[n])
  {
    if m < n {
      PrefixChain(logs, m, n - 1);
      assert IsPrefix(logs[n - 1], logs[n - 1 + 1]);
    }
  }

  lemma LogKept(cfg: Config, states: seq<State>, events: seq<Event>, m: nat, n: nat)
    requires IsRun(cfg, states, events) && m <= n < |states|
    ensures IsPrefix(states[m].log, states[n].log)
  {
    var logs := seq(|states|, i requires 0 <= i < |states| => states[i].log);
    forall k | 0 <= k < |logs| - 1 ensures IsPrefix(logs[k], logs[k + 1]) {
      LogInRun(cfg, states, events, k);
    }
    PrefixChain(logs, m, n);
  }

  /** In every run each answer that grants something was given by one event on that request, which
      recorded the fact behind it: a consent for a consent page, a code for a redirect, an exchange or
      refresh with exactly the tokens for a token answer, an acceptance for a passed check. */
  lemma AnswersAreRecorded(cfg: Config, states: seq<State>, events: seq<Event>, n: nat, i: nat) returns (m: nat, k: nat)
    requires IsRun(cfg, states, events) && n < |states|
    requires i < |states[n].requests| && states[n].requests[i].Done? && Grants(states[n].requests[i].response)
    ensures m < n && Answers(cfg, states[m], events[m], i, states[n].requests[i].response)
    ensures k == |states[m].log| < |states[n].log| && Justifies(states[n].log[k], states[n].requests[i].response)
  {
    var response := states[n].requests[i].response;
    EverythingAnswered(cfg, states, events, n);
    assert RequestAnswered(cfg, states, events, n, i, states[n].requests[i]);
    assert Settled(states[n].requests[i], response);
    m :| 0 <= m < n && m < |states| && m < |events| && Answers(cfg, states[m], events[m], i, response);
    k := |states[m].log|;
    LogKept(cfg, states, events, m + 1, n);
  }

  /** No two answers rest on one fact. */
  lemma AnswersAreSeparate(cfg: Config, states: seq<State>, events: seq<Event>, i: nat, j: nat, m: nat, p: nat, a: Response, b: Response)
    requires IsRun(cfg, states, events) && m < |events| && p < |events|
    requires Answers(cfg, states[m], events[m], i, a) && Answers(cfg, states[p], events[p], j, b)
    requires |states[m].log| == |states[p].log|
    ensures m == p && i == j
  {
    if m < p {
      LogKept(cfg, states, events, m + 1, p);
    } else if p < m {
      LogKept(cfg, states, events, p + 1, m);
    }
  }

  /** In every run both tokens of a token answer descend from a consent and stay within it. */
  lemma IssuedTokensDescend(cfg: Config, states: seq<State>, events: seq<Event>, n: nat, i: nat, t: Token) returns (path: seq<nat>)
    requires IsRun(cfg, states, events) && n < |states|
    requires i < |states[n].requests| && states[n].requests[i].Done? && states[n].requests[i].response.TokensIssued?
    requires t == states[n].requests[i].response.access || Some(t) == states[n].requests[i].response.refresh
    ensures Lineage(states[n].log, path, t) && WithinConsent(t, states[n].log[path[0]].params)
    ensures var response := states[n].requests[i].response;
            response.access.kind == Access && (response.refresh.Some? ==> response.refresh.value.kind == Refresh)
  {
    var m, k := AnswersAreRecorded(cfg, states, events, n, i);
    path := MintedTokensDescend(cfg, states, events, n, k, t);
    RunInv(cfg, states, events, n);
    IssuedKinds(cfg, states[n].log, k);
  }

  lemma IssuedKinds(cfg: Config, log: seq<Fact>, k: nat)
    requires LogInv(cfg, log) && k < |log| && (log[k].Exchanged? || log[k].Refreshed?)
    ensures log[k].access.kind == Access && (log[k].refresh.Some? ==> log[k].refresh.value.kind == Refresh)
  {
    assert FactOk(cfg, log, k);
  }

  /** The event resumes the check of request `i`, which had read the token under the hash it presented,
      and the token passes. */
  ghost predicate PassesCheck(cfg: Config, s: State, e: Event, i: nat, t: Token) {
    && e.CheckResumes? && e.request == i && i < |s.requests| && s.requests[i].CheckRead?
    && s.requests[i].stored == Some(t) && t.hash == s.requests[i].presented && PresentsAccess(cfg, s, e, t)
  }

  lemma PassedStep(cfg: Config, s: State, e: Event, i: nat) returns (t: Token)
    requires Inv(cfg, s) && Answers(cfg, s, e, i, Allowed)
    ensures PassesCheck(cfg, s, e, i, t) && After(cfg, s, e).log == s.log + [Authorized(t)]
  {
    PassedEvent(cfg, s, e, i);
    AcceptanceIsRecorded(cfg, s, i, e.now);
    assert RequestOk(cfg, s.log, s.requests[i]);
    t := s.requests[i].stored.value;
  }

  /** Only the resumption of a check records an acceptance. */
  lemma PassedEvent(cfg: Config, s: State, e: Event, i: nat)
    requires Answers(cfg, s, e, i, Allowed)
    ensures e.CheckResumes? && e.request == i
  {
    match e
    case PageStores(_, _, _, _) => PageFactKind(cfg, s, e);
    case ConfirmIssues(_, _, _, _) => PageFactKind(cfg, s, e);
    case StoreCommits(_, _, _, _) => CommitFactKind(cfg, s, e);
    case _ =>
  }

  lemma PageFactKind(cfg: Config, s: State, e: Event)
    requires Enabled(s, e) && (e.PageStores? || e.ConfirmIssues?)
    ensures var log := After(cfg, s, e).log; |log| == |s.log| + 1 ==> !log[|s.log|].Authorized?
  {
  }

  lemma CommitFactKind(cfg: Config, s: State, e: Event)
    requires Enabled(s, e) && e.StoreCommits?
    ensures var log := After(cfg, s, e).log; |log| == |s.log| + 1 ==> !log[|s.log|].Authorized?
  {
  }

  /** In every run a check that passed for a request was resumed with the unexpired access token that
      the request had read under the hash it presented, and that same token descends from a consent
      for the same client and resource and carries no more scope. */
  lemma PassedChecksDescend(cfg: Config, states: seq<State>, events: seq<Event>, n: nat, i: nat)
    returns (m: nat, t: Token, path: seq<nat>)
    requires IsRun(cfg, states, events) && n < |states|
    requires i < |states[n].requests| && states[n].requests[i] == Done(Allowed)
    ensures m < n && PassesCheck(cfg, states[m], events[m], i, t)
    ensures |states[m].log| < |states[n].log| && states[n].log[|states[m].log|] == Authorized(t)
    ensures Lineage(states[n].log, path, t) && WithinConsent(t, states[n].log[path[0]].params)
  {
    var k;
    m, k := AnswersAreRecorded(cfg, states, events, n, i);
    RunInv(cfg, states, events, m);
    t := PassedStep(cfg, states[m], events[m], i);
    LogKept(cfg, states, events, m + 1, n);
    path := AcceptedTokensDescend(cfg, states, events, n, k);
  }
}
