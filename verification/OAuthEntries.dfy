/** How consents and codes enter their maps: what each answer needs, what it changes, and where each
    recorded consent and code came from. */
module OAuthEntries {
  import opened Wrappers
  import opened OAuthScope
  import opened OAuthAuthorization
  import opened OAuthServer
  import opened OAuthInvariant
  import opened OAuthSteps
  import opened OAuthTheorems
  import opened OAuthHistory

  // ---------------------------------------------------------------------------------------------
  // The maps

  predicate Unexpired(m: Entries, now: int, key: string) {
    key in m && m[key].expiresAt > now
  }

  ghost predicate Registered(client: Option<seq<string>>, redirectUri: string) {
    client.Some? && exists i :: 0 <= i < |client.value| && client.value[i] == redirectUri
  }

  /** `key` is the first candidate that no unexpired entry has. */
  ghost predicate FirstFree(m: Entries, now: int, candidates: seq<string>, key: string) {
    exists j :: 0 <= j < |candidates| && candidates[j] == key && !Unexpired(m, now, key) &&
                forall l :: 0 <= l < j ==> Unexpired(m, now, candidates[l])
  }

  /** There is room for a new entry, under this key. */
  ghost predicate MayEnter(m: Entries, now: int, candidates: seq<string>, key: string) {
    |set k | k in m && m[k].expiresAt > now| < 128 && FirstFree(m, now, candidates, key) && key != ""
  }

  /** The expired entries are gone, the others are there unchanged. */
  ghost predicate OnlyUnexpired(m: Entries, m': Entries, now: int) {
    forall k :: (k in m' <==> Unexpired(m, now, k)) && (k in m' ==> m'[k] == m[k])
  }

  /** And one entry is new, under a key that none of them has. */
  ghost predicate Entered(m: Entries, m': Entries, now: int, key: string, e: Entry) {
    && !Unexpired(m, now, key) && key in m' && m'[key] == e
    && forall k :: k != key ==> (k in m' <==> Unexpired(m, now, k)) && (k in m' ==> m'[k] == m[k])
  }

  ghost predicate NoneExpired(m: Entries, now: int) {
    forall k :: k in m ==> m[k].expiresAt > now
  }

  lemma {:induction false} PickIsFirstFree(m: Entries, now: int, candidates: seq<string>, key: string)
    ensures PickUnique(Prune(m, now), candidates) == Some(key) <==> FirstFree(m, now, candidates, key)
  {
    if candidates != [] {
      var rest := candidates[1..];
      PickIsFirstFree(m, now, rest, key);
      if Unexpired(m, now, candidates[0]) {
        if FirstFree(m, now, candidates, key) {
          var j :| 0 <= j < |candidates| && candidates[j] == key && !Unexpired(m, now, key) &&
                   forall l :: 0 <= l < j ==> Unexpired(m, now, candidates[l]);
          assert rest[j - 1] == key;
        }
        if FirstFree(m, now, rest, key) {
          var j :| 0 <= j < |rest| && rest[j] == key && !Unexpired(m, now, key) &&
                   forall l :: 0 <= l < j ==> Unexpired(m, now, rest[l]);
          assert candidates[j + 1] == key;
        }
      } else if candidates[0] == key {
        assert FirstFree(m, now, candidates, key);
      }
    }
  }

  lemma SlotMeans(m: Entries, now: int, candidates: seq<string>, key: string)
    ensures Slot(Prune(m, now), candidates) == Some(key) <==> MayEnter(m, now, candidates, key)
  {
    PickIsFirstFree(m, now, candidates, key);
    assert Prune(m, now).Keys == set k | k in m && m[k].expiresAt > now;
    assert |Prune(m, now)| == |Prune(m, now).Keys|;
  }

  /** Pruning keeps the unexpired entries, all of them and unchanged. */
  lemma PruneMeans(m: Entries, now: int)
    ensures OnlyUnexpired(m, Prune(m, now), now)
  {
  }

  /** Every request first drops what has expired from both maps, and nothing else. */
  lemma ArrivalPrunes(cfg: Config, s: State, now: int)
    ensures var s' := After(cfg, s, Arrives(now));
            && s' == s.(sessions := s'.sessions, codes := s'.codes)
            && OnlyUnexpired(s.sessions, s'.sessions, now) && OnlyUnexpired(s.codes, s'.codes, now)
  {
  }

  // ---------------------------------------------------------------------------------------------
  // What the answers need and change

  /** The answer to a request whose parameters are valid but which gets no entry. */
  function Refusal(client: Option<seq<string>>, redirectUri: string): OAuthError {
    if client.None? then InvalidClient
    else if redirectUri !in client.value then InvalidRedirectUri
    else TemporarilyUnavailable
  }

  /** The map after a request got no entry: an unregistered one does not touch it. */
  ghost predicate NotEntered(m: Entries, m': Entries, now: int, client: Option<seq<string>>, redirectUri: string) {
    if Registered(client, redirectUri) then OnlyUnexpired(m, m', now) else m' == m
  }

  lemma RegisteredClients(p: Params, client: Option<seq<string>>)
    ensures ValidateClient(p, client) == if Registered(client, p.redirectUri) then Ok(p) else Err(Refusal(client, p.redirectUri))
  {
  }

  /** The page is answered with a nonce exactly when the client found has the redirect URI, fewer than
      128 unexpired sessions remain and the first candidate that none of them has exists and is not
      empty. It then enters the sessions under that nonce for the configured lifetime. */
  lemma SessionInsertion(cfg: Config, s: State, i: nat, client: Option<seq<string>>, now: int, cs: seq<string>)
    requires Enabled(s, PageStores(i, client, now, cs))
    ensures var p, s' := s.requests[i].params, PageStore(cfg, s, i, client, now, cs);
            && s' == s.(sessions := s'.sessions, log := s'.log, requests := s.requests[i := s'.requests[i]]) && s'.requests[i].Done?
            && var answer := s'.requests[i].response;
               && (answer.ConsentPage? <==> Registered(client, p.redirectUri) && exists key :: MayEnter(s.sessions, now, cs, key))
               && (answer.ConsentPage? ==>
                     && MayEnter(s.sessions, now, cs, answer.nonce) && s'.log == s.log + [Consented(p)]
                     && Entered(s.sessions, s'.sessions, now, answer.nonce, Entry(p, now + cfg.codeTtlMs, |s.log|))
                     && (NoneExpired(s'.sessions, now) <==> cfg.codeTtlMs > 0))
               && (!answer.ConsentPage? ==>
                     && answer == Rejected(Refusal(client, p.redirectUri)) && s'.log == s.log
                     && NotEntered(s.sessions, s'.sessions, now, client, p.redirectUri))
  {
    var p := s.requests[i].params;
    RegisteredClients(p, client);
    PruneMeans(s.sessions, now);
    var slot := Slot(Prune(s.sessions, now), cs);
    forall key ensures slot == Some(key) <==> MayEnter(s.sessions, now, cs, key) {
      SlotMeans(s.sessions, now, cs, key);
    }
    if Registered(client, p.redirectUri) && slot.Some? {
      EnteredFresh(s.sessions, now, slot.value, Entry(p, now + cfg.codeTtlMs, |s.log|), cfg.codeTtlMs);
    }
  }

  lemma EnteredFresh(m: Entries, now: int, key: string, e: Entry, ttl: int)
    requires !Unexpired(m, now, key) && e.expiresAt == now + ttl
    ensures var m' := Prune(m, now)[key := e];
            Entered(m, m', now, key, e) && (NoneExpired(m', now) <==> ttl > 0)
  {
    var m' := Prune(m, now)[key := e];
    assert m'[key].expiresAt > now <==> ttl > 0;
  }

  /** A confirmation is answered with a code exactly under the same conditions on the codes. */
  lemma CodeInsertion(cfg: Config, s: State, i: nat, client: Option<seq<string>>, now: int, cs: seq<string>)
    requires Enabled(s, ConfirmIssues(i, client, now, cs))
    ensures var p, s' := s.requests[i].params, ConfirmIssue(cfg, s, i, client, now, cs);
            && s' == s.(codes := s'.codes, log := s'.log, requests := s.requests[i := s'.requests[i]]) && s'.requests[i].Done?
            && var answer := s'.requests[i].response;
               && (answer.Redirected? <==> Registered(client, p.redirectUri) && exists key :: MayEnter(s.codes, now, cs, key))
               && (answer.Redirected? ==>
                     && MayEnter(s.codes, now, cs, answer.code) && s'.log == s.log + [CodeIssued(s.requests[i].consent, p.(state := None))]
                     && answer.redirectUri == p.redirectUri && answer.state == p.state
                     && Entered(s.codes, s'.codes, now, answer.code, Entry(p.(state := None), now + cfg.codeTtlMs, |s.log|))
                     && (NoneExpired(s'.codes, now) <==> cfg.codeTtlMs > 0))
               && (!answer.Redirected? ==>
                     && answer == Rejected(Refusal(client, p.redirectUri)) && s'.log == s.log
                     && NotEntered(s.codes, s'.codes, now, client, p.redirectUri))
  {
    var p := s.requests[i].params;
    RegisteredClients(p, client);
    PruneMeans(s.codes, now);
    var slot := Slot(Prune(s.codes, now), cs);
    forall key ensures slot == Some(key) <==> MayEnter(s.codes, now, cs, key) {
      SlotMeans(s.codes, now, cs, key);
    }
    if Registered(client, p.redirectUri) && slot.Some? {
      EnteredFresh(s.codes, now, slot.value, Entry(p.(state := None), now + cfg.codeTtlMs, |s.log|), cfg.codeTtlMs);
    }
  }

  // ---------------------------------------------------------------------------------------------
  // Where consents and codes come from

  /** The event is the page request that asked for consent to `p`. */
  ghost predicate StartsPage(cfg: Config, e: Event, p: Params) {
    e.PageStarts? && AsksForConsent(e.fields, e.localResource, cfg.isTunnel, p)
  }

  /** The event confirms the session recorded as `consent`. */
  ghost predicate StartsConfirm(cfg: Config, s: State, e: Event, consent: nat, p: Params) {
    && e.ConfirmStarts? && Confirmable(cfg, s.sessions, e.fields, e.localResource, e.now)
    && var session := s.sessions[GetOrEmpty(e.fields, "csrf_nonce")];
       session.id == consent && p == KeptState(session.params)
  }

  /** A request that awaits its client was there, or the event made it wait. */
  ghost predicate WaitComes(cfg: Config, s: State, e: Event, i: nat, r: Request) {
    || (i < |s.requests| && r == s.requests[i])
    || match r
       case PageAwaitsClient(p) => StartsPage(cfg, e, p)
       case ConfirmAwaitsClient(c, p) => StartsConfirm(cfg, s, e, c, p)
       case _ => true
  }

  /** A page request goes on exactly when it is complete, and otherwise is told what it lacks. */
  lemma PageGoesOn(cfg: Config, s: State, f: Fields, localResource: string, p: Params)
    ensures var s' := PageStart(cfg, s, f, localResource);
            && s' == s.(requests := s'.requests) && |s'.requests| == |s.requests| + 1 && s'.requests[..|s.requests|] == s.requests
            && var r := s'.requests[|s.requests|];
               && (r == PageAwaitsClient(p) <==> AsksForConsent(f, localResource, cfg.isTunnel, p))
               && (r.PageAwaitsClient? || (r.Done? && r.response.Rejected? && Lacks(f, localResource, cfg.isTunnel, r.response.error)))
  {
    ValidatedMeans(f, localResource, cfg.isTunnel, p);
  }

  lemma PageStartWaits(cfg: Config, s: State, f: Fields, localResource: string, i: nat)
    requires i < |PageStart(cfg, s, f, localResource).requests|
    ensures WaitComes(cfg, s, PageStarts(f, localResource), i, PageStart(cfg, s, f, localResource).requests[i])
  {
    var v := ValidateFields(f, localResource, cfg.isTunnel);
    if v.Ok? {
      ValidatedMeans(f, localResource, cfg.isTunnel, v.value);
    }
  }

  /** What a confirmed session goes on with. */
  lemma ConfirmedParams(cfg: Config, s: State, f: Fields, localResource: string, now: int)
    requires Inv(cfg, s)
    ensures var r := ConfirmStart(cfg, s, f, localResource, now).requests[|s.requests|];
            r.ConfirmAwaitsClient? ==> StartsConfirm(cfg, s, ConfirmStarts(f, localResource, now), r.consent, r.params)
  {
    var nonce := GetOrEmpty(f, "csrf_nonce");
    ConfirmOutcome(cfg, s, f, localResource, now);
    if nonce in s.sessions {
      PostedMatchIsAgreement(f, s.sessions[nonce].params);
      SessionShapeOf(cfg, s, nonce);
      Revalidation(s.sessions[nonce].params, localResource, cfg.isTunnel);
    }
  }

  lemma ConfirmStartWaits(cfg: Config, s: State, f: Fields, localResource: string, now: int, i: nat)
    requires Inv(cfg, s) && i < |ConfirmStart(cfg, s, f, localResource, now).requests|
    ensures WaitComes(cfg, s, ConfirmStarts(f, localResource, now), i, ConfirmStart(cfg, s, f, localResource, now).requests[i])
  {
    ConfirmOutcome(cfg, s, f, localResource, now);
    ConfirmedParams(cfg, s, f, localResource, now);
  }

  lemma ExchangeStartWaits(cfg: Config, s: State, f: Fields, localResource: string, now: int, m: Mint, i: nat)
    requires i < |ExchangeStart(cfg, s, f, localResource, now, m).requests|
    ensures var r := ExchangeStart(cfg, s, f, localResource, now, m).requests[i];
            (r.PageAwaitsClient? || r.ConfirmAwaitsClient?) ==> i < |s.requests| && r == s.requests[i]
  {
  }

  /** The other events start no such wait. */
  ghost predicate NoNewWait(cfg: Config, s: State, e: Event, i: nat)
    requires Enabled(s, e) && i < |After(cfg, s, e).requests|
  {
    var r := After(cfg, s, e).requests[i];
    (r.PageAwaitsClient? || r.ConfirmAwaitsClient?) ==> i < |s.requests| && r == s.requests[i]
  }

  lemma InsertionWaits(cfg: Config, s: State, e: Event, i: nat)
    requires Enabled(s, e) && (e.PageStores? || e.ConfirmIssues?) && i < |After(cfg, s, e).requests|
    ensures NoNewWait(cfg, s, e, i)
  {
    if e.PageStores? {
      SessionInsertion(cfg, s, e.request, e.client, e.now, e.candidates);
    } else {
      CodeInsertion(cfg, s, e.request, e.client, e.now, e.candidates);
    }
  }

  lemma CommitWaits(cfg: Config, s: State, e: Event, i: nat)
    requires Enabled(s, e) && e.StoreCommits? && i < |After(cfg, s, e).requests|
    ensures NoNewWait(cfg, s, e, i)
  {
  }

  lemma OthersWait(cfg: Config, s: State, e: Event, i: nat)
    requires Enabled(s, e) && !e.PageStarts? && !e.ConfirmStarts? && !e.ExchangeStarts?
    requires !e.PageStores? && !e.ConfirmIssues? && !e.StoreCommits?
    requires i < |After(cfg, s, e).requests|
    ensures NoNewWait(cfg, s, e, i)
  {
  }

  lemma WaitOrigin(cfg: Config, s: State, e: Event, i: nat)
    requires Inv(cfg, s) && Enabled(s, e) && i < |After(cfg, s, e).requests|
    ensures WaitComes(cfg, s, e, i, After(cfg, s, e).requests[i])
  {
    match e
    case PageStarts(f, local) => PageStartWaits(cfg, s, f, local, i);
    case ConfirmStarts(f, local, now) => ConfirmStartWaits(cfg, s, f, local, now, i);
    case ExchangeStarts(f, local, now, m) => ExchangeStartWaits(cfg, s, f, local, now, m, i);
    case PageStores(_, _, _, _) => InsertionWaits(cfg, s, e, i);
    case ConfirmIssues(_, _, _, _) => InsertionWaits(cfg, s, e, i);
    case StoreCommits(_, _, _, _) => CommitWaits(cfg, s, e, i);
    case _ => OthersWait(cfg, s, e, i);
  }

  lemma WaitInRun(cfg: Config, states: seq<State>, events: seq<Event>, n: nat, i: nat)
    requires IsRun(cfg, states, events) && n < |events| && i < |states[n + 1].requests|
    ensures WaitComes(cfg, states[n], events[n], i, states[n + 1].requests[i])
  {
    RunInv(cfg, states, events, n);
    WaitOrigin(cfg, states[n], events[n], i);
  }

  lemma {:induction false} PageWasAsked(cfg: Config, states: seq<State>, events: seq<Event>, n: nat, i: nat) returns (m: nat)
    requires IsRun(cfg, states, events) && n < |states|
    requires i < |states[n].requests| && states[n].requests[i].PageAwaitsClient?
    ensures m < n && StartsPage(cfg, events[m], states[n].requests[i].params)
  {
    WaitInRun(cfg, states, events, n - 1, i);
    if StartsPage(cfg, events[n - 1], states[n].requests[i].params) {
      m := n - 1;
    } else {
      m := PageWasAsked(cfg, states, events, n - 1, i);
    }
  }

  lemma {:induction false} ConfirmWasAsked(cfg: Config, states: seq<State>, events: seq<Event>, n: nat, i: nat) returns (m: nat)
    requires IsRun(cfg, states, events) && n < |states|
    requires i < |states[n].requests| && states[n].requests[i].ConfirmAwaitsClient?
    ensures m < n && StartsConfirm(cfg, states[m], events[m], states[n].requests[i].consent, states[n].requests[i].params)
  {
    var r := states[n].requests[i];
    WaitInRun(cfg, states, events, n - 1, i);
    if StartsConfirm(cfg, states[n - 1], events[n - 1], r.consent, r.params) {
      m := n - 1;
    } else {
      m := ConfirmWasAsked(cfg, states, events, n - 1, i);
    }
  }

  /** The event stores a consent to `p` for a client found with its redirect URI. */
  ghost predicate StoresConsent(s: State, e: Event, p: Params) {
    && e.PageStores? && e.request < |s.requests| && s.requests[e.request] == PageAwaitsClient(p)
    && Registered(e.client, p.redirectUri)
  }

  /** The event issues a code for the confirmed consent, to a client found with its redirect URI, and
      sends it there with the client's state. */
  ghost predicate IssuesCode(s: State, e: Event, s': State, consent: nat, p: Params) {
    && e.ConfirmIssues? && e.request < |s.requests| && s.requests[e.request].ConfirmAwaitsClient?
    && s.requests[e.request].consent == consent && p == s.requests[e.request].params.(state := None)
    && Registered(e.client, p.redirectUri)
    && |s'.requests| == |s.requests| && s'.requests[e.request].Done? && s'.requests[e.request].response.Redirected?
    && var answer := s'.requests[e.request].response;
       answer.redirectUri == p.redirectUri && answer.state == s.requests[e.request].params.state
  }

  /** Where a new consent or code comes from. */
  ghost predicate EntryRests(s: State, e: Event, s': State, f: Fact) {
    && (f.Consented? ==> StoresConsent(s, e, f.params))
    && (f.CodeIssued? ==> IssuesCode(s, e, s', f.consent, f.params))
  }

  lemma PageEntry(cfg: Config, s: State, i: nat, client: Option<seq<string>>, now: int, cs: seq<string>)
    requires Enabled(s, PageStores(i, client, now, cs))
    ensures var s' := PageStore(cfg, s, i, client, now, cs);
            |s'.log| > |s.log| ==> EntryRests(s, PageStores(i, client, now, cs), s', s'.log[|s.log|])
  {
    SessionInsertion(cfg, s, i, client, now, cs);
  }

  lemma ConfirmEntry(cfg: Config, s: State, i: nat, client: Option<seq<string>>, now: int, cs: seq<string>)
    requires Enabled(s, ConfirmIssues(i, client, now, cs))
    ensures var s' := ConfirmIssue(cfg, s, i, client, now, cs);
            |s'.log| > |s.log| ==> EntryRests(s, ConfirmIssues(i, client, now, cs), s', s'.log[|s.log|])
  {
    CodeInsertion(cfg, s, i, client, now, cs);
  }

  lemma CommitEntry(cfg: Config, s: State, i: nat, ok: bool, opTime: int, persistTime: Option<int>)
    requires Enabled(s, StoreCommits(i, ok, opTime, persistTime))
    ensures var log := StoreCommit(s, i, ok, opTime, persistTime).log;
            |log| > |s.log| ==> log[|s.log|].Exchanged? || log[|s.log|].Refreshed?
  {
  }

  lemma EntryOrigin(cfg: Config, s: State, e: Event)
    requires Enabled(s, e)
    ensures var s' := After(cfg, s, e);
            |s'.log| > |s.log| ==> EntryRests(s, e, s', s'.log[|s.log|])
  {
    match e
    case PageStores(i, client, now, cs) => PageEntry(cfg, s, i, client, now, cs);
    case ConfirmIssues(i, client, now, cs) => ConfirmEntry(cfg, s, i, client, now, cs);
    case CheckResumes(i, now) => CheckLog(cfg, s, i, now);
    case StoreCommits(i, ok, opTime, persistTime) => CommitEntry(cfg, s, i, ok, opTime, persistTime);
    case _ => QuietFacts(cfg, s, e);
  }

  /** Event `m` recorded the fact at position `i` of the log. */
  ghost predicate RecordedAt(states: seq<State>, events: seq<Event>, m: nat, i: nat, f: Fact) {
    m + 1 < |states| && m < |events| && |states[m].log| == i && EntryRests(states[m], events[m], states[m + 1], f)
  }

  lemma EntryInRun(cfg: Config, states: seq<State>, events: seq<Event>, n: nat, i: nat)
    requires IsRun(cfg, states, events) && n < |events| && i < |states[n + 1].log|
    ensures i < |states[n].log| ==> states[n + 1].log[i] == states[n].log[i]
    ensures i >= |states[n].log| ==> RecordedAt(states, events, n, i, states[n + 1].log[i])
  {
    EntryOrigin(cfg, states[n], events[n]);
    FactOrigin(cfg, states[n], events[n]);
    var before := states[n].log;
    assert i < |before| ==> states[n + 1].log[..|before|][i] == states[n + 1].log[i];
  }

  lemma {:induction false} EntryWasRecorded(cfg: Config, states: seq<State>, events: seq<Event>, n: nat, i: nat) returns (m: nat)
    requires IsRun(cfg, states, events) && n < |states| && i < |states[n].log|
    ensures m < n && RecordedAt(states, events, m, i, states[n].log[i])
  {
    EntryInRun(cfg, states, events, n - 1, i);
    if i < |states[n - 1].log| {
      m := EntryWasRecorded(cfg, states, events, n - 1, i);
    } else {
      m := n - 1;
    }
  }

  /** In every run each recorded consent was stored for a client found with its redirect URI, after a
      page request that was complete and asked for exactly that consent. */
  lemma ConsentsWereAsked(cfg: Config, states: seq<State>, events: seq<Event>, n: nat, i: nat) returns (q: nat, m: nat)
    requires IsRun(cfg, states, events) && n < |states| && i < |states[n].log| && states[n].log[i].Consented?
    ensures q < m < n && |states[m].log| == i && StoresConsent(states[m], events[m], states[n].log[i].params)
    ensures StartsPage(cfg, events[q], states[n].log[i].params)
  {
    m := EntryWasRecorded(cfg, states, events, n, i);
    q := PageWasAsked(cfg, states, events, m, events[m].request);
  }

  /** In every run each recorded code was issued to a client found with its redirect URI, and sent
      there, after a confirmation of the unexpired session of its consent with every posted field as
      in the session. The state sent along is the one the consent was asked for with, unless empty. */
  lemma CodesWereConfirmed(cfg: Config, states: seq<State>, events: seq<Event>, n: nat, i: nat) returns (q: nat, m: nat)
    requires IsRun(cfg, states, events) && n < |states| && i < |states[n].log| && states[n].log[i].CodeIssued?
    ensures q < m < n && |states[m].log| == i
    ensures IssuesCode(states[m], events[m], states[m + 1], states[n].log[i].consent, states[n].log[i].params)
    ensures StartsConfirm(cfg, states[q], events[q], states[n].log[i].consent, states[m].requests[events[m].request].params)
  {
    m := EntryWasRecorded(cfg, states, events, n, i);
    q := ConfirmWasAsked(cfg, states, events, m, events[m].request);
  }
}
