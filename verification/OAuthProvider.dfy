/** The provider object: the handlers that update the session and code maps in place. */
module OAuthProvider {
  import opened Wrappers
  import opened TokenStore
  import opened OAuthAuthorization
  import opened OAuthServer

  /** `pruneExpired`. */
  method PruneExpired(m: Entries, now: int) returns (r: Entries)
    ensures r == Prune(m, now)
  {
    r := m;
    var todo := m.Keys;
    while todo != {}
      invariant todo <= m.Keys
      invariant forall k :: k in r <==> k in m && (k in todo || m[k].expiresAt > now)
      invariant forall k :: k in r ==> r[k] == m[k]
    {
      var key :| key in todo;
      todo := todo - {key};
      if m[key].expiresAt <= now {
        r := r - {key};
      }
    }
  }

  /** `generateUniqueTransientToken`: `candidates` lists what the generator would return, call by
      call; the loop stops at the first that is not taken. */
  method GenerateUnique(m: Entries, candidates: seq<string>) returns (r: Option<string>)
    requires |candidates| == MAX_ATTEMPTS
    ensures r == PickUnique(m, candidates)
    ensures r.Some? ==> r.value !in m && r.value in candidates
    ensures r.None? <==> forall c :: c in candidates ==> c in m
  {
    var attempt := 0;
    while attempt < MAX_ATTEMPTS
      invariant 0 <= attempt <= MAX_ATTEMPTS
      invariant PickUnique(m, candidates) == PickUnique(m, candidates[attempt..])
      invariant forall k :: 0 <= k < attempt ==> candidates[k] in m
    {
      if candidates[attempt] !in m {
        return Some(candidates[attempt]);
      }
      assert candidates[attempt..][1..] == candidates[attempt + 1..];
      attempt := attempt + 1;
    }
    return None;
  }

  /** `createOAuthProvider`. Each method is one event of the server
      machine; `log` and `minted` are history that no branch reads. */
  class Provider {
    const cfg: Config
    var consentSessions: Entries
    var authorizationCodes: Entries
    var tokens: Tokens
    var requests: seq<Request>
    var log: seq<Fact>
    ghost var minted: set<string>

    ghost function View(): State
      reads this
    {
      State(consentSessions, authorizationCodes, tokens, requests, log, minted)
    }

    constructor (config: Config)
      ensures cfg == config && View() == Init()
    {
      cfg := config;
      consentSessions, authorizationCodes, tokens, requests := map[], map[], map[], [];
      log, minted := [], {};
    }

    /** The head of `handleRequest`. */
    method Arrives(now: int)
      modifies this
      ensures View() == After(cfg, old(View()), Event.Arrives(now))
    {
      consentSessions := PruneExpired(consentSessions, now);
      authorizationCodes := PruneExpired(authorizationCodes, now);
    }

    method Finish(i: nat, response: Response)
      requires i < |requests|
      modifies this`requests
      ensures requests == old(requests)[i := Done(response)]
    {
      requests := requests[i := Done(response)];
    }

    /** The key for a new entry of a pruned map, unless the map is full. */
    method Reserve(m: Entries, candidates: seq<string>) returns (slot: Option<string>)
      requires |candidates| == MAX_ATTEMPTS
      ensures slot == Slot(m, candidates)
    {
      if |m| >= MAX_ENTRIES {
        return None;
      }
      slot := GenerateUnique(m, candidates);
      if slot == Some("") {
        slot := None;
      }
    }

    /** `handleAuthorizePage` after the client lookup. */
    method PageStores(i: nat, client: Option<seq<string>>, now: int, candidates: seq<string>)
      requires Enabled(View(), Event.PageStores(i, client, now, candidates))
      modifies this
      ensures View() == After(cfg, old(View()), Event.PageStores(i, client, now, candidates))
    {
      var v := ValidateClient(requests[i].params, client);
      if v.Err? {
        Finish(i, Rejected(v.error));
        return;
      }
      consentSessions := PruneExpired(consentSessions, now);
      var slot := Reserve(consentSessions, candidates);
      if slot.None? {
        Finish(i, Rejected(TemporarilyUnavailable));
        return;
      }
      consentSessions := consentSessions[slot.value := Entry(v.value, Expiry(cfg, now), |log|)];
      log := log + [Consented(v.value)];
      Finish(i, ConsentPage(slot.value));
    }

    /** `handleAuthorizeConfirm` up to the client lookup: the nonce is used up first. */
    method ConfirmStarts(f: Fields, localResource: string, now: int)
      modifies this
      ensures View() == After(cfg, old(View()), Event.ConfirmStarts(f, localResource, now))
    {
      var nonce := GetOrEmpty(f, "csrf_nonce");
      if nonce == "" || nonce !in consentSessions || consentSessions[nonce].expiresAt <= now {
        if nonce != "" {
          consentSessions := consentSessions - {nonce};
        }
        requests := requests + [Done(Rejected(InvalidCsrfNonce))];
        return;
      }
      var session := consentSessions[nonce];
      consentSessions := consentSessions - {nonce};
      if !PostedMatch(f, session.params) {
        requests := requests + [Done(Rejected(InvalidCsrfNonce))];
        return;
      }
      var v := ValidateFields(SessionFields(session.params), localResource, cfg.isTunnel);
      if v.Err? {
        requests := requests + [Done(Rejected(v.error))];
      } else {
        requests := requests + [ConfirmAwaitsClient(session.id, v.value)];
      }
    }

    /** `handleAuthorizeConfirm` after the client lookup. */
    method ConfirmIssues(i: nat, client: Option<seq<string>>, now: int, candidates: seq<string>)
      requires Enabled(View(), Event.ConfirmIssues(i, client, now, candidates))
      modifies this
      ensures View() == After(cfg, old(View()), Event.ConfirmIssues(i, client, now, candidates))
    {
      var consent := requests[i].consent;
      var v := ValidateClient(requests[i].params, client);
      if v.Err? {
        Finish(i, Rejected(v.error));
        return;
      }
      authorizationCodes := PruneExpired(authorizationCodes, now);
      var slot := Reserve(authorizationCodes, candidates);
      if slot.None? {
        Finish(i, Rejected(TemporarilyUnavailable));
        return;
      }
      var p := CodeParams(v.value);
      authorizationCodes := authorizationCodes[slot.value := Entry(p, Expiry(cfg, now), |log|)];
      log := log + [CodeIssued(consent, p)];
      Finish(i, Redirected(slot.value, v.value.redirectUri, v.value.state));
    }

    /** `exchangeAuthorizationCode` up to the store write: the code is used up first. */
    method ExchangeStarts(f: Fields, localResource: string, now: int, mint: Mint)
      requires Enabled(View(), Event.ExchangeStarts(f, localResource, now, mint))
      modifies this
      ensures View() == After(cfg, old(View()), Event.ExchangeStarts(f, localResource, now, mint))
    {
      var code, verifier := GetOrEmpty(f, "code"), GetOrEmpty(f, "code_verifier");
      if code !in authorizationCodes || authorizationCodes[code].expiresAt <= now {
        authorizationCodes := authorizationCodes - {code};
        requests := requests + [Done(Rejected(InvalidGrant))];
        return;
      }
      var stored := authorizationCodes[code];
      if !ExchangeMatches(cfg, stored.params, f, localResource) {
        requests := requests + [Done(Rejected(InvalidGrant))];
        return;
      }
      authorizationCodes := authorizationCodes - {code};
      var p := stored.params;
      var access := AccessToken(cfg, p.clientId, p.resource, p.scope, mint);
      var refresh := RefreshToken(p.clientId, p.resource, p.scope, mint);
      minted := minted + NewHashes(access, refresh);
      requests := requests + [ExchangeAwaitsStore(stored.id, verifier, access, refresh)];
    }
  }
}
