/** Validation of an authorization request, run for the consent page and again at confirmation. */
module OAuthAuthorization {
  import opened Wrappers
  import opened OAuthScope

  datatype OAuthError =
    | UnsupportedResponseType | InvalidCodeChallengeMethod | InvalidCodeChallenge | InvalidResource
    | InvalidScope | InvalidClient | InvalidRedirectUri | InvalidCsrfNonce | InvalidGrant
    | TemporarilyUnavailable | StoreFailed

  /** Query or form fields; the first value of each name. */
  type Fields = map<string, string>

  datatype Params = Params(
    clientId: string, codeChallenge: string, redirectUri: string, resource: string, scope: string,
    state: Option<string>)

  function Get(f: Fields, name: string): Option<string> {
    if name in f then Some(f[name]) else None
  }

  function GetOrEmpty(f: Fields, name: string): string {
    if name in f then f[name] else ""
  }

  /** `isTunnel` stands for the URL pattern of the hosted tunnel resources. */
  predicate AllowedResource(value: string, localResource: string, isTunnel: string -> bool) {
    value == localResource || isTunnel(value)
  }

  /** The part of the validation that runs before the client lookup is awaited. */
  function ValidateFields(f: Fields, localResource: string, isTunnel: string -> bool): Result<Params, OAuthError> {
    if Get(f, "response_type") != Some("code") then Err(UnsupportedResponseType)
    else if Get(f, "code_challenge_method") != Some("S256") then Err(InvalidCodeChallengeMethod)
    else if GetOrEmpty(f, "code_challenge") == "" then Err(InvalidCodeChallenge)
    else if !AllowedResource(GetOrEmpty(f, "resource"), localResource, isTunnel) then Err(InvalidResource)
    else
      var scope := NormalizeScope(Get(f, "scope"));
      if scope.None? then Err(InvalidScope)
      else Ok(Params(GetOrEmpty(f, "client_id"), GetOrEmpty(f, "code_challenge"), GetOrEmpty(f, "redirect_uri"),
                     GetOrEmpty(f, "resource"), scope.value, Get(f, "state")))
  }

  /** The request is complete and asks for consent to `p`. */
  ghost predicate AsksForConsent(f: Fields, localResource: string, isTunnel: string -> bool, p: Params) {
    && "response_type" in f && f["response_type"] == "code"
    && "code_challenge_method" in f && f["code_challenge_method"] == "S256"
    && p.codeChallenge == GetOrEmpty(f, "code_challenge") && p.codeChallenge != ""
    && p.resource == GetOrEmpty(f, "resource") && (p.resource == localResource || isTunnel(p.resource))
    && (if "scope" in f then IsNormalFormOf(p.scope, f["scope"]) else p.scope == DEFAULT_SCOPE)
    && p.clientId == GetOrEmpty(f, "client_id") && p.redirectUri == GetOrEmpty(f, "redirect_uri")
    && (if "state" in f then p.state == Some(f["state"]) else p.state.None?)
  }

  /** What a rejected request lacks; the checks before it passed. */
  ghost predicate Lacks(f: Fields, localResource: string, isTunnel: string -> bool, error: OAuthError) {
    match error
    case UnsupportedResponseType => Get(f, "response_type") != Some("code")
    case InvalidCodeChallengeMethod => Get(f, "code_challenge_method") != Some("S256")
    case InvalidCodeChallenge => GetOrEmpty(f, "code_challenge") == ""
    case InvalidResource => GetOrEmpty(f, "resource") != localResource && !isTunnel(GetOrEmpty(f, "resource"))
    case InvalidScope => "scope" in f && forall scope :: !IsNormalFormOf(scope, f["scope"])
    case _ => false
  }

  /** A request passes exactly when it is complete, and then with the parameters it asks for. */
  lemma ValidatedMeans(f: Fields, localResource: string, isTunnel: string -> bool, p: Params)
    ensures ValidateFields(f, localResource, isTunnel) == Ok(p) <==> AsksForConsent(f, localResource, isTunnel, p)
    ensures var v := ValidateFields(f, localResource, isTunnel);
            v.Err? ==> Lacks(f, localResource, isTunnel, v.error)
  {
    ScopeMeans(f, p.scope);
    if "scope" in f {
      forall scope ensures NormalizeScope(Some(f["scope"])) == Some(scope) <==> IsNormalFormOf(scope, f["scope"]) {
        NormalizeMeans(f["scope"], scope);
      }
    }
  }

  lemma ScopeMeans(f: Fields, scope: string)
    ensures NormalizeScope(Get(f, "scope")) == Some(scope) <==>
            if "scope" in f then IsNormalFormOf(scope, f["scope"]) else scope == DEFAULT_SCOPE
    ensures "scope" !in f ==> NormalizeScope(Get(f, "scope")).Some?
  {
    if "scope" in f {
      NormalizeMeans(f["scope"], scope);
    } else {
      NormalizeMeans("", scope);
    }
  }

  /** The part after the lookup: `client` holds the redirect URIs of the client found, if any. */
  function ValidateClient(p: Params, client: Option<seq<string>>): Result<Params, OAuthError> {
    if client.None? then Err(InvalidClient)
    else if p.redirectUri !in client.value then Err(InvalidRedirectUri)
    else Ok(p)
  }

  /** The fields that confirmation rebuilds from the stored session. */
  function SessionFields(p: Params): Fields {
    var f := map[
      "response_type" := "code", "client_id" := p.clientId, "redirect_uri" := p.redirectUri,
      "resource" := p.resource, "code_challenge" := p.codeChallenge, "code_challenge_method" := "S256",
      "scope" := p.scope];
    if p.state.Some? && p.state.value != "" then f["state" := p.state.value] else f
  }

  /** What a session stored by the consent page satisfies. */
  predicate SessionShape(p: Params) {
    p.codeChallenge != "" && p.scope in {DEFAULT_SCOPE, BOTH_SCOPES}
  }

  lemma ValidatedShape(f: Fields, localResource: string, isTunnel: string -> bool)
    requires ValidateFields(f, localResource, isTunnel).Ok?
    ensures SessionShape(ValidateFields(f, localResource, isTunnel).value)
  {
    NormalizeIdempotent(Get(f, "scope"));
  }

  /** An empty state is dropped on the way through the session. */
  function KeptState(p: Params): Params {
    if p.state == Some("") then p.(state := None) else p
  }

  /** The literals that name the fields are pairwise distinct. */
  lemma SessionFieldValues(p: Params)
    ensures var f := SessionFields(p);
            && Get(f, "response_type") == Some("code") && Get(f, "code_challenge_method") == Some("S256")
            && GetOrEmpty(f, "client_id") == p.clientId && GetOrEmpty(f, "redirect_uri") == p.redirectUri
            && GetOrEmpty(f, "resource") == p.resource && GetOrEmpty(f, "code_challenge") == p.codeChallenge
            && Get(f, "scope") == Some(p.scope) && Get(f, "state") == KeptState(p).state
  {
    assert |"response_type"| == 13 && |"client_id"| == 9 && |"redirect_uri"| == 12 && |"resource"| == 8;
    assert |"code_challenge"| == 14 && |"code_challenge_method"| == 21 && |"scope"| == |"state"| == 5;
    assert "scope"[1] != "state"[1];
  }

  /** Validating a stored session again can only fail on the resource or the client; when it
      succeeds it yields the session's own parameters, an empty state aside. */
  lemma Revalidation(p: Params, localResource: string, isTunnel: string -> bool)
    requires SessionShape(p)
    ensures ValidateFields(SessionFields(p), localResource, isTunnel) ==
            if AllowedResource(p.resource, localResource, isTunnel) then Ok(KeptState(p)) else Err(InvalidResource)
  {
    SessionFieldValues(p);
    NormalizeDefault();
    NormalizeBoth();
  }
}
