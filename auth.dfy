/** `authenticate` and `getNewToken` as functions of the manager's
    authentication state: validation of the client-secret file, the
    stored-token lifecycle (keep, refresh, or authorize anew), and a new
    authorization through a probed loopback port and the callback listener. */
module Auth {
  import opened Wrappers
  import opened Json
  import opened Strings
  import opened Credentials
  import opened PortProbe
  import opened OAuthCallback

  /** The token file: absent, unparsable, or a parsed document. */
  datatype TokenFile = NoTokenFile | UnparsableTokenFile | TokenFileOf(doc: JsonValue)

  /** The OAuth client object: client id and secret, redirect URI and the
      credentials set on it (`None` where the constructor got `undefined`). */
  datatype OAuthClient = OAuthClient(clientId: Option<JsonValue>, clientSecret: Option<JsonValue>,
                                     redirectUri: Option<JsonValue>, credentials: Option<JsonValue>)

  /** `new OAuth2Client()` */
  const EmptyClient: OAuthClient := OAuthClient(None, None, None, None)

  /** The part of the manager's state `authenticate` reads and writes:
      the client, whether the API handle exists, and the token file. */
  datatype AuthState = AuthState(client: OAuthClient, authorized: bool, tokenFile: TokenFile)

  /** Why authentication failed: the three credential-file errors, or an
      exception (a `null` document, an unparsable token file, no free port,
      a failed authorization). */
  datatype AuthError =
    | CredentialsNotFound
    | CredentialsInvalid
    | CredentialsMissingFields
    | NullCredentials
    | TokenFileInvalid
    | NoFreePort
    | AuthorizationFailed(reason: CallbackError)

  /** The answer of `authenticate`; `StillWaiting` is a promise that has not
      settled because the browser never reached `/callback`. */
  datatype AuthResult = AuthSucceeded | AuthFailed(error: AuthError) | StillWaiting

  /** The external world as `authenticate` sees it: the client-secret file,
      the token-info check, the refresh answer, the ports that cannot be
      bound, whether listening succeeds, the browser's requests and the
      token endpoint. */
  datatype AuthWorld = AuthWorld(
    credentials: CredentialsFile,
    tokenValid: JsonValue -> bool,
    refreshed: Option<JsonValue>,
    bindFails: int -> bool,
    listenOk: bool,
    requests: seq<Request>,
    exchange: string -> Option<Token>)

  // -------------------------------------------------- stored tokens

  /** `tokens && tokens.access_token` */
  predicate HasAccessToken(stored: JsonValue)
  {
    Truthy(Some(stored)) && Truthy(Get(stored, "access_token"))
  }

  predicate HasRefreshToken(stored: JsonValue)
    requires stored != JNull
  {
    Truthy(Get(stored, "refresh_token"))
  }

  /** The three ways the stored tokens can go. */
  datatype TokenPlan = KeepStored | UseRefreshed(tokens: JsonValue) | Reauthorize

  /** The token branch of `authenticate`: no usable access token leads to a
      new authorization; an access token the token-info check accepts is
      kept; an invalid one is refreshed when a refresh token exists and the
      refresh succeeds (`refreshed`), and otherwise leads to a new
      authorization. `stored` is `null` when there is no token file. */
  function TokenDecision(stored: JsonValue, tokenValid: JsonValue -> bool, refreshed: Option<JsonValue>): TokenPlan
  {
    if !HasAccessToken(stored) then Reauthorize
    else if tokenValid(Get(stored, "access_token").value) then KeepStored
    else if HasRefreshToken(stored) && refreshed.Some? then UseRefreshed(refreshed.value)
    else Reauthorize
  }

  /** The whole decision table, both directions: tokens are kept exactly
      when a truthy access token passes the check; refreshed exactly when it
      fails the check, a refresh token exists and the refresh succeeds;
      everything else, including a failed refresh, authorizes anew. */
  lemma TokenLifecycle(stored: JsonValue, tokenValid: JsonValue -> bool, refreshed: Option<JsonValue>)
    ensures var plan := TokenDecision(stored, tokenValid, refreshed);
      && (stored == JNull ==> plan == Reauthorize)
      && (plan == KeepStored <==> HasAccessToken(stored) && tokenValid(stored.fields["access_token"]))
      && (plan.UseRefreshed? <==>
            HasAccessToken(stored) && !tokenValid(stored.fields["access_token"]) &&
            HasRefreshToken(stored) && refreshed.Some?)
      && (plan.UseRefreshed? ==> plan.tokens == refreshed.value)
      && (plan == Reauthorize <==>
            || !HasAccessToken(stored)
            || (!tokenValid(stored.fields["access_token"]) && (!HasRefreshToken(stored) || refreshed.None?)))
  {
  }

  /** A token object as JSON, empty fields left out. */
  function TokenJson(t: Token): (j: JsonValue)
    ensures j.JObject?
    ensures "access_token" in j.fields <==> t.accessToken != ""
    ensures "refresh_token" in j.fields <==> t.refreshToken != ""
  {
    var m: map<string, JsonValue> := if t.accessToken != "" then map["access_token" := JString(t.accessToken)] else map[];
    JObject(if t.refreshToken != "" then m["refresh_token" := JString(t.refreshToken)] else m)
  }

  /** The tokens read back from their JSON: a token with an access token has
      one after the round trip, and the same one. */
  lemma TokenJsonRoundTrip(t: Token)
    ensures HasAccessToken(TokenJson(t)) <==> t.accessToken != ""
    ensures t.accessToken != "" ==> TokenJson(t).fields["access_token"] == JString(t.accessToken)
    ensures HasRefreshToken(TokenJson(t)) <==> t.refreshToken != ""
  {
  }

  // -------------------------------------------------- new authorization

  /** `http://localhost:${port}/callback` */
  function RedirectUri(port: nat): string
  {
    "http://localhost:" + NatToString(port) + CallbackPath
  }

  /** The outcome of `getNewToken` and the state after it. */
  datatype NewToken = NewToken(result: AuthResult, tokens: Option<JsonValue>, state: AuthState)

  /** `getNewToken`: probe a port from 5000, replace the client by one with
      the loopback redirect URI (keeping id and secret, dropping its
      credentials), run the listener, and on success set and persist the
      tokens. */
  function GetNewToken(s: AuthState, w: AuthWorld): (r: NewToken)
    ensures r.state.authorized == s.authorized
    ensures r.result == AuthSucceeded <==> r.tokens.Some?
    ensures r.tokens.Some? ==> r.state.tokenFile == TokenFileOf(r.tokens.value) && r.state.client.credentials == r.tokens
    ensures r.tokens.None? ==> r.state.tokenFile == s.tokenFile
  {
    match FindAvailablePort(BasePort, w.bindFails)
    case Err(_) => NewToken(AuthFailed(NoFreePort), None, s)
    case Ok(port) =>
      var client := OAuthClient(s.client.clientId, s.client.clientSecret, Some(JString(RedirectUri(port))), None);
      var outcome := if !w.listenOk then Rejected(ListenFailed) else Run(Listening, w.requests, w.exchange).outcome;
      match outcome
      case Pending => NewToken(StillWaiting, None, s.(client := client))
      case Rejected(e) => NewToken(AuthFailed(AuthorizationFailed(e)), None, s.(client := client))
      case Resolved(t) =>
        var j := TokenJson(t);
        NewToken(AuthSucceeded, Some(j), s.(client := client.(credentials := Some(j)), tokenFile := TokenFileOf(j)))
  }

  /** A new authorization redirects to the first free port from 5000 and
      resolves with the tokens the first `/callback` request brings. */
  lemma NewTokenUsesProbedPort(s: AuthState, w: AuthWorld)
    requires FindAvailablePort(BasePort, w.bindFails).Ok?
    ensures var port := FindAvailablePort(BasePort, w.bindFails).value;
      var r := GetNewToken(s, w);
      && port >= BasePort
      && r.state.client.redirectUri == Some(JString(RedirectUri(port)))
      && r.state.client.clientId == s.client.clientId && r.state.client.clientSecret == s.client.clientSecret
      && (r.result == StillWaiting <==> w.listenOk && FirstCallback(w.requests) == |w.requests|)
  {
    RunDecidedByFirstCallback(w.requests, w.exchange);
  }

  // -------------------------------------------------- authenticate

  /** The client built from a valid `installed` section:
      `new OAuth2Client(client_id, client_secret, redirect_uris[0])`. */
  function ClientFor(doc: JsonValue): OAuthClient
    requires doc != JNull && HasRequiredFields(doc)
  {
    var installed := Get(doc, "installed").value;
    OAuthClient(Get(installed, "client_id"), Get(installed, "client_secret"),
                First(Get(installed, "redirect_uris").value), None)
  }

  /** `authenticate` on state `s`. */
  function Authenticate(s: AuthState, w: AuthWorld): (r: (AuthResult, AuthState))
    ensures r.0 != AuthSucceeded ==> r.1.authorized == s.authorized
    ensures r.0 == AuthSucceeded ==>
      && r.1.authorized && r.1.tokenFile.TokenFileOf?
      && r.1.client.credentials == Some(r.1.tokenFile.doc)
    ensures CheckCredentials(w.credentials) != Valid ==> r.0.AuthFailed? && r.1 == s
  {
    match w.credentials
    case Missing => (AuthFailed(CredentialsNotFound), s)
    case Unparsable => (AuthFailed(CredentialsInvalid), s)
    case Parsed(doc) =>
      if doc == JNull then (AuthFailed(NullCredentials), s)
      else if !HasRequiredFields(doc) then (AuthFailed(CredentialsMissingFields), s)
      else
        var client := ClientFor(doc);
        match s.tokenFile
        case UnparsableTokenFile => (AuthFailed(TokenFileInvalid), s.(client := client))
        case NoTokenFile => WithStoredTokens(s.(client := client), JNull, w)
        case TokenFileOf(stored) => WithStoredTokens(s.(client := client.(credentials := Some(stored))), stored, w)
  }

  /** The token branch, once the client is built and the stored tokens (or
      `null`) are known. */
  function WithStoredTokens(s: AuthState, stored: JsonValue, w: AuthWorld): (r: (AuthResult, AuthState))
    requires stored != JNull ==> s.tokenFile == TokenFileOf(stored) && s.client.credentials == Some(stored)
    ensures r.0 != AuthSucceeded ==> r.1.authorized == s.authorized
    ensures r.0 == AuthSucceeded ==>
      && r.1.authorized && r.1.tokenFile.TokenFileOf?
      && r.1.client.credentials == Some(r.1.tokenFile.doc)
  {
    match TokenDecision(stored, w.tokenValid, w.refreshed)
    case KeepStored => (AuthSucceeded, s.(authorized := true))
    case UseRefreshed(t) =>
      (AuthSucceeded, s.(client := s.client.(credentials := Some(t)), tokenFile := TokenFileOf(t), authorized := true))
    case Reauthorize =>
      var n := GetNewToken(s, w);
      if n.result == AuthSucceeded then (AuthSucceeded, n.state.(authorized := true)) else (n.result, n.state)
  }

  /** `authenticate` reports the credential file exactly as
      `checkCredentials` judges it, except that a `null` document fails with
      the exception its property read raises. */
  lemma AuthenticateAgreesWithCheck(s: AuthState, w: AuthWorld)
    ensures var r := Authenticate(s, w).0;
      var c := CheckCredentials(w.credentials);
      && (r == AuthFailed(CredentialsNotFound) <==> c == NotFound)
      && (r == AuthFailed(CredentialsInvalid) || r == AuthFailed(NullCredentials) <==> c == Invalid)
      && (r == AuthFailed(CredentialsMissingFields) <==> c == MissingFields)
  {
  }

  /** Tokens a successful authentication persisted are reused: the next
      authentication with the same client-secret file, whose token-info check
      accepts the access token, keeps them and authorizes nothing anew. */
  lemma PersistedTokensAreReused(s: AuthState, w: AuthWorld, w2: AuthWorld)
    requires Authenticate(s, w).0 == AuthSucceeded
    requires w2.credentials == w.credentials
    requires var t := Authenticate(s, w).1.tokenFile.doc;
      HasAccessToken(t) && w2.tokenValid(t.fields["access_token"])
    ensures var s1 := Authenticate(s, w).1;
      var r := Authenticate(s1, w2);
      && r.0 == AuthSucceeded
      && r.1.tokenFile == s1.tokenFile
      && r.1.client == ClientFor(w.credentials.doc).(credentials := Some(s1.tokenFile.doc))
  {
  }
}
