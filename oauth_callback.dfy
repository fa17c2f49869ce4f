/** The one-shot loopback listener that receives the OAuth 2.0 authorization
    response (the client side of the authorization-code grant, section 4.1 of
    RFC 6749, with a loopback redirect as in section 7.3 of RFC 8252).

    The `code` and `error` query parameters are the authorization response
    and error response of sections 4.1.2 and 4.1.2.1 of RFC 6749. */
module OAuthCallback {
  import opened Wrappers

  /** OAuth tokens as stored in the token file; "" stands for an absent or
      empty field. */
  datatype Token = Token(accessToken: string, refreshToken: string)

  /** A request the listener receives: its path and its query parameters. */
  datatype Request = Request(pathname: string, query: map<string, string>)

  /** The page written back to the browser. */
  datatype Page = NotFoundPage | AuthFailedPage(error: string) | AuthSuccessPage | NoCodePage

  datatype Response = Response(status: int, page: Page)

  /** Why the authorization failed. */
  datatype CallbackError =
    | AuthorizationDenied(error: string)   // the `error` parameter was set
    | TokenExchangeFailed                  // the token endpoint refused the code
    | NoAuthorizationCode                  // neither `code` nor `error`
    | ListenFailed                         // the port could not be listened on

  /** The promise the listener settles: still waiting, resolved with the
      tokens, or rejected. */
  datatype Outcome = Pending | Resolved(tokens: Token) | Rejected(reason: CallbackError)

  const CallbackPath: string := "/callback"

  /** The value of query parameter `name` when present and non-empty, i.e.
      truthy. */
  function Param(req: Request, name: string): Option<string>
  {
    if name in req.query && req.query[name] != "" then Some(req.query[name]) else None
  }

  /** What the listener does with one request: the response it writes and,
      for a request to `/callback`, the outcome it settles (the listener is
      then closed). `exchange` is the token endpoint: tokens for a code, or
      `None` when it refuses. */
  datatype Dispatched = Dispatched(response: Response, settles: Option<Outcome>)

  function Dispatch(req: Request, exchange: string -> Option<Token>): (d: Dispatched)
    ensures req.pathname != CallbackPath <==> d.settles.None?
    ensures d.settles.Some? ==> !d.settles.value.Pending?
  {
    if req.pathname != CallbackPath then
      Dispatched(Response(404, NotFoundPage), None)
    else
      match Param(req, "error")
      case Some(e) => Dispatched(Response(200, AuthFailedPage(e)), Some(Rejected(AuthorizationDenied(e))))
      case None =>
        match Param(req, "code")
        case Some(c) =>
          Dispatched(Response(200, AuthSuccessPage),
                     Some(match exchange(c) case Some(t) => Resolved(t) case None => Rejected(TokenExchangeFailed)))
        case None => Dispatched(Response(200, NoCodePage), Some(Rejected(NoAuthorizationCode)))
  }

  /** The listener's whole state as a value. */
  datatype ServerState = ServerState(listening: bool, closeCount: nat, outcome: Outcome, responses: seq<Response>)

  const Listening: ServerState := ServerState(true, 0, Pending, [])

  /** Closed exactly when it has settled, and closed at most once. */
  predicate Consistent(s: ServerState)
  {
    && s.closeCount <= 1
    && (s.listening <==> s.closeCount == 0)
    && (s.listening <==> s.outcome.Pending?)
  }

  /** One request: a closed listener accepts nothing; an open one answers and,
      on `/callback`, closes and settles. */
  function Step(s: ServerState, req: Request, exchange: string -> Option<Token>): ServerState
  {
    if !s.listening then s
    else
      var d := Dispatch(req, exchange);
      match d.settles
      case None => s.(responses := s.responses + [d.response])
      case Some(o) => ServerState(false, s.closeCount + 1, o, s.responses + [d.response])
  }

  /** The listener after a sequence of requests. */
  function Run(s: ServerState, reqs: seq<Request>, exchange: string -> Option<Token>): ServerState
    decreases |reqs|
  {
    if |reqs| == 0 then s else Run(Step(s, reqs[0], exchange), reqs[1..], exchange)
  }

  lemma StepKeepsConsistent(s: ServerState, req: Request, exchange: string -> Option<Token>)
    requires Consistent(s)
    ensures Consistent(Step(s, req, exchange))
  {
  }

  /** `n` not-found responses. */
  function NotFounds(n: nat): (r: seq<Response>)
    ensures |r| == n && forall i :: 0 <= i < n ==> r[i] == Response(404, NotFoundPage)
  {
    if n == 0 then [] else NotFounds(n - 1) + [Response(404, NotFoundPage)]
  }

  /** Index of the first request to `/callback`, or |reqs|. */
  function FirstCallback(reqs: seq<Request>): (k: nat)
    ensures k <= |reqs|
    ensures k < |reqs| ==> reqs[k].pathname == CallbackPath
    ensures forall i :: 0 <= i < k ==> reqs[i].pathname != CallbackPath
  {
    if |reqs| == 0 then 0
    else if reqs[0].pathname == CallbackPath then 0
    else 1 + FirstCallback(reqs[1..])
  }

  /** From a fresh listener, every request before the first `/callback` one
      gets a 404 and leaves it open; the first `/callback` request alone
      decides the outcome and closes it exactly once; later requests are
      never answered. With no `/callback` request the promise stays pending. */
  lemma {:induction false} RunDecidedByFirstCallback(reqs: seq<Request>, exchange: string -> Option<Token>)
    ensures var r := Run(Listening, reqs, exchange);
      var k := FirstCallback(reqs);
      && Consistent(r)
      && (k == |reqs| ==> r == ServerState(true, 0, Pending, NotFounds(|reqs|)))
      && (k < |reqs| ==>
            var d := Dispatch(reqs[k], exchange);
            r == ServerState(false, 1, d.settles.value, NotFounds(k) + [d.response]))
  {
    RunFromOpen(reqs, 0, exchange);
  }

  lemma {:induction false} RunFromOpen(reqs: seq<Request>, n: nat, exchange: string -> Option<Token>)
    ensures var s := ServerState(true, 0, Pending, NotFounds(n));
      var r := Run(s, reqs, exchange);
      var k := FirstCallback(reqs);
      && (k == |reqs| ==> r == ServerState(true, 0, Pending, NotFounds(n + |reqs|)))
      && (k < |reqs| ==>
            var d := Dispatch(reqs[k], exchange);
            r == ServerState(false, 1, d.settles.value, NotFounds(n + k) + [d.response]))
    decreases |reqs|
  {
    var s := ServerState(true, 0, Pending, NotFounds(n));
    if |reqs| > 0 {
      var d := Dispatch(reqs[0], exchange);
      if reqs[0].pathname == CallbackPath {
        RunClosed(Step(s, reqs[0], exchange), reqs[1..], exchange);
      } else {
        assert Step(s, reqs[0], exchange) == ServerState(true, 0, Pending, NotFounds(n + 1));
        RunFromOpen(reqs[1..], n + 1, exchange);
      }
    }
  }

  lemma {:induction false} RunClosed(s: ServerState, reqs: seq<Request>, exchange: string -> Option<Token>)
    requires !s.listening
    ensures Run(s, reqs, exchange) == s
    decreases |reqs|
  {
    if |reqs| > 0 {
      RunClosed(Step(s, reqs[0], exchange), reqs[1..], exchange);
    }
  }

  /** On `/callback` the `error` parameter is looked at before `code`: an
      error response rejects even when a code is present. */
  lemma ErrorBeforeCode(req: Request, exchange: string -> Option<Token>)
    requires req.pathname == CallbackPath && Param(req, "error").Some?
    ensures Dispatch(req, exchange).settles == Some(Rejected(AuthorizationDenied(Param(req, "error").value)))
  {
  }

  /** A callback with a code and no error resolves with the tokens the token
      endpoint returns for that code. */
  lemma CodeExchanged(req: Request, exchange: string -> Option<Token>)
    requires req.pathname == CallbackPath && Param(req, "error").None? && Param(req, "code").Some?
    ensures var o := Dispatch(req, exchange).settles.value;
      exchange(Param(req, "code").value).Some? ==> o == Resolved(exchange(Param(req, "code").value).value)
  {
  }

  /** The listener object: its fields are the state above. */
  class CallbackServer {
    var listening: bool
    var closeCount: nat
    var outcome: Outcome
    var responses: seq<Response>

    function State(): ServerState
      reads this
    {
      ServerState(listening, closeCount, outcome, responses)
    }

    /** `server.listen(port)` succeeded. */
    constructor Listen()
      ensures State() == Listening
    {
      listening, closeCount, outcome, responses := true, 0, Pending, [];
    }

    /** The request handler. */
    method Handle(req: Request, exchange: string -> Option<Token>)
      modifies this
      ensures State() == Step(old(State()), req, exchange)
    {
      if !listening {
        return;
      }
      if req.pathname == CallbackPath {
        var error := Param(req, "error");
        var code := Param(req, "code");
        if error.Some? {
          responses := responses + [Response(200, AuthFailedPage(error.value))];
          Close();
          outcome := Rejected(AuthorizationDenied(error.value));
          return;
        }
        if code.Some? {
          responses := responses + [Response(200, AuthSuccessPage)];
          Close();
          var tokens := exchange(code.value);
          outcome := if tokens.Some? then Resolved(tokens.value) else Rejected(TokenExchangeFailed);
        } else {
          responses := responses + [Response(200, NoCodePage)];
          Close();
          outcome := Rejected(NoAuthorizationCode);
        }
      } else {
        responses := responses + [Response(404, NotFoundPage)];
      }
    }

    /** `server.close()`. */
    method Close()
      modifies this
      ensures listening == false && closeCount == old(closeCount) + 1
      ensures outcome == old(outcome) && responses == old(responses)
    {
      listening := false;
      closeCount := closeCount + 1;
    }
  }

  /** `startCallbackServer(port, authUrl)`: listen (opening the browser at
      `authUrl` is left out), then hand each incoming request to the handler
      until the promise settles. `listenOk` says whether listening succeeded;
      `requests` are the requests the browser makes, in arrival order. */
  method StartCallbackServer(listenOk: bool, requests: seq<Request>, exchange: string -> Option<Token>)
    returns (outcome: Outcome)
    ensures !listenOk ==> outcome == Rejected(ListenFailed)
    ensures listenOk ==> outcome == Run(Listening, requests, exchange).outcome
    ensures listenOk ==> (outcome.Pending? <==> FirstCallback(requests) == |requests|)
  {
    if !listenOk {
      return Rejected(ListenFailed);
    }
    var server := new CallbackServer.Listen();
    var i := 0;
    while i < |requests| && server.listening
      invariant 0 <= i <= |requests|
      invariant Run(Listening, requests, exchange) == Run(server.State(), requests[i..], exchange)
    {
      assert requests[i..] == [requests[i]] + requests[i + 1..];
      server.Handle(requests[i], exchange);
      i := i + 1;
    }
    if i < |requests| {
      RunClosed(server.State(), requests[i..], exchange);
    }
    assert requests[|requests|..] == [];
    RunDecidedByFirstCallback(requests, exchange);
    outcome := server.outcome;
  }
}
