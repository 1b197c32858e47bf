/**
 * The authentication session and the request executor of MoorRestClient
 * (connect, ensure_auth, _headers, _request, _ensure_no_moo_errors), as pure
 * functions of the client's state and of the server.
 *
 * The HTTP server is a function of the whole history of requests the client
 * has sent: it answers the last one. The client state records that history,
 * so every request that goes out is visible in the state that comes back.
 */
module Executor {
  import opened Wrappers
  import opened PyStr
  import opened Json
  import opened Errors

  // ---------------------------------------------------------------------
  // Requests, responses and the server
  // ---------------------------------------------------------------------

  /** What a request carries: nothing, a JSON document (json=) or raw text (data=). */
  datatype Payload = NoPayload | JsonPayload(doc: JsonValue) | TextPayload(text: string)

  datatype Request =
      /** POST /auth/connect with the form fields player and password. */
    | ConnectRequest(player: string, password: string)
      /** Any other call: method, path below the base URL, query parameters, body and headers. */
    | ApiRequest(verb: string, path: string, params: seq<(string, string)>, payload: Payload, headers: map<string, string>)

  /** A response body: no content, content that decodes as JSON, or content that does not. */
  datatype Body = Empty | Json(doc: JsonValue) | Text(text: string)

  /** Status code, the X-Moor-Auth-Token header if any, and the body. */
  datatype Response = Response(status: int, authToken: Option<string>, body: Body)

  /** The server: the response to the last request of a history. */
  type Server = seq<Request> -> Response

  /** _response_details: the decoded body, its text if it is not JSON, None if there is none. */
  function Details(body: Body): (r: JsonValue)
    ensures body.Empty? ==> r == JNull
    ensures body.Json? ==> r == body.doc
    ensures body.Text? ==> r == JStr(body.text)
  {
    match body
    case Empty => JNull
    case Json(doc) => doc
    case Text(text) => JStr(text)
  }

  // ---------------------------------------------------------------------
  // Client state
  // ---------------------------------------------------------------------

  /** The fields auth_token, default_player and default_password, and the requests sent so far. */
  datatype State = State(authToken: Option<string>, defaultPlayer: Option<string>, defaultPassword: Option<string>, sent: seq<Request>)

  /** The result of an operation together with the state it leaves behind. */
  datatype Step<T> = Step(result: Result<T, Error>, state: State)

  /** Python truthiness of an optional string: present and non-empty. */
  predicate Present(s: Option<string>) {
    s.Some? && s.value != []
  }

  /** Python's `a or b` on optional strings. */
  function PyOr(a: Option<string>, b: Option<string>): (r: Option<string>)
    ensures Present(r) <==> Present(a) || Present(b)
    ensures Present(a) ==> r == a
    ensures !Present(a) ==> r == b
  {
    if Present(a) then a else b
  }

  /** A stored token always comes with the credentials that obtained it. */
  predicate SessionValid(st: State) {
    st.authToken.Some? ==> Present(st.defaultPlayer) && Present(st.defaultPassword)
  }

  /** The requests an operation sent, given the state before it and the state after it. */
  function SentSince(before: State, after: State): seq<Request>
    requires |before.sent| <= |after.sent|
  {
    after.sent[|before.sent|..]
  }

  /** The log only grows: the old log is a prefix of the new one. */
  predicate Extends(before: State, after: State) {
    |before.sent| <= |after.sent| && after.sent[..|before.sent|] == before.sent
  }

  function ApiCount(log: seq<Request>): (n: nat)
    ensures n <= |log|
  {
    if log == [] then 0 else (if log[0].ApiRequest? then 1 else 0) + ApiCount(log[1..])
  }

  function ConnectCount(log: seq<Request>): (n: nat)
    ensures n + ApiCount(log) == |log|
  {
    if log == [] then 0 else (if log[0].ConnectRequest? then 1 else 0) + ConnectCount(log[1..])
  }

  lemma {:induction false} ApiCountAppend(a: seq<Request>, b: seq<Request>)
    ensures ApiCount(a + b) == ApiCount(a) + ApiCount(b)
  {
    if a == [] {
      assert a + b == b;
    } else {
      assert (a + b)[0] == a[0] && (a + b)[1..] == a[1..] + b;
      ApiCountAppend(a[1..], b);
    }
  }

  /** Sending one request: it joins the log, and the server answers the whole log. */
  function Send(st: State, req: Request, server: Server): (r: (Response, State))
    ensures r.1 == st.(sent := st.sent + [req])
    ensures r.0 == server(st.sent + [req])
  {
    var sent := st.sent + [req];
    (server(sent), st.(sent := sent))
  }

  // ---------------------------------------------------------------------
  // connect / ensure_auth / _headers
  // ---------------------------------------------------------------------

  const MissingCredentials := "player and password must be provided for authentication"
  const VerifyCredentialsHint := "Verify player/password and call moor_connect_auth again"
  const NoTokenMessage := "authentication succeeded but no X-Moor-Auth-Token header was returned"
  const UnauthorizedMessage := "authentication required or token invalid"
  const InvalidCredentialsMessage := "invalid credentials"
  const AuthFailedMessage := "authentication failed"
  const NotAuthenticated := "not authenticated; call connect first"
  const ReconnectHint := "Call moor_connect_auth(player, password)"

  /** connect(player, password). */
  function Connect(st: State, player: Option<string>, password: Option<string>, server: Server): (r: Step<string>)
  {
    var name := PyOr(player, st.defaultPlayer);
    var pw := PyOr(password, st.defaultPassword);
    if !Present(name) || !Present(pw) then
      Step(Failure(RestError(MissingCredentials, None, JNull,
                             Some(AuthenticationRequired), Some(ReconnectHint))), st)
    else
      var (resp, st1) := Send(st, ConnectRequest(name.value, pw.value), server);
      var details := Details(resp.body);
      if resp.status == 401 then
        Step(Failure(RestError(InvalidCredentialsMessage, Some(resp.status), details, Some(InvalidCredentials),
                               Some(VerifyCredentialsHint))), st1)
      else if resp.status >= 400 then
        Step(Failure(RestError(AuthFailedMessage, Some(resp.status), details, Some(AuthFailed), None)), st1)
      else if !Present(resp.authToken) then
        Step(Failure(RestError(NoTokenMessage, None, JNull,
                               Some(AuthProtocolError), None)), st1)
      else
        var token := Strip(resp.authToken.value);
        Step(Success(token), State(Some(token), name, pw, st1.sent))
  }

  /** What connect promises: the error cases, what is sent, and what a success stores. */
  lemma ConnectOutcomes(st: State, player: Option<string>, password: Option<string>, server: Server)
    ensures var r := Connect(st, player, password, server);
      var name := PyOr(player, st.defaultPlayer);
      var pw := PyOr(password, st.defaultPassword);
      && (!Present(name) || !Present(pw) <==> r.state.sent == st.sent)
      && (!Present(name) || !Present(pw) ==> r.result.Failure? && CodeOf(r.result.error) == Some(AuthenticationRequired) && r.state == st)
      && (Present(name) && Present(pw) ==>
            var resp := server(st.sent + [ConnectRequest(name.value, pw.value)]);
            && r.state.sent == st.sent + [ConnectRequest(name.value, pw.value)]
            && (resp.status == 401 ==> r.result.Failure? && CodeOf(r.result.error) == Some(InvalidCredentials))
            && (resp.status != 401 && resp.status >= 400 ==>
                  r.result.Failure? && CodeOf(r.result.error) == Some(AuthFailed) && StatusOf(r.result.error) == Some(resp.status))
            && (resp.status < 400 && !Present(resp.authToken) ==>
                  r.result.Failure? && CodeOf(r.result.error) == Some(AuthProtocolError))
            && (resp.status < 400 && Present(resp.authToken) ==>
                  && r.result == Success(Strip(resp.authToken.value))
                  && r.state.authToken == Some(Strip(resp.authToken.value))
                  && r.state.defaultPlayer == name && r.state.defaultPassword == pw))
      && (r.result.Failure? ==> r.state.(sent := st.sent) == st)
  {
  }

  /** connect never breaks the session invariant, and a success leaves a token. */
  lemma ConnectKeepsSession(st: State, player: Option<string>, password: Option<string>, server: Server)
    requires SessionValid(st)
    ensures var r := Connect(st, player, password, server);
      && SessionValid(r.state)
      && Extends(st, r.state) && |r.state.sent| <= |st.sent| + 1
      && ApiCount(SentSince(st, r.state)) == 0
      && (r.result.Success? ==> r.state.authToken == Some(r.result.value))
  {
    var r := Connect(st, player, password, server);
    if |r.state.sent| == |st.sent| + 1 {
      assert SentSince(st, r.state) == [r.state.sent[|st.sent|]];
    }
  }

  /**
   * A token header made only of whitespace passes the emptiness test, but
   * what is stored is its strip, the empty text: connect succeeds with "",
   * and the headers built afterwards fail as if no token were held.
   */
  lemma ConnectBlankToken(st: State, player: string, password: string, server: Server)
    requires player != [] && password != []
    requires var resp := server(st.sent + [ConnectRequest(player, password)]);
      resp.status < 400 && Present(resp.authToken) && Strip(resp.authToken.value) == []
    ensures var r := Connect(st, Some(player), Some(password), server);
      r.result == Success([]) && r.state.authToken == Some([]) && AuthHeaders(r.state).Failure?
  {
  }

  /** ensure_auth: connect with the stored defaults unless a (non-empty) token is held. */
  function EnsureAuth(st: State, server: Server): (r: Step<()>)
  {
    if Present(st.authToken) then Step(Success(()), st)
    else
      var c := Connect(st, None, None, server);
      Step(if c.result.Success? then Success(()) else Failure(c.result.error), c.state)
  }

  /** ensure_auth sends nothing when a token is held, and at most one connect otherwise. */
  lemma EnsureAuthSends(st: State, server: Server)
    requires SessionValid(st)
    ensures var r := EnsureAuth(st, server);
      && SessionValid(r.state)
      && Extends(st, r.state) && |r.state.sent| <= |st.sent| + 1
      && ApiCount(SentSince(st, r.state)) == 0
      && (Present(st.authToken) ==> r == Step(Success(()), st))
      && (r.result.Success? ==> r.state.authToken.Some? && Present(r.state.defaultPlayer) && Present(r.state.defaultPassword))
  {
    ConnectKeepsSession(st, None, None, server);
  }

  /** _headers: the token header and Accept, or an error when no (non-empty) token is held. */
  function AuthHeaders(st: State): (r: Result<map<string, string>, Error>)
    ensures r.Success? <==> Present(st.authToken)
    ensures r.Success? ==> r.value.Keys == {"X-Moor-Auth-Token", "Accept"}
    ensures r.Success? ==> "X-Moor-Auth-Token" in r.value && r.value["X-Moor-Auth-Token"] == st.authToken.value
    ensures r.Success? ==> "Accept" in r.value && r.value["Accept"] == "application/json"
  {
    if !Present(st.authToken) then Failure(Plain(NotAuthenticated))
    else Success(map["X-Moor-Auth-Token" := st.authToken.value, "Accept" := "application/json"])
  }

  // ---------------------------------------------------------------------
  // _request
  // ---------------------------------------------------------------------

  /** The keyword arguments of one _request call. */
  datatype Call = Call(
    verb: string,
    path: string,
    context: string,
    params: seq<(string, string)>,
    payload: Payload,
    headers: map<string, string>,
    requiresAuth: bool,
    noneStatuses: set<int>,
    allowEmpty: bool)

  /**
   * One pass of the loop body: authenticate if required, build the headers
   * (the caller's headers laid over the auth headers) and send the request.
   */
  function Attempt(call: Call, st: State, server: Server): (r: Step<Response>)
  {
    if call.requiresAuth then
      var e := EnsureAuth(st, server);
      if e.result.Failure? then Step(Failure(e.result.error), e.state)
      else
        match AuthHeaders(e.state)
        case Failure(err) => Step(Failure(err), e.state)
        case Success(auth) =>
          var (resp, st1) := Send(e.state, ApiRequest(call.verb, call.path, call.params, call.payload, auth + call.headers), server);
          Step(Success(resp), st1)
    else
      var (resp, st1) := Send(st, ApiRequest(call.verb, call.path, call.params, call.payload, call.headers), server);
      Step(Success(resp), st1)
  }

  /** An attempt sends at most one connect and exactly one API request when it succeeds, none when it fails. */
  lemma AttemptSends(call: Call, st: State, server: Server)
    requires SessionValid(st)
    ensures var r := Attempt(call, st, server);
      && SessionValid(r.state)
      && Extends(st, r.state) && |r.state.sent| <= |st.sent| + 2
      && ApiCount(SentSince(st, r.state)) == (if r.result.Success? then 1 else 0)
      && ConnectCount(SentSince(st, r.state)) <= 1
      && (r.result.Success? ==> Matches(r.state.sent[|r.state.sent| - 1], call) && r.result.value == server(r.state.sent))
      && (r.result.Success? && call.requiresAuth ==> Present(r.state.authToken) && Present(r.state.defaultPlayer) && Present(r.state.defaultPassword))
  {
    var r := Attempt(call, st, server);
    if call.requiresAuth {
      var e := EnsureAuth(st, server);
      EnsureAuthSends(st, server);
      if e.result.Success? && AuthHeaders(e.state).Success? {
        SentAfter(st, e.state, r.state);
      }
    } else if r.result.Success? {
      assert SentSince(st, r.state) == [r.state.sent[|st.sent|]];
    }
  }

  /** An API request built from the call: same method, path, parameters and body (the headers carry the token). */
  predicate Matches(req: Request, call: Call) {
    req.ApiRequest? && req.verb == call.verb && req.path == call.path && req.params == call.params && req.payload == call.payload
  }

  /** Every API request of the log was built from the call. */
  predicate SendsOnly(log: seq<Request>, call: Call) {
    forall i :: 0 <= i < |log| && log[i].ApiRequest? ==> Matches(log[i], call)
  }

  /** An attempt sends no API request but the call's own. */
  lemma AttemptSendsOnly(call: Call, st: State, server: Server)
    requires SessionValid(st)
    ensures var r := Attempt(call, st, server);
      Extends(st, r.state) && SendsOnly(SentSince(st, r.state), call)
  {
    var r := Attempt(call, st, server);
    AttemptSends(call, st, server);
    if call.requiresAuth {
      var e := EnsureAuth(st, server);
      EnsureAuthSends(st, server);
      NoApiRequests(SentSince(st, e.state));
      if e.result.Success? && AuthHeaders(e.state).Success? {
        assert SentSince(st, r.state) == SentSince(st, e.state) + [r.state.sent[|e.state.sent|]];
      }
    }
  }

  /** A log that counts no API request holds only connects. */
  lemma {:induction false} NoApiRequests(log: seq<Request>)
    requires ApiCount(log) == 0
    ensures forall i :: 0 <= i < |log| ==> log[i].ConnectRequest?
  {
    if log != [] {
      NoApiRequests(log[1..]);
      assert forall i :: 1 <= i < |log| ==> log[i] == log[1..][i - 1];
    }
  }

  /** Two logs that each send only the call's requests, one after the other. */
  lemma SendsOnlyAppend(a: seq<Request>, b: seq<Request>, call: Call)
    requires SendsOnly(a, call) && SendsOnly(b, call)
    ensures SendsOnly(a + b, call)
  {
    assert forall i :: |a| <= i < |a + b| ==> (a + b)[i] == b[i - |a|];
  }

  /**
   * An authenticated attempt that goes out carries the token held after
   * ensure_auth, unless the caller's own headers override it.
   */
  lemma AttemptCarriesToken(call: Call, st: State, server: Server)
    requires call.requiresAuth && "X-Moor-Auth-Token" !in call.headers
    ensures var r := Attempt(call, st, server);
      r.result.Success? ==>
        var last := r.state.sent[|r.state.sent| - 1];
        && Present(r.state.authToken)
        && "X-Moor-Auth-Token" in last.headers && last.headers["X-Moor-Auth-Token"] == r.state.authToken.value
  {
  }

  /** Appending one API request to a log that held none since `st`. */
  lemma SentAfter(st: State, mid: State, last: State)
    requires Extends(st, mid) && ApiCount(SentSince(st, mid)) == 0
    requires |last.sent| == |mid.sent| + 1 && last.sent[..|mid.sent|] == mid.sent && last.sent[|mid.sent|].ApiRequest?
    ensures Extends(st, last) && ApiCount(SentSince(st, last)) == 1
  {
    assert SentSince(st, last) == SentSince(st, mid) + [last.sent[|mid.sent|]];
    ApiCountAppend(SentSince(st, mid), [last.sent[|mid.sent|]]);
  }

  /** The retry condition of the loop, checked after the first attempt. */
  predicate ShouldRetry(call: Call, resp: Response, attempt: nat, st: State) {
    resp.status == 401 && call.requiresAuth && attempt == 0 && Present(st.defaultPlayer) && Present(st.defaultPassword)
  }

  /** The keys _ensure_no_moo_errors screens after "errors", in order. */
  const ErrorKeys := ["error", "error_msg", "error_message"]

  /** _ensure_no_moo_errors: a dict payload reporting errors in-band becomes an error with status 400. */
  function CheckMooErrors(payload: JsonValue, context: string): (r: Result<JsonValue, Error>)
    ensures !payload.JDict? ==> r == Success(payload)
    ensures r.Success? ==> r.value == payload
    ensures r.Failure? ==> StatusOf(r.error) == Some(400) && r.error.message == "mooR reported errors during " + context
    ensures payload.JDict? ==>
      var errors := Lookup(payload.entries, "errors");
      (r.Failure? <==>
        || (errors.JList? && errors.items != [])
        || exists k :: 0 <= k < |ErrorKeys| && Truthy(Lookup(payload.entries, ErrorKeys[k])))
    // a non-empty "errors" list is checked first and is the error's details
    ensures payload.JDict? && Lookup(payload.entries, "errors").JList? && Lookup(payload.entries, "errors").items != [] ==>
      r.Failure? && r.error.RestError? && r.error.details == Lookup(payload.entries, "errors")
    // otherwise the details are the value of the first truthy key among ErrorKeys
    ensures payload.JDict? && !(Lookup(payload.entries, "errors").JList? && Lookup(payload.entries, "errors").items != []) && r.Failure? ==>
      exists k :: 0 <= k < |ErrorKeys|
        && r.error == RestError("mooR reported errors during " + context, Some(400), Lookup(payload.entries, ErrorKeys[k]), None, None)
        && Truthy(Lookup(payload.entries, ErrorKeys[k]))
        && forall j :: 0 <= j < k ==> !Truthy(Lookup(payload.entries, ErrorKeys[j]))
  {
    if !payload.JDict? then Success(payload)
    else
      var message := "mooR reported errors during " + context;
      var errors := Lookup(payload.entries, "errors");
      if errors.JList? && errors.items != [] then Failure(RestError(message, Some(400), errors, None, None))
      else FirstErrorField(payload.entries, ErrorKeys, message, payload)
  }

  /** The loop over the error keys, in order: the first truthy one is reported. */
  function FirstErrorField(entries: seq<(string, JsonValue)>, keys: seq<string>, message: string, payload: JsonValue): (r: Result<JsonValue, Error>)
    ensures r.Success? <==> forall k :: 0 <= k < |keys| ==> !Truthy(Lookup(entries, keys[k]))
    ensures r.Success? ==> r.value == payload
    ensures r.Failure? ==> exists k :: 0 <= k < |keys| && r.error == RestError(message, Some(400), Lookup(entries, keys[k]), None, None)
                                 && Truthy(Lookup(entries, keys[k]))
                                 && forall j :: 0 <= j < k ==> !Truthy(Lookup(entries, keys[j]))
  {
    if keys == [] then Success(payload)
    else
      var value := Lookup(entries, keys[0]);
      if Truthy(value) then Failure(RestError(message, Some(400), value, None, None))
      else
        var r := FirstErrorField(entries, keys[1..], message, payload);
        assert forall k :: 1 <= k < |keys| ==> keys[k] == keys[1..][k - 1];
        r
  }

  /** What _request does with the final response, in the source's order of checks. */
  function Classify(call: Call, resp: Response, attempt: nat): (r: Result<JsonValue, Error>)
    // 1. a status the caller treats as absence wins over everything else
    ensures resp.status in call.noneStatuses ==> r == Success(JNull)
    // 2. an auth failure: expired when the request was already retried
    ensures resp.status !in call.noneStatuses && resp.status == 401 && call.requiresAuth ==>
      && r.Failure? && StatusOf(r.error) == Some(401) && r.error.details == Details(resp.body)
      && CodeOf(r.error) == Some(if attempt > 0 then TokenExpired else AuthenticationRequired)
      && r.error.resolution == Some(ReconnectHint)
    // 3. any other error status
    ensures resp.status !in call.noneStatuses && resp.status >= 400 && !(resp.status == 401 && call.requiresAuth) ==>
      r == Failure(RestError("mooR API request failed during " + call.context, Some(resp.status), Details(resp.body), None, None))
    // 4. an empty body
    ensures resp.status !in call.noneStatuses && resp.status < 400 && resp.body.Empty? ==>
      r == Success(if call.allowEmpty then JDict([]) else JNull)
    // 5. otherwise the decoded payload, screened for in-band errors
    ensures resp.status !in call.noneStatuses && resp.status < 400 && !resp.body.Empty? ==>
      r == CheckMooErrors(Details(resp.body), call.context)
  {
    if resp.status in call.noneStatuses then Success(JNull)
    else if resp.status >= 400 then
      var details := Details(resp.body);
      if resp.status == 401 && call.requiresAuth then
        Failure(RestError(UnauthorizedMessage, Some(resp.status), details,
                          Some(if attempt > 0 then TokenExpired else AuthenticationRequired), Some(ReconnectHint)))
      else
        Failure(RestError("mooR API request failed during " + call.context, Some(resp.status), details, None, None))
    else if resp.body.Empty? then Success(if call.allowEmpty then JDict([]) else JNull)
    else CheckMooErrors(Details(resp.body), call.context)
  }

  /** A TokenExpired error only ever comes from a 401 on a retried request. */
  lemma ClassifyTokenExpired(call: Call, resp: Response, attempt: nat)
    ensures var r := Classify(call, resp, attempt);
      r.Failure? && CodeOf(r.error) == Some(TokenExpired) <==>
        resp.status !in call.noneStatuses && resp.status == 401 && call.requiresAuth && attempt > 0
  {
  }

  /**
   * _request: the `while True` loop unrolled. The first attempt may be
   * followed by exactly one retry, after clearing the token so that the
   * retry reconnects with the stored defaults.
   */
  function Execute(call: Call, st: State, server: Server): (r: Step<JsonValue>)
  {
    var a0 := Attempt(call, st, server);
    if a0.result.Failure? then Step(Failure(a0.result.error), a0.state)
    else if ShouldRetry(call, a0.result.value, 0, a0.state) then
      var a1 := Attempt(call, a0.state.(authToken := None), server);
      if a1.result.Failure? then Step(Failure(a1.result.error), a1.state)
      else Step(Classify(call, a1.result.value, 1), a1.state)
    else Step(Classify(call, a0.result.value, 0), a0.state)
  }

  /** Whether the request was retried: the first attempt got a 401 that qualifies. */
  predicate Retried(call: Call, st: State, server: Server) {
    var a0 := Attempt(call, st, server);
    a0.result.Success? && ShouldRetry(call, a0.result.value, 0, a0.state)
  }

  /**
   * The retry bound: at most two API requests and at most two connects go
   * out, the log only grows, and a second API request is sent only after a
   * retry, which clears the token and so always reconnects first.
   */
  lemma RetryBound(call: Call, st: State, server: Server)
    requires SessionValid(st)
    ensures var r := Execute(call, st, server);
      && SessionValid(r.state)
      && Extends(st, r.state)
      && ApiCount(SentSince(st, r.state)) <= 2
      && ConnectCount(SentSince(st, r.state)) <= 2
      && (ApiCount(SentSince(st, r.state)) == 2 ==> Retried(call, st, server))
      && (Retried(call, st, server) ==> ConnectCount(SentSince(st, r.state)) >= 1)
  {
    if Retried(call, st, server) {
      RetryBoundRetried(call, st, server);
    } else {
      AttemptSends(call, st, server);
    }
  }

  /** The retried case of RetryBound: two attempts, the second one reconnecting. */
  /** A request keeps the session invariant. */
  lemma ExecuteKeepsSession(call: Call, st: State, server: Server)
    requires SessionValid(st)
    ensures SessionValid(Execute(call, st, server).state)
  {
    RetryBound(call, st, server);
  }

  lemma RetryBoundRetried(call: Call, st: State, server: Server)
    requires SessionValid(st) && Retried(call, st, server)
    ensures var r := Execute(call, st, server);
      && SessionValid(r.state)
      && Extends(st, r.state)
      && ApiCount(SentSince(st, r.state)) <= 2
      && 1 <= ConnectCount(SentSince(st, r.state)) <= 2
  {
    var a0 := Attempt(call, st, server);
    AttemptSends(call, st, server);
    var mid := a0.state.(authToken := None);
    var a1 := Attempt(call, mid, server);
    AttemptSends(call, mid, server);
    RetryReconnects(call, mid, server);
    Chain(st, a0.state, a1.state);
    assert SentSince(mid, a1.state)[0] == ConnectRequest(mid.defaultPlayer.value, mid.defaultPassword.value);
    ConnectCountPositive(SentSince(mid, a1.state));
  }

  /**
   * Whatever happens, _request sends no API request but the call's own, and
   * a successful result answers the last request sent, which is the call's.
   */
  lemma ExecuteSendsOnly(call: Call, st: State, server: Server)
    requires SessionValid(st)
    ensures var r := Execute(call, st, server);
      && Extends(st, r.state) && SendsOnly(SentSince(st, r.state), call)
      && (r.result.Success? ==> |r.state.sent| > |st.sent| && Matches(r.state.sent[|r.state.sent| - 1], call))
  {
    var a0 := Attempt(call, st, server);
    AttemptSends(call, st, server);
    AttemptSendsOnly(call, st, server);
    if Retried(call, st, server) {
      var mid := a0.state.(authToken := None);
      var a1 := Attempt(call, mid, server);
      AttemptSends(call, mid, server);
      AttemptSendsOnly(call, mid, server);
      Chain(st, a0.state, a1.state);
      SendsOnlyAppend(SentSince(st, a0.state), SentSince(mid, a1.state), call);
    }
  }

  /** A log that starts with a connect request counts at least one. */
  lemma ConnectCountPositive(log: seq<Request>)
    requires log != [] && log[0].ConnectRequest?
    ensures ConnectCount(log) >= 1
  {
  }

  /** The logs of two successive steps add up. */
  lemma Chain(st: State, mid: State, last: State)
    requires Extends(st, mid) && Extends(mid, last)
    ensures Extends(st, last)
    ensures SentSince(st, last) == SentSince(st, mid) + SentSince(mid, last)
    ensures ApiCount(SentSince(st, last)) == ApiCount(SentSince(st, mid)) + ApiCount(SentSince(mid, last))
    ensures ConnectCount(SentSince(st, last)) == ConnectCount(SentSince(st, mid)) + ConnectCount(SentSince(mid, last))
  {
    assert last.sent[..|st.sent|] == last.sent[..|mid.sent|][..|st.sent|];
    assert SentSince(st, last) == SentSince(st, mid) + SentSince(mid, last);
    ApiCountAppend(SentSince(st, mid), SentSince(mid, last));
  }

  /** With the token cleared and the defaults present, an attempt starts with a connect request. */
  lemma RetryReconnects(call: Call, mid: State, server: Server)
    requires mid.authToken.None? && Present(mid.defaultPlayer) && Present(mid.defaultPassword) && call.requiresAuth
    ensures var r := Attempt(call, mid, server);
      |r.state.sent| > |mid.sent| && r.state.sent[|mid.sent|] == ConnectRequest(mid.defaultPlayer.value, mid.defaultPassword.value)
  {
  }

  /**
   * In a valid session every 401 on the first authenticated attempt is
   * retried: the attempt only goes out with a token, and a token always
   * comes with stored defaults.
   */
  lemma FirstUnauthorizedIsRetried(call: Call, st: State, server: Server)
    requires SessionValid(st) && call.requiresAuth
    requires Attempt(call, st, server).result.Success? && Attempt(call, st, server).result.value.status == 401
    ensures Retried(call, st, server)
  {
    AttemptSends(call, st, server);
  }

  /** Two 401s in a row end the request with TokenExpired and nothing more is sent. */
  lemma TwiceUnauthorized(call: Call, st: State, server: Server)
    requires SessionValid(st) && call.requiresAuth && 401 !in call.noneStatuses
    requires Retried(call, st, server)
    requires var a0 := Attempt(call, st, server);
      var a1 := Attempt(call, a0.state.(authToken := None), server);
      a1.result.Success? && a1.result.value.status == 401
    ensures var r := Execute(call, st, server);
      r.result.Failure? && CodeOf(r.result.error) == Some(TokenExpired) && ApiCount(SentSince(st, r.state)) == 2
  {
    RetryBound(call, st, server);
    var a0 := Attempt(call, st, server);
    AttemptSends(call, st, server);
    var mid := a0.state.(authToken := None);
    AttemptSends(call, mid, server);
    Chain(st, a0.state, Attempt(call, mid, server).state);
  }

  /** A TokenExpired failure means the request was retried and both responses were 401. */
  lemma TokenExpiredMeansRetried(call: Call, st: State, server: Server)
    requires SessionValid(st)
    requires var r := Execute(call, st, server); r.result.Failure? && CodeOf(r.result.error) == Some(TokenExpired)
    ensures Retried(call, st, server)
    ensures StatusOf(Execute(call, st, server).result.error) == Some(401)
  {
    var a0 := Attempt(call, st, server);
    if !(a0.result.Success? && ShouldRetry(call, a0.result.value, 0, a0.state)) {
      if a0.result.Success? {
        ClassifyTokenExpired(call, a0.result.value, 0);
      } else {
        AttemptErrorCodes(call, st, server);
      }
    } else {
      var mid := a0.state.(authToken := None);
      var a1 := Attempt(call, mid, server);
      if a1.result.Failure? {
        AttemptErrorCodes(call, mid, server);
      }
    }
  }

  /** The errors an attempt itself raises never carry TokenExpired. */
  lemma AttemptErrorCodes(call: Call, st: State, server: Server)
    ensures var r := Attempt(call, st, server);
      r.result.Failure? ==> CodeOf(r.result.error) != Some(TokenExpired)
  {
  }

  /** A 401 followed by a success after the reconnect: the result is the retried response's, with the new token stored. */
  lemma RefreshedAfterUnauthorized(call: Call, st: State, server: Server)
    requires SessionValid(st)
    requires Retried(call, st, server)
    requires var a0 := Attempt(call, st, server);
      var a1 := Attempt(call, a0.state.(authToken := None), server);
      a1.result.Success? && a1.result.value.status < 400 && a1.result.value.status !in call.noneStatuses
    ensures var a0 := Attempt(call, st, server);
      var a1 := Attempt(call, a0.state.(authToken := None), server);
      var r := Execute(call, st, server);
      && r.state == a1.state
      && r.result == Classify(call, a1.result.value, 1)
      && Present(r.state.authToken)
      && r.state.authToken == EnsureAuth(a0.state.(authToken := None), server).state.authToken
  {
    var a0 := Attempt(call, st, server);
    AttemptSends(call, st, server);
    AttemptSends(call, a0.state.(authToken := None), server);
  }
}
