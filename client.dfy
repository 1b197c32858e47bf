/**
 * MoorRestClient as an object: the fields auth_token, default_player and
 * default_password that connect, _request and the disconnect tool update in
 * place, and the methods of the client, each proved to leave the client in
 * the state, and return the result, that the functional specification of
 * modules Executor and Operations prescribes.
 *
 * The HTTP session is the field `server`, a function of everything sent so
 * far; `sent` is that history.
 */
module Client {
  import opened Wrappers
  import opened PyStr
  import opened Json
  import opened Errors
  import opened Curie
  import opened Executor
  import opened Operations

  class MoorRestClient {
    var authToken: Option<string>
    var defaultPlayer: Option<string>
    var defaultPassword: Option<string>
    /** Every request sent so far, oldest first. */
    var sent: seq<Request>
    /** The server behind the HTTP session. */
    const server: Server

    /** The client's fields as a value of the specification. */
    function Snapshot(): State
      reads this
    {
      State(authToken, defaultPlayer, defaultPassword, sent)
    }

    /**
     * __init__: the defaults fall back to MOOR_PLAYER and MOOR_PASSWORD
     * (given here as `envPlayer` and `envPassword`); no token is held.
     */
    constructor(defaultPlayer: Option<string>, defaultPassword: Option<string>,
                envPlayer: Option<string>, envPassword: Option<string>, server: Server)
      ensures Snapshot() == State(None, PyOr(defaultPlayer, envPlayer), PyOr(defaultPassword, envPassword), [])
      ensures SessionValid(Snapshot())
      ensures this.server == server
    {
      this.defaultPlayer := PyOr(defaultPlayer, envPlayer);
      this.defaultPassword := PyOr(defaultPassword, envPassword);
      this.server := server;
      this.authToken := None;
      this.sent := [];
    }

    /** One HTTP exchange: the request joins the history and the server answers it. */
    method Send(req: Request) returns (resp: Response)
      modifies this
      ensures sent == old(sent) + [req] && resp == server(sent)
      ensures authToken == old(authToken) && defaultPlayer == old(defaultPlayer) && defaultPassword == old(defaultPassword)
    {
      sent := sent + [req];
      resp := server(sent);
    }

    /** connect: authenticate, store the trimmed token, and remember the credentials used. */
    method Connect(player: Option<string>, password: Option<string>) returns (r: Result<string, Error>)
      modifies this
      ensures Step(r, Snapshot()) == Executor.Connect(old(Snapshot()), player, password, server)
      ensures old(SessionValid(Snapshot())) ==> SessionValid(Snapshot())
    {
      ghost var st := Snapshot();
      if SessionValid(st) {
        ConnectKeepsSession(st, player, password, server);
      }
      var name := PyOr(player, defaultPlayer);
      var pw := PyOr(password, defaultPassword);
      if !Present(name) || !Present(pw) {
        return Failure(RestError(MissingCredentials, None, JNull, Some(AuthenticationRequired), Some(ReconnectHint)));
      }
      var resp := Send(ConnectRequest(name.value, pw.value));
      var details := Details(resp.body);
      if resp.status == 401 {
        return Failure(RestError(InvalidCredentialsMessage, Some(resp.status), details, Some(InvalidCredentials), Some(VerifyCredentialsHint)));
      }
      if resp.status >= 400 {
        return Failure(RestError(AuthFailedMessage, Some(resp.status), details, Some(AuthFailed), None));
      }
      var token := resp.authToken;
      if !Present(token) {
        return Failure(RestError(NoTokenMessage, None, JNull, Some(AuthProtocolError), None));
      }
      authToken := Some(Strip(token.value));
      defaultPlayer := name;
      defaultPassword := pw;
      return Success(authToken.value);
    }

    /** ensure_auth: connect with the defaults unless a token is held. */
    method EnsureAuth() returns (r: Result<(), Error>)
      modifies this
      ensures Step(r, Snapshot()) == Executor.EnsureAuth(old(Snapshot()), server)
    {
      if Present(authToken) {
        return Success(());
      }
      var c := Connect(None, None);
      r := if c.Success? then Success(()) else Failure(c.error);
    }

    /** _headers: the token and Accept headers, or an error without a token. */
    method Headers() returns (r: Result<map<string, string>, Error>)
      ensures r == AuthHeaders(Snapshot())
      ensures r.Success? <==> Present(authToken)
    {
      if !Present(authToken) {
        return Failure(Plain(NotAuthenticated));
      }
      return Success(map["X-Moor-Auth-Token" := authToken.value, "Accept" := "application/json"]);
    }

    /** One pass of the body of _request's loop. */
    method AttemptOnce(call: Call) returns (r: Result<Response, Error>)
      modifies this
      ensures Step(r, Snapshot()) == Attempt(call, old(Snapshot()), server)
    {
      var headers: map<string, string> := map[];
      if call.requiresAuth {
        var e := EnsureAuth();
        if e.Failure? {
          return Failure(e.error);
        }
        var auth := Headers();
        if auth.Failure? {
          return Failure(auth.error);
        }
        headers := headers + auth.value;
        assert headers == auth.value;
      }
      if call.headers != map[] {
        headers := headers + call.headers;
      }
      assert headers == (if call.requiresAuth then AuthHeaders(Snapshot()).value + call.headers else call.headers);
      var resp := Send(ApiRequest(call.verb, call.path, call.params, call.payload, headers));
      return Success(resp);
    }

    /**
     * _request: attempt, and after a first 401 on an authenticated call with
     * both defaults present, clear the token and attempt once more; then
     * classify the last response.
     */
    method Request(call: Call) returns (r: Result<JsonValue, Error>)
      modifies this
      ensures Step(r, Snapshot()) == Execute(call, old(Snapshot()), server)
      ensures old(SessionValid(Snapshot())) ==> SessionValid(Snapshot())
    {
      ghost var st0 := Snapshot();
      if SessionValid(st0) {
        RetryBound(call, st0, server);
      }
      var attempt := 0;
      var resp := Response(0, None, Empty);
      while true
        invariant attempt == 0 || attempt == 1
        invariant attempt == 0 ==> Snapshot() == st0
        invariant attempt == 1 ==> Retried(call, st0, server) && Snapshot() == Attempt(call, st0, server).state.(authToken := None)
        decreases 1 - attempt
      {
        var a := AttemptOnce(call);
        if a.Failure? {
          return Failure(a.error);
        }
        resp := a.value;
        if resp.status == 401 && call.requiresAuth && attempt == 0 && Present(defaultPlayer) && Present(defaultPassword) {
          attempt := attempt + 1;
          authToken := None;
          continue;
        }
        break;
      }
      r := Classify(call, resp, attempt);
    }

    /** Runs a built call, or raises the builder's error without sending anything. */
    method RunBuilt(built: Result<Call, Error>) returns (r: Result<JsonValue, Error>)
      modifies this
      ensures Step(r, Snapshot()) == Run(built, old(Snapshot()), server)
    {
      if built.Failure? {
        return Failure(built.error);
      }
      r := Request(built.value);
    }

    // -------------------------------------------------------------------
    // The public operations
    // -------------------------------------------------------------------

    /** eval_expr. */
    method EvalExpr(expression: string) returns (r: Result<JsonValue, Error>)
      modifies this
      ensures Step(r, Snapshot()) == Run(EvalExprCall(expression), old(Snapshot()), server)
    {
      r := RunBuilt(EvalExprCall(expression));
    }

    /** create_object: the program's lines are collected by the loop of BuildCreateLines. */
    method CreateObject(parentCurie: string, ownerCurie: string, properties: seq<(string, JsonValue)>) returns (r: Result<JsonValue, Error>)
      modifies this
      ensures Step(r, Snapshot()) == Run(CreateObjectCall(parentCurie, ownerCurie, properties), old(Snapshot()), server)
    {
      var parentExpr := CurieToMooExpr(parentCurie);
      if parentExpr.Failure? {
        return Failure(parentExpr.error);
      }
      var ownerExpr := CurieToMooExpr(ownerCurie);
      if ownerExpr.Failure? {
        return Failure(ownerExpr.error);
      }
      var lines := BuildCreateLines(parentExpr.value, ownerExpr.value, properties);
      r := Request(EvalPost("create_object", Join("\n", lines)));
    }

    /** set_property. */
    method SetProperty(objectCurie: string, propName: string, value: JsonValue) returns (r: Result<JsonValue, Error>)
      modifies this
      ensures Step(r, Snapshot()) == Run(SetPropertyCall(objectCurie, propName, value), old(Snapshot()), server)
    {
      r := RunBuilt(SetPropertyCall(objectCurie, propName, value));
    }

    /** list_properties. */
    method ListProperties(objectCurie: string, inherited: bool) returns (r: Result<JsonValue, Error>)
      modifies this
      ensures Step(r, Snapshot()) == Execute(ListPropertiesCall(objectCurie, inherited), old(Snapshot()), server)
    {
      r := Request(ListPropertiesCall(objectCurie, inherited));
    }

    /** get_property. */
    method GetProperty(objectCurie: string, propName: string) returns (r: Result<JsonValue, Error>)
      modifies this
      ensures Step(r, Snapshot()) == Execute(GetPropertyCall(objectCurie, propName), old(Snapshot()), server)
    {
      r := Request(GetPropertyCall(objectCurie, propName));
    }

    /** list_verbs. */
    method ListVerbs(objectCurie: string, inherited: bool) returns (r: Result<JsonValue, Error>)
      modifies this
      ensures Step(r, Snapshot()) == Execute(ListVerbsCall(objectCurie, inherited), old(Snapshot()), server)
    {
      r := Request(ListVerbsCall(objectCurie, inherited));
    }

    /** get_verb. */
    method GetVerb(objectCurie: string, verbName: string) returns (r: Result<JsonValue, Error>)
      modifies this
      ensures Step(r, Snapshot()) == Execute(GetVerbCall(objectCurie, verbName), old(Snapshot()), server)
    {
      r := Request(GetVerbCall(objectCurie, verbName));
    }

    /** ensure_verb. */
    method EnsureVerb(objectCurie: string, verbName: string, ownerExpr: string, perms: string, args: Option<seq<string>>)
      returns (r: Result<(), Error>)
      modifies this
      ensures Step(r, Snapshot()) == Operations.EnsureVerb(old(Snapshot()), objectCurie, verbName, ownerExpr, perms, args, server)
    {
      var existing := GetVerb(objectCurie, verbName);
      if existing.Success? && existing.value.JDict? {
        return Success(());
      }
      if existing.Failure? && StatusOf(existing.error) !in {Some(404), Some(500)} {
        return Failure(existing.error);
      }
      var call := EnsureVerbCall(objectCurie, verbName, ownerExpr, perms, args);
      if call.Failure? {
        return Failure(call.error);
      }
      var created := Request(call.value);
      r := if created.Success? then Success(()) else Failure(created.error);
    }

    /** program_verb. */
    method ProgramVerb(objectCurie: string, verbName: string, code: string) returns (r: Result<JsonValue, Error>)
      modifies this
      ensures Step(r, Snapshot()) == Execute(ProgramVerbCall(objectCurie, verbName, code), old(Snapshot()), server)
    {
      r := Request(ProgramVerbCall(objectCurie, verbName, code));
    }

    /** invoke_verb. */
    method InvokeVerb(objectCurie: string, verbName: string, args: Option<seq<JsonValue>>) returns (r: Result<JsonValue, Error>)
      modifies this
      ensures Step(r, Snapshot()) == Execute(InvokeVerbCall(objectCurie, verbName, args), old(Snapshot()), server)
    {
      r := Request(InvokeVerbCall(objectCurie, verbName, args));
    }

    /** resolve_object. */
    method ResolveObject(objectCurie: string) returns (r: Result<Option<string>, Error>)
      modifies this
      ensures Step(r, Snapshot()) == Operations.ResolveObject(old(Snapshot()), objectCurie, server)
    {
      var result := Request(ResolveObjectCall(objectCurie));
      if result.Failure? {
        return Failure(result.error);
      }
      return Success(ResolveField(result.value));
    }

    /** get_history. */
    method GetHistory(sinceSeconds: Option<int>, limit: Option<int>) returns (r: Result<JsonValue, Error>)
      modifies this
      ensures Step(r, Snapshot()) == Execute(GetHistoryCall(sinceSeconds, limit), old(Snapshot()), server)
    {
      r := Request(GetHistoryCall(sinceSeconds, limit));
    }

    /** list_presentations. */
    method ListPresentations() returns (r: Result<JsonValue, Error>)
      modifies this
      ensures Step(r, Snapshot()) == Execute(ListPresentationsCall(), old(Snapshot()), server)
    {
      r := Request(ListPresentationsCall());
    }

    /** dismiss_presentation. */
    method DismissPresentation(presentationId: string) returns (r: Result<JsonValue, Error>)
      modifies this
      ensures Step(r, Snapshot()) == Execute(DismissPresentationCall(presentationId), old(Snapshot()), server)
    {
      r := Request(DismissPresentationCall(presentationId));
    }

    /** move_object. */
    method MoveObject(objectCurie: string, destinationCurie: string) returns (r: Result<JsonValue, Error>)
      modifies this
      ensures Step(r, Snapshot()) == Run(MoveObjectCall(objectCurie, destinationCurie), old(Snapshot()), server)
    {
      r := RunBuilt(MoveObjectCall(objectCurie, destinationCurie));
    }

    /** recycle_object. */
    method RecycleObject(objectCurie: string) returns (r: Result<JsonValue, Error>)
      modifies this
      ensures Step(r, Snapshot()) == Run(RecycleObjectCall(objectCurie), old(Snapshot()), server)
    {
      r := RunBuilt(RecycleObjectCall(objectCurie));
    }
  }
}
