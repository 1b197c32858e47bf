/**
 * The tool functions of the MCP server that do more than forward to the
 * client: moor_connect_auth, moor_disconnect_auth, moor_resolve_object and
 * moor_list_sysobjs (the program it sends and the fold of the reply into a
 * name -> CURIE map).
 */
module Tools {
  import opened Wrappers
  import opened PyStr
  import opened Json
  import opened Errors
  import opened Literal
  import opened Executor
  import opened Operations
  import opened PropUtils
  import opened Client

  const ObjectNotResolved := "object could not be resolved"

  /** moor_connect_auth: connect with the given credentials and echo the player. */
  method ConnectAuth(client: MoorRestClient, player: string, password: string) returns (r: Result<JsonValue, Error>)
    modifies client
    ensures var c := Executor.Connect(old(client.Snapshot()), Some(player), Some(password), client.server);
      && client.Snapshot() == c.state
      && (c.result.Failure? ==> r == Failure(c.result.error))
      && (c.result.Success? ==> r == Success(JDict([("ok", JBool(true)), ("player", JStr(player))])))
  {
    var c := client.Connect(Some(player), Some(password));
    if c.Failure? {
      return Failure(c.error);
    }
    return Success(JDict([("ok", JBool(true)), ("player", JStr(player))]));
  }

  /** moor_disconnect_auth: drop the token, and the stored credentials too when asked. */
  method DisconnectAuth(client: MoorRestClient, clearDefaults: bool) returns (reply: JsonValue)
    modifies client
    ensures client.authToken.None?
    ensures clearDefaults ==> client.defaultPlayer.None? && client.defaultPassword.None?
    ensures !clearDefaults ==> client.defaultPlayer == old(client.defaultPlayer) && client.defaultPassword == old(client.defaultPassword)
    ensures client.sent == old(client.sent)
    ensures SessionValid(client.Snapshot())
    ensures reply == JDict([("ok", JBool(true))])
  {
    client.authToken := None;
    if clearDefaults {
      client.defaultPlayer := None;
      client.defaultPassword := None;
    }
    reply := JDict([("ok", JBool(true))]);
  }

  /** After a disconnect the next authenticated request must reconnect (or fail for want of credentials). */
  lemma DisconnectForcesReconnect(st: State, call: Call, server: Server)
    requires st.authToken.None? && call.requiresAuth
    ensures var a := Attempt(call, st, server);
      && (Present(st.defaultPlayer) && Present(st.defaultPassword) ==>
            |a.state.sent| > |st.sent| && a.state.sent[|st.sent|] == ConnectRequest(st.defaultPlayer.value, st.defaultPassword.value))
      && (!Present(st.defaultPlayer) || !Present(st.defaultPassword) ==>
            a.state == st && a.result.Failure? && CodeOf(a.result.error) == Some(AuthenticationRequired))
  {
    if Present(st.defaultPlayer) && Present(st.defaultPassword) {
      RetryReconnects(call, st, server);
    }
  }

  /** moor_resolve_object: a reference that does not resolve to a string is a 404 error. */
  method ResolveObjectTool(client: MoorRestClient, objectCurie: string) returns (r: Result<string, Error>)
    modifies client
    ensures var x := Operations.ResolveObject(old(client.Snapshot()), objectCurie, client.server);
      && client.Snapshot() == x.state
      && (x.result.Failure? ==> r == Failure(x.result.error))
      && (x.result.Success? && x.result.value.Some? ==> r == Success(x.result.value.value))
      && (x.result.Success? && x.result.value.None? ==> r == Failure(RestError(ObjectNotResolved, Some(404), JNull, None, None)))
  {
    var curie := client.ResolveObject(objectCurie);
    if curie.Failure? {
      return Failure(curie.error);
    }
    if curie.value.None? {
      return Failure(RestError(ObjectNotResolved, Some(404), JNull, None, None));
    }
    return Success(curie.value.value);
  }

  // ---------------------------------------------------------------------
  // moor_list_sysobjs: the program
  // ---------------------------------------------------------------------

  /** `if names:` — a list was given and it is not empty. */
  predicate NamesGiven(names: Option<seq<string>>) {
    names.Some? && names.value != []
  }

  /** The names as a JSON list of strings. */
  function NamesValue(names: seq<string>): (v: JsonValue)
    ensures v.JList? && |v.items| == |names|
  {
    JList(seq(|names|, i requires 0 <= i < |names| => JStr(names[i])))
  }

  /** The first line of the program: the given names, or every property of #0. */
  function NamesStatement(names: Option<seq<string>>): string {
    if NamesGiven(names) then "names = " + Encode(NamesValue(names.value)) + ";" else "names = properties(#0);"
  }

  /** The flag that keeps names whose value is not an object (as `{n, 0}`). */
  function IncludeAllFlag(names: Option<seq<string>>): string {
    if NamesGiven(names) then "1" else "0"
  }

  /** The lines of the program. */
  function SysobjLines(names: Option<seq<string>>): seq<string> {
    [ NamesStatement(names),
      "out = {};",
      "for n in (names)",
      "  try",
      "    v = #0.(n);",
      "  except error (ANY)",
      "    v = 0;",
      "  endtry;",
      "  if (typeof(v) == OBJ)",
      "    out = {@out, {n, v}};",
      "  elseif (" + IncludeAllFlag(names) + ")",
      "    out = {@out, {n, 0}};",
      "  endif;",
      "endfor;",
      "return out;" ]
  }

  /** The program, its lines joined by newlines. */
  function SysobjProgram(names: Option<seq<string>>): string {
    Join("\n", SysobjLines(names))
  }

  /** The server-side list of the names' strings. */
  function NamesMoo(names: seq<string>): MooValue {
    MList(seq(|names|, i requires 0 <= i < |names| => MStr(names[i])))
  }

  /** The literal of the names reads back as the list of their strings. */
  lemma NamesDenote(names: seq<string>)
    ensures ReadValue(Encode(NamesValue(names))) == Some((NamesMoo(names), []))
  {
    var v := NamesValue(names);
    LiteralDenotes(v);
    assert ToMoo(v).elems == NamesMoo(names).elems;
  }

  /**
   * With names given, the program starts by assigning a list literal that the
   * server reads as exactly those strings, and keeps every name (flag 1);
   * without, it reads the names from #0 and keeps only objects (flag 0).
   */
  lemma SysobjLinesMeaning(names: Option<seq<string>>)
    ensures var lines := SysobjLines(names);
      && |lines| == 15
      && (NamesGiven(names) ==>
            && (exists lit :: lines[0] == "names = " + lit + ";" && ReadValue(lit) == Some((NamesMoo(names.value), [])))
            && lines[10] == "  elseif (1)")
      && (!NamesGiven(names) ==> lines[0] == "names = properties(#0);" && lines[10] == "  elseif (0)")
  {
    if NamesGiven(names) {
      NamesDenote(names.value);
    }
  }

  /** A program of several lines with no blanks at either end is sent by eval_expr as it is. */
  lemma MultiLineVerbatim(lines: seq<string>)
    requires |lines| >= 2
    requires lines[0] != [] && !IsSpace(lines[0][0])
    requires lines[|lines| - 1] != [] && !IsSpace(lines[|lines| - 1][|lines[|lines| - 1]| - 1])
    ensures NormalizeEval(Join("\n", lines)) == Success(Join("\n", lines))
  {
    var p := Join("\n", lines);
    var last := lines[|lines| - 1];
    assert p[0] == lines[0][0];
    assert p[|p| - 1] == p[|p| - |last|..][|last| - 1] == last[|last| - 1];
    StripTrimmed(p);
    assert p == lines[0] + "\n" + Join("\n", lines[1..]);
    assert p[|lines[0]|] == '\n';
  }

  /** The program reaches the server verbatim: it spans several lines and has no surrounding blanks. */
  lemma SysobjProgramVerbatim(names: Option<seq<string>>)
    ensures NormalizeEval(SysobjProgram(names)) == Success(SysobjProgram(names))
  {
    var lines := SysobjLines(names);
    assert lines[0][0] == 'n';
    assert lines[14] == "return out;";
    MultiLineVerbatim(lines);
  }

  // ---------------------------------------------------------------------
  // moor_list_sysobjs: the reply
  // ---------------------------------------------------------------------

  /** An item of the reply that names an entry: a two-element list whose head is a string. */
  predicate Qualifies(item: JsonValue) {
    item.JList? && |item.items| == 2 && item.items[0].JStr?
  }

  /** The CURIE stored for an entry: extract_obj_curie of its value if truthy, else None. */
  function CurieOrNone(value: JsonValue): (r: Option<string>)
    ensures r.Some? ==> r.value != [] && ExtractObjCurie(value) == r
    ensures r.None? <==> ExtractObjCurie(value).None? || ExtractObjCurie(value).value == []
  {
    var curie := ExtractObjCurie(value);
    if curie.Some? && curie.value != [] then curie else None
  }

  /** The map built from the items, in order: each qualifying item writes its name's entry. */
  function SysobjEntries(items: seq<JsonValue>): map<string, Option<string>>
    decreases |items|
  {
    if items == [] then map[]
    else
      var m := SysobjEntries(items[..|items| - 1]);
      var item := items[|items| - 1];
      if Qualifies(item) then m[item.items[0].s := CurieOrNone(item.items[1])] else m
  }

  /** The reply of moor_list_sysobjs for an eval payload: a non-list gives the empty map. */
  function SysobjMap(payload: JsonValue): map<string, Option<string>> {
    if payload.JList? then SysobjEntries(payload.items) else map[]
  }

  /** The loop of moor_list_sysobjs over the reply's items. */
  method PairsToMap(payload: JsonValue) returns (result: map<string, Option<string>>)
    ensures result == SysobjMap(payload)
  {
    result := map[];
    if payload.JList? {
      var items := payload.items;
      var k := 0;
      while k < |items|
        invariant k <= |items|
        invariant result == SysobjEntries(items[..k])
      {
        var item := items[k];
        assert items[..k + 1][..k] == items[..k];
        if item.JList? && |item.items| == 2 && item.items[0].JStr? {
          var name := item.items[0].s;
          var value := item.items[1];
          var curie := ExtractObjCurie(value);
          result := result[name := if curie.Some? && curie.value != [] then curie else None];
        }
        k := k + 1;
      }
      assert items[..k] == items;
    }
  }

  /** The name an item contributes. */
  function KeyOf(item: JsonValue): string
    requires Qualifies(item)
  {
    item.items[0].s
  }

  /** The keys of the map are exactly the names of the qualifying items. */
  lemma {:induction false} SysobjKeys(items: seq<JsonValue>, name: string)
    ensures name in SysobjEntries(items) <==> exists i :: 0 <= i < |items| && Qualifies(items[i]) && KeyOf(items[i]) == name
    decreases |items|
  {
    if items != [] {
      var init := items[..|items| - 1];
      SysobjKeys(init, name);
      assert forall i :: 0 <= i < |init| ==> init[i] == items[i];
    }
  }

  /**
   * A later item with the same name overwrites an earlier one: the entry of
   * a name comes from the last qualifying item that carries it.
   */
  lemma {:induction false} SysobjLastWins(items: seq<JsonValue>, i: nat)
    requires i < |items| && Qualifies(items[i])
    requires forall j :: i < j < |items| && Qualifies(items[j]) ==> KeyOf(items[j]) != KeyOf(items[i])
    ensures KeyOf(items[i]) in SysobjEntries(items)
    ensures SysobjEntries(items)[KeyOf(items[i])] == CurieOrNone(items[i].items[1])
    decreases |items|
  {
    if i < |items| - 1 {
      var init := items[..|items| - 1];
      assert init[i] == items[i];
      assert forall j :: i < j < |init| ==> init[j] == items[j];
      SysobjLastWins(init, i);
    }
  }

  /** Every stored CURIE is a non-empty string that extract_obj_curie found in the item's value. */
  lemma {:induction false} SysobjValues(items: seq<JsonValue>, name: string)
    requires name in SysobjEntries(items) && SysobjEntries(items)[name].Some?
    ensures SysobjEntries(items)[name].value != []
    ensures exists i :: 0 <= i < |items| && Qualifies(items[i]) && KeyOf(items[i]) == name
                        && ExtractObjCurie(items[i].items[1]) == SysobjEntries(items)[name]
    decreases |items|
  {
    var init := items[..|items| - 1];
    var item := items[|items| - 1];
    if !(Qualifies(item) && KeyOf(item) == name) {
      SysobjValues(init, name);
      assert forall i :: 0 <= i < |init| ==> init[i] == items[i];
    }
  }

  /** moor_list_sysobjs: send the program through eval_expr and fold the reply. */
  method ListSysobjs(client: MoorRestClient, names: Option<seq<string>>) returns (r: Result<map<string, Option<string>>, Error>)
    modifies client
    ensures var x := Run(EvalExprCall(SysobjProgram(names)), old(client.Snapshot()), client.server);
      && client.Snapshot() == x.state
      && (x.result.Failure? ==> r == Failure(x.result.error))
      && (x.result.Success? ==> r == Success(SysobjMap(x.result.value)))
  {
    var program := SysobjProgram(names);
    var payload := client.EvalExpr(program);
    if payload.Failure? {
      return Failure(payload.error);
    }
    var result := PairsToMap(payload.value);
    return Success(result);
  }
}
