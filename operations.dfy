/**
 * The public operations of MoorRestClient: each one is a pure builder of the
 * _request call (its method, path, parameters and body, and above all the MOO
 * program text sent to /eval), and the composite ones (ensure_verb,
 * resolve_object) chain requests and post-process the result.
 */
module Operations {
  import opened Wrappers
  import opened PyStr
  import opened Json
  import opened Errors
  import opened Literal
  import opened Curie
  import opened Executor

  /** The header every text body is sent with. */
  const TextPlain := map["Content-Type" := "text/plain; charset=utf-8"]

  const EmptyExpression := "expression must not be empty"

  /** A MOO program POSTed to /eval as UTF-8 text, under the given context. */
  function EvalPost(context: string, program: string): (c: Call)
    ensures c.verb == "POST" && c.path == "/eval" && c.payload == TextPayload(program)
    ensures c.requiresAuth && c.noneStatuses == {} && !c.allowEmpty
  {
    Call("POST", "/eval", context, [], TextPayload(program), TextPlain, true, {}, false)
  }

  /** A builder that failed raises before anything is sent; otherwise the call is executed. */
  function Run(built: Result<Call, Error>, st: State, server: Server): (r: Step<JsonValue>)
    ensures built.Failure? ==> r == Step(Failure(built.error), st)
  {
    match built
    case Failure(e) => Step(Failure(e), st)
    case Success(call) => Execute(call, st, server)
  }

  // ---------------------------------------------------------------------
  // eval_expr
  // ---------------------------------------------------------------------

  /**
   * The normalisation of eval_expr. A blank expression is an error. A
   * multi-line program is sent stripped and otherwise as it is. A single line
   * gets `return ` in front unless it already has the word `return` or starts
   * with `return`, and a `;` at the end unless it has one. (The source strips
   * trailing whitespace again before the `;` test; the line is already
   * stripped and the prefix leaves its end alone, so that changes nothing.)
   */
  function NormalizeEval(expression: string): (r: Result<string, Error>)
    ensures r.Failure? <==> Strip(expression) == []
    ensures r.Failure? ==> r.error == Plain(EmptyExpression)
    ensures r.Success? ==> Trimmed(r.value)
    ensures r.Success? && '\n' in Strip(expression) ==> r.value == Strip(expression)
  {
    var expr := Strip(expression);
    if expr == [] then Failure(Plain(EmptyExpression))
    else if '\n' in expr then Success(expr)
    else
      var prefixed := if !ContainsWord(expr, "return") && !StartsWith(expr, "return") then "return " + expr else expr;
      Success(if EndsWith(prefixed, ";") then prefixed else prefixed + ";")
  }

  /** `return` at the head of a text followed by a space is the word `return`. */
  lemma ReturnWord(x: string)
    ensures ContainsWord("return " + x, "return")
  {
    var s := "return " + x;
    assert s[..6] == "return" && s[6] == ' ';
    assert WordAt(s, "return", 0);
  }

  /** Appending a non-word character keeps a word and a prefix. */
  lemma AppendKeepsWord(s: string, w: string, c: char)
    requires !IsWordChar(c)
    ensures ContainsWord(s, w) ==> ContainsWord(s + [c], w)
    ensures StartsWith(s, w) ==> StartsWith(s + [c], w)
  {
    if ContainsWord(s, w) {
      var i: nat :| i <= |s| && WordAt(s, w, i);
      assert (s + [c])[i..i + |w|] == s[i..i + |w|];
      assert WordAt(s + [c], w, i);
    }
    if StartsWith(s, w) {
      assert (s + [c])[..|w|] == s[..|w|];
    }
  }

  /**
   * A single-line expression comes back as one of four shapes: itself, with
   * `return ` in front, with `;` behind, or both. `return ` is added only when
   * the word is missing and `;` only when it is missing, and the result
   * always ends with `;` and mentions `return`.
   */
  lemma {:induction false} NormalizeSingleLine(expression: string)
    requires Strip(expression) != [] && '\n' !in Strip(expression)
    ensures var expr := Strip(expression);
      var r := NormalizeEval(expression).value;
      && (r == expr || r == expr + ";" || r == "return " + expr || r == "return " + expr + ";")
      && EndsWith(r, ";")
      && (ContainsWord(r, "return") || StartsWith(r, "return"))
      && (ContainsWord(expr, "return") || StartsWith(expr, "return") ==> r == expr || r == expr + ";")
      && (EndsWith(expr, ";") ==> r == expr || r == "return " + expr)
  {
    var expr := Strip(expression);
    var prefixed := if !ContainsWord(expr, "return") && !StartsWith(expr, "return") then "return " + expr else expr;
    if prefixed != expr {
      ReturnWord(expr);
      assert prefixed[|prefixed| - 1] == expr[|expr| - 1];
      assert EndsWith(expr, ";") ==> EndsWith(prefixed, ";");
    }
    assert ContainsWord(prefixed, "return") || StartsWith(prefixed, "return");
    if !EndsWith(prefixed, ";") {
      AppendKeepsWord(prefixed, "return", ';');
      assert prefixed + ";" == prefixed + [';'];
    }
  }

  /** Normalising twice is normalising once: the server sees the same program. */
  lemma NormalizeIdempotent(expression: string)
    requires NormalizeEval(expression).Success?
    ensures NormalizeEval(NormalizeEval(expression).value) == NormalizeEval(expression)
  {
    var expr := Strip(expression);
    var r := NormalizeEval(expression).value;
    StripTrimmed(r);
    if '\n' !in expr {
      NormalizeSingleLine(expression);
      assert '\n' !in r by {
        assert r == expr || r == expr + ";" || r == "return " + expr || r == "return " + expr + ";";
      }
    }
  }

  /**
   * An identifier that merely starts with `return` (`returned`,
   * `return_value`, `returnValue`) is not the word `return`, yet the
   * startswith test keeps the prefix off: the line is sent with only `;`
   * added, without a return statement.
   */
  lemma ReturnPrefixedIdentifier(tail: string)
    requires tail != [] && forall i :: 0 <= i < |tail| ==> IsWordChar(tail[i])
    ensures NormalizeEval("return" + tail) == Success("return" + tail + ";")
  {
    var s := "return" + tail;
    assert forall i :: 0 <= i < |s| ==> IsWordChar(s[i]) by {
      forall i | 0 <= i < |s|
        ensures IsWordChar(s[i])
      {
        if i >= 6 {
          assert s[i] == tail[i - 6];
        }
      }
    }
    assert Strip(s) == s by {
      StripTrimmed(s);
    }
    forall i: nat | i <= |s|
      ensures !WordAt(s, "return", i)
    {
      if i == 0 {
        assert IsWordChar(s[6]);
      } else {
        assert IsWordChar(s[i - 1]);
      }
    }
    assert '\n' !in s;
    assert StartsWith(s, "return") by {
      assert s[..6] == "return";
    }
    assert !EndsWith(s, ";") by {
      assert IsWordChar(s[|s| - 1]);
    }
    assert !ContainsWord(s, "return");
  }

  /** eval_expr's call: the normalised program POSTed to /eval. */
  function EvalExprCall(expression: string): (r: Result<Call, Error>)
    ensures r.Failure? <==> Strip(expression) == []
    ensures r.Success? ==> r.value == EvalPost("eval_expr", NormalizeEval(expression).value)
  {
    match NormalizeEval(expression)
    case Failure(e) => Failure(e)
    case Success(program) => Success(EvalPost("eval_expr", program))
  }

  // ---------------------------------------------------------------------
  // create_object
  // ---------------------------------------------------------------------

  /** The first line of the creation program. */
  function CreateHeader(parentExpr: string, ownerExpr: string): string {
    "obj = create(" + parentExpr + ", " + ownerExpr + ");"
  }

  /** The line that sets one property of the new object. */
  function PropertyLine(name: string, value: JsonValue): string {
    "obj." + name + " = " + Encode(value) + ";"
  }

  /** The property lines, one per entry, in insertion order. */
  function PropertyLines(properties: seq<(string, JsonValue)>): (r: seq<string>)
    ensures |r| == |properties|
  {
    seq(|properties|, i requires 0 <= i < |properties| => PropertyLine(properties[i].0, properties[i].1))
  }

  /** The lines of the creation program: create, set each property, return the object. */
  function CreateLines(parentExpr: string, ownerExpr: string, properties: seq<(string, JsonValue)>): seq<string> {
    [CreateHeader(parentExpr, ownerExpr)] + PropertyLines(properties) + ["return obj;"]
  }

  /** The loop of create_object that appends the lines one by one. */
  method BuildCreateLines(parentExpr: string, ownerExpr: string, properties: seq<(string, JsonValue)>) returns (lines: seq<string>)
    ensures lines == CreateLines(parentExpr, ownerExpr, properties)
  {
    lines := [CreateHeader(parentExpr, ownerExpr)];
    var k := 0;
    while k < |properties|
      invariant k <= |properties|
      invariant lines == [CreateHeader(parentExpr, ownerExpr)] + PropertyLines(properties)[..k]
    {
      lines := lines + [PropertyLine(properties[k].0, properties[k].1)];
      k := k + 1;
    }
    assert PropertyLines(properties)[..k] == PropertyLines(properties);
    lines := lines + ["return obj;"];
  }

  /** A line `obj.<name> = <lit>;` whose literal the server reads as exactly the value. */
  ghost predicate SetsProperty(line: string, name: string, value: JsonValue) {
    exists lit :: line == "obj." + name + " = " + lit + ";" && ReadValue(lit) == Some((ToMoo(value), []))
  }

  /**
   * What the creation program says: it creates the object first and returns
   * it last, and in between sets each property, in order, to a literal that
   * the server reads back as exactly that property's value.
   */
  lemma CreateLinesMeaning(parentExpr: string, ownerExpr: string, properties: seq<(string, JsonValue)>)
    ensures var lines := CreateLines(parentExpr, ownerExpr, properties);
      && |lines| == |properties| + 2
      && lines[0] == "obj = create(" + parentExpr + ", " + ownerExpr + ");"
      && lines[|lines| - 1] == "return obj;"
      && forall i :: 0 <= i < |properties| ==> SetsProperty(lines[i + 1], properties[i].0, properties[i].1)
  {
    var lines := CreateLines(parentExpr, ownerExpr, properties);
    forall i | 0 <= i < |properties|
      ensures SetsProperty(lines[i + 1], properties[i].0, properties[i].1)
    {
      LiteralDenotes(properties[i].1);
      assert lines[i + 1] == PropertyLines(properties)[i];
      assert lines[i + 1] == "obj." + properties[i].0 + " = " + Encode(properties[i].1) + ";";
    }
  }

  /** create_object's call: both references are translated (parent first), then the program is sent. */
  function CreateObjectCall(parentCurie: string, ownerCurie: string, properties: seq<(string, JsonValue)>): (r: Result<Call, Error>)
    ensures r.Failure? <==> Strip(parentCurie) == [] || Strip(ownerCurie) == []
    ensures r.Failure? ==> r.error == Plain(EmptyIdentifier)
    ensures r.Success? ==>
      var program := Join("\n", CreateLines(CurieToMooExpr(parentCurie).value, CurieToMooExpr(ownerCurie).value, properties));
      && r.value == EvalPost("create_object", program)
      && StartsWith(program, CreateHeader(CurieToMooExpr(parentCurie).value, CurieToMooExpr(ownerCurie).value))
      && EndsWith(program, "return obj;")
  {
    match CurieToMooExpr(parentCurie)
    case Failure(e) => Failure(e)
    case Success(parentExpr) =>
      match CurieToMooExpr(ownerCurie)
      case Failure(e) => Failure(e)
      case Success(ownerExpr) =>
        Success(EvalPost("create_object", Join("\n", CreateLines(parentExpr, ownerExpr, properties))))
  }

  // ---------------------------------------------------------------------
  // set_property, move_object, recycle_object
  // ---------------------------------------------------------------------

  /** The program of set_property: assign the literal, then read the property back. */
  function SetPropertyProgram(targetExpr: string, propName: string, literal: string): string {
    targetExpr + "." + propName + " = " + literal + ";\nreturn " + targetExpr + "." + propName + ";"
  }

  /** set_property's call. */
  function SetPropertyCall(objectCurie: string, propName: string, value: JsonValue): (r: Result<Call, Error>)
    ensures r.Failure? <==> Strip(objectCurie) == []
    ensures r.Success? ==> r.value == EvalPost("set_property", SetPropertyProgram(CurieToMooExpr(objectCurie).value, propName, Encode(value)))
  {
    match CurieToMooExpr(objectCurie)
    case Failure(e) => Failure(e)
    case Success(targetExpr) => Success(EvalPost("set_property", SetPropertyProgram(targetExpr, propName, Encode(value))))
  }

  /**
   * The program of set_property is two lines: the assignment of a literal
   * that the server reads as exactly the given value, and the return of the
   * same property.
   */
  lemma SetPropertyMeaning(targetExpr: string, propName: string, value: JsonValue)
    ensures exists lit ::
      && SetPropertyProgram(targetExpr, propName, Encode(value))
           == (targetExpr + "." + propName + " = " + lit + ";") + "\n" + ("return " + targetExpr + "." + propName + ";")
      && ReadValue(lit) == Some((ToMoo(value), []))
  {
    LiteralDenotes(value);
    TwoLines(targetExpr + "." + propName, Encode(value));
  }

  /** Regrouping the text of set_property's program into its two lines. */
  lemma TwoLines(place: string, lit: string)
    ensures place + " = " + lit + ";\nreturn " + place + ";" == (place + " = " + lit + ";") + "\n" + ("return " + place + ";")
  {
    assert ";\nreturn " == ";" + "\n" + "return ";
  }

  /** The program of move_object. */
  function MoveProgram(objExpr: string, destExpr: string): string {
    "move(" + objExpr + ", " + destExpr + ");\nreturn " + objExpr + ";"
  }

  /** move_object's call: the object is translated before the destination. */
  function MoveObjectCall(objectCurie: string, destinationCurie: string): (r: Result<Call, Error>)
    ensures r.Failure? <==> Strip(objectCurie) == [] || Strip(destinationCurie) == []
    ensures r.Success? ==>
      r.value == EvalPost("move_object", MoveProgram(CurieToMooExpr(objectCurie).value, CurieToMooExpr(destinationCurie).value))
  {
    match CurieToMooExpr(objectCurie)
    case Failure(e) => Failure(e)
    case Success(objExpr) =>
      match CurieToMooExpr(destinationCurie)
      case Failure(e) => Failure(e)
      case Success(destExpr) => Success(EvalPost("move_object", MoveProgram(objExpr, destExpr)))
  }

  /** Object numbers given as `oid:` CURIEs reach the server as `#n`. */
  lemma MoveOids(n: int, m: int)
    ensures MoveObjectCall("oid:" + IntToString(n), "oid:" + IntToString(m))
         == Success(EvalPost("move_object", MoveProgram("#" + IntToString(n), "#" + IntToString(m))))
  {
    OidTranslates(n);
    OidTranslates(m);
  }

  /** Passing an already translated reference builds the same call: translation is idempotent. */
  lemma MoveTranslated(objectCurie: string, destinationCurie: string)
    requires MoveObjectCall(objectCurie, destinationCurie).Success?
    ensures MoveObjectCall(CurieToMooExpr(objectCurie).value, CurieToMooExpr(destinationCurie).value)
         == MoveObjectCall(objectCurie, destinationCurie)
  {
    CurieIdempotent(objectCurie);
    CurieIdempotent(destinationCurie);
  }

  /** The program of recycle_object. */
  function RecycleProgram(targetExpr: string): string {
    "recycle(" + targetExpr + ");\nreturn 1;"
  }

  /** recycle_object's call. */
  function RecycleObjectCall(objectCurie: string): (r: Result<Call, Error>)
    ensures r.Failure? <==> Strip(objectCurie) == []
    ensures r.Success? ==> r.value == EvalPost("recycle_object", RecycleProgram(CurieToMooExpr(objectCurie).value))
  {
    match CurieToMooExpr(objectCurie)
    case Failure(e) => Failure(e)
    case Success(targetExpr) => Success(EvalPost("recycle_object", RecycleProgram(targetExpr)))
  }

  /** Recycling `oid:n` sends `recycle(#n);`. */
  lemma RecycleOid(n: int)
    ensures RecycleObjectCall("oid:" + IntToString(n)) == Success(EvalPost("recycle_object", RecycleProgram("#" + IntToString(n))))
  {
    OidTranslates(n);
  }

  /** Recycling the translation of a reference is recycling the reference. */
  lemma RecycleTranslated(objectCurie: string)
    requires RecycleObjectCall(objectCurie).Success?
    ensures RecycleObjectCall(CurieToMooExpr(objectCurie).value) == RecycleObjectCall(objectCurie)
  {
    CurieIdempotent(objectCurie);
  }

  // ---------------------------------------------------------------------
  // Endpoints addressed by an encoded object reference
  // ---------------------------------------------------------------------

  /** A path with the object's encoded reference as one segment after `prefix`, then `suffix`. */
  predicate ObjectPath(path: string, prefix: string, objectCurie: string, suffix: string) {
    && path == prefix + EncodeCurie(objectCurie) + suffix
    && '/' !in EncodeCurie(objectCurie)
    && Unquote(EncodeCurie(objectCurie)) == Some(Utf8String(Strip(objectCurie)))
  }

  /** Why ObjectPath holds of every encoded reference: the segment has no `/` and decodes to the stripped CURIE. */
  lemma SegmentDecodes(objectCurie: string)
    ensures '/' !in EncodeCurie(objectCurie)
    ensures Unquote(EncodeCurie(objectCurie)) == Some(Utf8String(Strip(objectCurie)))
  {
    QuoteRoundTrip(Strip(objectCurie));
  }

  /** `str(bool(inherited)).lower()`. */
  function BoolText(b: bool): string {
    if b then "true" else "false"
  }

  /** list_properties: GET /properties/{object}?inherited=true|false. */
  function ListPropertiesCall(objectCurie: string, inherited: bool): (c: Call)
    ensures c.verb == "GET" && ObjectPath(c.path, "/properties/", objectCurie, "")
    ensures c.params == [("inherited", if inherited then "true" else "false")]
  {
    SegmentDecodes(objectCurie);
    Call("GET", "/properties/" + EncodeCurie(objectCurie), "list_properties", [("inherited", BoolText(inherited))],
         NoPayload, map[], true, {}, false)
  }

  /** get_property: GET /properties/{object}/{name}. */
  function GetPropertyCall(objectCurie: string, propName: string): (c: Call)
    ensures c.verb == "GET" && ObjectPath(c.path, "/properties/", objectCurie, "/" + propName)
  {
    SegmentDecodes(objectCurie);
    Call("GET", "/properties/" + EncodeCurie(objectCurie) + "/" + propName, "get_property", [], NoPayload, map[], true, {}, false)
  }

  /** list_verbs: GET /verbs/{object}?inherited=true|false. */
  function ListVerbsCall(objectCurie: string, inherited: bool): (c: Call)
    ensures c.verb == "GET" && ObjectPath(c.path, "/verbs/", objectCurie, "")
    ensures c.params == [("inherited", if inherited then "true" else "false")]
  {
    SegmentDecodes(objectCurie);
    Call("GET", "/verbs/" + EncodeCurie(objectCurie), "list_verbs", [("inherited", BoolText(inherited))],
         NoPayload, map[], true, {}, false)
  }

  /** get_verb: GET /verbs/{object}/{verb}, where a 404 means "no such verb" (None). */
  function GetVerbCall(objectCurie: string, verbName: string): (c: Call)
    ensures c.verb == "GET" && ObjectPath(c.path, "/verbs/", objectCurie, "/" + verbName)
    ensures c.noneStatuses == {404} && c.requiresAuth
  {
    SegmentDecodes(objectCurie);
    Call("GET", "/verbs/" + EncodeCurie(objectCurie) + "/" + verbName, "get_verb", [], NoPayload, map[], true, {404}, false)
  }

  /** program_verb: POST the code as text to /verbs/{object}/{verb}. */
  function ProgramVerbCall(objectCurie: string, verbName: string, code: string): (c: Call)
    ensures c.verb == "POST" && ObjectPath(c.path, "/verbs/", objectCurie, "/" + verbName)
    ensures c.payload == TextPayload(code) && c.headers == TextPlain
  {
    SegmentDecodes(objectCurie);
    Call("POST", "/verbs/" + EncodeCurie(objectCurie) + "/" + verbName, "program_verb", [], TextPayload(code), TextPlain, true, {}, false)
  }

  /** invoke_verb: POST the arguments as a JSON list (none means the empty list). */
  function InvokeVerbCall(objectCurie: string, verbName: string, args: Option<seq<JsonValue>>): (c: Call)
    ensures c.verb == "POST" && ObjectPath(c.path, "/verbs/", objectCurie, "/" + verbName + "/invoke")
    ensures c.payload == JsonPayload(JList(if args.Some? then args.value else []))
  {
    SegmentDecodes(objectCurie);
    var items := if args.Some? && args.value != [] then args.value else [];
    Call("POST", "/verbs/" + EncodeCurie(objectCurie) + "/" + verbName + "/invoke", "invoke_verb", [],
         JsonPayload(JList(items)), map[], true, {}, false)
  }

  /** resolve_object's request: GET /objects/{object}, where a 404 means "unknown" (None). */
  function ResolveObjectCall(objectCurie: string): (c: Call)
    ensures c.verb == "GET" && ObjectPath(c.path, "/objects/", objectCurie, "")
    ensures c.noneStatuses == {404} && c.requiresAuth
  {
    SegmentDecodes(objectCurie);
    Call("GET", "/objects/" + EncodeCurie(objectCurie), "resolve_object", [], NoPayload, map[], true, {404}, false)
  }

  // ---------------------------------------------------------------------
  // get_history and presentations
  // ---------------------------------------------------------------------

  /** The query parameters of get_history: each bound that is given, in order, as decimal text. */
  function HistoryParams(sinceSeconds: Option<int>, limit: Option<int>): seq<(string, string)> {
    (if sinceSeconds.Some? then [("since_seconds", IntToString(sinceSeconds.value))] else [])
    + (if limit.Some? then [("limit", IntToString(limit.value))] else [])
  }

  /** get_history: GET /api/history. */
  function GetHistoryCall(sinceSeconds: Option<int>, limit: Option<int>): (c: Call)
    ensures c.verb == "GET" && c.path == "/api/history" && c.payload == NoPayload && c.requiresAuth
  {
    Call("GET", "/api/history", "get_history", HistoryParams(sinceSeconds, limit), NoPayload, map[], true, {}, false)
  }

  /**
   * The history parameters name exactly the bounds that were given, each
   * once, and the server's int() reads back each given number.
   */
  lemma HistoryParamsMeaning(sinceSeconds: Option<int>, limit: Option<int>)
    ensures var ps := HistoryParams(sinceSeconds, limit);
      && |ps| == (if sinceSeconds.Some? then 1 else 0) + (if limit.Some? then 1 else 0)
      && (forall i :: 0 <= i < |ps| ==> ps[i].0 in {"since_seconds", "limit"})
      && (forall i :: 0 <= i < |ps| && ps[i].0 == "since_seconds" ==> ParseInt(ps[i].1) == sinceSeconds)
      && (forall i :: 0 <= i < |ps| && ps[i].0 == "limit" ==> ParseInt(ps[i].1) == limit)
      && (sinceSeconds.Some? <==> exists i :: 0 <= i < |ps| && ps[i].0 == "since_seconds")
      && (limit.Some? <==> exists i :: 0 <= i < |ps| && ps[i].0 == "limit")
  {
    if sinceSeconds.Some? {
      IntToStringParses(sinceSeconds.value);
    }
    if limit.Some? {
      IntToStringParses(limit.value);
    }
    var ps := HistoryParams(sinceSeconds, limit);
    if sinceSeconds.Some? {
      assert ps[0].0 == "since_seconds";
    }
    if limit.Some? {
      assert ps[|ps| - 1].0 == "limit";
    }
  }

  /** list_presentations: GET /api/presentations. */
  function ListPresentationsCall(): (c: Call)
    ensures c.verb == "GET" && c.path == "/api/presentations" && c.requiresAuth && !c.allowEmpty
  {
    Call("GET", "/api/presentations", "list_presentations", [], NoPayload, map[], true, {}, false)
  }

  /** dismiss_presentation: DELETE /api/presentations/{id}, where an empty reply means `{}`. */
  function DismissPresentationCall(presentationId: string): (c: Call)
    ensures c.verb == "DELETE" && c.path == "/api/presentations/" + presentationId && c.allowEmpty
  {
    Call("DELETE", "/api/presentations/" + presentationId, "dismiss_presentation", [], NoPayload, map[], true, {}, true)
  }

  /** An empty reply to dismiss_presentation is `{}`, not None. */
  lemma DismissEmptyReply(presentationId: string, resp: Response, attempt: nat)
    requires resp.status < 400 && resp.body.Empty?
    ensures Classify(DismissPresentationCall(presentationId), resp, attempt) == Success(JDict([]))
  {
  }

  // ---------------------------------------------------------------------
  // ensure_verb
  // ---------------------------------------------------------------------

  /** `dobj, prep, iobj = list(args) if args is not None else [...]`. */
  function VerbArgs(args: Option<seq<string>>): (r: Result<(string, string, string), Error>)
    ensures args.None? ==> r == Success(("this", "none", "none"))
    ensures args.Some? && |args.value| == 3 ==> r == Success((args.value[0], args.value[1], args.value[2]))
    ensures args.Some? && |args.value| != 3 ==> r == Failure(UnpackError(|args.value|))
  {
    if args.None? then Success(("this", "none", "none"))
    else if |args.value| == 3 then Success((args.value[0], args.value[1], args.value[2]))
    else Failure(UnpackError(|args.value|))
  }

  /** The MOO program that adds the verb, ignoring an error if it exists already. */
  function AddVerbProgram(targetExpr: string, ownerExpr: string, perms: string, verbName: string, dobj: string, prep: string, iobj: string): string {
    "try\n"
    + "  add_verb(" + targetExpr + ", {" + ownerExpr + ", \"" + perms + "\", \"" + verbName + "\"}, "
    + "{\"" + dobj + "\", \"" + prep + "\", \"" + iobj + "\"});\n"
    + "except error (ANY)\n"
    + "  0;\n"
    + "endtry;\n"
    + "return 1;"
  }

  /** The creation call of ensure_verb: the arguments are unpacked before the reference is translated. */
  function EnsureVerbCall(objectCurie: string, verbName: string, ownerExpr: string, perms: string, args: Option<seq<string>>): (r: Result<Call, Error>)
    ensures VerbArgs(args).Failure? ==> r == Failure(VerbArgs(args).error)
    ensures VerbArgs(args).Success? && Strip(objectCurie) == [] ==> r == Failure(Plain(EmptyIdentifier))
    ensures r.Success? ==>
      var (dobj, prep, iobj) := VerbArgs(args).value;
      r.value == EvalPost("ensure_verb", AddVerbProgram(CurieToMooExpr(objectCurie).value, ownerExpr, perms, verbName, dobj, prep, iobj))
  {
    match VerbArgs(args)
    case Failure(e) => Failure(e)
    case Success(triple) =>
      match CurieToMooExpr(objectCurie)
      case Failure(e) => Failure(e)
      case Success(targetExpr) =>
        Success(EvalPost("ensure_verb", AddVerbProgram(targetExpr, ownerExpr, perms, verbName, triple.0, triple.1, triple.2)))
  }

  /** Whether ensure_verb goes on to create after looking the verb up. */
  predicate ProceedsToCreate(lookup: Result<JsonValue, Error>) {
    if lookup.Success? then !lookup.value.JDict? else StatusOf(lookup.error) in {Some(404), Some(500)}
  }

  /**
   * ensure_verb: look the verb up first; an existing verb (a dict) ends
   * there, a lookup error other than 404 or 500 is raised again, and
   * anything else goes on to the creation program.
   */
  function EnsureVerb(st: State, objectCurie: string, verbName: string, ownerExpr: string, perms: string,
                      args: Option<seq<string>>, server: Server): (r: Step<()>)
  {
    var lookup := Execute(GetVerbCall(objectCurie, verbName), st, server);
    if !ProceedsToCreate(lookup.result) then
      Step(if lookup.result.Success? then Success(()) else Failure(lookup.result.error), lookup.state)
    else
      match EnsureVerbCall(objectCurie, verbName, ownerExpr, perms, args)
      case Failure(e) => Step(Failure(e), lookup.state)
      case Success(call) =>
        var created := Execute(call, lookup.state, server);
        Step(if created.result.Success? then Success(()) else Failure(created.result.error), created.state)
  }

  /**
   * When the lookup does not lead to creation (the verb exists, or the
   * lookup failed otherwise than with 404 or 500), ensure_verb sends
   * nothing but the lookup's own GETs: no creation program goes out, and a
   * lookup error is the error raised.
   */
  lemma EnsureVerbNoCreation(st: State, objectCurie: string, verbName: string, ownerExpr: string, perms: string,
                             args: Option<seq<string>>, server: Server)
    requires SessionValid(st)
    requires !ProceedsToCreate(Execute(GetVerbCall(objectCurie, verbName), st, server).result)
    ensures var lookup := Execute(GetVerbCall(objectCurie, verbName), st, server);
      var r := EnsureVerb(st, objectCurie, verbName, ownerExpr, perms, args, server);
      && Extends(st, r.state)
      && SendsOnly(SentSince(st, r.state), GetVerbCall(objectCurie, verbName))
      && (lookup.result.Success? <==> r.result.Success?)
      && (r.result.Failure? ==> r.result.error == lookup.result.error && StatusOf(r.result.error) !in {Some(404), Some(500)})
  {
    ExecuteSendsOnly(GetVerbCall(objectCurie, verbName), st, server);
  }

  /**
   * When the lookup leads to creation and the creation call can be built,
   * the creation program is executed from the lookup's state, and a success
   * means the program was the last request sent.
   */
  lemma EnsureVerbCreates(st: State, objectCurie: string, verbName: string, ownerExpr: string, perms: string,
                          args: Option<seq<string>>, server: Server, lookup: Step<JsonValue>, call: Call)
    requires SessionValid(st)
    requires lookup == Execute(GetVerbCall(objectCurie, verbName), st, server) && ProceedsToCreate(lookup.result)
    requires EnsureVerbCall(objectCurie, verbName, ownerExpr, perms, args) == Success(call)
    ensures var r := EnsureVerb(st, objectCurie, verbName, ownerExpr, perms, args, server);
      && Extends(lookup.state, r.state)
      && SendsOnly(SentSince(lookup.state, r.state), call)
      && (r.result.Success? ==> |r.state.sent| > |lookup.state.sent| && Matches(r.state.sent[|r.state.sent| - 1], call))
      && call.path == "/eval"
  {
    var created := Execute(call, lookup.state, server);
    ExecuteKeepsSession(GetVerbCall(objectCurie, verbName), st, server);
    ExecuteSendsOnly(call, lookup.state, server);
    EnsureVerbUnfolds(st, objectCurie, verbName, ownerExpr, perms, args, server, lookup, call, created);
    var r := EnsureVerb(st, objectCurie, verbName, ownerExpr, perms, args, server);
    assert r.state.sent == created.state.sent;
    if r.result.Success? {
      assert created.result.Success?;
      assert Matches(created.state.sent[|created.state.sent| - 1], call);
    }
  }

  /** The creation branch of ensure_verb ends in the state of the creation call. */
  lemma EnsureVerbUnfolds(st: State, objectCurie: string, verbName: string, ownerExpr: string, perms: string,
                          args: Option<seq<string>>, server: Server, lookup: Step<JsonValue>, call: Call,
                          created: Step<JsonValue>)
    requires lookup == Execute(GetVerbCall(objectCurie, verbName), st, server) && ProceedsToCreate(lookup.result)
    requires EnsureVerbCall(objectCurie, verbName, ownerExpr, perms, args) == Success(call)
    requires created == Execute(call, lookup.state, server)
    ensures var r := EnsureVerb(st, objectCurie, verbName, ownerExpr, perms, args, server);
      r.state == created.state && r.result.Success? == created.result.Success?
    ensures call.path == "/eval"
  {
  }

  /** A badly sized argument list is a ValueError raised after the lookup and before any creation. */
  lemma EnsureVerbBadArgs(st: State, objectCurie: string, verbName: string, ownerExpr: string, perms: string,
                          args: seq<string>, server: Server)
    requires |args| != 3
    requires ProceedsToCreate(Execute(GetVerbCall(objectCurie, verbName), st, server).result)
    ensures var r := EnsureVerb(st, objectCurie, verbName, ownerExpr, perms, Some(args), server);
      r == Step(Failure(UnpackError(|args|)), Execute(GetVerbCall(objectCurie, verbName), st, server).state)
  {
  }

  // ---------------------------------------------------------------------
  // resolve_object
  // ---------------------------------------------------------------------

  /**
   * The field extraction of resolve_object: `obj or oid or object`, taken by
   * truthiness first and accepted only if it is a string. A truthy non-string
   * `obj` therefore hides a string `oid`.
   */
  function ResolveField(result: JsonValue): (r: Option<string>)
    ensures !result.JDict? ==> r.None?
    ensures result.JDict? ==>
      var obj := Lookup(result.entries, "obj");
      var oid := Lookup(result.entries, "oid");
      var objectField := Lookup(result.entries, "object");
      && (Truthy(obj) ==> (r.Some? <==> obj.JStr?) && (r.Some? ==> obj == JStr(r.value)))
      && (!Truthy(obj) && Truthy(oid) ==> (r.Some? <==> oid.JStr?) && (r.Some? ==> oid == JStr(r.value)))
      && (!Truthy(obj) && !Truthy(oid) ==> (r.Some? <==> objectField.JStr?) && (r.Some? ==> objectField == JStr(r.value)))
  {
    if !result.JDict? then None
    else
      var curie := Or(Or(Lookup(result.entries, "obj"), Lookup(result.entries, "oid")), Lookup(result.entries, "object"));
      if curie.JStr? then Some(curie.s) else None
  }

  /**
   * The shadowing case: a truthy `obj` that is not a string resolves to
   * None, whatever string `oid` or `object` stand beside it.
   */
  lemma ResolveFieldShadowed(obj: JsonValue, oid: string, objectField: string)
    requires Truthy(obj) && !obj.JStr?
    ensures ResolveField(JDict([("obj", obj), ("oid", JStr(oid)), ("object", JStr(objectField))])) == None
  {
    var entries := [("obj", obj), ("oid", JStr(oid)), ("object", JStr(objectField))];
    assert Lookup(entries, "obj") == obj;
  }

  /** resolve_object: the request, then the field extraction of a successful result. */
  function ResolveObject(st: State, objectCurie: string, server: Server): (r: Step<Option<string>>)
    ensures var x := Execute(ResolveObjectCall(objectCurie), st, server);
      && r.state == x.state
      && (x.result.Failure? <==> r.result.Failure?)
      && (r.result.Failure? ==> r.result.error == x.result.error)
      && (r.result.Success? ==> r.result.value == ResolveField(x.result.value))
  {
    var x := Execute(ResolveObjectCall(objectCurie), st, server);
    match x.result
    case Failure(e) => Step(Failure(e), x.state)
    case Success(v) => Step(Success(ResolveField(v)), x.state)
  }

  /** A final 404 on resolve_object is not an error: the reference resolves to None. */
  lemma ResolveNotFound(objectCurie: string, resp: Response, attempt: nat)
    requires resp.status == 404
    ensures Classify(ResolveObjectCall(objectCurie), resp, attempt) == Success(JNull)
    ensures ResolveField(JNull) == None
  {
  }
}
