# mooR REST client — a Dafny model

This project models the REST client that the mooR MCP server uses to talk
to a mooR world, together with the few MCP tools whose logic is more than a
pass-through call. The parts modelled are these:

- **MOO literal encoder** (`Literal`): turns a JSON value into MOO source
  text. Strings are quoted with `\` and `"` escaped, lists become
  `{ a, b }`, and dicts become lists of `{key, value}` pairs. A small reader
  for that literal syntax is also defined, and every encoded value is proved
  to read back as the MOO value it denotes.
- **Object references** (`Curie`): how a CURIE such as `oid:42`,
  `sysobj:room` or `uuid:…` becomes a MOO expression (`#42`, `$room`,
  `match("uuid:…")`), and how a reference is percent-encoded into a URL path
  segment. The encoding uses UTF-8 and keeps `:` and `.` unescaped.
- **Session and request pipeline** (`Executor`, with `Client` as the
  stateful object):
  - `connect` and `ensure_auth`, and the header map.
  - The retry-once loop of `_request`: a first 401 drops the token,
    reconnects with the stored credentials and tries once more.
  - How a response is classified: the caller's "absent" statuses, 401,
    other errors, an empty body, and a payload checked for in-band errors.
- **Operation builders** (`Operations`): what each public operation sends.
  The operations are eval, create, set property, move, recycle, the property
  and verb endpoints, resolve, history, presentations, and the idempotent
  `ensure_verb`.
- **Property payload helper** (`PropUtils`): `extract_obj_curie`.
- **MCP tools** (`Tools`): connect and disconnect, resolve with a 404 when
  nothing resolves, and `moor_list_sysobjs`. For that tool the model covers
  both the MOO program it sends and the loop that folds the reply's
  `{name, value}` pairs into a map.

The HTTP server is a parameter. `type Server = seq<Request> -> Response`
answers the last request of the log of everything sent so far. The client
state is the token, the stored default credentials and that log. Every
operation is a pure function from state to `Step(result, new state)`, and
the class `Client.MoorRestClient` implements each one as an imperative
method that is proved equal to its function. The imperative methods are:

- the retry `while` loop;
- the loop that collects `create_object`'s lines;
- the loop that folds the `list_sysobjs` pairs.

Python behaviour written out explicitly:

- Truthiness and `a or b` (the `or` chains in `connect`, `__init__` and
  `resolve_object`).
- `str.strip` with Python's exact `isspace` set.
- `int()` on text: an optional sign, ASCII digit groups separated by
  underscores, and surrounding whitespace.
- The regular-expression word boundary `\b` (ASCII word characters).
- `str(int)`.

## Model

| member | source | states |
|---|---|---|
| Literal.QuoteString | rest_client.py:15-16 | the quoted form is `"` + the character-wise escape of the text + `"` |
| Literal.EscapeReplaces | rest_client.py:15-16 | the two chained `replace` calls (backslash first, then quote) equal escaping each `\` and `"` on its own; no backslash is escaped twice |
| Literal.Encode | rest_client.py:19-39 | every literal is non-empty and starts with a digit, `-`, `"` or `{` |
| Literal.EncodeList | rest_client.py:28-31 | an empty list is `{}`; otherwise `{ ` + the elements' literals joined by `, ` + ` }` |
| Literal.EncodeDict | rest_client.py:32-38 | an empty dict is `{}`; otherwise `{ ` + the `{key, value}` pair literals, in insertion order, joined by `, ` + ` }` |
| Literal.CollectPairs | rest_client.py:33-35 | the loop over `value.items()` collects exactly the pair literals, in order |
| Literal.ToMoo | rest_client.py:19-39 | the MOO value a JSON value denotes; lists keep their length and a dict becomes one pair per entry |
| Literal.ReadEncoded | rest_client.py:19-39 | reading `Encode(v)` followed by any text that does not start with a digit yields `ToMoo(v)` and leaves that text |
| Literal.LiteralDenotes | rest_client.py:19-39 | the round trip: `ReadValue(Encode(v)) == Some((ToMoo(v), []))` for every JSON value |
| Curie.CurieToMooExpr | rest_client.py:241-257 | fails with "object identifier must not be empty" exactly when the reference is empty or all whitespace; a result is stripped and non-empty |
| Curie.Translate | rest_client.py:245-257 | the translation of a stripped non-empty reference is itself stripped and non-empty |
| Curie.CurieIdempotent | rest_client.py:241-257 | translating an already translated reference changes nothing |
| Curie.MooExprPassesThrough | rest_client.py:245-246 | a reference that already starts with `#`, `$` or `match("` is returned stripped and otherwise unchanged |
| Curie.OidTranslates | rest_client.py:247-249 | `oid:<n>` becomes `#<n>` for every integer n |
| Curie.OidParses | rest_client.py:247-249 | any `oid:` reference whose tail `int()` accepts (leading zeros, a sign, underscores, spaces) becomes `#` + the canonical decimal text of that number |
| Curie.OidFallback | rest_client.py:250-251 | `oid:` followed by text `int()` rejects is passed through unchanged |
| Curie.SysobjTranslates | rest_client.py:252-254 | `sysobj:<ident>` becomes `$<ident>`; an empty identifier leaves `sysobj:` as it is |
| Curie.UuidTranslates | rest_client.py:255-256 | `uuid:<u>` becomes `match("uuid:<u>")` |
| Curie.OtherPassesThrough | rest_client.py:257 | a reference starting with none of `#`, `$`, `match("`, `oid:`, `sysobj:`, `uuid:` is returned stripped and otherwise unchanged |
| Curie.Quote | rest_client.py:239 | percent-encoding never shortens and leaves only unreserved characters, `:`, `.` and `%` |
| Curie.EncodeCurie | rest_client.py:238-239 | the encoded path segment never contains `/` |
| Curie.QuoteIdentity | rest_client.py:239 | encoding is the identity exactly when every character is unreserved, `:` or `.` |
| Curie.QuoteRoundTrip | rest_client.py:239 | percent-decoding the encoding gives back the UTF-8 bytes of the text |
| Errors.Plain | rest_client.py:43-48 | an error with only a message has no status and no code |
| Executor.PyOr | rest_client.py:76-77 | `a or b` on optional strings: the result is `a` when `a` is present (non-empty) and `b` otherwise, so it is present iff either is |
| Executor.Details | rest_client.py:137-143 | an empty body gives None, a JSON body its document and any other body its text |
| Executor.ConnectOutcomes | rest_client.py:85-123 | missing credentials: AuthenticationRequired and nothing sent. 401: InvalidCredentials. Other status ≥ 400: AuthFailed with that status. Success without a token: AuthProtocolError. Otherwise the stripped token is returned and stored with the credentials used. A failure changes nothing but the log |
| Executor.ConnectKeepsSession | rest_client.py:85-123 | connect sends at most one request and never an API request, keeps "a token implies stored credentials", and a success holds the returned token |
| Executor.ConnectBlankToken | rest_client.py:113-120 | a whitespace-only token header passes the emptiness test, so connect succeeds with an empty token and the headers built next fail |
| Executor.EnsureAuthSends | rest_client.py:125-127 | with a token held nothing happens; otherwise at most one connect is sent; a success leaves a token and stored credentials |
| Executor.AuthHeaders | rest_client.py:129-135 | succeeds exactly when a non-empty token is held; the map has exactly the keys `X-Moor-Auth-Token` (the token) and `Accept` (`application/json`) |
| Executor.AttemptSends | rest_client.py:160-176 | one pass of the loop sends at most one connect and, on success, exactly one API request, the last one sent, built from the call and answered by the server |
| Executor.AttemptSendsOnly | rest_client.py:160-176 | one pass of the loop sends no API request other than the call's own |
| Executor.AttemptCarriesToken | rest_client.py:161-167 | an authenticated request carries the token held after the pass, unless the caller's own headers override it |
| Executor.CheckMooErrors | rest_client.py:216-233 | a dict payload fails with status 400 and "mooR reported errors during <context>" iff `errors` is a non-empty list or one of `error`, `error_msg`, `error_message` is truthy. The details are the `errors` list when it is non-empty, and otherwise the value of the first truthy key in that order. Anything else is returned unchanged |
| Executor.FirstErrorField | rest_client.py:225-232 | the loop over the error keys fails on the first truthy key, carrying its value as details, and succeeds iff none is truthy |
| Executor.Classify | rest_client.py:189-214 | in order: a caller-listed status gives None; an authenticated 401 gives TokenExpired after a retry and AuthenticationRequired before it; another status ≥ 400 gives "mooR API request failed during <context>"; an empty body gives `{}` or None; otherwise the payload after the in-band error check |
| Executor.ClassifyTokenExpired | rest_client.py:193-194 | TokenExpired is reported iff the status is an unlisted authenticated 401 on the second attempt |
| Executor.RetryBound | rest_client.py:159-187 | a request sends at most two API requests and two connects; a second API request happens only after a retry, which always reconnects; the session invariant is kept and the log only grows |
| Executor.RetryBoundRetried | rest_client.py:177-186 | after a retry at least one and at most two connects are sent |
| Executor.ExecuteSendsOnly | rest_client.py:145-214 | a request sends no API request other than the call's own, and a success means the last request sent was that call |
| Executor.RetryReconnects | rest_client.py:184-186 | after the token is dropped, the next pass first sends a connect with the stored credentials |
| Executor.FirstUnauthorizedIsRetried | rest_client.py:177-183 | a first 401 on an authenticated call is always retried, because a held token implies stored credentials |
| Executor.TwiceUnauthorized | rest_client.py:177-202 | a 401 on the retry ends in TokenExpired after exactly two API requests |
| Executor.TokenExpiredMeansRetried | rest_client.py:193-194 | TokenExpired is only ever reported after a retry, and with status 401 |
| Executor.AttemptErrorCodes | rest_client.py:160-176 | an error raised inside one pass (from connect or headers) is never TokenExpired |
| Executor.RefreshedAfterUnauthorized | rest_client.py:177-214 | when the retry succeeds, the result is the retry's response classified as second attempt, under the token freshly obtained by reconnecting |
| Operations.EvalPost | rest_client.py:271-277 | eval calls are authenticated POSTs to `/eval` whose body is the program text |
| Operations.Run | rest_client.py:285-286 | a builder error (empty reference or expression) is raised before anything is sent |
| Operations.NormalizeEval | rest_client.py:263-270 | fails with "expression must not be empty" iff the stripped text is empty; a multi-line expression is sent stripped and otherwise verbatim |
| Operations.NormalizeSingleLine | rest_client.py:266-270 | a one-line expression is sent in one of four shapes; it always ends with `;` and mentions `return`; the prefix and suffix are added only when missing |
| Operations.NormalizeIdempotent | rest_client.py:263-270 | normalising an already normalised expression changes nothing |
| Operations.ReturnPrefixedIdentifier | rest_client.py:267-270 | for every identifier `return<tail>` with a non-empty word-character tail (`returned`, `returnValue`), the startswith test skips the prefix, so it is sent as `return<tail>;` without a return statement |
| Operations.EvalExprCall | rest_client.py:262-277 | eval_expr fails exactly on a blank expression and otherwise posts the normalised program |
| Operations.PropertyLines | rest_client.py:288-291 | one assignment line per property |
| Operations.BuildCreateLines | rest_client.py:287-292 | the loop collects the header, one line per property and `return obj;` |
| Operations.CreateLinesMeaning | rest_client.py:287-292 | the program has the properties plus two lines; it creates from parent and owner first and returns `obj` last; line i+1 assigns property i a literal that reads back as its value |
| Operations.CreateObjectCall | rest_client.py:279-299 | fails iff either reference is blank; otherwise posts the joined lines, starting with the `create` header and ending with `return obj;` |
| Operations.SetPropertyCall | rest_client.py:301-311 | fails iff the reference is blank; otherwise posts the assignment program for the translated target |
| Operations.SetPropertyMeaning | rest_client.py:302-304 | the program is two lines: it assigns a literal that reads back as the value, then returns the property |
| Operations.MoveObjectCall | rest_client.py:433-443 | fails iff either reference is blank; otherwise posts `move(obj, dest)` then `return obj` on the translated expressions |
| Operations.MoveOids | rest_client.py:434-436 | moving `oid:n` to `oid:m` posts the program on `#n` and `#m` |
| Operations.MoveTranslated | rest_client.py:434-436 | passing already translated expressions builds the same call |
| Operations.RecycleObjectCall | rest_client.py:445-454 | fails iff the reference is blank; otherwise posts `recycle(target)` then `return 1` |
| Operations.RecycleOid | rest_client.py:446-447 | recycling `oid:n` posts the program on `#n` |
| Operations.RecycleTranslated | rest_client.py:446-447 | passing an already translated expression builds the same call |
| Operations.SegmentDecodes | rest_client.py:238-239 | the path segment of any reference contains no `/` and decodes to the UTF-8 bytes of the stripped reference |
| Operations.ListPropertiesCall | rest_client.py:313-319 | GET `/properties/<segment>` with `inherited` set to `true` or `false` |
| Operations.GetPropertyCall | rest_client.py:321-326 | GET `/properties/<segment>/<name>` |
| Operations.ListVerbsCall | rest_client.py:328-334 | GET `/verbs/<segment>` with `inherited` set to `true` or `false` |
| Operations.GetVerbCall | rest_client.py:336-342 | GET `/verbs/<segment>/<name>`, authenticated, with 404 meaning absent |
| Operations.ProgramVerbCall | rest_client.py:380-387 | POST of the code as plain text to `/verbs/<segment>/<name>` |
| Operations.InvokeVerbCall | rest_client.py:389-395 | POST to `/verbs/<segment>/<name>/invoke` with the arguments as a JSON list, empty when none are given |
| Operations.ResolveObjectCall | rest_client.py:397-403 | GET `/objects/<segment>`, authenticated, with 404 meaning absent |
| Operations.GetHistoryCall | rest_client.py:409-420 | an authenticated GET of `/api/history` with no body |
| Operations.HistoryParamsMeaning | rest_client.py:410-414 | a query parameter is present iff its argument was given, and its text reads back with `int()` as that argument |
| Operations.ListPresentationsCall | rest_client.py:422-423 | an authenticated GET of `/api/presentations` |
| Operations.DismissPresentationCall | rest_client.py:425-431 | DELETE `/api/presentations/<id>` with empty replies allowed |
| Operations.DismissEmptyReply | rest_client.py:208-209 | an empty successful reply to dismiss is `{}` |
| Operations.VerbArgs | rest_client.py:361 | no args means `this none none`; three args are taken in order; any other count is the unpacking error for that count |
| Operations.EnsureVerbCall | rest_client.py:361-378 | a bad argument count or a blank reference is an error; otherwise posts the `add_verb` program |
| Operations.EnsureVerbNoCreation | rest_client.py:353-360 | when the verb exists or the lookup fails with a status other than 404/500, only the lookup is sent and its error, if any, is the one raised |
| Operations.EnsureVerbCreates | rest_client.py:361-378 | otherwise the creation program goes to `/eval` from the lookup's state, and a success means it was the last request sent |
| Operations.EnsureVerbBadArgs | rest_client.py:361 | a bad argument count is raised after the lookup and before any creation is sent |
| Operations.ResolveField | rest_client.py:404-407 | `obj or oid or object` is taken by truthiness and accepted only if it is a string; non-dicts give None |
| Operations.ResolveFieldShadowed | rest_client.py:406-407 | any truthy non-string `obj` hides string `oid` and `object` fields: the result is None |
| Operations.ResolveObject | rest_client.py:397-407 | the request's error is raised as is; a success is the extracted field |
| Operations.ResolveNotFound | rest_client.py:402-405 | a 404 is None, and None resolves to nothing |
| PropUtils.ExtractObjCurie | _prop_utils.py:8-31 | non-dicts give None; a string top-level `obj` wins; otherwise a result exists iff `value` is a dict whose `obj` is a string; a result always comes from one of those two fields |
| PropUtils.TopLevelWins | _prop_utils.py:21-23 | with both shapes present, the top-level reference is returned |
| PropUtils.NestedShape | _prop_utils.py:25-29 | the property endpoint's `{"name", "value": {"obj": c}}` yields c |
| Client.MoorRestClient.constructor | rest_client.py:66-80 | no token and an empty log; defaults are the arguments or the environment values (`or`); the session invariant holds |
| Client.MoorRestClient.Send | rest_client.py:168-176 | appends the request to the log and returns the server's answer; nothing else changes |
| Client.MoorRestClient.Connect | rest_client.py:85-123 | the new state and result are those of `Executor.Connect`; the session invariant is kept |
| Client.MoorRestClient.EnsureAuth | rest_client.py:125-127 | the new state and result are those of `Executor.EnsureAuth` |
| Client.MoorRestClient.Headers | rest_client.py:129-135 | returns `AuthHeaders` of the current state and changes nothing; succeeds iff a token is held |
| Client.MoorRestClient.AttemptOnce | rest_client.py:161-176 | one pass of the loop, equal to `Executor.Attempt` |
| Client.MoorRestClient.Request | rest_client.py:145-214 | the `while True` retry loop ends with the state and result of `Executor.Execute`, and keeps the session invariant |
| Client.MoorRestClient.RunBuilt | rest_client.py:285-299 | a builder error is raised with nothing sent; otherwise the built call is executed |
| Client.MoorRestClient.EvalExpr | rest_client.py:262-277 | equal to running `EvalExprCall` |
| Client.MoorRestClient.CreateObject | rest_client.py:279-299 | equal to running `CreateObjectCall`, with the lines collected by the loop |
| Client.MoorRestClient.SetProperty | rest_client.py:301-311 | equal to running `SetPropertyCall` |
| Client.MoorRestClient.ListProperties | rest_client.py:313-319 | equal to executing `ListPropertiesCall` |
| Client.MoorRestClient.GetProperty | rest_client.py:321-326 | equal to executing `GetPropertyCall` |
| Client.MoorRestClient.ListVerbs | rest_client.py:328-334 | equal to executing `ListVerbsCall` |
| Client.MoorRestClient.GetVerb | rest_client.py:336-342 | equal to executing `GetVerbCall` |
| Client.MoorRestClient.EnsureVerb | rest_client.py:344-378 | equal to `Operations.EnsureVerb`: lookup first, creation only after a non-dict or a 404/500 |
| Client.MoorRestClient.ProgramVerb | rest_client.py:380-387 | equal to executing `ProgramVerbCall` |
| Client.MoorRestClient.InvokeVerb | rest_client.py:389-395 | equal to executing `InvokeVerbCall` |
| Client.MoorRestClient.ResolveObject | rest_client.py:397-407 | equal to `Operations.ResolveObject` |
| Client.MoorRestClient.GetHistory | rest_client.py:409-420 | equal to executing `GetHistoryCall` |
| Client.MoorRestClient.ListPresentations | rest_client.py:422-423 | equal to executing `ListPresentationsCall` |
| Client.MoorRestClient.DismissPresentation | rest_client.py:425-431 | equal to executing `DismissPresentationCall` |
| Client.MoorRestClient.MoveObject | rest_client.py:433-443 | equal to running `MoveObjectCall` |
| Client.MoorRestClient.RecycleObject | rest_client.py:445-454 | equal to running `RecycleObjectCall` |
| Tools.ConnectAuth | fastmcp_app.py:60-63 | the client ends in the state of `connect`; its error is raised, and success replies `{"ok": true, "player": player}` |
| Tools.DisconnectAuth | fastmcp_app.py:66-72 | drops the token and, if asked, the stored credentials; sends nothing; keeps the session invariant; replies `{"ok": true}` |
| Tools.DisconnectForcesReconnect | fastmcp_app.py:66-72 | after a disconnect, the next authenticated request reconnects first with the stored credentials, or fails with AuthenticationRequired when they were cleared |
| Tools.ResolveObjectTool | fastmcp_app.py:152-156 | a resolved string is returned; an unresolved object is "object could not be resolved" with status 404; request errors pass through |
| Tools.NamesValue | fastmcp_app.py:184 | the names become a JSON list of the same length |
| Tools.NamesDenote | fastmcp_app.py:184-185 | the names literal reads back as the MOO list of the names |
| Tools.SysobjLinesMeaning | fastmcp_app.py:183-207 | the program has 15 lines. With names given, it binds `names` to a literal that reads back as them and keeps missing names (`elseif (1)`). Otherwise it uses `properties(#0)` and drops non-objects (`elseif (0)`) |
| Tools.SysobjProgramVerbatim | fastmcp_app.py:208-210 | the multi-line program passes eval_expr's normalisation unchanged |
| Tools.CurieOrNone | fastmcp_app.py:223-224 | a reference is kept exactly when the extracted one is present and non-empty, and is then that reference; otherwise None |
| Tools.PairsToMap | fastmcp_app.py:213-225 | the loop builds exactly the fold of the qualifying pairs |
| Tools.SysobjKeys | fastmcp_app.py:214-221 | a name is in the map iff some item is a two-element list starting with that string |
| Tools.SysobjLastWins | fastmcp_app.py:221-224 | when no later qualifying pair has the same name, the map holds this pair's reference: the last pair for a name wins |
| Tools.SysobjValues | fastmcp_app.py:222-224 | a present reference is non-empty and is the extracted reference of some pair with that name |
| Tools.ListSysobjs | fastmcp_app.py:172-225 | sends the program through eval_expr; its error is raised; on success the reply is folded into the map |

## Left out

- HTTP transport, base URL, timeouts and JSON decoding are not modelled. The server is an oracle over the request log, and a response body is given either as a JSON document, as text or as empty.
- Environment variables are not read. Their values are constructor parameters.
- Floating-point numbers are not part of the JSON values. `str(float)` is not modelled.
- `None` passed where the client expects a string (the `(x or "")` guards) is not modelled. References and expressions are strings.
- `create_object`: a missing `properties` and an empty dict behave alike, so both are the empty sequence.
- `ensure_verb`: `list(args)` on iterables other than a list of strings is not modelled.
- `Tools.ListSysobjs` returns a Dafny `map`, so the insertion order of the Python dict is not kept.
- PyStr.ParseInt: only ASCII digits are read. Python's `int()` also accepts every Unicode decimal digit, so `oid:٣` is `#3` in Python but passes through unchanged here. CPython's default limit of 4300 digits on int/str conversion is also not modelled. Beyond it Python raises, so the `oid:` rule falls back and `_json_to_moo_literal` fails, while `ParseInt` and `Literal.Encode` succeed.
- Json.Lookup: the first of duplicate keys wins. Python's JSON decoder keeps the last one, but a decoded dict never holds duplicates. The model does not constrain the server's dicts to unique keys, so for a dict with duplicates, `CheckMooErrors`, `ResolveField` and `ExtractObjCurie` can read a different value than Python would.
- PyStr.IsWordChar: `\b` is ASCII-only here. Python's `\w` also counts non-ASCII letters and digits, so for non-ASCII text next to `return` the model can differ.
- `MoorRestClientError.__str__` is not modelled. It is a logging helper.
- The other MCP tools in fastmcp_app.py are thin pass-throughs to the client operations modelled above. Tool registration and the debug and introspection routes are not modelled either.
- resources.py, prompts.py, main.py and config.py are not part of this model.
- eval_expr's `rstrip()` calls act on text that is already stripped, so the model leaves them out. They change nothing.
