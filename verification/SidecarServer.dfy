/** The Python end of the pipe: one response line for every non-blank request line. */
module SidecarServer {
  import opened Wrappers
  import opened Text
  import opened Json

  /** What running an op's handler comes to. */
  datatype HandlerOutcome = Data(data: Object) | OpError(code: string, message: string) | Raised(text: string)

  /** The handlers of one server process: the outcome may depend on how many lines came before. */
  type Handlers = (nat, string, Object) -> HandlerOutcome

  const OPS: set<string> := {"ping", "health", "index_vault", "query"}

  function OkResponse(id: string, data: Json): Json {
    JObject(map["req_id" := JString(id), "ok" := JBool(true), "data" := data])
  }

  function ErrorResponse(id: string, code: string, message: string): Json {
    JObject(map["req_id" := JString(id), "ok" := JBool(false),
                "error" := JObject(map["code" := JString(code), "message" := JString(message)])])
  }

  /** `request.get(key)`, with a missing key read as null. */
  function Get(o: Object, key: string): Json {
    if key in o then o[key] else JNull
  }

  function Respond(id: string, outcome: HandlerOutcome): Json {
    match outcome
    case Data(data) => OkResponse(id, JObject(data))
    case OpError(code, message) => ErrorResponse(id, code, message)
    case Raised(text) => ErrorResponse(id, "internal_error", text)
  }

  function HandleRequest(h: Handlers, k: nat, request: Object): Json {
    var id := Get(request, "req_id");
    var op := Get(request, "op");
    var args := Get(request, "args");
    if !id.JString? || id.s == "" then ErrorResponse("", "malformed_request", "missing or invalid req_id")
    else if !op.JString? then ErrorResponse(id.s, "malformed_request", "missing or invalid op")
    else if op.s !in OPS then ErrorResponse(id.s, "unknown_op", "unknown op: " + op.s)
    else if args.JNull? then Respond(id.s, h(k, op.s, map[]))
    else if !args.JObject? then ErrorResponse(id.s, "malformed_request", "args must be an object")
    else Respond(id.s, h(k, op.s, args.fields))
  }

  function HandleLine(codec: Codec, h: Handlers, k: nat, line: string): Option<Json> {
    if Blank(line, PySpace) then None
    else
      match codec.loads(line)
      case None => Some(ErrorResponse("", "malformed_request", "line is not valid JSON"))
      case Some(JObject(fields)) => Some(HandleRequest(h, k, fields))
      case Some(_) => Some(ErrorResponse("", "malformed_request", "request must be a JSON object"))
  }

  /** Everything `serve` writes for the lines `lines`, the first of which is line number `k`. */
  function Served(codec: Codec, h: Handlers, k: nat, lines: seq<string>): string
    decreases |lines|
  {
    if lines == [] then ""
    else
      var r := HandleLine(codec, h, k, lines[0]);
      (if r.Some? then codec.dumps(r.value) + "\n" else "") + Served(codec, h, k + 1, lines[1..])
  }

  lemma {:induction false} ServedAppend(codec: Codec, h: Handlers, k: nat, a: seq<string>, b: seq<string>)
    ensures Served(codec, h, k, a + b) == Served(codec, h, k, a) + Served(codec, h, k + |a|, b)
    decreases |a|
  {
    if a == [] {
      assert a + b == b;
    } else {
      assert (a + b)[1..] == a[1..] + b;
      ServedAppend(codec, h, k + 1, a[1..], b);
    }
  }

  /** The stdio loop over the lines of stdin. */
  method Serve(codec: Codec, h: Handlers, stdin: seq<string>) returns (stdout: string)
    ensures stdout == Served(codec, h, 0, stdin)
  {
    stdout := "";
    for k := 0 to |stdin|
      invariant stdout == Served(codec, h, 0, stdin[..k])
    {
      var response := HandleLine(codec, h, k, stdin[k]);
      assert stdin[..k + 1] == stdin[..k] + [stdin[k]];
      ServedAppend(codec, h, 0, stdin[..k], [stdin[k]]);
      if response.None? {
        continue;
      }
      stdout := stdout + (codec.dumps(response.value) + "\n");
    }
    assert stdin[..|stdin|] == stdin;
  }

  /** Errors never cross the boundary: every answer is one line the client reads back as an envelope. */
  lemma AlwaysAnEnvelope(codec: Codec, h: Handlers, k: nat, line: string)
    requires codec.Lawful()
    ensures HandleLine(codec, h, k, line).None? <==> Blank(line, PySpace)
    ensures HandleLine(codec, h, k, line).Some? ==>
              var r := HandleLine(codec, h, k, line).value;
              codec.parse(codec.dumps(r)) == Some(r) && r.JObject?
              && Get(r.fields, "req_id").JString? && Get(r.fields, "ok").JBool?
  {
  }
}
