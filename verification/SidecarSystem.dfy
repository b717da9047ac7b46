/**
 * Client and server processes joined by byte streams. Every interleaving, every way of cutting the
 * streams into reads, every delay, timeout, write error and child death is a sequence of actions here.
 */
module SidecarSystem {
  import opened Wrappers
  import opened Text
  import opened Json
  import opened SidecarState
  import opened SidecarClient
  import opened SidecarServer

  /** The arguments of one `request` call and the id it was given. */
  datatype Call = Call(id: string, op: string, args: Option<Object>)

  /**
   * One child process. `sent` records the calls written to it. The server has read `read` bytes of its
   * stdin, handled `served` lines of them and holds `inBuffer`; `delivered` bytes of its stdout have
   * reached the client, `arrived` whole lines followed by `partial`.
   */
  datatype Proc = Proc(
    sent: seq<Call>,
    stdin: string, read: nat, served: nat, inBuffer: string,
    stdout: string, delivered: nat, arrived: nat, partial: string,
    exited: bool)

  datatype World = World(client: ClientState, procs: seq<Proc>)

  /** The JSON libraries, and the op handlers of each process the client ever spawns. */
  datatype Env = Env(codec: Codec, handlers: nat -> Handlers)

  const START := World(SidecarState.INITIAL, [])
  const FRESH := Proc([], "", 0, 0, "", "", 0, 0, "", false)

  datatype Action =
    | Requests(op: string, args: Option<Object>, spawnOk: bool)
    | ServerReads(g: nat, n: nat)
    | Delivers(g: nat, n: nat)
    | TimerFires(id: string)
    | WriteFails(id: string)
    | ChildErrors
    | ChildCloses
    | Exits(g: nat, keep: nat)
    | CloseCalled

  function Last(procs: seq<Proc>): Proc
    requires procs != []
  {
    procs[|procs| - 1]
  }

  /** What the client sees of its child: `hasExited` of the last process it spawned. */
  predicate LastExited(procs: seq<Proc>) {
    procs != [] && Last(procs).exited
  }

  predicate Drained(p: Proc) {
    p.exited && p.delivered == |p.stdout|
  }

  /** What the streams allow: nobody reads what is not there. */
  predicate Possible(w: World, a: Action) {
    match a
    case ServerReads(g, n) =>
      g < |w.procs| && !w.procs[g].exited && w.procs[g].read + n <= |w.procs[g].stdin|
    case Delivers(g, n) => g < |w.procs| && 0 < n && w.procs[g].delivered + n <= |w.procs[g].stdout|
    case Exits(g, keep) =>
      g < |w.procs| && !w.procs[g].exited && w.procs[g].delivered <= keep <= |w.procs[g].stdout|
    case _ => true
  }

  /**
   * The one assumption about the platform: when a request has to replace a dead child, that child's
   * output has all been delivered. (Its handlers are not told apart from those of the new child.)
   */
  predicate Enabled(w: World, a: Action) {
    Possible(w, a) && (a.Requests? && LastExited(w.procs) && !w.client.closed ==> Drained(Last(w.procs)))
  }

  /** The server reads n more bytes and answers every line they complete. */
  function Reading(env: Env, g: nat, p: Proc, n: nat): Proc
    requires p.read + n <= |p.stdin|
  {
    var text := p.inBuffer + p.stdin[p.read..p.read + n];
    p.(read := p.read + n, inBuffer := Rest(text), served := p.served + |Lines(text)|,
       stdout := p.stdout + Served(env.codec, env.handlers(g), p.served, Lines(text)))
  }

  function Written(env: Env, p: Proc, call: Call): Proc {
    p.(sent := p.sent + [call],
       stdin := p.stdin + (env.codec.stringify(RequestJson(call.op, call.id, call.args)) + "\n"))
  }

  function Chunk(p: Proc, n: nat): string
    requires p.delivered + n <= |p.stdout|
  {
    p.stdout[p.delivered..p.delivered + n]
  }

  function Delivering(p: Proc, n: nat): Proc
    requires p.delivered + n <= |p.stdout|
  {
    var text := p.partial + Chunk(p, n);
    p.(delivered := p.delivered + n, arrived := p.arrived + |Lines(text)|, partial := Rest(text))
  }

  function Exiting(p: Proc, keep: nat): Proc
    requires keep <= |p.stdout|
  {
    p.(exited := true, stdout := p.stdout[..keep])
  }

  /** The processes after an accepted request: its call is written to the last one, old or new. */
  function Issuing(env: Env, w: World, call: Call): seq<Proc> {
    if w.client.hasChild && w.procs != [] && !Last(w.procs).exited
    then w.procs[|w.procs| - 1 := Written(env, Last(w.procs), call)]
    else w.procs + [Written(env, FRESH, call)]
  }

  function StepProcs(env: Env, w: World, a: Action): seq<Proc>
    requires Possible(w, a)
  {
    match a
    case Requests(op, args, spawnOk) =>
      if !Accepts(w.client, LastExited(w.procs), spawnOk) then w.procs
      else Issuing(env, w, Call(ReqId(w.client.nextSeq + 1), op, args))
    case ServerReads(g, n) => w.procs[g := Reading(env, g, w.procs[g], n)]
    case Delivers(g, n) => w.procs[g := Delivering(w.procs[g], n)]
    case Exits(g, keep) => w.procs[g := Exiting(w.procs[g], keep)]
    case _ => w.procs
  }

  function StepClient(env: Env, w: World, a: Action): ClientState
    requires Possible(w, a)
  {
    var parse, c := env.codec.parse, w.client;
    match a
    case Requests(op, args, spawnOk) => SidecarState.Step(parse, c, ERequest(LastExited(w.procs), spawnOk))
    case Delivers(g, n) => SidecarState.Step(parse, c, EChunk(Chunk(w.procs[g], n)))
    case TimerFires(id) => SidecarState.Step(parse, c, ETimeout(id))
    case WriteFails(id) => SidecarState.Step(parse, c, EWriteError(id))
    case ChildErrors => SidecarState.Step(parse, c, EChildError)
    case ChildCloses => SidecarState.Step(parse, c, EChildClose)
    case CloseCalled => SidecarState.Step(parse, c, EClose)
    case _ => c
  }

  function Step(env: Env, w: World, a: Action): World {
    if Enabled(w, a) then World(StepClient(env, w, a), StepProcs(env, w, a)) else w
  }

  function Execute(env: Env, w: World, actions: seq<Action>): World
    decreases |actions|
  {
    if actions == [] then w else Execute(env, Step(env, w, actions[0]), actions[1..])
  }

  // ---------------------------------------------------------------- the streams of one process

  function Fields(call: Call): Object {
    RequestJson(call.op, call.id, call.args).fields
  }

  /** What process g answers to its k-th line when that line is `call`. */
  function Reply(env: Env, g: nat, k: nat, call: Call): Json {
    HandleRequest(env.handlers(g), k, Fields(call))
  }

  function RequestLines(env: Env, calls: seq<Call>): seq<string> {
    seq(|calls|, i requires 0 <= i < |calls| => env.codec.stringify(JObject(Fields(calls[i]))))
  }

  function ReplyLines(env: Env, g: nat, calls: seq<Call>): seq<string> {
    seq(|calls|, i requires 0 <= i < |calls| => env.codec.dumps(Reply(env, g, i, calls[i])))
  }

  ghost predicate InputOk(env: Env, p: Proc) {
    && p.stdin == Unlines(RequestLines(env, p.sent))
    && p.read <= |p.stdin|
    && p.served == |Lines(p.stdin[..p.read])|
    && p.inBuffer == Rest(p.stdin[..p.read])
  }

  ghost predicate OutputOk(env: Env, g: nat, p: Proc) {
    && p.arrived <= p.served <= |p.sent|
    && p.stdout <= Unlines(ReplyLines(env, g, p.sent)[..p.served])
    && (!p.exited ==> p.stdout == Unlines(ReplyLines(env, g, p.sent)[..p.served]))
    && p.delivered <= |p.stdout|
    && p.arrived == |Lines(p.stdout[..p.delivered])|
    && p.partial == Rest(p.stdout[..p.delivered])
  }

  ghost predicate ProcsOk(env: Env, procs: seq<Proc>) {
    forall g :: 0 <= g < |procs| ==> InputOk(env, procs[g]) && OutputOk(env, g, procs[g])
  }

  lemma LinesClean(env: Env, g: nat, calls: seq<Call>)
    requires env.codec.Lawful()
    ensures NewlineFree(RequestLines(env, calls)) && NewlineFree(ReplyLines(env, g, calls))
  {
    forall i | 0 <= i < |calls|
      ensures '\n' !in RequestLines(env, calls)[i] && '\n' !in ReplyLines(env, g, calls)[i]
    {
      assert OneLine(env.codec.stringify(JObject(Fields(calls[i]))));
      assert OneLine(env.codec.dumps(Reply(env, g, i, calls[i])));
    }
  }

  /** Serving a stretch of request lines writes the replies to exactly those calls. */
  lemma {:induction false} ServedReplies(env: Env, g: nat, calls: seq<Call>, i: nat, j: nat)
    requires env.codec.Lawful() && i <= j <= |calls|
    ensures Served(env.codec, env.handlers(g), i, RequestLines(env, calls)[i..j])
            == Unlines(ReplyLines(env, g, calls)[i..j])
    decreases j - i
  {
    if i < j {
      ServedReplies(env, g, calls, i + 1, j);
      var lines, replies := RequestLines(env, calls)[i..j], ReplyLines(env, g, calls)[i..j];
      assert lines[1..] == RequestLines(env, calls)[i + 1..j];
      assert replies[1..] == ReplyLines(env, g, calls)[i + 1..j];
      assert lines[0] == env.codec.stringify(JObject(Fields(calls[i])));
      assert HandleLine(env.codec, env.handlers(g), i, lines[0]) == Some(Reply(env, g, i, calls[i]));
    }
  }

  lemma UnlinesExtend(ls: seq<string>, a: nat, b: nat)
    requires a <= b <= |ls|
    ensures Unlines(ls[..a]) + Unlines(ls[a..b]) == Unlines(ls[..b])
  {
    UnlinesAppend(ls[..a], ls[a..b]);
    assert ls[..a] + ls[a..b] == ls[..b];
  }

  lemma ReadingOk(env: Env, g: nat, p: Proc, n: nat)
    requires env.codec.Lawful() && InputOk(env, p) && OutputOk(env, g, p) && !p.exited && p.read + n <= |p.stdin|
    ensures InputOk(env, Reading(env, g, p, n)) && OutputOk(env, g, Reading(env, g, p, n))
  {
    hide Lines, Rest, Unlines, Served, Reply;
    var q := Reading(env, g, p, n);
    LinesClean(env, g, p.sent);
    assert p.stdin[..p.read] + p.stdin[p.read..q.read] == p.stdin[..q.read];
    FramingWindow(RequestLines(env, p.sent), p.stdin[..p.read], p.stdin[p.read..q.read]);
    ServedReplies(env, g, p.sent, p.served, q.served);
    UnlinesExtend(ReplyLines(env, g, p.sent), p.served, q.served);
    assert q.stdout[..q.delivered] == p.stdout[..p.delivered];
  }

  lemma WrittenOk(env: Env, g: nat, p: Proc, call: Call)
    requires InputOk(env, p) && OutputOk(env, g, p)
    ensures InputOk(env, Written(env, p, call)) && OutputOk(env, g, Written(env, p, call))
  {
    var q := Written(env, p, call);
    var line := env.codec.stringify(JObject(Fields(call)));
    assert RequestLines(env, q.sent) == RequestLines(env, p.sent) + [line];
    UnlinesAppend(RequestLines(env, p.sent), [line]);
    assert Unlines([line]) == line + "\n";
    assert q.stdin[..p.read] == p.stdin[..p.read];
    assert ReplyLines(env, g, q.sent)[..p.served] == ReplyLines(env, g, p.sent)[..p.served];
  }

  /** The lines a chunk of output completes are the next replies. */
  lemma DeliveringOk(env: Env, g: nat, p: Proc, n: nat)
    requires env.codec.Lawful() && OutputOk(env, g, p) && p.delivered + n <= |p.stdout|
    ensures
      var q := Delivering(p, n);
      && (InputOk(env, p) ==> InputOk(env, q)) && OutputOk(env, g, q) && p.arrived <= q.arrived
      && Lines(p.partial + Chunk(p, n)) == ReplyLines(env, g, p.sent)[p.arrived..q.arrived]
  {
    hide Lines, Rest, Unlines, Reply;
    var q := Delivering(p, n);
    var seen, chunk := p.stdout[..p.delivered], Chunk(p, n);
    assert seen + chunk == q.stdout[..q.delivered];
    var replies := ReplyLines(env, g, p.sent)[..p.served];
    LinesClean(env, g, p.sent);
    FramingWindow(replies, seen, chunk);
    assert replies[p.arrived..q.arrived] == ReplyLines(env, g, p.sent)[p.arrived..q.arrived];
  }

  lemma ExitingOk(env: Env, g: nat, p: Proc, keep: nat)
    requires InputOk(env, p) && OutputOk(env, g, p) && p.delivered <= keep <= |p.stdout|
    ensures InputOk(env, Exiting(p, keep)) && OutputOk(env, g, Exiting(p, keep))
  {
    assert p.stdout[..keep][..p.delivered] == p.stdout[..p.delivered];
  }

  lemma StepProcsOk(env: Env, w: World, a: Action)
    requires env.codec.Lawful() && ProcsOk(env, w.procs) && Enabled(w, a)
    ensures ProcsOk(env, StepProcs(env, w, a))
  {
    hide InputOk, OutputOk, Reading, Written, Delivering, Exiting, ReqId;
    match a
    case Requests(op, args, spawnOk) =>
      var call := Call(ReqId(w.client.nextSeq + 1), op, args);
      if w.procs != [] { WrittenOk(env, |w.procs| - 1, Last(w.procs), call); }
      FreshOk(env, |w.procs|);
      WrittenOk(env, |w.procs|, FRESH, call);
    case ServerReads(g, n) => ReadingOk(env, g, w.procs[g], n);
    case Delivers(g, n) => DeliveringOk(env, g, w.procs[g], n);
    case Exits(g, keep) => ExitingOk(env, g, w.procs[g], keep);
    case _ =>
  }

  lemma FreshOk(env: Env, g: nat)
    ensures InputOk(env, FRESH) && OutputOk(env, g, FRESH)
  {
    assert Lines("") == [] && Rest("") == "";
  }

  // ---------------------------------------------------------------- call ids

  /** Call k of process g is the one that was given `id`. */
  predicate Sent(procs: seq<Proc>, g: nat, k: nat, id: string) {
    g < |procs| && k < |procs[g].sent| && procs[g].sent[k].id == id
  }

  /** Every call has an id of its own. */
  ghost predicate SentOnce(procs: seq<Proc>, n: nat) {
    && (forall g: nat, k: nat, id :: Sent(procs, g, k, id) ==> WasIssued(n, id))
    && (forall g: nat, k: nat, g': nat, k': nat, id ::
          Sent(procs, g, k, id) && Sent(procs, g', k', id) ==> g == g' && k == k')
  }

  lemma OldIdDiffers(n: nat, id: string)
    requires WasIssued(n, id)
    ensures WasIssued(n + 1, id) && id != ReqId(n + 1) && id != ""
  {
    var i: nat :| 1 <= i <= n && id == ReqId(i);
    if id == ReqId(n + 1) {
      ReqIdInjective(i, n + 1);
    }
  }

  lemma IssuingSentOnce(env: Env, w: World, call: Call)
    requires SentOnce(w.procs, w.client.nextSeq) && call.id == ReqId(w.client.nextSeq + 1)
    ensures SentOnce(Issuing(env, w, call), w.client.nextSeq + 1)
  {
    var procs, n := Issuing(env, w, call), w.client.nextSeq + 1;
    var last := |procs| - 1;
    var top := |procs[last].sent| - 1;
    forall g: nat, k: nat, id | Sent(procs, g, k, id)
      ensures WasIssued(n, id)
      ensures if g == last && k == top then id == ReqId(n) else Sent(w.procs, g, k, id) && id != ReqId(n)
    {
      if g != last || k != top {
        assert Sent(w.procs, g, k, id);
        OldIdDiffers(w.client.nextSeq, id);
      }
    }
  }

  lemma StepSentOnce(env: Env, w: World, a: Action)
    requires Enabled(w, a) && SentOnce(w.procs, w.client.nextSeq)
    ensures SentOnce(StepProcs(env, w, a), StepClient(env, w, a).nextSeq)
  {
    if a.Requests? {
      if Accepts(w.client, LastExited(w.procs), a.spawnOk) {
        IssuingSentOnce(env, w, Call(ReqId(w.client.nextSeq + 1), a.op, a.args));
      }
    } else {
      NextSeqKept(env, w, a);
      var procs := StepProcs(env, w, a);
      forall g: nat, k: nat, id | Sent(procs, g, k, id) ensures Sent(w.procs, g, k, id) {}
    }
  }

  lemma NextSeqKept(env: Env, w: World, a: Action)
    requires Enabled(w, a) && !a.Requests?
    ensures StepClient(env, w, a).nextSeq == w.client.nextSeq
    ensures StepClient(env, w, a).closed == (w.client.closed || a.CloseCalled?)
    ensures StepClient(env, w, a).hasChild == (w.client.hasChild && !a.CloseCalled?)
    ensures !a.Delivers? ==> StepClient(env, w, a).buffer == w.client.buffer
  {
    if a.Delivers? {
      var text := w.client.buffer + Chunk(w.procs[a.g], a.n);
      LinesFrame(env.codec.parse, w.client.(buffer := Rest(text)), Lines(text));
    }
  }

  lemma {:induction false} LinesFrame(parse: string -> Option<Json>, c: ClientState, lines: seq<string>)
    ensures var d := OnLines(parse, c, lines); d == c.(pending := d.pending, armed := d.armed, settled := d.settled)
    decreases |lines|
  {
    if lines != [] { LinesFrame(parse, OnLine(parse, c, lines[0]), lines[1..]); }
  }

  // ---------------------------------------------------------------- the client's buffer

  /** The client's buffer is the partial line of the last child's delivered output. */
  ghost predicate Linked(c: ClientState, procs: seq<Proc>) {
    && (c.hasChild ==> procs != [])
    && (!c.closed && procs != [] ==> c.hasChild)
    && (procs == [] ==> c.buffer == "")
    && (forall g :: 0 <= g < |procs| - 1 ==> Drained(procs[g]))
    && (procs != [] ==> c.buffer == Last(procs).partial || Drained(Last(procs)))
  }

  lemma OnlyLastDelivers(c: ClientState, procs: seq<Proc>, g: nat, n: nat)
    requires Linked(c, procs) && g < |procs| && 0 < n && procs[g].delivered + n <= |procs[g].stdout|
    ensures g == |procs| - 1 && c.buffer == procs[g].partial
  {
    assert !Drained(procs[g]);
  }

  lemma StepLinked(env: Env, w: World, a: Action)
    requires Enabled(w, a) && Linked(w.client, w.procs)
    ensures Linked(StepClient(env, w, a), StepProcs(env, w, a))
  {
    if a.Delivers? {
      var text := w.client.buffer + Chunk(w.procs[a.g], a.n);
      OnlyLastDelivers(w.client, w.procs, a.g, a.n);
      LinesFrame(env.codec.parse, w.client.(buffer := Rest(text)), Lines(text));
    } else if !a.Requests? {
      NextSeqKept(env, w, a);
    }
  }

  // ---------------------------------------------------------------- what a settlement means

  /** What a caller must see of an answer, said of the op and of what its handler came to. */
  predicate Reports(o: Outcome, op: string, r: HandlerOutcome) {
    if op !in {"ping", "health", "index_vault", "query"}
    then o == SidecarError(JString("unknown_op"), JString("unknown op: " + op))
    else
      match r
      case Data(d) => o == Resolved(JObject(d))
      case OpError(code, message) => o == SidecarError(JString(code), JString(message))
      case Raised(text) => o == SidecarError(JString("internal_error"), JString(text))
  }

  /** What the handler of call k of process g came to is the reason for this outcome. */
  predicate Answers(env: Env, procs: seq<Proc>, g: nat, k: nat, s: Settlement)
    requires Sent(procs, g, k, s.id)
  {
    var call := procs[g].sent[k];
    Reports(s.outcome, call.op, env.handlers(g)(k, call.op, call.args.GetOr(map[])))
  }

  /** The server's answer to one call, whatever line it stands on. */
  lemma ReplyMeans(h: Handlers, k: nat, call: Call)
    requires call.id != ""
    ensures
      var j := HandleRequest(h, k, Fields(call));
      && IsEnvelope(j) && Field(j, "req_id") == JString(call.id)
      && Reports(OutcomeOf(j), call.op, h(k, call.op, call.args.GetOr(map[])))
  {
    if call.op in OPS { assert HandleRequest(h, k, Fields(call)) == Respond(call.id, h(k, call.op, call.args.GetOr(map[]))); }
  }

  /**
   * A request line with an id is answered by one line that the client reads back, for that id, as exactly what
   * the handler came to: data resolves, and each kind of failure is told apart.
   */
  lemma AnswerMeans(codec: Codec, h: Handlers, k: nat, call: Call)
    requires codec.Lawful() && call.id != ""
    ensures
      var answer := HandleLine(codec, h, k, codec.stringify(RequestJson(call.op, call.id, call.args)));
      answer.Some?
      && var read := codec.parse(codec.dumps(answer.value));
      && read.Some? && IsEnvelope(read.value) && Field(read.value, "req_id") == JString(call.id)
      && Reports(OutcomeOf(read.value), call.op, h(k, call.op, call.args.GetOr(map[])))
  {
    hide HandleRequest, Reports, OutcomeOf, IsEnvelope, RequestJson, Field;
    ReplyMeans(h, k, call);
    assert RequestJson(call.op, call.id, call.args) == JObject(Fields(call)) by { RequestIsObject(call); }
    assert OneLine(codec.stringify(JObject(Fields(call))));
  }

  lemma RequestIsObject(call: Call)
    ensures RequestJson(call.op, call.id, call.args) == JObject(Fields(call))
  {
  }

  /** The id an answer can go to: that of an object with a non-empty one. */
  function UsableId(request: Json): string {
    if Field(request, "req_id").JString? then Field(request, "req_id").s else ""
  }

  /** A request the server dispatches: an id, a text for its op and, for an op it knows, arguments or none. */
  predicate Dispatched(request: Json) {
    && UsableId(request) != "" && Field(request, "op").JString?
    && (Field(request, "op").s in OPS ==> Field(request, "args").JNull? || Field(request, "args").JObject?)
  }

  /**
   * Any object is answered under its id, if it has one; what is not dispatched is refused as malformed, and
   * what is gets its handler's outcome.
   */
  lemma RequestMeans(h: Handlers, k: nat, fields: Object)
    ensures
      var j, request := HandleRequest(h, k, fields), JObject(fields);
      && IsEnvelope(j) && Field(j, "req_id") == JString(UsableId(request))
      && if Dispatched(request) then
           var args := Field(request, "args");
           Reports(OutcomeOf(j), Field(request, "op").s, h(k, Field(request, "op").s, if args.JObject? then args.fields else map[]))
         else OutcomeOf(j).SidecarError? && OutcomeOf(j).code == JString("malformed_request")
  {
    var request := JObject(fields);
    var args := Field(request, "args");
    if Dispatched(request) && Field(request, "op").s in OPS {
      assert HandleRequest(h, k, fields)
             == Respond(UsableId(request), h(k, Field(request, "op").s, if args.JObject? then args.fields else map[]));
    }
  }

  /** A line that holds something, but no object, is refused as malformed, under no id. */
  lemma NoObjectMeans(codec: Codec, h: Handlers, k: nat, line: string)
    requires !Blank(line, PySpace) && (codec.loads(line).Some? ==> !codec.loads(line).value.JObject?)
    ensures
      var answer := HandleLine(codec, h, k, line);
      && answer.Some? && IsEnvelope(answer.value) && Field(answer.value, "req_id") == JString("")
      && OutcomeOf(answer.value).SidecarError? && OutcomeOf(answer.value).code == JString("malformed_request")
  {
  }

  ghost predicate Justified(env: Env, procs: seq<Proc>, s: Settlement) {
    match s.outcome
    case Timeout => true
    case SpawnFailed => true
    case ProtocolError(why) => why == Exited
    case _ => exists g: nat, k: nat :: Sent(procs, g, k, s.id) && Answers(env, procs, g, k, s)
  }

  ghost predicate AllJustified(env: Env, procs: seq<Proc>, ss: seq<Settlement>) {
    forall i :: 0 <= i < |ss| ==> Justified(env, procs, ss[i])
  }

  ghost predicate SameCalls(procs: seq<Proc>, more: seq<Proc>) {
    |procs| <= |more| && forall g :: 0 <= g < |procs| ==> procs[g].sent <= more[g].sent
  }

  lemma StillJustified(env: Env, procs: seq<Proc>, more: seq<Proc>, ss: seq<Settlement>)
    requires AllJustified(env, procs, ss) && SameCalls(procs, more)
    ensures AllJustified(env, more, ss)
  {
    forall i | 0 <= i < |ss| ensures Justified(env, more, ss[i]) {
      var s := ss[i];
      if s.outcome.Resolved? || s.outcome.SidecarError? {
        var g: nat, k: nat :| Sent(procs, g, k, s.id) && Answers(env, procs, g, k, s);
        assert procs[g].sent <= more[g].sent;
        assert Sent(more, g, k, s.id) && Answers(env, more, g, k, s);
      }
    }
  }

  /** How the client may move when promises settle: justly, and nothing else changes. */
  ghost predicate Advances(env: Env, procs: seq<Proc>, c: ClientState, d: ClientState) {
    && AllJustified(env, procs, d.settled)
    && Accounted(d)
    && (forall x :: x in d.pending ==> x in c.pending)
  }

  lemma ReplyOutcome(env: Env, procs: seq<Proc>, g: nat, k: nat)
    requires g < |procs| && k < |procs[g].sent| && procs[g].sent[k].id != ""
    ensures
      var call := procs[g].sent[k];
      var j := Reply(env, g, k, call);
      && IsEnvelope(j) && Field(j, "req_id") == JString(call.id)
      && Sent(procs, g, k, call.id) && Answers(env, procs, g, k, Settlement(call.id, OutcomeOf(j)))
  {
    ReplyMeans(env.handlers(g), k, procs[g].sent[k]);
  }

  lemma WithoutDrops(c: ClientState, id: string)
    requires Accounted(c) && id in c.pending
    ensures id !in Without(c.pending, id)
    ensures forall x :: x in Without(c.pending, id) ==> x in c.pending
  {
    PendingDistinct(c, id);
    WithoutCount(c.pending, id);
    assert multiset(Without(c.pending, id))[id] == 0;
    forall x | x in Without(c.pending, id) ensures x in c.pending { WithoutSubset(c.pending, id, x); }
  }

  /** A reply line settles its own call, or is dropped because nothing waits for it. */
  lemma OnReply(env: Env, procs: seq<Proc>, c: ClientState, g: nat, k: nat)
    requires env.codec.Lawful() && Accounted(c)
    requires g < |procs| && k < |procs[g].sent| && procs[g].sent[k].id != ""
    requires AllJustified(env, procs, c.settled)
    ensures
      var d := OnLine(env.codec.parse, c, env.codec.dumps(Reply(env, g, k, procs[g].sent[k])));
      Advances(env, procs, c, d) && procs[g].sent[k].id !in d.pending
  {
    hide Reply, Reports, Accounted, IsEnvelope, Without, Field;
    var call := procs[g].sent[k];
    var j := Reply(env, g, k, call);
    ReplyOutcome(env, procs, g, k);
    OnLineAccounted(env.codec.parse, c, env.codec.dumps(j));
    assert OneLine(env.codec.dumps(j));
    assert OnLine(env.codec.parse, c, env.codec.dumps(j)) == Settle(c, call.id, OutcomeOf(j));
    if call.id in c.pending {
      assert Sent(procs, g, k, call.id);
      WithoutDrops(c, call.id);
    }
  }

  lemma {:induction false} OnReplies(env: Env, procs: seq<Proc>, c: ClientState, g: nat, i: nat, j: nat, lines: seq<string>)
    requires env.codec.Lawful() && Accounted(c)
    requires g < |procs| && i <= j <= |procs[g].sent|
    requires forall k :: 0 <= k < |procs[g].sent| ==> procs[g].sent[k].id != ""
    requires lines == ReplyLines(env, g, procs[g].sent)[i..j]
    requires AllJustified(env, procs, c.settled)
    ensures
      var d := OnLines(env.codec.parse, c, lines);
      Advances(env, procs, c, d) && forall k :: i <= k < j ==> procs[g].sent[k].id !in d.pending
    decreases j - i
  {
    hide OnLine, Reply, Accounted, AllJustified;
    if i < j {
      assert lines[0] == env.codec.dumps(Reply(env, g, i, procs[g].sent[i]));
      assert lines[1..] == ReplyLines(env, g, procs[g].sent)[i + 1..j];
      OnReply(env, procs, c, g, i);
      OnReplies(env, procs, OnLine(env.codec.parse, c, lines[0]), g, i + 1, j, lines[1..]);
    }
  }

  // ---------------------------------------------------------------- settling keeps the promises

  /** A reply that has arrived leaves its call settled. */
  ghost predicate NoneOverlooked(procs: seq<Proc>, pending: seq<string>) {
    forall g: nat, k: nat :: g < |procs| && k < procs[g].arrived && k < |procs[g].sent|
      ==> procs[g].sent[k].id !in pending
  }

  ghost predicate Kept(env: Env, c: ClientState, procs: seq<Proc>) {
    Accounted(c) && AllJustified(env, procs, c.settled) && NoneOverlooked(procs, c.pending)
  }

  lemma SettleKept(env: Env, c: ClientState, procs: seq<Proc>, id: string, o: Outcome)
    requires Kept(env, c, procs) && id in c.pending && (o == SpawnFailed || o == Timeout)
    ensures Kept(env, c.(pending := Without(c.pending, id), armed := c.armed - {id},
                         settled := c.settled + [Settlement(id, o)]), procs)
  {
    SettleAccounted(c, id, o);
    WithoutDrops(c, id);
  }

  lemma FailAllKept(env: Env, c: ClientState, procs: seq<Proc>, o: Outcome)
    requires Kept(env, c, procs) && (o == SpawnFailed || o == ProtocolError(Exited))
    ensures Kept(env, FailAll(c, o), procs)
  {
    FailAllAccounted(c, o);
  }

  lemma RequestsKept(env: Env, w: World, a: Action)
    requires a.Requests? && Enabled(w, a)
    requires Kept(env, w.client, w.procs) && SentOnce(w.procs, w.client.nextSeq)
    requires ProcsOk(env, w.procs)
    ensures Kept(env, StepClient(env, w, a), StepProcs(env, w, a))
  {
    hide ReqId, Justified, Accounted, RequestLines, ReplyLines, RequestJson, Lines, Rest, Unlines, InputOk;
    RequestAccounted(w.client, LastExited(w.procs), a.spawnOk);
    var procs := StepProcs(env, w, a);
    StillJustified(env, w.procs, procs, w.client.settled);
    if Accepts(w.client, LastExited(w.procs), a.spawnOk) {
      forall g: nat, k: nat | g < |procs| && k < procs[g].arrived && k < |procs[g].sent|
        ensures procs[g].sent[k].id !in w.client.pending + [ReqId(w.client.nextSeq + 1)]
      {
        assert g < |w.procs| by { assert FRESH.arrived == 0; }
        assert OutputOk(env, g, w.procs[g]);
        var id := w.procs[g].sent[k].id;
        assert procs[g].sent[k].id == id && Sent(w.procs, g, k, id);
        OldIdDiffers(w.client.nextSeq, id);
      }
    }
  }

  lemma DeliversKept(env: Env, w: World, g: nat, n: nat)
    requires env.codec.Lawful() && Enabled(w, Delivers(g, n)) && Linked(w.client, w.procs)
    requires OutputOk(env, g, w.procs[g]) && SentOnce(w.procs, w.client.nextSeq)
    requires Kept(env, w.client, w.procs)
    ensures Kept(env, StepClient(env, w, Delivers(g, n)), StepProcs(env, w, Delivers(g, n)))
  {
    var p, c, a := w.procs[g], w.client, Delivers(g, n);
    var q := Delivering(p, n);
    OnlyLastDelivers(c, w.procs, g, n);
    DeliveringOk(env, g, p, n);
    var text := p.partial + Chunk(p, n);
    forall k | 0 <= k < |p.sent| ensures p.sent[k].id != "" {
      assert Sent(w.procs, g, k, p.sent[k].id);
      OldIdDiffers(c.nextSeq, p.sent[k].id);
    }
    OnReplies(env, w.procs, c.(buffer := Rest(text)), g, p.arrived, q.arrived, Lines(text));
    ArrivalKept(env, c, w.procs, g, q, StepClient(env, w, a));
  }

  lemma ArrivalKept(env: Env, c: ClientState, procs: seq<Proc>, g: nat, q: Proc, d: ClientState)
    requires g < |procs| && q.sent == procs[g].sent && q.arrived <= |q.sent|
    requires Kept(env, c, procs) && Advances(env, procs, c, d)
    requires forall k :: procs[g].arrived <= k < q.arrived ==> q.sent[k].id !in d.pending
    ensures Kept(env, d, procs[g := q])
  {
    StillJustified(env, procs, procs[g := q], d.settled);
  }

  // ---------------------------------------------------------------- every action keeps the invariant

  ghost predicate Good(env: Env, w: World) {
    && ProcsOk(env, w.procs)
    && Linked(w.client, w.procs)
    && SentOnce(w.procs, w.client.nextSeq)
    && Kept(env, w.client, w.procs)
  }

  lemma StepKept(env: Env, w: World, a: Action)
    requires env.codec.Lawful() && Good(env, w) && Enabled(w, a)
    ensures Kept(env, StepClient(env, w, a), StepProcs(env, w, a))
  {
    hide ReqId, Justified, Accounted, InputOk, OutputOk, Lines, Rest, Served;
    match a
    case Requests(op, args, spawnOk) => RequestsKept(env, w, a);
    case Delivers(g, n) => DeliversKept(env, w, g, n);
    case TimerFires(id) =>
      ArmedPending(w.client, id);
      if id in w.client.armed { SettleKept(env, w.client, w.procs, id, Timeout); }
    case WriteFails(id) => if id in w.client.pending { SettleKept(env, w.client, w.procs, id, SpawnFailed); }
    case ChildErrors => FailAllKept(env, w.client, w.procs, SpawnFailed);
    case ChildCloses => FailAllKept(env, w.client, w.procs, ProtocolError(Exited));
    case CloseCalled => CloseAccounted(w.client);
    case _ => StillJustified(env, w.procs, StepProcs(env, w, a), w.client.settled);
  }

  lemma {:induction false} ExecuteGood(env: Env, w: World, actions: seq<Action>)
    requires env.codec.Lawful() && Good(env, w)
    ensures Good(env, Execute(env, w, actions))
    decreases |actions|
  {
    if actions != [] {
      var a := actions[0];
      if Enabled(w, a) {
        StepProcsOk(env, w, a);
        StepLinked(env, w, a);
        StepSentOnce(env, w, a);
        StepKept(env, w, a);
      }
      ExecuteGood(env, Step(env, w, a), actions[1..]);
    }
  }

  // ---------------------------------------------------------------- nothing settles without cause

  /** What must have happened for a promise to settle this way. */
  ghost predicate Caused(actions: seq<Action>, s: Settlement) {
    match s.outcome
    case Timeout => TimerFires(s.id) in actions
    case SpawnFailed => WriteFails(s.id) in actions || ChildErrors in actions
    case ProtocolError(why) => why == Exited ==> ChildCloses in actions
    case _ => true
  }

  ghost predicate AllCaused(actions: seq<Action>, ss: seq<Settlement>) {
    forall i :: 0 <= i < |ss| ==> Caused(actions, ss[i])
  }

  lemma {:induction false} LinesCaused(parse: string -> Option<Json>, c: ClientState, lines: seq<string>, actions: seq<Action>)
    requires AllCaused(actions, c.settled)
    ensures AllCaused(actions, OnLines(parse, c, lines).settled)
    decreases |lines|
  {
    if lines != [] { LinesCaused(parse, OnLine(parse, c, lines[0]), lines[1..], actions); }
  }

  lemma StepCaused(env: Env, w: World, before: seq<Action>, a: Action)
    requires AllCaused(before, w.client.settled)
    ensures AllCaused(before + [a], Step(env, w, a).client.settled)
  {
    hide OnLines, Lines, Rest;
    var actions := before + [a];
    assert a in actions;
    forall i | 0 <= i < |w.client.settled| ensures Caused(actions, w.client.settled[i]) {
      assert Caused(before, w.client.settled[i]);
    }
    if a.Delivers? && Enabled(w, a) {
      var text := w.client.buffer + Chunk(w.procs[a.g], a.n);
      LinesCaused(env.codec.parse, w.client.(buffer := Rest(text)), Lines(text), actions);
    }
  }

  lemma {:induction false} ExecuteCaused(env: Env, w: World, before: seq<Action>, actions: seq<Action>)
    requires AllCaused(before, w.client.settled)
    ensures AllCaused(before + actions, Execute(env, w, actions).client.settled)
    decreases |actions|
  {
    hide Caused, Step;
    if actions == [] {
      assert before + actions == before;
    } else {
      StepCaused(env, w, before, actions[0]);
      ExecuteCaused(env, Step(env, w, actions[0]), before + [actions[0]], actions[1..]);
      assert before + [actions[0]] + actions[1..] == before + actions;
    }
  }

  // ---------------------------------------------------------------- the theorems

  /**
   * A promise that resolves does so with what the handler of its own op returned for its own arguments;
   * one rejected with sidecar_error got the error that handler reported or raised, or its op is unknown; and a
   * protocol error is only ever the report of a child's exit. Timeouts, failed writes, failed children and exits
   * are reported only when they happened, and no other call carries the same id.
   */
  lemma EndToEnd(env: Env, actions: seq<Action>, i: nat)
    requires env.codec.Lawful()
    requires i < |Execute(env, START, actions).client.settled|
    ensures
      var w := Execute(env, START, actions);
      var s := w.client.settled[i];
      && Justified(env, w.procs, s) && Caused(actions, s)
      && (forall g: nat, k: nat, g': nat, k': nat ::
            Sent(w.procs, g, k, s.id) && Sent(w.procs, g', k', s.id) ==> g == g' && k == k')
  {
    ExecuteGood(env, START, actions);
    ExecuteCaused(env, START, [], actions);
    assert [] + actions == actions;
  }

  /** A reply line that has wholly arrived has settled its call: no answer is dropped while someone waits. */
  lemma ArrivedMeansSettled(env: Env, actions: seq<Action>, g: nat, k: nat)
    requires env.codec.Lawful()
    requires
      var procs := Execute(env, START, actions).procs;
      g < |procs| && procs[g].delivered <= |procs[g].stdout| && k < |Lines(procs[g].stdout[..procs[g].delivered])|
    ensures
      var w := Execute(env, START, actions);
      k < |w.procs[g].sent| && w.procs[g].sent[k].id in Ids(w.client.settled)
  {
    ExecuteGood(env, START, actions);
    var w := Execute(env, START, actions);
    assert OutputOk(env, g, w.procs[g]);
    var id := w.procs[g].sent[k].id;
    assert Sent(w.procs, g, k, id);
    AccountedFor(w.client, id);
  }

  lemma AccountedFor(c: ClientState, id: string)
    requires Accounted(c) && WasIssued(c.nextSeq, id) && id !in c.pending
    ensures id in Ids(c.settled)
  {
    IssuedDistinct(c.nextSeq, id);
    assert (multiset(c.pending) + multiset(Ids(c.settled)))[id] == 1;
    assert multiset(c.pending)[id] == 0;
  }

  // ---------------------------------------------------------------- progress

  /** An accepted request is on its way: written to the running child, or to a new one, and waiting for its answer. */
  lemma RequestIsSent(env: Env, w: World, a: Action)
    requires a.Requests? && Enabled(w, a) && Accepts(w.client, LastExited(w.procs), a.spawnOk)
    ensures
      var v := Step(env, w, a);
      && v.procs != [] && Last(v.procs).sent != []
      && var call := Last(v.procs).sent[|Last(v.procs).sent| - 1];
      && call == Call("r" + Decimal(w.client.nextSeq + 1), a.op, a.args)
      && v.client.pending == w.client.pending + [call.id] && call.id in v.client.armed
  {
  }

  /** The child reads all of its stdin and all of its output is delivered. */
  function Drain(env: Env, w: World): World
    requires w.procs != []
  {
    var g := |w.procs| - 1;
    var read := Step(env, w, ServerReads(g, Unread(w.procs[g])));
    if |read.procs| == |w.procs| then Step(env, read, Delivers(g, Undelivered(read.procs[g]))) else read
  }

  function Unread(p: Proc): nat {
    if p.read <= |p.stdin| then |p.stdin| - p.read else 0
  }

  function Undelivered(p: Proc): nat {
    if p.delivered <= |p.stdout| then |p.stdout| - p.delivered else 0
  }

  /** Lines settle nothing as a timeout, a failure to spawn or an exit. */
  lemma {:induction false} LinesSettle(parse: string -> Option<Json>, c: ClientState, lines: seq<string>)
    ensures
      var d := OnLines(parse, c, lines);
      && c.settled <= d.settled
      && forall i :: |c.settled| <= i < |d.settled| ==>
           var o := d.settled[i].outcome; !o.Timeout? && !o.SpawnFailed? && o != ProtocolError(Exited)
    decreases |lines|
  {
    hide Without;
    if lines != [] { LinesSettle(parse, OnLine(parse, c, lines[0]), lines[1..]); }
  }

  lemma OneStepGood(env: Env, w: World, a: Action)
    requires env.codec.Lawful() && Good(env, w)
    ensures Good(env, Step(env, w, a))
  {
    hide Good, Step;
    ExecuteGood(env, w, [a]);
    assert [a][1..] == [];
    assert Execute(env, w, [a]) == Execute(env, Step(env, w, a), []);
  }

  lemma LineCounts(env: Env, g: nat, calls: seq<Call>)
    ensures |RequestLines(env, calls)| == |calls| && |ReplyLines(env, g, calls)| == |calls|
  {
  }

  /** Once the last child has read everything it has answered everything. */
  lemma AllServed(env: Env, w: World)
    requires env.codec.Lawful() && Good(env, w) && w.procs != [] && !Last(w.procs).exited
    ensures
      var g := |w.procs| - 1;
      var v := Step(env, w, ServerReads(g, Unread(w.procs[g])));
      && Good(env, v) && v.client == w.client && |v.procs| == |w.procs| && v.procs[g].sent == w.procs[g].sent
      && v.procs[g].served == |v.procs[g].sent| && !v.procs[g].exited
  {
    hide Justified, Accounted, Lines, Rest, Served, Unlines, RequestLines, ReplyLines, SentOnce, Linked, Kept;
    var g := |w.procs| - 1;
    var a := ServerReads(g, Unread(w.procs[g]));
    assert InputOk(env, w.procs[g]);
    assert Enabled(w, a);
    OneStepGood(env, w, a);
    var v := Step(env, w, a);
    assert InputOk(env, v.procs[g]);
    LinesClean(env, g, v.procs[g].sent);
    LineCounts(env, g, v.procs[g].sent);
    FramingUnique(RequestLines(env, v.procs[g].sent), "");
    assert v.procs[g].stdin[..v.procs[g].read] == v.procs[g].stdin;
    assert Unlines(RequestLines(env, v.procs[g].sent)) + "" == Unlines(RequestLines(env, v.procs[g].sent));
  }

  /** When all answers have arrived nothing sent to that child is waiting. */
  lemma AllArrived(env: Env, w: World, g: nat, k: nat)
    requires env.codec.Lawful() && Good(env, w) && g < |w.procs| && k < |w.procs[g].sent|
    requires !w.procs[g].exited && w.procs[g].served == |w.procs[g].sent| && w.procs[g].delivered == |w.procs[g].stdout|
    ensures w.procs[g].sent[k].id !in w.client.pending && w.procs[g].sent[k].id in Ids(w.client.settled)
  {
    hide Justified, Accounted, Lines, Rest, Unlines, ReplyLines, Linked, AllJustified;
    var p := w.procs[g];
    assert OutputOk(env, g, p);
    LinesClean(env, g, p.sent);
    LineCounts(env, g, p.sent);
    FramingUnique(ReplyLines(env, g, p.sent), "");
    assert p.stdout[..p.delivered] == p.stdout && ReplyLines(env, g, p.sent)[..p.served] == ReplyLines(env, g, p.sent);
    assert Unlines(ReplyLines(env, g, p.sent)) + "" == Unlines(ReplyLines(env, g, p.sent));
    assert Sent(w.procs, g, k, p.sent[k].id);
    AccountedFor(w.client, p.sent[k].id);
  }

  /**
   * Progress: in every reachable world, a call that waits for a running child is settled, as what its handler comes
   * to, once the child has read its input and its output has been delivered.
   */
  lemma DrainAnswers(env: Env, actions: seq<Action>, k: nat)
    requires env.codec.Lawful()
    requires
      var w := Execute(env, START, actions);
      w.procs != [] && !Last(w.procs).exited && k < |Last(w.procs).sent| && Last(w.procs).sent[k].id in w.client.pending
    ensures
      var w := Execute(env, START, actions);
      var g, call := |w.procs| - 1, Last(w.procs).sent[k];
      exists i :: 0 <= i < |Drain(env, w).client.settled|
        && Drain(env, w).client.settled[i].id == call.id
        && Reports(Drain(env, w).client.settled[i].outcome, call.op, env.handlers(g)(k, call.op, call.args.GetOr(map[])))
  {
    hide Execute, Good, Drain, Reports;
    StartIsGood(env);
    ExecuteGood(env, START, actions);
    DrainedAnswers(env, Execute(env, START, actions), k);
  }

  lemma StartIsGood(env: Env)
    ensures Good(env, START)
  {
  }

  lemma DrainedAnswers(env: Env, w: World, k: nat)
    requires env.codec.Lawful() && Good(env, w)
    requires w.procs != [] && !Last(w.procs).exited && k < |Last(w.procs).sent| && Last(w.procs).sent[k].id in w.client.pending
    ensures
      var g, call := |w.procs| - 1, Last(w.procs).sent[k];
      exists i :: 0 <= i < |Drain(env, w).client.settled|
        && Drain(env, w).client.settled[i].id == call.id
        && Reports(Drain(env, w).client.settled[i].outcome, call.op, env.handlers(g)(k, call.op, call.args.GetOr(map[])))
  {
    hide Good, Step, Drain, Reports, Unread, Undelivered;
    var g := |w.procs| - 1;
    var call := w.procs[g].sent[k];
    AllServed(env, w);
    var v := Step(env, w, ServerReads(g, Unread(w.procs[g])));
    var x := Drain(env, w);
    DrainDelivers(env, w, v);
    AllArrived(env, x, g, k);
    var i :| 0 <= i < |x.client.settled| && Ids(x.client.settled)[i] == call.id;
    SettledByDelivery(env, v, x, g, k, i);
  }

  /** The second half of draining. */
  lemma DrainDelivers(env: Env, w: World, v: World)
    requires env.codec.Lawful() && w.procs != [] && v == Step(env, w, ServerReads(|w.procs| - 1, Unread(Last(w.procs))))
    requires Good(env, v) && |v.procs| == |w.procs|
    requires !Last(v.procs).exited
    ensures
      var g, x := |w.procs| - 1, Drain(env, w);
      && x == Step(env, v, Delivers(g, Undelivered(v.procs[g])))
      && Good(env, x) && |x.procs| == |v.procs| && x.procs[g].sent == v.procs[g].sent && x.procs[g].served == v.procs[g].served
      && !x.procs[g].exited && x.procs[g].delivered == |x.procs[g].stdout|
  {
    hide Justified, Accounted, Lines, Rest, Served, Unlines, RequestLines, ReplyLines, SentOnce, Linked, Kept, InputOk, StepClient;
    var g := |w.procs| - 1;
    var a := Delivers(g, Undelivered(v.procs[g]));
    assert OutputOk(env, g, v.procs[g]);
    OneStepGood(env, v, a);
  }

  /** What the delivery settled is what the handler of that very call came to. */
  lemma SettledByDelivery(env: Env, v: World, x: World, g: nat, k: nat, i: nat)
    requires Good(env, v) && Good(env, x) && g < |v.procs| && g < |x.procs| && x.procs[g].sent == v.procs[g].sent
    requires x == Step(env, v, Delivers(g, Undelivered(v.procs[g])))
    requires k < |x.procs[g].sent| && x.procs[g].sent[k].id in v.client.pending
    requires i < |x.client.settled| && Ids(x.client.settled)[i] == x.procs[g].sent[k].id
    ensures
      var call := x.procs[g].sent[k];
      x.client.settled[i].id == call.id
      && Reports(x.client.settled[i].outcome, call.op, env.handlers(g)(k, call.op, call.args.GetOr(map[])))
  {
    hide Accounted, Lines, Rest, Reports, OnLines, ProcsOk, Linked, NoneOverlooked;
    var id, a := x.procs[g].sent[k].id, Delivers(g, Undelivered(v.procs[g]));
    PendingDistinct(v.client, id);
    NotSettledYet(v.client.settled, id);
    if Enabled(v, a) {
      var text := v.client.buffer + Chunk(v.procs[g], a.n);
      LinesSettle(env.codec.parse, v.client.(buffer := Rest(text)), Lines(text));
    }
    assert i >= |v.client.settled|;
    var s := x.client.settled[i];
    assert Justified(env, x.procs, s);
    var g': nat, k': nat :| Sent(x.procs, g', k', id) && Answers(env, x.procs, g', k', s);
    assert Sent(x.procs, g, k, id);
  }

  lemma NotSettledYet(settled: seq<Settlement>, id: string)
    requires multiset(Ids(settled))[id] == 0
    ensures forall i :: 0 <= i < |settled| ==> settled[i].id != id
  {
    forall i | 0 <= i < |settled| ensures settled[i].id != id { assert Ids(settled)[i] in multiset(Ids(settled)); }
  }
}
