/**
 * What the sidecar client does to its own state, event by event: issuing request ids, arming and
 * clearing timers, framing stdout and settling promises. The class in SidecarClient.dfy is proved
 * against these functions, and the laws here hold over every sequence of events.
 */
module SidecarState {
  import opened Wrappers
  import opened Text
  import opened Json

  datatype Protocol = NonJson | NonEnvelope | Exited

  /** How a promise settled: resolved with data, or rejected with one of the structured errors. */
  datatype Outcome =
    | Resolved(data: Json)
    | Timeout
    | SpawnFailed
    | ProtocolError(why: Protocol)
    | SidecarError(code: Json, message: Json)

  datatype Settlement = Settlement(id: string, outcome: Outcome)

  /** `pending` keeps the insertion order of the map it stands for; `armed` holds the live timers. */
  datatype ClientState = ClientState(
    pending: seq<string>,
    armed: set<string>,
    buffer: string,
    nextSeq: nat,
    hasChild: bool,
    closed: bool,
    settled: seq<Settlement>)

  const INITIAL := ClientState([], {}, "", 0, false, false, [])

  function ReqId(n: nat): string {
    "r" + Decimal(n)
  }

  /** Every id handed out while the counter went from 0 to n. */
  function Issued(n: nat): seq<string> {
    if n == 0 then [] else Issued(n - 1) + [ReqId(n)]
  }

  function Ids(ss: seq<Settlement>): seq<string> {
    seq(|ss|, i requires 0 <= i < |ss| => ss[i].id)
  }

  // ---------------------------------------------------------------- settling

  /** Deleting one key from an insertion-ordered map. */
  function Without(ids: seq<string>, id: string): seq<string> {
    if ids == [] then []
    else if ids[0] == id then ids[1..]
    else [ids[0]] + Without(ids[1..], id)
  }

  function Settle(c: ClientState, id: string, o: Outcome): ClientState {
    if id !in c.pending then c
    else c.(pending := Without(c.pending, id), armed := c.armed - {id}, settled := c.settled + [Settlement(id, o)])
  }

  function AllWith(ids: seq<string>, o: Outcome): seq<Settlement> {
    seq(|ids|, i requires 0 <= i < |ids| => Settlement(ids[i], o))
  }

  function FailAll(c: ClientState, o: Outcome): ClientState {
    c.(pending := [], armed := c.armed - (set id | id in c.pending), settled := c.settled + AllWith(c.pending, o))
  }

  // ---------------------------------------------------------------- lines from the sidecar

  /** `value?.[key]`, with undefined and null both read as null. */
  function Field(j: Json, key: string): Json {
    if j.JObject? && key in j.fields then j.fields[key] else JNull
  }

  /** `value ?? other`. */
  function Default(j: Json, other: Json): Json {
    if j.JNull? then other else j
  }

  predicate IsEnvelope(j: Json) {
    Field(j, "req_id").JString? && Field(j, "ok").JBool?
  }

  /** The outcome an envelope carries. */
  function OutcomeOf(j: Json): Outcome
    requires IsEnvelope(j)
  {
    if Field(j, "ok").b then Resolved(Default(Field(j, "data"), JObject(map[])))
    else
      var e := Field(j, "error");
      SidecarError(
        Default(Field(e, "code"), JString("unknown")),
        Default(Field(e, "message"), JString("sidecar error without message")))
  }

  /** What an envelope with missing parts comes to: no data is the empty object, and an error says that it says nothing. */
  lemma BareEnvelopes(j: Json)
    requires IsEnvelope(j)
    ensures Field(j, "ok").b && Field(j, "data").JNull? ==> OutcomeOf(j) == Resolved(JObject(map[]))
    ensures !Field(j, "ok").b && Field(j, "error").JNull? ==>
              OutcomeOf(j) == SidecarError(JString("unknown"), JString("sidecar error without message"))
  {
  }

  function OnLine(parse: string -> Option<Json>, c: ClientState, line: string): ClientState {
    if Blank(line, JsSpace) then c
    else
      match parse(line)
      case None => FailAll(c, ProtocolError(NonJson))
      case Some(j) =>
        if !IsEnvelope(j) then FailAll(c, ProtocolError(NonEnvelope))
        else Settle(c, Field(j, "req_id").s, OutcomeOf(j))
  }

  function OnLines(parse: string -> Option<Json>, c: ClientState, lines: seq<string>): ClientState
    decreases |lines|
  {
    if lines == [] then c else OnLines(parse, OnLine(parse, c, lines[0]), lines[1..])
  }

  /** A stdout chunk: every line it completes is handled in order, the partial tail is kept. */
  function OnStdout(parse: string -> Option<Json>, c: ClientState, chunk: string): ClientState {
    var text := c.buffer + chunk;
    OnLines(parse, c.(buffer := Rest(text)), Lines(text))
  }

  function OnChunks(parse: string -> Option<Json>, c: ClientState, chunks: seq<string>): ClientState
    decreases |chunks|
  {
    if chunks == [] then c else OnChunks(parse, OnStdout(parse, c, chunks[0]), chunks[1..])
  }

  // ---------------------------------------------------------------- requests and shutdown

  /** A usable child: the current one if it still runs, otherwise a new one with an empty buffer. */
  function EnsureSpawned(c: ClientState, exited: bool, spawnOk: bool): ClientState {
    if c.hasChild && !exited then c else c.(buffer := "", hasChild := c.hasChild || spawnOk)
  }

  predicate CanWrite(c: ClientState, exited: bool, spawnOk: bool) {
    (c.hasChild && !exited) || spawnOk
  }

  predicate Accepts(c: ClientState, exited: bool, spawnOk: bool) {
    !c.closed && CanWrite(c, exited, spawnOk)
  }

  function Request(c: ClientState, exited: bool, spawnOk: bool): ClientState {
    if c.closed then c
    else
      var c1 := EnsureSpawned(c, exited, spawnOk);
      if !CanWrite(c, exited, spawnOk) then c1
      else
        var id := ReqId(c.nextSeq + 1);
        c1.(nextSeq := c.nextSeq + 1, pending := c1.pending + [id], armed := c1.armed + {id})
  }

  /** The timer callback: it runs only while its timer is armed, and rejects without looking at the map. */
  function OnTimeout(c: ClientState, id: string): ClientState {
    if id !in c.armed then c
    else c.(pending := Without(c.pending, id), armed := c.armed - {id}, settled := c.settled + [Settlement(id, Timeout)])
  }

  function Close(c: ClientState): ClientState {
    c.(closed := true, hasChild := false)
  }

  // ---------------------------------------------------------------- runs

  /** Everything that can happen to a client, in any order. `exited` is what the child reports. */
  datatype Event =
    | ERequest(exited: bool, spawnOk: bool)
    | EChunk(chunk: string)
    | ETimeout(id: string)
    | EWriteError(id: string)
    | EChildError
    | EChildClose
    | EClose

  function Step(parse: string -> Option<Json>, c: ClientState, e: Event): ClientState {
    hide Accounted, OnLines, Request;
    match e
    case ERequest(exited, spawnOk) => Request(c, exited, spawnOk)
    case EChunk(chunk) => OnStdout(parse, c, chunk)
    case ETimeout(id) => OnTimeout(c, id)
    case EWriteError(id) => Settle(c, id, SpawnFailed)
    case EChildError => FailAll(c, SpawnFailed)
    case EChildClose => FailAll(c, ProtocolError(Exited))
    case EClose => Close(c)
  }

  function Run(parse: string -> Option<Json>, c: ClientState, es: seq<Event>): ClientState
    decreases |es|
  {
    if es == [] then c else Run(parse, Step(parse, c, es[0]), es[1..])
  }

  // ---------------------------------------------------------------- chunking does not matter

  function Concat(chunks: seq<string>): string {
    if chunks == [] then "" else chunks[0] + Concat(chunks[1..])
  }

  lemma OnLineKeepsBuffer(parse: string -> Option<Json>, c: ClientState, line: string, b: string)
    ensures OnLine(parse, c.(buffer := b), line) == OnLine(parse, c, line).(buffer := b)
    ensures OnLine(parse, c, line).buffer == c.buffer
  {
  }

  lemma {:induction false} OnLinesKeepsBuffer(parse: string -> Option<Json>, c: ClientState, lines: seq<string>, b: string)
    ensures OnLines(parse, c.(buffer := b), lines) == OnLines(parse, c, lines).(buffer := b)
    ensures OnLines(parse, c, lines).buffer == c.buffer
    decreases |lines|
  {
    if lines != [] {
      OnLineKeepsBuffer(parse, c, lines[0], b);
      OnLinesKeepsBuffer(parse, OnLine(parse, c, lines[0]), lines[1..], b);
    }
  }

  lemma {:induction false} OnLinesAppend(parse: string -> Option<Json>, c: ClientState, a: seq<string>, b: seq<string>)
    ensures OnLines(parse, c, a + b) == OnLines(parse, OnLines(parse, c, a), b)
    decreases |a|
  {
    if a == [] {
      assert a + b == b;
    } else {
      assert (a + b)[1..] == a[1..] + b;
      OnLinesAppend(parse, OnLine(parse, c, a[0]), a[1..], b);
    }
  }

  lemma TwoChunks(parse: string -> Option<Json>, c: ClientState, a: string, b: string)
    ensures OnStdout(parse, OnStdout(parse, c, a), b) == OnStdout(parse, c, a + b)
  {
    var t := c.buffer + a;
    var c1 := OnStdout(parse, c, a);
    OnLinesKeepsBuffer(parse, c.(buffer := Rest(t)), Lines(t), Rest(Rest(t) + b));
    FramingAppend(t, b);
    ConcatAssoc(c.buffer, a, b);
    OnLinesAppend(parse, c.(buffer := Rest(t + b)), Lines(t), Lines(Rest(t) + b));
  }

  /**
   * However the bytes are cut into chunks, the client ends in the state one single chunk gives: the
   * complete lines of the buffered text were handled in order, and the partial line is buffered.
   */
  lemma {:induction false} ChunkingIrrelevant(parse: string -> Option<Json>, c: ClientState, chunks: seq<string>)
    requires '\n' !in c.buffer
    ensures OnChunks(parse, c, chunks) == OnStdout(parse, c, Concat(chunks))
    decreases |chunks|
  {
    if chunks == [] {
      FramingUnique([], c.buffer);
      assert c.buffer + "" == c.buffer && "" + c.buffer == c.buffer;
    } else {
      var c1 := OnStdout(parse, c, chunks[0]);
      var t := c.buffer + chunks[0];
      OnLinesKeepsBuffer(parse, c.(buffer := Rest(t)), Lines(t), "");
      FramingSound(t);
      ChunkingIrrelevant(parse, c1, chunks[1..]);
      TwoChunks(parse, c, chunks[0], Concat(chunks[1..]));
    }
  }

  // ---------------------------------------------------------------- exactly-once settlement

  /** Nothing is lost or settled twice: pending and settled ids together are the issued ones. */
  ghost predicate Accounted(c: ClientState) {
    && multiset(c.pending) + multiset(Ids(c.settled)) == multiset(Issued(c.nextSeq))
    && c.armed == (set id | id in c.pending)
  }

  lemma {:induction false} WithoutCount(ids: seq<string>, id: string)
    requires id in ids
    ensures multiset(Without(ids, id)) == multiset(ids) - multiset{id}
    decreases |ids|
  {
    assert ids == [ids[0]] + ids[1..];
    if ids[0] != id {
      WithoutCount(ids[1..], id);
    }
  }

  lemma ReqIdInjective(a: nat, b: nat)
    requires ReqId(a) == ReqId(b)
    ensures a == b
  {
    assert ReqId(a)[1..] == Decimal(a) && ReqId(b)[1..] == Decimal(b);
    DecimalInjective(a, b);
  }

  ghost predicate WasIssued(n: nat, id: string) {
    exists i: nat :: 1 <= i <= n && id == ReqId(i)
  }

  lemma {:induction false} IssuedDistinct(n: nat, id: string)
    ensures multiset(Issued(n))[id] == if WasIssued(n, id) then 1 else 0
  {
    if n != 0 {
      IssuedDistinct(n - 1, id);
      if WasIssued(n - 1, id) {
        var i: nat :| 1 <= i <= n - 1 && id == ReqId(i);
        if id == ReqId(n) {
          ReqIdInjective(i, n);
        }
        assert WasIssued(n, id);
      } else if WasIssued(n, id) {
        var i: nat :| 1 <= i <= n && id == ReqId(i);
        assert i == n;
      }
    }
  }

  lemma PendingDistinct(c: ClientState, id: string)
    requires Accounted(c)
    ensures multiset(c.pending)[id] + multiset(Ids(c.settled))[id] <= 1
  {
    IssuedDistinct(c.nextSeq, id);
    assert (multiset(c.pending) + multiset(Ids(c.settled)))[id] == multiset(Issued(c.nextSeq))[id];
  }

  lemma IdsAppend(a: seq<Settlement>, b: seq<Settlement>)
    ensures Ids(a + b) == Ids(a) + Ids(b)
  {
  }

  /** Moving one pending id to the settled side, by whichever route. */
  lemma SettleAccounted(c: ClientState, id: string, o: Outcome)
    requires Accounted(c) && id in c.pending
    ensures Accounted(c.(pending := Without(c.pending, id), armed := c.armed - {id},
                         settled := c.settled + [Settlement(id, o)]))
  {
    hide Without, Issued;
    WithoutCount(c.pending, id);
    IdsAppend(c.settled, [Settlement(id, o)]);
    assert Ids([Settlement(id, o)]) == [id];
    PendingDistinct(c, id);
    var left, ids, all := Without(c.pending, id), Ids(c.settled), Issued(c.nextSeq);
    MoveOne(c.pending, left, ids, all, id);
  }

  lemma MoveOne(pending: seq<string>, left: seq<string>, settled: seq<string>, all: seq<string>, id: string)
    requires multiset(pending) + multiset(settled) == multiset(all) && multiset(pending)[id] == 1
    requires multiset(left) == multiset(pending) - multiset{id}
    ensures multiset(left) + multiset(settled + [id]) == multiset(all)
    ensures (set x | x in left) == (set x | x in pending) - {id}
  {
    forall x ensures x in left <==> x in pending && x != id {
      assert x in left <==> multiset(left)[x] > 0;
      assert x in pending <==> multiset(pending)[x] > 0;
    }
  }

  lemma FailAllAccounted(c: ClientState, o: Outcome)
    requires Accounted(c)
    ensures Accounted(FailAll(c, o)) && FailAll(c, o).pending == []
  {
    IdsAppend(c.settled, AllWith(c.pending, o));
    assert Ids(AllWith(c.pending, o)) == c.pending;
  }

  lemma OnLineAccounted(parse: string -> Option<Json>, c: ClientState, line: string)
    requires Accounted(c)
    ensures Accounted(OnLine(parse, c, line))
  {
    FailAllAccounted(c, ProtocolError(NonJson));
    FailAllAccounted(c, ProtocolError(NonEnvelope));
    var j := parse(line);
    if j.Some? && IsEnvelope(j.value) && Field(j.value, "req_id").s in c.pending {
      SettleAccounted(c, Field(j.value, "req_id").s, OutcomeOf(j.value));
    }
  }

  lemma {:induction false} OnLinesAccounted(parse: string -> Option<Json>, c: ClientState, lines: seq<string>)
    requires Accounted(c)
    ensures Accounted(OnLines(parse, c, lines))
    decreases |lines|
  {
    if lines != [] {
      OnLineAccounted(parse, c, lines[0]);
      OnLinesAccounted(parse, OnLine(parse, c, lines[0]), lines[1..]);
    }
  }

  lemma RequestAccounted(c: ClientState, exited: bool, spawnOk: bool)
    requires Accounted(c)
    ensures Accounted(Request(c, exited, spawnOk))
  {
    hide Ids, Issued, ReqId;
    var d := Request(c, exited, spawnOk);
    if Accepts(c, exited, spawnOk) {
      var id := ReqId(c.nextSeq + 1);
      assert d.pending == c.pending + [id] && d.armed == c.armed + {id} && d.settled == c.settled;
      assert Issued(d.nextSeq) == Issued(c.nextSeq) + [id] by { IssuedNext(c.nextSeq); }
      OneMore(c.pending, Ids(c.settled), Issued(c.nextSeq), id);
    }
  }

  lemma IssuedNext(n: nat)
    ensures Issued(n + 1) == Issued(n) + [ReqId(n + 1)]
  {
  }

  lemma OneMore(a: seq<string>, b: seq<string>, all: seq<string>, x: string)
    requires multiset(a) + multiset(b) == multiset(all)
    ensures multiset(a + [x]) + multiset(b) == multiset(all + [x])
    ensures (set y | y in a + [x]) == (set y | y in a) + {x}
  {
  }

  lemma CloseAccounted(c: ClientState)
    requires Accounted(c)
    ensures Accounted(Close(c))
  {
  }

  lemma BufferAccounted(c: ClientState, b: string)
    requires Accounted(c)
    ensures Accounted(c.(buffer := b))
  {
  }

  lemma ArmedPending(c: ClientState, id: string)
    requires Accounted(c)
    ensures id in c.armed <==> id in c.pending
  {
  }

  lemma StepAccounted(parse: string -> Option<Json>, c: ClientState, e: Event)
    requires Accounted(c)
    ensures Accounted(Step(parse, c, e))
  {
    hide Accounted, OnLines, Request;
    match e
    case ERequest(exited, spawnOk) => RequestAccounted(c, exited, spawnOk);
    case EChunk(chunk) =>
      var text := c.buffer + chunk;
      BufferAccounted(c, Rest(text));
      OnLinesAccounted(parse, c.(buffer := Rest(text)), Lines(text));
    case ETimeout(id) =>
      ArmedPending(c, id);
      if id in c.armed { SettleAccounted(c, id, Timeout); }
    case EWriteError(id) =>
      if id in c.pending { SettleAccounted(c, id, SpawnFailed); }
    case EChildError => FailAllAccounted(c, SpawnFailed);
    case EChildClose => FailAllAccounted(c, ProtocolError(Exited));
    case EClose => CloseAccounted(c);
  }

  lemma {:induction false} RunAccounted(parse: string -> Option<Json>, c: ClientState, es: seq<Event>)
    requires Accounted(c)
    ensures Accounted(Run(parse, c, es))
    decreases |es|
  {
    if es != [] {
      StepAccounted(parse, c, es[0]);
      RunAccounted(parse, Step(parse, c, es[0]), es[1..]);
    }
  }

  /**
   * After every run, each issued id is either pending, with its timer armed, or settled, exactly once;
   * ids never issued are neither.
   */
  lemma ExactlyOnce(parse: string -> Option<Json>, es: seq<Event>, id: string)
    ensures
      var c := Run(parse, INITIAL, es);
      && multiset(c.pending)[id] + multiset(Ids(c.settled))[id]
         == (if WasIssued(c.nextSeq, id) then 1 else 0)
      && (id in c.pending <==> id in c.armed)
  {
    RunAccounted(parse, INITIAL, es);
    var c := Run(parse, INITIAL, es);
    IssuedDistinct(c.nextSeq, id);
    assert (multiset(c.pending) + multiset(Ids(c.settled)))[id] == multiset(Issued(c.nextSeq))[id];
    assert id in c.pending <==> id in c.armed;
  }

  /**
   * What ends a wait: the promise's own timer or failed write, and an error or the close event of a child; each
   * settles it in its own way, and the first two leave every other promise waiting.
   */
  lemma WaitEnds(parse: string -> Option<Json>, c: ClientState, e: Event, id: string)
    requires Accounted(c) && id in c.pending
    ensures
      var d := Step(parse, c, e);
      match e
      case ETimeout(x) => (id in d.pending <==> x != id) && (x == id ==> Settlement(id, Timeout) in d.settled)
      case EWriteError(x) => (id in d.pending <==> x != id) && (x == id ==> Settlement(id, SpawnFailed) in d.settled)
      case EChildError => id !in d.pending && Settlement(id, SpawnFailed) in d.settled
      case EChildClose => id !in d.pending && Settlement(id, ProtocolError(Exited)) in d.settled
      case EClose => d.pending == c.pending && d.closed
      case _ => true
  {
    hide OnStdout, Request;
    match e
    case ETimeout(x) =>
      ArmedPending(c, x);
      if x in c.pending { LeavesPending(c, x, id); }
    case EWriteError(x) => if x in c.pending { LeavesPending(c, x, id); }
    case EChildError => FailsWaiting(c, SpawnFailed, id);
    case EChildClose => FailsWaiting(c, ProtocolError(Exited), id);
    case _ =>
  }

  lemma LeavesPending(c: ClientState, x: string, id: string)
    requires Accounted(c) && x in c.pending && id in c.pending
    ensures id in Without(c.pending, x) <==> x != id
  {
    PendingDistinct(c, x);
    WithoutCount(c.pending, x);
    assert multiset(Without(c.pending, x))[id] == multiset(c.pending)[id] - if x == id then 1 else 0;
  }

  lemma FailsWaiting(c: ClientState, o: Outcome, id: string)
    requires id in c.pending
    ensures Settlement(id, o) in FailAll(c, o).settled
  {
    var i :| 0 <= i < |c.pending| && c.pending[i] == id;
    assert FailAll(c, o).settled[|c.settled| + i] == Settlement(id, o);
  }

  // ---------------------------------------------------------------- shutdown

  lemma {:induction false} RunAppend(parse: string -> Option<Json>, c: ClientState, a: seq<Event>, b: seq<Event>)
    ensures Run(parse, c, a + b) == Run(parse, Run(parse, c, a), b)
    decreases |a|
  {
    if a == [] {
      assert a + b == b;
    } else {
      assert (a + b)[1..] == a[1..] + b;
      RunAppend(parse, Step(parse, c, a[0]), a[1..], b);
    }
  }

  lemma {:induction false} WithoutSubset(ids: seq<string>, id: string, x: string)
    requires x in Without(ids, id)
    ensures x in ids
  {
    if ids[0] != id && x != ids[0] { WithoutSubset(ids[1..], id, x); }
  }

  /** A closed client gains no pending request, and settled promises stay settled. */
  lemma {:induction false} OnLinesShrinks(parse: string -> Option<Json>, c: ClientState, lines: seq<string>)
    ensures var d := OnLines(parse, c, lines);
      d.closed == c.closed && c.settled <= d.settled && d.nextSeq == c.nextSeq
      && (forall x :: x in d.pending ==> x in c.pending)
    decreases |lines|
  {
    if lines != [] {
      var d := OnLine(parse, c, lines[0]);
      forall x | x in d.pending ensures x in c.pending {
        var j := parse(lines[0]);
        if x !in c.pending { WithoutSubset(c.pending, Field(j.value, "req_id").s, x); }
      }
      OnLinesShrinks(parse, d, lines[1..]);
    }
  }

  lemma {:induction false} ClosedStays(parse: string -> Option<Json>, c: ClientState, es: seq<Event>)
    requires c.closed
    ensures var d := Run(parse, c, es);
      d.closed && d.nextSeq == c.nextSeq && c.settled <= d.settled && (c.pending == [] ==> d.pending == [])
    decreases |es|
  {
    if es != [] {
      var d := Step(parse, c, es[0]);
      if es[0].EChunk? {
        var t := c.buffer + es[0].chunk;
        OnLinesShrinks(parse, c.(buffer := Rest(t)), Lines(t));
        assert d.pending == [] || exists x :: x in d.pending by {
          if d.pending != [] { assert d.pending[0] in d.pending; }
        }
      }
      ClosedStays(parse, d, es[1..]);
    }
  }

  /**
   * `close()` on a running child resolves at that child's close event. By then every issued id is
   * settled, and nothing becomes pending again.
   */
  lemma CloseLeavesNothingPending(parse: string -> Option<Json>, before: seq<Event>, between: seq<Event>, after: seq<Event>)
    ensures
      var c := Run(parse, INITIAL, before + [EClose] + between + [EChildClose] + after);
      && c.pending == [] && c.armed == {}
      && multiset(Ids(c.settled)) == multiset(Issued(c.nextSeq))
      && c.nextSeq == Run(parse, INITIAL, before).nextSeq
  {
    var c0 := Run(parse, INITIAL, before);
    var c1 := Step(parse, c0, EClose);
    var c2 := Run(parse, c1, between);
    var c3 := Step(parse, c2, EChildClose);
    RunAppend(parse, INITIAL, before, [EClose]);
    RunAppend(parse, INITIAL, before + [EClose], between);
    RunAppend(parse, INITIAL, before + [EClose] + between, [EChildClose]);
    RunAppend(parse, INITIAL, before + [EClose] + between + [EChildClose], after);
    assert Run(parse, c0, [EClose]) == c1;
    assert Run(parse, c2, [EChildClose]) == c3;
    ClosedStays(parse, c1, between);
    ClosedStays(parse, c3, after);
    RunAccounted(parse, INITIAL, before + [EClose] + between + [EChildClose] + after);
  }

  // ---------------------------------------------------------------- output of an earlier child

  /**
   * Handlers do not know which child a chunk comes from. The rest of a line that a dead child had begun,
   * arriving after a new child was spawned and the buffer emptied, is no JSON by itself: it fails every
   * request that waits for the new child.
   */
  lemma LateOutputFailsEveryone(parse: string -> Option<Json>, c: ClientState, spawned: ClientState, tail: string)
    requires spawned == EnsureSpawned(c, true, true)
    requires '\n' !in tail && !Blank(tail, JsSpace) && parse(tail).None?
    ensures OnStdout(parse, spawned, tail + "\n") == FailAll(spawned, ProtocolError(NonJson))
  {
    StrayLine(parse, spawned, tail);
  }

  /** A whole line that is no JSON fails everyone, and leaves the buffer empty. */
  lemma StrayLine(parse: string -> Option<Json>, c: ClientState, line: string)
    requires c.buffer == "" && '\n' !in line && !Blank(line, JsSpace) && parse(line).None?
    ensures OnStdout(parse, c, line + "\n") == FailAll(c, ProtocolError(NonJson))
  {
    hide FailAll, Blank;
    var text := line + "\n";
    FramingStep(line, "");
    assert c.buffer + text == text == line + "\n" + "";
    assert Lines(text) == [line] && Rest(text) == "" && c.(buffer := "") == c;
    assert OnLines(parse, c, [line]) == OnLines(parse, OnLine(parse, c, line), []);
  }

  /** A chunk without a newline is buffered. */
  lemma PartialBuffered(parse: string -> Option<Json>, c: ClientState, chunk: string)
    requires '\n' !in c.buffer && '\n' !in chunk
    ensures OnStdout(parse, c, chunk) == c.(buffer := c.buffer + chunk)
  {
    var text := c.buffer + chunk;
    assert '\n' !in text;
    assert Lines(text) == [] && Rest(text) == text;
  }
}
