/**
 * The stdio client, with the fields its handlers update. Spawning is the one thing the outside world
 * decides: `spawnOk` says whether the operating system lets the call succeed.
 */
module SidecarClient {
  import opened Wrappers
  import opened Text
  import opened Json
  import opened SidecarState

  /** The part of a child process the client looks at. `stdin` is everything written to it so far. */
  class ChildProcess {
    var exitCode: Option<int>
    var signalCode: Option<string>
    var stdin: string
    var stdinEnded: bool

    constructor ()
      ensures !HasExited() && stdin == "" && !stdinEnded
    {
      exitCode, signalCode, stdin, stdinEnded := None, None, "", false;
    }

    predicate HasExited()
      reads this
    {
      exitCode.Some? || signalCode.Some?
    }
  }

  /** What the caller of `request` gets at once: a rejection, or the id its promise waits under. */
  datatype Issue = Refused | Waiting(id: string)

  /** The object written for a request: `args` is left out when the caller gave none. */
  function RequestJson(op: string, id: string, args: Option<Object>): Json {
    var base := map["op" := JString(op), "req_id" := JString(id)];
    JObject(if args.Some? then base["args" := JObject(args.value)] else base)
  }

  class SidecarClient {
    const codec: Codec
    var child: ChildProcess?
    var pending: seq<string>
    var timers: set<string>
    var stdoutBuffer: string
    var nextSeq: nat
    var closed: bool
    var settled: seq<Settlement>

    constructor (codec: Codec)
      ensures State() == INITIAL && this.codec == codec
    {
      this.codec := codec;
      child, pending, timers, stdoutBuffer, nextSeq, closed, settled := null, [], {}, "", 0, false, [];
    }

    ghost function State(): ClientState
      reads this
    {
      ClientState(pending, timers, stdoutBuffer, nextSeq, child != null, closed, settled)
    }

    method EnsureSpawned(spawnOk: bool) returns (usable: ChildProcess?)
      modifies this
      ensures State() == SidecarState.EnsureSpawned(old(State()), old(child != null && child.HasExited()), spawnOk)
      ensures usable != null <==> CanWrite(old(State()), old(child != null && child.HasExited()), spawnOk)
      ensures usable != null ==> usable == child && !usable.HasExited()
      ensures usable != null ==> (usable == old(child) || (fresh(usable) && usable.stdin == ""))
      ensures usable == null ==> child == old(child)
    {
      if child != null && !child.HasExited() {
        return child;
      }
      stdoutBuffer := "";
      if !spawnOk {
        return null;
      }
      var spawned := new ChildProcess();
      child := spawned;
      return spawned;
    }

    /** One request line goes to the usable child's stdin, and its id waits with an armed timer. */
    method Request(op: string, args: Option<Object>, spawnOk: bool) returns (issue: Issue)
      modifies this, child
      ensures State() == SidecarState.Request(old(State()), old(child != null && child.HasExited()), spawnOk)
      ensures issue == if Accepts(old(State()), old(child != null && child.HasExited()), spawnOk)
                       then Waiting(ReqId(old(nextSeq) + 1)) else Refused
      ensures issue.Waiting? ==>
                && child != null
                && child.stdin == (if child == old(child) then old(if child != null then child.stdin else "") else "")
                                  + codec.stringify(RequestJson(op, issue.id, args)) + "\n"
      ensures issue.Refused? ==> child == old(child) && (child != null ==> child.stdin == old(if child != null then child.stdin else ""))
    {
      if closed {
        return Refused;
      }
      var usable := EnsureSpawned(spawnOk);
      if usable == null {
        return Refused;
      }
      nextSeq := nextSeq + 1;
      var id := ReqId(nextSeq);
      timers := timers + {id};
      pending := pending + [id];
      usable.stdin := usable.stdin + codec.stringify(RequestJson(op, id, args)) + "\n";
      return Waiting(id);
    }

    /** The timer callback of `id`. */
    method OnTimer(id: string)
      requires id in timers
      modifies this
      ensures State() == OnTimeout(old(State()), id) && child == old(child)
    {
      timers := timers - {id};
      pending := Without(pending, id);
      settled := settled + [Settlement(id, Timeout)];
    }

    /** The stdin write callback of `id`, when the write failed. */
    method OnWriteError(id: string)
      modifies this
      ensures State() == SidecarState.Settle(old(State()), id, SpawnFailed) && child == old(child)
    {
      Settle(id, SpawnFailed);
    }

    /** A child's error or close event; it is not tied to the child that is current now. */
    method OnChildGone(error: Outcome)
      modifies this
      ensures State() == FailAll(old(State()), error) && child == old(child)
    {
      FailAllPending(error);
    }

    /** Returns whether the promise waits for the child's close event. */
    method Close() returns (waits: bool)
      modifies this, child
      ensures State() == SidecarState.Close(old(State()))
      ensures waits <==> old(child != null && !child.HasExited())
      ensures waits ==> old(child).stdinEnded && old(child).stdin == old(if child != null then child.stdin else "")
    {
      closed := true;
      var last := child;
      child := null;
      if last == null || last.HasExited() {
        return false;
      }
      last.stdinEnded := true;
      return true;
    }

    method OnStdout(chunk: string)
      modifies this
      ensures State() == SidecarState.OnStdout(codec.parse, old(State()), chunk) && child == old(child)
    {
      hide Lines, Rest, IndexOf, SidecarState.OnLine, FailAll, SidecarState.Settle;
      stdoutBuffer := stdoutBuffer + chunk;
      var newlineAt := IndexOf(stdoutBuffer, '\n');
      while newlineAt != -1
        invariant newlineAt == IndexOf(stdoutBuffer, '\n')
        invariant child == old(child)
        invariant OnLines(codec.parse, State().(buffer := Rest(stdoutBuffer)), Lines(stdoutBuffer))
                  == SidecarState.OnStdout(codec.parse, old(State()), chunk)
        decreases |stdoutBuffer|
      {
        FirstLineHandled(codec.parse, State(), stdoutBuffer, newlineAt);
        var line := stdoutBuffer[..newlineAt];
        stdoutBuffer := stdoutBuffer[newlineAt + 1..];
        OnLineKeepsBuffer(codec.parse, State(), line, stdoutBuffer);
        OnLine(line);
        newlineAt := IndexOf(stdoutBuffer, '\n');
      }
      NoLines(stdoutBuffer);
    }

    method OnLine(line: string)
      modifies this
      ensures State() == SidecarState.OnLine(codec.parse, old(State()), line) && child == old(child)
    {
      if Blank(line, JsSpace) {
        return;
      }
      var parsed := codec.parse(line);
      if parsed.None? {
        FailAllPending(ProtocolError(NonJson));
        return;
      }
      var response := parsed.value;
      if !IsEnvelope(response) {
        FailAllPending(ProtocolError(NonEnvelope));
        return;
      }
      if Field(response, "req_id").s !in pending {
        return;
      }
      Settle(Field(response, "req_id").s, OutcomeOf(response));
    }

    method Settle(id: string, outcome: Outcome)
      modifies this
      ensures State() == SidecarState.Settle(old(State()), id, outcome) && child == old(child)
    {
      if id !in pending {
        return;
      }
      pending := Without(pending, id);
      timers := timers - {id};
      settled := settled + [Settlement(id, outcome)];
    }

    method FailAllPending(error: Outcome)
      modifies this
      ensures State() == FailAll(old(State()), error) && child == old(child)
    {
      hide SidecarState.Settle, FailAll;
      while pending != []
        invariant FailAll(State(), error) == FailAll(old(State()), error)
        invariant child == old(child)
        decreases |pending|
      {
        FailFirst(State(), error);
        Settle(pending[0], error);
      }
      FailNone(State(), error);
    }
  }

  /** Failing all pending requests is failing the first and then the others. */
  lemma FailFirst(c: ClientState, o: Outcome)
    requires c.pending != []
    ensures FailAll(SidecarState.Settle(c, c.pending[0], o), o) == FailAll(c, o)
    ensures SidecarState.Settle(c, c.pending[0], o).pending == c.pending[1..]
  {
    var id, rest := c.pending[0], c.pending[1..];
    assert c.pending == [id] + rest;
    assert AllWith(c.pending, o) == [Settlement(id, o)] + AllWith(rest, o);
    ConcatAssoc(c.settled, [Settlement(id, o)], AllWith(rest, o));
    assert (set x | x in c.pending) == {id} + (set x | x in rest);
    assert c.armed - ({id} + (set x | x in rest)) == c.armed - {id} - (set x | x in rest);
  }

  lemma FailNone(c: ClientState, o: Outcome)
    ensures c.pending == [] ==> FailAll(c, o) == c
  {
    assert c.settled + [] == c.settled;
  }

  /** Handling a buffer's first line and going on with what is behind it. */
  lemma FirstLineHandled(parse: string -> Option<Json>, c: ClientState, s: string, i: nat)
    requires i == IndexOf(s, '\n')
    ensures OnLines(parse, c.(buffer := Rest(s)), Lines(s))
            == OnLines(parse, SidecarState.OnLine(parse, c.(buffer := s[i + 1..]), s[..i]).(buffer := Rest(s[i + 1..])), Lines(s[i + 1..]))
  {
    hide SidecarState.OnLine, IndexOf;
    var more := s[i + 1..];
    OnLineKeepsBuffer(parse, c.(buffer := more), s[..i], Rest(more));
    assert ([s[..i]] + Lines(more))[1..] == Lines(more);
  }
}
