/**
 * Why `SidecarSystem` assumes that a dead child is drained before it is replaced: a run without that, over a
 * lawful codec, in which a request fails although nothing is wrong with the child that is to answer it.
 */
module SidecarUndrained {
  import opened Wrappers
  import opened Text
  import opened Json
  import opened JsonString
  import opened JsonText
  import opened SidecarState
  import opened SidecarServer
  import opened SidecarSystem

  function Unguarded(env: Env, w: World, a: Action): World {
    if Possible(w, a) then World(StepClient(env, w, a), StepProcs(env, w, a)) else w
  }

  function ExecuteUnguarded(env: Env, w: World, actions: seq<Action>): World
    decreases |actions|
  {
    if actions == [] then w else ExecuteUnguarded(env, Unguarded(env, w, actions[0]), actions[1..])
  }

  // ---------------------------------------------------------------- the end of a printed object is no value

  lemma ReplyIsObject(env: Env, g: nat, k: nat, call: Call)
    ensures Reply(env, g, k, call).JObject? && "req_id" in Reply(env, g, k, call).fields
  {
  }

  /** Behind the opening brace of a printed object stands a key, which is a value only if nothing follows it. */
  lemma TailUnreadable(j: Json)
    requires j.JObject? && j.fields != map[]
    ensures var t := Print(j); t != "" && Read(t[1..]).None? && !Blank(t[1..], JsSpace) && '\n' !in t[1..]
  {
    hide Print, Read, JsSpace, Keys, Escape;
    PrintNoNewline(j);
    PrintsMembers(j);
    var keys := Keys(j.fields);
    var k :| k in j.fields;
    assert k in keys && keys != [];
    var ms := Members(keys, j.fields);
    var rest := KeyFirst(ms, keys[0], Print(j.fields[keys[0]]));
    var tail := Print(j)[1..];
    assert tail == Join(ms, ",") + "}" == Quote(keys[0]) + rest;
    assert tail[0] == '"';
    QuoteIsDark(tail);
    if Read(tail).Some? { KeyIsNoValue(tail, keys[0], rest); }
  }

  lemma QuoteIsDark(s: string)
    requires s != "" && s[0] == '"'
    ensures !Blank(s, JsSpace)
  {
  }

  lemma KeyFirst(ms: seq<string>, key: string, v: string) returns (rest: string)
    requires ms != [] && ms[0] == Quote(key) + ":" + v
    ensures Join(ms, ",") + "}" == Quote(key) + rest && rest != ""
  {
    hide Quote, Join;
    JoinHead(ms);
    rest := ":" + v + (Join(ms, ",") + "}")[|ms[0]|..];
    var s := Join(ms, ",") + "}";
    assert s[..|ms[0]|] == ms[0] && s == s[..|ms[0]|] + s[|ms[0]|..];
  }

  lemma JoinHead(ms: seq<string>)
    requires ms != []
    ensures ms[0] <= Join(ms, ",")
  {
  }

  lemma KeyIsNoValue(tail: string, key: string, rest: string)
    requires tail == Quote(key) + rest && rest != ""
    ensures Read(tail).None?
  {
    hide Print, Quote;
    if j :| Print(j) == tail {
      PrintStarts(j);
      assert tail[0] == '"' by { QuoteStarts(key); }
      OnlyStrings(j, '"');
      assert Print(j) == Quote(j.s) by { PrintsString(j); }
      assert Quote(j.s) + "" == Quote(key) + rest;
      QuoteUnique(j.s, key, "", rest);
    }
  }

  lemma QuoteStarts(s: string)
    ensures Quote(s) != "" && Quote(s)[0] == '"'
  {
  }

  lemma OnlyStrings(j: Json, c: char)
    requires StartsAs(j, c) && c == '"'
    ensures j.JString?
  {
  }

  lemma PrintsString(j: Json)
    requires j.JString?
    ensures Print(j) == Quote(j.s)
  {
  }

  // ---------------------------------------------------------------- the run

  /** A process that has been sent one call and has read it has written the one reply. */
  lemma OneReply(env: Env, call: Call) returns (p: Proc)
    requires env.codec.Lawful()
    ensures p == Written(env, FRESH, call) && p.read == 0 && !p.exited
    ensures
      var q := Reading(env, 0, p, |p.stdin|);
      q.stdout == env.codec.dumps(Reply(env, 0, 0, call)) + "\n" && q.delivered == 0 && !q.exited && q.partial == ""
  {
    hide Reply, Reading, Lines, Rest;
    p := Written(env, FRESH, call);
    FreshOk(env, 0);
    WrittenOk(env, 0, FRESH, call);
    assert p.sent == [call];
    var n := |p.stdin|;
    ReadingOk(env, 0, p, n);
    var q := Reading(env, 0, p, n);
    ReadingKeeps(env, p, n);
    var lines := RequestLines(env, [call]);
    LinesClean(env, 0, [call]);
    FramingUnique(lines, "");
    assert p.stdin[..n] == p.stdin == Unlines(lines) == Unlines(lines) + "";
    assert q.served == 1;
    assert ReplyLines(env, 0, [call])[..1] == [env.codec.dumps(Reply(env, 0, 0, call))];
    OneUnlined(env.codec.dumps(Reply(env, 0, 0, call)));
  }

  lemma ReadingKeeps(env: Env, p: Proc, n: nat)
    requires p.read + n <= |p.stdin|
    ensures
      var q := Reading(env, 0, p, n);
      && q.sent == p.sent && q.stdin == p.stdin && q.read == p.read + n && q.delivered == p.delivered
      && q.exited == p.exited && q.partial == p.partial
  {
  }

  lemma OneUnlined(x: string)
    ensures Unlines([x]) == x + "\n"
  {
    assert [x][1..] == [];
  }

  /** The steps of the run, for a reply of n characters and a request of m bytes. */
  function Steps(op: string, args: Option<Object>, m: nat, n: nat): seq<Action> {
    [Requests(op, args, true), ServerReads(0, m), Delivers(0, 1), Exits(0, n + 1), Requests(op, args, true), Delivers(0, n)]
  }

  lemma Unfold(env: Env, w: World, actions: seq<Action>)
    requires |actions| == 6
    ensures
      var w1 := Unguarded(env, w, actions[0]);
      var w2 := Unguarded(env, w1, actions[1]);
      var w3 := Unguarded(env, w2, actions[2]);
      var w4 := Unguarded(env, w3, actions[3]);
      var w5 := Unguarded(env, w4, actions[4]);
      ExecuteUnguarded(env, w, actions) == Unguarded(env, w5, actions[5])
  {
    hide Unguarded;
    var w1 := Unguarded(env, w, actions[0]);
    var w2 := Unguarded(env, w1, actions[1]);
    var w3 := Unguarded(env, w2, actions[2]);
    var w4 := Unguarded(env, w3, actions[3]);
    assert actions[1..][1..] == actions[2..] && actions[2..][1..] == actions[3..];
    assert actions[3..][1..] == actions[4..] && actions[4..][1..] == actions[5..] && actions[5..][1..] == [];
    assert ExecuteUnguarded(env, w, actions) == ExecuteUnguarded(env, w1, actions[1..]);
    assert ExecuteUnguarded(env, w1, actions[1..]) == ExecuteUnguarded(env, w2, actions[2..]);
    assert ExecuteUnguarded(env, w2, actions[2..]) == ExecuteUnguarded(env, w3, actions[3..]);
    assert ExecuteUnguarded(env, w3, actions[3..]) == ExecuteUnguarded(env, w4, actions[4..]);
    var w5 := Unguarded(env, w4, actions[4]);
    assert ExecuteUnguarded(env, w4, actions[4..]) == ExecuteUnguarded(env, w5, actions[5..]);
    assert ExecuteUnguarded(env, w5, actions[5..]) == ExecuteUnguarded(env, Unguarded(env, w5, actions[5]), []);
  }

  const FIRST_ID := ReqId(1)
  const SECOND_ID := ReqId(2)

  lemma FirstRequest(env: Env, op: string, args: Option<Object>)
    ensures Unguarded(env, START, Requests(op, args, true))
            == World(ClientState([FIRST_ID], {FIRST_ID}, "", 1, true, false, []), [Written(env, FRESH, Call(FIRST_ID, op, args))])
  {
    hide ReqId, Written;
    assert [] + [FIRST_ID] == [FIRST_ID] && {} + {FIRST_ID} == {FIRST_ID};
  }

  lemma SecondRequest(env: Env, c: ClientState, p: Proc, op: string, args: Option<Object>)
    requires c == ClientState([FIRST_ID], {FIRST_ID}, c.buffer, 1, true, false, []) && p.exited
    ensures Unguarded(env, World(c, [p]), Requests(op, args, true))
            == World(ClientState([FIRST_ID, SECOND_ID], {FIRST_ID, SECOND_ID}, "", 2, true, false, []),
                     [p, Written(env, FRESH, Call(SECOND_ID, op, args))])
  {
    hide ReqId, Written;
    assert [FIRST_ID] + [SECOND_ID] == [FIRST_ID, SECOND_ID] && {FIRST_ID} + {SECOND_ID} == {FIRST_ID, SECOND_ID};
    assert [p] + [Written(env, FRESH, Call(SECOND_ID, op, args))] == [p, Written(env, FRESH, Call(SECOND_ID, op, args))];
  }

  lemma Delivered(env: Env, w: World, n: nat)
    requires w.procs != [] && 0 < n && w.procs[0].delivered + n <= |w.procs[0].stdout|
    ensures Unguarded(env, w, Delivers(0, n))
            == World(OnStdout(env.codec.parse, w.client, Chunk(w.procs[0], n)), w.procs[0 := Delivering(w.procs[0], n)])
  {
    hide OnStdout, Delivering;
  }

  /**
   * A child answers, one character of the answer arrives, the child dies. A second request spawns a new child,
   * and then the rest of the old answer arrives: the second request fails with a protocol error, though its
   * child is alive and has not even read the request. `EndToEnd` rules this out for drained runs.
   */
  lemma DrainingIsNeeded(handlers: nat -> Handlers, op: string, args: Option<Object>) returns (actions: seq<Action>)
    ensures
      var env := Env(Rfc8259(), handlers);
      var w := ExecuteUnguarded(env, START, actions);
      && env.codec.Lawful()
      && |w.client.settled| == 2 && w.client.settled[1] == Settlement(SECOND_ID, ProtocolError(NonJson))
      && !Justified(env, w.procs, w.client.settled[1])
      && |w.procs| == 2 && Sent(w.procs, 1, 0, SECOND_ID) && !w.procs[1].exited && w.procs[1].read == 0
  {
    hide Print, Read, Reply, ReqId, Written, Unguarded, Reading, OnStdout, Delivering;
    var env := Env(Rfc8259(), handlers);
    LawfulCodec();
    var call := Call(FIRST_ID, op, args);
    var p1 := OneReply(env, call);
    var p2 := Reading(env, 0, p1, |p1.stdin|);
    var reply := Reply(env, 0, 0, call);
    ReplyIsObject(env, 0, 0, call);
    TailUnreadable(reply);
    var text := Print(reply);
    var tail := text[1..];
    actions := Steps(op, args, |p1.stdin|, |text|);
    Unfold(env, START, actions);

    FirstRequest(env, op, args);
    var c1 := ClientState([FIRST_ID], {FIRST_ID}, "", 1, true, false, []);
    assert Unguarded(env, World(c1, [p1]), ServerReads(0, |p1.stdin|)) == World(c1, [p2]) by { ReadAll(env, c1, p1); }
    Delivered(env, World(c1, [p2]), 1);
    assert Chunk(p2, 1) == [text[0]];
    PrintNoNewline(reply);
    PartialBuffered(env.codec.parse, c1, [text[0]]);
    var c3, p3 := c1.(buffer := c1.buffer + [text[0]]), Delivering(p2, 1);
    assert p3.delivered == 1 && p3.stdout == p2.stdout && !p3.exited by { DeliveringKeeps(p2, 1); }
    var p4 := Exiting(p3, |text| + 1);
    assert Unguarded(env, World(c3, [p3]), Exits(0, |text| + 1)) == World(c3, [p4]) by { Died(env, c3, p3, |text| + 1); }
    SecondRequest(env, c3, p4, op, args);
    var c5 := ClientState([FIRST_ID, SECOND_ID], {FIRST_ID, SECOND_ID}, "", 2, true, false, []);
    var q := Written(env, FRESH, Call(SECOND_ID, op, args));
    assert p4.stdout == text + "\n" && p4.delivered == 1;
    Delivered(env, World(c5, [p4, q]), |text|);
    assert Chunk(p4, |text|) == tail + "\n";
    StrayLine(env.codec.parse, c5, tail);
    assert [p2][0 := p3] == [p3] && [p4, q][0 := Delivering(p4, |text|)] == [Delivering(p4, |text|), q];
    SecondFails(c5);
    assert q.sent == [Call(SECOND_ID, op, args)] && q.read == 0 && !q.exited by { WrittenKeeps(env, Call(SECOND_ID, op, args)); }
  }

  lemma ReadAll(env: Env, c: ClientState, p: Proc)
    requires p.read == 0 && !p.exited
    ensures Unguarded(env, World(c, [p]), ServerReads(0, |p.stdin|)) == World(c, [Reading(env, 0, p, |p.stdin|)])
  {
    hide Reading;
  }

  lemma DeliveringKeeps(p: Proc, n: nat)
    requires p.delivered + n <= |p.stdout|
    ensures Delivering(p, n).delivered == p.delivered + n && Delivering(p, n).stdout == p.stdout && Delivering(p, n).exited == p.exited
  {
  }

  lemma Died(env: Env, c: ClientState, p: Proc, keep: nat)
    requires !p.exited && p.delivered <= keep <= |p.stdout|
    ensures Unguarded(env, World(c, [p]), Exits(0, keep)) == World(c, [Exiting(p, keep)])
  {
  }

  lemma SecondFails(c: ClientState)
    requires c.pending == [FIRST_ID, SECOND_ID] && c.settled == []
    ensures var d := FailAll(c, ProtocolError(NonJson)); |d.settled| == 2 && d.settled[1] == Settlement(SECOND_ID, ProtocolError(NonJson))
  {
    hide ReqId;
  }

  lemma WrittenKeeps(env: Env, call: Call)
    ensures var q := Written(env, FRESH, call); q.sent == [call] && q.read == 0 && !q.exited
  {
  }
}
