/** The replay projector: a pure fold of memory events into facts and the entity merge map. */
module Projector {
  import opened Wrappers
  import opened Json
  import opened Lists
  import opened MergeMap

  datatype Stream = CaptureStream | MemoryStream | ProjectionStream

  datatype Event = Event(
    eventId: string, stream: Stream, kind: string, occurredAt: string, actor: string,
    subjectId: string, sourceRef: Option<string>, payload: Option<Object>)

  datatype Fact = Fact(
    id: string, statement: string, sourceRef: string, capturedAt: string, observedAt: string,
    confidence: Double, supersedes: Option<string>)

  /** The error names the payload field the fold rejected. */
  datatype ProjectionError = InvalidEvent(eventId: string, field: string)

  /** `order` is the insertion order of the fact map; entities, edges and tasks are not folded from events. */
  datatype State = State(order: seq<string>, facts: map<string, Fact>, merges: Merges)

  const EMPTY := State([], map[], map[])

  function PayloadOf(e: Event): Object {
    e.payload.GetOr(map[])
  }

  predicate HasText(o: Object, field: string) {
    field in o && o[field].JString? && o[field].s != ""
  }

  predicate HasNumber(o: Object, field: string) {
    field in o && o[field].JNumber?
  }

  function FactOf(e: Event): Result<Fact, ProjectionError> {
    var p := PayloadOf(e);
    if !HasText(p, "statement") then Err(InvalidEvent(e.eventId, "statement"))
    else if !HasText(p, "source_ref") then Err(InvalidEvent(e.eventId, "source_ref"))
    else if !HasText(p, "captured_at") then Err(InvalidEvent(e.eventId, "captured_at"))
    else if !HasText(p, "observed_at") then Err(InvalidEvent(e.eventId, "observed_at"))
    else if !HasNumber(p, "confidence") then Err(InvalidEvent(e.eventId, "confidence"))
    else Ok(Fact(
      e.subjectId, p["statement"].s, p["source_ref"].s, p["captured_at"].s, p["observed_at"].s, p["confidence"].n,
      if "supersedes" in p && p["supersedes"].JString? then Some(p["supersedes"].s) else None))
  }

  /** `payload.merged`: an array of non-empty ids. The empty array passes, whatever the message says. */
  predicate HasMerged(p: Object) {
    && "merged" in p && p["merged"].JArray?
    && forall i :: 0 <= i < |p["merged"].items| ==> p["merged"].items[i].JString? && p["merged"].items[i].s != ""
  }

  function MergedIds(p: Object): seq<string>
    requires HasMerged(p)
  {
    seq(|p["merged"].items|, i requires 0 <= i < |p["merged"].items| => p["merged"].items[i].s)
  }

  function MergeAll(m: Merges, dups: seq<string>, canonical: string): Merges
    decreases |dups|
  {
    if dups == [] then m else MergeAll(m[dups[0] := canonical], dups[1..], canonical)
  }

  predicate IsFactEvent(e: Event) {
    e.stream == MemoryStream && (e.kind == "fact_added" || e.kind == "fact_superseded")
  }

  predicate IsMergeEvent(e: Event) {
    e.stream == MemoryStream && e.kind == "entity_merged"
  }

  /** Setting a key of an insertion-ordered map: an old key keeps its place. */
  function SetFact(s: State, f: Fact): State {
    s.(order := if f.id in s.facts then s.order else s.order + [f.id], facts := s.facts[f.id := f])
  }

  function ApplyEvent(s: State, e: Event): Result<State, ProjectionError> {
    if IsFactEvent(e) then
      var f := FactOf(e);
      if f.Err? then Err(f.error) else Ok(SetFact(s, f.value))
    else if IsMergeEvent(e) then
      var p := PayloadOf(e);
      if !HasMerged(p) then Err(InvalidEvent(e.eventId, "merged"))
      else Ok(s.(merges := MergeAll(s.merges, MergedIds(p), e.subjectId)))
    else Ok(s)
  }

  /** The fold from `s`; the first rejected event ends it. */
  function Fold(s: State, events: seq<Event>): Result<State, ProjectionError>
    decreases |events|
  {
    if events == [] then Ok(s)
    else
      var r := ApplyEvent(s, events[0]);
      if r.Err? then r else Fold(r.value, events[1..])
  }

  function Project(events: seq<Event>): Result<State, ProjectionError> {
    Fold(EMPTY, events)
  }

  method ProjectEvents(events: seq<Event>) returns (r: Result<State, ProjectionError>)
    ensures r == Project(events)
  {
    var state := EMPTY;
    for i := 0 to |events|
      invariant Fold(state, events[i..]) == Project(events)
    {
      var applied := ApplyEvent(state, events[i]);
      assert events[i..][1..] == events[i + 1..];
      if applied.Err? {
        return applied;
      }
      state := applied.value;
    }
    return Ok(state);
  }

  // ---------------------------------------------------------------- the current facts

  /** The facts of a state in the order its map iterates them. */
  function Values(s: State): seq<Fact>
    requires forall i :: 0 <= i < |s.order| ==> s.order[i] in s.facts
  {
    seq(|s.order|, i requires 0 <= i < |s.order| => s.facts[s.order[i]])
  }

  /** The ids some fact points at as superseded. */
  function Targets(fs: seq<Fact>): set<string> {
    set f | f in fs && f.supersedes.Some? :: f.supersedes.value
  }

  function Unsuperseded(fs: seq<Fact>, targets: set<string>): seq<Fact> {
    if fs == [] then []
    else (if fs[0].id in targets then [] else [fs[0]]) + Unsuperseded(fs[1..], targets)
  }

  method CurrentFacts(s: State) returns (current: seq<Fact>)
    requires forall i :: 0 <= i < |s.order| ==> s.order[i] in s.facts
    ensures current == Unsuperseded(Values(s), Targets(Values(s)))
  {
    var fs := Values(s);
    var superseded: set<string> := {};
    for i := 0 to |fs|
      invariant superseded == Targets(fs[..i])
    {
      TargetsNext(fs, i);
      if fs[i].supersedes.Some? {
        superseded := superseded + {fs[i].supersedes.value};
      }
    }
    assert fs[..|fs|] == fs;
    current := [];
    for i := 0 to |fs|
      invariant current + Unsuperseded(fs[i..], superseded) == Unsuperseded(fs, superseded)
    {
      assert fs[i..][1..] == fs[i + 1..];
      if fs[i].id !in superseded {
        current := current + [fs[i]];
      }
    }
  }

  lemma TargetsNext(fs: seq<Fact>, i: nat)
    requires i < |fs|
    ensures Targets(fs[..i + 1]) == Targets(fs[..i]) + if fs[i].supersedes.Some? then {fs[i].supersedes.value} else {}
  {
    assert fs[..i + 1] == fs[..i] + [fs[i]];
  }

  lemma {:induction false} UnsupersededFilters(fs: seq<Fact>, targets: set<string>, keep: Fact -> bool)
    requires forall f :: keep(f) <==> f.id !in targets
    ensures Unsuperseded(fs, targets) == Filter(fs, keep)
  {
    if fs != [] { UnsupersededFilters(fs[1..], targets, keep); }
  }

  /** The current facts are exactly those no fact points at, in the order of the fold. */
  lemma CurrentInOrder(s: State) returns (at: seq<nat>)
    requires forall i :: 0 <= i < |s.order| ==> s.order[i] in s.facts
    ensures
      var fs := Values(s);
      var current := Unsuperseded(fs, Targets(fs));
      && |at| == |current|
      && (forall k :: 0 <= k < |at| ==> at[k] < |fs| && current[k] == fs[at[k]])
      && (forall k, h :: 0 <= k < h < |at| ==> at[k] < at[h])
      && (forall i: nat :: i < |fs| ==> (i in at <==> forall j :: 0 <= j < |fs| ==> fs[j].supersedes != Some(fs[i].id)))
  {
    hide Values, Filter, Unsuperseded;
    var fs := Values(s);
    var targets := Targets(fs);
    var keep := (f: Fact) => f.id !in targets;
    UnsupersededFilters(fs, targets, keep);
    at := FilterKeeps(fs, keep);
    forall i: nat | i < |fs| ensures i in at <==> forall j :: 0 <= j < |fs| ==> fs[j].supersedes != Some(fs[i].id) {
      assert keep(fs[i]) <==> i in at;
      if fs[i].id in targets {
        var f :| f in fs && f.supersedes == Some(fs[i].id);
        var j :| 0 <= j < |fs| && fs[j] == f;
      } else {
        forall j | 0 <= j < |fs| ensures fs[j].supersedes != Some(fs[i].id) { assert fs[j] in fs; }
      }
    }
  }

  // ---------------------------------------------------------------- the fold, event by event

  /** Whether the fold accepts an event; this never depends on the state it is applied to. */
  predicate Applies(e: Event) {
    (IsFactEvent(e) ==> FactOf(e).Ok?) && (IsMergeEvent(e) ==> HasMerged(PayloadOf(e)))
  }

  predicate AllApply(events: seq<Event>) {
    forall i :: 0 <= i < |events| ==> Applies(events[i])
  }

  lemma {:induction false} FoldAppend(s: State, a: seq<Event>, b: seq<Event>)
    ensures Fold(s, a + b) == if Fold(s, a).Err? then Fold(s, a) else Fold(Fold(s, a).value, b)
    decreases |a|
  {
    if a == [] {
      assert a + b == b;
    } else {
      assert (a + b)[1..] == a[1..] + b;
      var r := ApplyEvent(s, a[0]);
      if r.Ok? { FoldAppend(r.value, a[1..], b); }
    }
  }

  /** An empty list of merged ids is accepted and changes nothing, whatever the error text asks for. */
  lemma EmptyMergedAccepted(s: State, e: Event)
    requires IsMergeEvent(e) && "merged" in PayloadOf(e) && PayloadOf(e)["merged"] == JArray([])
    ensures ApplyEvent(s, e) == Ok(s)
  {
    assert MergedIds(PayloadOf(e)) == [];
    assert MergeAll(s.merges, [], e.subjectId) == s.merges;
  }

  /** Replaying one more event applies it to what the log before it gave. */
  lemma ProjectSnoc(events: seq<Event>, e: Event)
    ensures Project(events + [e]) == if Project(events).Err? then Project(events) else ApplyEvent(Project(events).value, e)
  {
    FoldAppend(EMPTY, events, [e]);
    var r := Project(events);
    if r.Ok? { assert [e][1..] == []; }
  }

  /** Replay succeeds exactly when every event is accepted, so one bad event fails every later replay. */
  lemma {:induction false} ReplaySucceedsIff(events: seq<Event>)
    ensures Project(events).Ok? <==> AllApply(events)
  {
    if events != [] {
      var n := |events| - 1;
      var front := events[..n];
      assert events == front + [events[n]];
      ReplaySucceedsIff(front);
      ProjectSnoc(front, events[n]);
      if AllApply(front) && Applies(events[n]) {
        forall i | 0 <= i < |events| ensures Applies(events[i]) { if i < n { assert events[i] == front[i]; } }
      } else if !AllApply(front) {
        var i :| 0 <= i < |front| && !Applies(front[i]);
        assert !Applies(events[i]);
      }
    }
  }

  /** The iteration order lists each key of the fact map once. */
  ghost predicate Ordered(s: State) {
    && (forall i :: 0 <= i < |s.order| ==> s.order[i] in s.facts)
    && (forall id :: id in s.facts ==> id in s.order)
    && (forall i, j :: 0 <= i < j < |s.order| ==> s.order[i] != s.order[j])
    && (forall id :: id in s.facts ==> s.facts[id].id == id)
  }

  lemma {:induction false} ProjectOrdered(events: seq<Event>)
    requires Project(events).Ok?
    ensures Ordered(Project(events).value)
  {
    if events != [] {
      var n := |events| - 1;
      assert events == events[..n] + [events[n]];
      ProjectSnoc(events[..n], events[n]);
      ProjectOrdered(events[..n]);
    }
  }

  // ---------------------------------------------------------------- what a replay keeps of a log

  /** Event i records the fact with this id. */
  predicate RecordsAt(log: seq<Event>, i: nat, id: string) {
    i < |log| && IsFactEvent(log[i]) && log[i].subjectId == id
  }

  /** Event i merges x into its subject. */
  predicate MergesAt(log: seq<Event>, i: nat, x: string) {
    && i < |log| && log[i].stream == MemoryStream && log[i].kind == "entity_merged" && log[i].payload.Some?
    && var p := log[i].payload.value;
    "merged" in p && p["merged"].JArray? && JString(x) in p["merged"].items
  }

  lemma {:induction false} MergeAllMeans(m: Merges, dups: seq<string>, canonical: string, x: string)
    ensures
      var after := MergeAll(m, dups, canonical);
      && (x in after <==> x in dups || x in m)
      && (x in after ==> after[x] == if x in dups then canonical else m[x])
    decreases |dups|
  {
    if dups != [] {
      MergeAllMeans(m[dups[0] := canonical], dups[1..], canonical, x);
      assert x in dups <==> x == dups[0] || x in dups[1..];
    }
  }

  /** The events of a list less its last one, seen from the list. */
  lemma FrontEvents(log: seq<Event>, i: nat, x: string)
    requires log != []
    ensures
      var front := log[..|log| - 1];
      && (RecordsAt(front, i, x) <==> RecordsAt(log, i, x) && i < |front|)
      && (MergesAt(front, i, x) <==> MergesAt(log, i, x) && i < |front|)
      && (RecordsAt(log, i, x) || MergesAt(log, i, x) ==> i < |log|)
  {
  }

  /** The replayed merge map has the ids some event merges; each goes to the subject of the last such event. */
  lemma {:induction false} MergesAreLast(log: seq<Event>, x: string)
    requires Project(log).Ok?
    ensures
      var merges := Project(log).value.merges;
      && (x in merges <==> exists i: nat :: MergesAt(log, i, x))
      && (forall i: nat :: MergesAt(log, i, x) && (forall j: nat :: MergesAt(log, j, x) ==> j <= i) && x in merges
            ==> merges[x] == log[i].subjectId)
  {
    hide MergesAt, FactOf, MergeAll, Project;
    if log == [] {
      EmptyReplay();
      forall i: nat ensures !MergesAt(log, i, x) { NoEvents(log, i, x); }
    } else {
      var n := |log| - 1;
      var front := log[..n];
      assert log == front + [log[n]];
      ProjectSnoc(front, log[n]);
      MergesAreLast(front, x);
      MergeStep(Project(front).value, log, x);
      forall i: nat ensures (MergesAt(front, i, x) <==> MergesAt(log, i, x) && i < n) && (MergesAt(log, i, x) ==> i <= n) {
        FrontEvents(log, i, x);
      }
    }
  }

  lemma EmptyReplay()
    ensures Project([]) == Ok(EMPTY)
  {
  }

  lemma NoEvents(log: seq<Event>, i: nat, x: string)
    requires log == []
    ensures !MergesAt(log, i, x) && !RecordsAt(log, i, x)
  {
  }

  lemma MergeStep(s: State, log: seq<Event>, x: string)
    requires log != [] && ApplyEvent(s, log[|log| - 1]).Ok?
    ensures
      var n := |log| - 1;
      var after := ApplyEvent(s, log[n]).value.merges;
      && (x in after <==> MergesAt(log, n, x) || x in s.merges)
      && (x in after ==> after[x] == if MergesAt(log, n, x) then log[n].subjectId else s.merges[x])
  {
    var e := log[|log| - 1];
    if IsMergeEvent(e) {
      var p := PayloadOf(e);
      MergeAllMeans(s.merges, MergedIds(p), e.subjectId, x);
      if JString(x) in p["merged"].items {
        var i :| 0 <= i < |p["merged"].items| && p["merged"].items[i] == JString(x);
        assert MergedIds(p)[i] == x;
      }
      if x in MergedIds(p) {
        var i :| 0 <= i < |MergedIds(p)| && MergedIds(p)[i] == x;
        assert p["merged"].items[i] == JString(x);
      }
    }
  }

  /** The first event that records its fact. */
  predicate FirstRecord(log: seq<Event>, i: nat) {
    i < |log| && IsFactEvent(log[i]) && forall j: nat :: j < i && IsFactEvent(log[j]) ==> log[j].subjectId != log[i].subjectId
  }

  /** A replayed fact is what the last event that records it says, and every recorded fact is there. */
  lemma {:induction false} FactsAreLast(log: seq<Event>, id: string)
    requires Project(log).Ok?
    ensures
      var facts := Project(log).value.facts;
      && (id in facts <==> exists i: nat :: RecordsAt(log, i, id))
      && (forall i: nat :: RecordsAt(log, i, id) && (forall j: nat :: RecordsAt(log, j, id) ==> j <= i) && id in facts
            ==> FactOf(log[i]) == Ok(facts[id]))
  {
    hide RecordsAt, FactOf, MergeAll, Project;
    if log == [] {
      EmptyReplay();
      forall i: nat ensures !RecordsAt(log, i, id) { NoEvents(log, i, id); }
    } else {
      var n := |log| - 1;
      var front := log[..n];
      assert log == front + [log[n]];
      ProjectSnoc(front, log[n]);
      FactsAreLast(front, id);
      FactStep(Project(front).value, log, id);
      forall i: nat ensures (RecordsAt(front, i, id) <==> RecordsAt(log, i, id) && i < n) && (RecordsAt(log, i, id) ==> i <= n) {
        FrontEvents(log, i, id);
      }
    }
  }

  lemma FactStep(s: State, log: seq<Event>, id: string)
    requires log != [] && ApplyEvent(s, log[|log| - 1]).Ok?
    ensures
      var n := |log| - 1;
      var after := ApplyEvent(s, log[n]).value.facts;
      && (id in after <==> RecordsAt(log, n, id) || id in s.facts)
      && (id in after ==> if RecordsAt(log, n, id) then FactOf(log[n]) == Ok(after[id]) else after[id] == s.facts[id])
  {
  }

  /** The positions `at`, ascending, are those of all first records, of the facts `order` lists. */
  predicate FirstsAt(log: seq<Event>, order: seq<string>, at: seq<nat>) {
    && |at| == |order|
    && (forall k :: 0 <= k < |at| ==> FirstRecord(log, at[k]) && log[at[k]].subjectId == order[k])
    && (forall k, h :: 0 <= k < h < |at| ==> at[k] < at[h])
    && (forall i: nat :: i < |log| && FirstRecord(log, i) ==> i in at)
  }

  /** The fold lists its facts in the order in which the log first records them. */
  lemma {:induction false} OrderIsFirstRecorded(log: seq<Event>) returns (at: seq<nat>)
    requires Project(log).Ok?
    ensures FirstsAt(log, Project(log).value.order, at)
  {
    if log == [] {
      at := [];
    } else {
      hide FactOf, ApplyEvent, Project, FirstRecord, FirstsAt;
      var n := |log| - 1;
      var front, e := log[..n], log[n];
      assert log == front + [e];
      ProjectSnoc(front, e);
      at := OrderIsFirstRecorded(front);
      FirstIsNew(front, e);
      OrderStep(Project(front).value, e);
      FirstsNext(front, e, Project(front).value.order, at);
      if FirstRecord(log, n) { at := at + [n]; }
    }
  }

  lemma FirstsNext(front: seq<Event>, e: Event, order: seq<string>, at: seq<nat>)
    requires FirstsAt(front, order, at)
    requires forall i: nat :: i < |front| ==> (FirstRecord(front + [e], i) <==> FirstRecord(front, i))
    ensures if FirstRecord(front + [e], |front|) then FirstsAt(front + [e], order + [e.subjectId], at + [|front|])
            else FirstsAt(front + [e], order, at)
  {
    hide FirstRecord;
    var log := front + [e];
    forall k | 0 <= k < |at| ensures at[k] < |front| && log[at[k]] == front[at[k]] { FirstInside(front, at[k]); }
    assert forall i: nat :: i < |log| && FirstRecord(log, i) ==> i < |front| || i == |front|;
  }

  lemma FirstInside(log: seq<Event>, i: nat)
    requires FirstRecord(log, i)
    ensures i < |log|
  {
  }

  lemma OrderStep(s: State, e: Event)
    requires ApplyEvent(s, e).Ok?
    ensures ApplyEvent(s, e).value.order == if IsFactEvent(e) && e.subjectId !in s.facts then s.order + [e.subjectId] else s.order
  {
  }

  /** One more event is the first record of its fact if and only if the replay so far does not have that fact. */
  lemma FirstIsNew(front: seq<Event>, e: Event)
    requires Project(front).Ok?
    ensures FirstRecord(front + [e], |front|) <==> IsFactEvent(e) && e.subjectId !in Project(front).value.facts
    ensures forall i: nat :: i < |front| ==> (FirstRecord(front + [e], i) <==> FirstRecord(front, i))
  {
    hide Project, FactOf;
    var log := front + [e];
    FactsAreLast(front, e.subjectId);
    forall i: nat | i < |front| ensures FirstRecord(log, i) <==> FirstRecord(front, i) {
      assert forall j: nat :: j <= i ==> log[j] == front[j];
    }
    if i: nat :| RecordsAt(front, i, e.subjectId) { assert log[i] == front[i]; }
    if !FirstRecord(log, |front|) && IsFactEvent(e) {
      var j: nat :| j < |front| && IsFactEvent(log[j]) && log[j].subjectId == e.subjectId;
      assert RecordsAt(front, j, e.subjectId);
    }
  }
}
