/**
 * One workspace: the event logs, the vault and the projection database, with the operations that write
 * them when they run alone. Interleaving.dfy has the same operations cut into steps.
 */
module Workspace {
  import opened Wrappers
  import opened Text
  import opened Json
  import opened Lists
  import opened MergeMap
  import opened Projector
  import opened FactRecord
  import opened Store
  import opened EntityGraph
  import opened Ulid
  import Interleaving

  // ---------------------------------------------------------------- tasks

  /** A note is a task when its frontmatter has a non-blank status and it has a title. */
  predicate IsTask(n: NoteView) {
    && "status" in n.frontmatter && n.frontmatter["status"].JString? && !Blank(n.frontmatter["status"].s, JsSpace)
    && TitleOf(n).Some?
  }

  function TaskFor(n: NoteView): TaskRow
    requires IsTask(n)
  {
    TaskRow(n.id, TitleOf(n).value, n.frontmatter["status"].s, n.id, TextField(n.frontmatter, "updated"))
  }

  function TaskRows(notes: seq<NoteView>): map<string, TaskRow> {
    if notes == [] then map[]
    else
      var n := |notes| - 1;
      var rows := TaskRows(notes[..n]);
      if IsTask(notes[n]) then rows[notes[n].id := TaskFor(notes[n])] else rows
  }

  function TaskCount(notes: seq<NoteView>): nat {
    if notes == [] then 0
    else TaskCount(notes[..|notes| - 1]) + if IsTask(notes[|notes| - 1]) then 1 else 0
  }

  // ---------------------------------------------------------------- what a rebuild computes

  predicate IsEntity(n: NoteView) {
    n.kind == Some("entity")
  }

  /** `listNotes(type: "entity")`: the entity notes, in the listing's order. */
  function EntityNotes(vault: seq<NoteView>): seq<NoteView> {
    Filter(vault, IsEntity)
  }

  /** Both sources can be projected: the log replays and every entity note has a title. */
  predicate Projectable(log: seq<Event>, vault: seq<NoteView>) {
    Project(log).Ok? && Titled(EntityNotes(vault))
  }

  /** The four tables as a function of the log and the vault alone. */
  function Rebuilt(log: seq<Event>, vault: seq<NoteView>): Tables
    requires Projectable(log, vault)
  {
    var st := Project(log).value;
    Tables(st.facts, NodeRows(EntityNotes(vault)), AddRefs(st.merges, AllRefs(EntityNotes(vault))).rows, TaskRows(vault))
  }

  // ---------------------------------------------------------------- what the tables say of the vault

  /** Note i is an entity note, and the last one with its id. */
  predicate LastEntity(vault: seq<NoteView>, i: nat) {
    && i < |vault| && vault[i].kind == Some("entity")
    && forall j :: i < j < |vault| && vault[j].kind == Some("entity") ==> vault[j].id != vault[i].id
  }

  /** The node table has the ids of the entity notes, and for each what the last note with that id says. */
  lemma RebuiltNodes(log: seq<Event>, vault: seq<NoteView>, id: string)
    requires Projectable(log, vault)
    ensures
      var nodes := Rebuilt(log, vault).nodes;
      && (id in nodes <==> exists i :: 0 <= i < |vault| && vault[i].kind == Some("entity") && vault[i].id == id)
      && (forall i: nat :: LastEntity(vault, i) && vault[i].id == id && id in nodes ==>
            nodes[id].id == id && nodes[id].sourceRef == id
            && TitleMeans(vault[i], nodes[id].title) && AliasesMean(vault[i].frontmatter, nodes[id].aliases))
  {
    hide Project, NodeRows, AliasesMean, TitleMeans, Filter, TitleOf;
    var notes := EntityNotes(vault);
    var at := FilterKeeps(vault, IsEntity);
    NodeRowIds(notes, id);
    if i :| 0 <= i < |vault| && vault[i].kind == Some("entity") && vault[i].id == id {
      assert IsEntity(vault[i]) <==> i in at;
      var k :| 0 <= k < |at| && at[k] == i;
      assert notes[k].id == id;
    }
    if k :| 0 <= k < |notes| && notes[k].id == id {
      assert at[k] in at && IsEntity(vault[at[k]]);
    }
    forall i: nat | LastEntity(vault, i) && vault[i].id == id
      ensures
        id in NodeRows(notes) && var row := NodeRows(notes)[id];
        row.id == id && row.sourceRef == id && TitleMeans(vault[i], row.title) && AliasesMean(vault[i].frontmatter, row.aliases)
    {
      assert IsEntity(vault[i]) <==> i in at;
      var k :| 0 <= k < |at| && at[k] == i;
      forall j | k < j < |notes| ensures notes[j].id != id { assert at[j] in at && IsEntity(vault[at[j]]); }
      NodeRowMeans(notes, k);
    }
  }

  /** Item p of an entity note's array is an entity id and, with its note, resolves to the pair. */
  predicate EntityRefersTo(m: Merges, vault: seq<NoteView>, p: Place, from: string, to: string) {
    RefersTo(m, vault, p, from, to) && vault[p.note].kind == Some("entity")
  }

  lemma PlaceInVault(m: Merges, vault: seq<NoteView>, at: seq<nat>, p: Place, from: string, to: string)
    requires Kept(vault, IsEntity, EntityNotes(vault), at) && p.note < |at|
    ensures RefersTo(m, EntityNotes(vault), p, from, to) <==> EntityRefersTo(m, vault, Place(at[p.note], p.item), from, to)
  {
    hide Filter, Resolve, IsUlid;
    assert at[p.note] in at && IsEntity(vault[at[p.note]]);
    assert EntityNotes(vault)[p.note] == vault[at[p.note]];
  }

  /**
   * A pair off the diagonal is an edge if and only if some item of some entity note's `entities` array is an entity
   * id and resolves, with its note, to the pair; the edge names the first such note.
   */
  lemma RebuiltEdges(log: seq<Event>, vault: seq<NoteView>, from: string, to: string)
    requires Projectable(log, vault) && UlidMerges(Project(log).value.merges)
    ensures
      var m, rows, key := Project(log).value.merges, Rebuilt(log, vault).edges, EdgeKey(from, to, "related");
      && (forall k :: k in rows ==> k.kind == "related")
      && (key in rows <==> from != to && exists p :: EntityRefersTo(m, vault, p, from, to))
      && (key in rows ==> exists p :: EntityRefersTo(m, vault, p, from, to) && rows[key] == vault[p.note].id
                            && forall q :: EntityRefersTo(m, vault, q, from, to) ==> q == p || Earlier(p, q))
  {
    hide Project, AddRefs, AllRefs, RefersTo, EntityRefersTo, EntityNotes, UlidMerges, TitleOf, NodeRows, TaskRows, Earlier;
    var m, rows, key := Project(log).value.merges, Rebuilt(log, vault).edges, EdgeKey(from, to, "related");
    var notes := EntityNotes(vault);
    var at := EntityPlaces(vault);
    EdgesOfNotes(m, notes, from, to);
    forall p | RefersTo(m, notes, p, from, to) ensures p.note < |at| && EntityRefersTo(m, vault, Place(at[p.note], p.item), from, to) {
      RefersInside(m, notes, p, from, to);
      PlaceInVault(m, vault, at, p, from, to);
    }
    if q :| from != to && EntityRefersTo(m, vault, q, from, to) {
      var p := PlaceAmongEntities(m, vault, at, q, from, to);
    }
    if key in rows {
      var p :| RefersTo(m, notes, p, from, to) && rows[key] == notes[p.note].id
               && forall q :: RefersTo(m, notes, q, from, to) ==> q == p || Earlier(p, q);
      FirstInVault(m, vault, at, p, from, to);
      assert notes[p.note] == vault[at[p.note]];
    }
  }

  /** What comes first among the entity notes does so in the vault. */
  lemma FirstInVault(m: Merges, vault: seq<NoteView>, at: seq<nat>, p: Place, from: string, to: string)
    requires Kept(vault, IsEntity, EntityNotes(vault), at) && p.note < |at|
    requires forall q :: RefersTo(m, EntityNotes(vault), q, from, to) ==> q == p || Earlier(p, q)
    ensures forall q :: EntityRefersTo(m, vault, q, from, to) ==> q == Place(at[p.note], p.item) || Earlier(Place(at[p.note], p.item), q)
  {
    hide RefersTo, EntityRefersTo, EntityNotes;
    forall q | EntityRefersTo(m, vault, q, from, to)
      ensures q == Place(at[p.note], p.item) || Earlier(Place(at[p.note], p.item), q)
    {
      var r := PlaceAmongEntities(m, vault, at, q, from, to);
    }
  }

  /** Where the entity notes stand in the vault. */
  lemma EntityPlaces(vault: seq<NoteView>) returns (at: seq<nat>)
    ensures Kept(vault, IsEntity, EntityNotes(vault), at)
  {
    at := FilterKeeps(vault, IsEntity);
  }

  /** An item of an entity note, with the note's place among the entity notes. */
  lemma PlaceAmongEntities(m: Merges, vault: seq<NoteView>, at: seq<nat>, q: Place, from: string, to: string) returns (p: Place)
    requires Kept(vault, IsEntity, EntityNotes(vault), at) && EntityRefersTo(m, vault, q, from, to)
    ensures p.note < |at| && at[p.note] == q.note && p.item == q.item && RefersTo(m, EntityNotes(vault), p, from, to)
  {
    hide RefersTo, EntityNotes;
    RefersInside(m, vault, q, from, to);
    assert IsEntity(vault[q.note]) <==> q.note in at;
    var k :| 0 <= k < |at| && at[k] == q.note;
    p := Place(k, q.item);
    PlaceInVault(m, vault, at, p, from, to);
  }

  lemma RefersInside(m: Merges, notes: seq<NoteView>, p: Place, from: string, to: string)
    requires RefersTo(m, notes, p, from, to)
    ensures p.note < |notes|
  {
  }

  /** Note i has a status that is not blank and a title, and is the last such note with its id. */
  predicate LastTask(vault: seq<NoteView>, i: nat) {
    i < |vault| && IsTask(vault[i]) && forall j :: i < j < |vault| && IsTask(vault[j]) ==> vault[j].id != vault[i].id
  }

  predicate TaskMeans(n: NoteView, row: TaskRow) {
    var fm := n.frontmatter;
    && row.id == n.id && row.sourceRef == n.id && TitleMeans(n, row.title)
    && "status" in fm && fm["status"] == JString(row.status) && !Blank(row.status, JsSpace)
    && (row.updatedAt.Some? <==> "updated" in fm && fm["updated"].JString? && fm["updated"].s != "")
    && (row.updatedAt.Some? ==> fm["updated"] == JString(row.updatedAt.value))
  }

  /** A note is a task if and only if it has a status that is not blank and a title that is not empty. */
  lemma TaskIff(n: NoteView)
    ensures IsTask(n) <==>
              var fm := n.frontmatter;
              && "status" in fm && fm["status"].JString? && !Blank(fm["status"].s, JsSpace)
              && exists title :: TitleMeans(n, title)
    ensures IsTask(n) ==> TaskMeans(n, TaskFor(n))
  {
    hide Blank;
    if TitleOf(n).Some? { assert TitleMeans(n, TitleOf(n).value); }
  }

  /** The task table has the ids of the notes that are tasks. */
  lemma {:induction false} TaskRowIds(vault: seq<NoteView>, id: string)
    ensures id in TaskRows(vault) <==> exists i :: 0 <= i < |vault| && IsTask(vault[i]) && vault[i].id == id
  {
    hide IsTask, TaskFor;
    if vault != [] {
      var n := |vault| - 1;
      var front := vault[..n];
      TaskRowIds(front, id);
      if i :| 0 <= i < |front| && IsTask(front[i]) && front[i].id == id { assert vault[i] == front[i]; }
      if i :| 0 <= i < |vault| && IsTask(vault[i]) && vault[i].id == id { assert i < n ==> front[i] == vault[i]; }
    }
  }

  /** The row of an id is that of the last task note with it, and says what that note says. */
  lemma {:induction false} TaskRowMeans(vault: seq<NoteView>, i: nat)
    requires LastTask(vault, i)
    ensures vault[i].id in TaskRows(vault) && TaskMeans(vault[i], TaskRows(vault)[vault[i].id])
  {
    hide IsTask, TaskMeans, TaskFor;
    var n := |vault| - 1;
    if i == n {
      TaskIff(vault[n]);
    } else {
      var front := vault[..n];
      assert LastTask(front, i) by {
        forall j | i < j < n && IsTask(front[j]) ensures front[j].id != front[i].id { assert front[j] == vault[j]; }
      }
      TaskRowMeans(front, i);
    }
  }

  datatype Counts = Counts(facts: nat, entities: nat, edges: nat, tasks: nat)

  datatype ProjectionRecord = ProjectionReset(eventId: string, at: string) | ProjectionRebuilt(eventId: string, at: string, counts: Counts)

  /** Where a rebuild threw: inside the transaction, or at one of the two appends after the commit. */
  datatype RebuildError = RolledBack | ResetNotRecorded | RebuiltNotRecorded

  class Workspace {
    const store: ProjectionStore
    const vault: seq<NoteView>
    var memoryLog: seq<Event>
    var projectionLog: seq<ProjectionRecord>

    constructor (store: ProjectionStore, vault: seq<NoteView>, memoryLog: seq<Event>)
      ensures this.store == store && this.vault == vault && this.memoryLog == memoryLog && projectionLog == []
    {
      this.store, this.vault, this.memoryLog, projectionLog := store, vault, memoryLog, [];
    }

    method ProjectTasks() returns (r: Result<nat, RebuildError>)
      modifies store
      ensures store.SameSnapshot()
      ensures store.Visible() == old(store.Visible()).(tasks := store.Visible().tasks)
      ensures r.Ok? ==> store.Visible().tasks == TaskRows(vault) && r.value == TaskCount(vault)
      ensures r.Err? ==> store.FaultSince(old(store.statements))
    {
      var ok := store.Exec(store.Visible().(tasks := map[]));
      if !ok { return Err(RolledBack); }
      var count := 0;
      for i := 0 to |vault|
        invariant store.SameSnapshot()
        invariant store.Visible() == old(store.Visible()).(tasks := TaskRows(vault[..i]))
        invariant count == TaskCount(vault[..i])
      {
        assert vault[..i + 1][..i] == vault[..i];
        if !IsTask(vault[i]) { continue; }
        ok := store.InsertTask(TaskFor(vault[i]));
        if !ok { return Err(RolledBack); }
        count := count + 1;
      }
      assert vault[..|vault|] == vault;
      return Ok(count);
    }

    /** The fact part of the transaction body: every folded fact, in the fold's order. */
    method ReplayFacts() returns (r: Result<nat, RebuildError>)
      requires store.Visible().facts == map[]
      modifies store
      ensures store.SameSnapshot()
      ensures store.Visible() == old(store.Visible()).(facts := store.Visible().facts)
      ensures r.Ok? ==> Project(memoryLog).Ok? && store.Visible().facts == Project(memoryLog).value.facts
                        && r.value == |Project(memoryLog).value.facts|
      ensures r.Err? ==> store.FaultSince(old(store.statements)) || Project(memoryLog).Err?
    {
      hide Project, Fold;
      var projected := ProjectEvents(memoryLog);
      if projected.Err? { return Err(RolledBack); }
      var st := projected.value;
      ProjectOrdered(memoryLog);
      var count := 0;
      for i := 0 to |st.order|
        invariant store.SameSnapshot()
        invariant store.Visible() == old(store.Visible()).(facts := Picked(st, i))
        invariant count == |Picked(st, i)|
      {
        PickedNext(st, i);
        var ok := store.InsertFact(st.facts[st.order[i]]);
        if !ok { return Err(RolledBack); }
        count := count + 1;
      }
      PickedAll(st);
      return Ok(count);
    }

    /** The transaction body: reset all four tables, then refill them. */
    method RefillTables() returns (r: Result<Counts, RebuildError>)
      modifies store
      ensures store.SameSnapshot()
      ensures r.Ok? ==> Projectable(memoryLog, vault) && store.Visible() == Rebuilt(memoryLog, vault)
      ensures r.Ok? ==> r.value == Counts(|store.Visible().facts|, |EntityNotes(vault)|, |store.Visible().edges|, TaskCount(vault))
      ensures r.Err? ==> store.FaultSince(old(store.statements)) || !Projectable(memoryLog, vault)
    {
      hide Project, NodeRows, AllRefs, TaskRows, TaskCount, EntityNotes, AddRefs;
      var ok := store.Exec(NO_ROWS);
      if !ok { return Err(RolledBack); }
      var facts := ReplayFacts();
      if facts.Err? { return Err(RolledBack); }
      var entities := ProjectEntities(store, EntityNotes(vault));
      if entities.Err? { return Err(RolledBack); }
      var edges := ProjectEdges(store, EntityNotes(vault), memoryLog);
      if edges.Err? { return Err(RolledBack); }
      var tasks := ProjectTasks();
      if tasks.Err? { return Err(RolledBack); }
      return Ok(Counts(facts.value, entities.value, edges.value, tasks.value));
    }

    /**
     * A rebuild. Whatever throws inside the transaction leaves every table and the projection log as they
     * were; once committed, the tables are a function of the log and the vault, whatever they held before.
     */
    method RunRebuild(now: string, resetId: string, rebuiltId: string, resetOk: bool, rebuiltOk: bool)
      returns (r: Result<Counts, RebuildError>)
      requires store.work.None?
      modifies store, this`projectionLog
      ensures store.work.None?
      ensures r == Err(RolledBack) ==> store.committed == old(store.committed) && projectionLog == old(projectionLog)
      ensures r == Err(RolledBack) ==> store.FaultSince(old(store.statements)) || !Projectable(memoryLog, vault)
      ensures r != Err(RolledBack) ==> Projectable(memoryLog, vault) && store.committed == Rebuilt(memoryLog, vault)
      ensures r == Err(ResetNotRecorded) ==> !resetOk && projectionLog == old(projectionLog)
      ensures r == Err(RebuiltNotRecorded) ==> resetOk && !rebuiltOk && projectionLog == old(projectionLog) + [ProjectionReset(resetId, now)]
      ensures r.Ok? ==> resetOk && rebuiltOk
      ensures r.Ok? ==> projectionLog == old(projectionLog) + [ProjectionReset(resetId, now), ProjectionRebuilt(rebuiltId, now, r.value)]
      ensures r.Ok? ==> r.value == Counts(|store.committed.facts|, |EntityNotes(vault)|, |store.committed.edges|, TaskCount(vault))
    {
      hide Project, Rebuilt, Projectable, EntityNotes, TaskCount;
      var began := store.BeginImmediate();
      if !began {
        store.Close();
        return Err(RolledBack);
      }
      var counts := RefillTables();
      var committed := false;
      if counts.Ok? {
        committed := store.Commit();
      }
      if !committed {
        store.Rollback();
        store.Close();
        return Err(RolledBack);
      }
      store.Close();
      if !resetOk { return Err(ResetNotRecorded); }
      projectionLog := projectionLog + [ProjectionReset(resetId, now)];
      if !rebuiltOk { return Err(RebuiltNotRecorded); }
      projectionLog := projectionLog + [ProjectionRebuilt(rebuiltId, now, counts.value)];
      return counts;
    }

    /**
     * Recording one fact: validate, check the target, append the event, insert the row. The event is in
     * the log as soon as it is appended; a failing insert leaves it there and reports the failure.
     */
    method RecordFact(input: FactInput, supersedes: Option<string>, id: string, eventId: string, openOk: bool, appendOk: bool)
      returns (r: Result<Fact, FactError>)
      requires store.work.None?
      modifies store, this`memoryLog
      ensures store.work.None?
      ensures Validate(input).Some? ==> r == Err(Validate(input).value)
      ensures Validate(input).None? && !openOk ==> r == Err(StoreUnavailable)
      ensures Validate(input).None? && openOk && supersedes.Some? && supersedes.value !in old(store.committed).facts
              ==> r == Err(SupersedeTargetNotFound)
      ensures r == Err(EventAppendFailed) <==>
                Validate(input).None? && openOk && (supersedes.Some? ==> supersedes.value in old(store.committed).facts) && !appendOk
      ensures r.Ok? || r == Err(ProjectionWriteFailed) <==>
                Validate(input).None? && openOk && (supersedes.Some? ==> supersedes.value in old(store.committed).facts) && appendOk
      ensures r.Err? && r.error != ProjectionWriteFailed ==> memoryLog == old(memoryLog) && store.committed == old(store.committed)
      ensures r == Err(ProjectionWriteFailed) ==>
                && memoryLog == old(memoryLog) + [EventFor(input, id, eventId, supersedes)] && store.committed == old(store.committed)
                && (store.FaultSince(old(store.statements)) || id in old(store.committed).facts)
      ensures r.Ok? ==>
                var s := Interleaving.Run(Alone(old(memoryLog), old(store.committed).facts), RecordSteps(input, supersedes, id, eventId));
                && r.value == FactFor(input, id, supersedes)
                && memoryLog == s.log == old(memoryLog) + [EventFor(input, id, eventId, supersedes)]
                && store.committed == old(store.committed).(facts := s.rows) && s.rows == old(store.committed).facts[id := r.value]
                && id !in old(store.committed).facts
    {
      hide Validate;
      ValidateFirst(input);
      var problem := Validate(input);
      if problem.Some? { return Err(problem.value); }
      if !openOk { return Err(StoreUnavailable); }
      if supersedes.Some? && supersedes.value !in store.committed.facts {
        return Err(SupersedeTargetNotFound);
      }
      if !appendOk { return Err(EventAppendFailed); }
      memoryLog := memoryLog + [EventFor(input, id, eventId, supersedes)];
      var ok := store.InsertFact(FactFor(input, id, supersedes));
      if !ok { return Err(ProjectionWriteFailed); }
      AloneRun(old(memoryLog), old(store.committed).facts, input, supersedes, id, eventId);
      return Ok(FactFor(input, id, supersedes));
    }

    /** A correction: the guard on the target id, then the shared path. No existing row or event changes. */
    method SupersedeFact(input: FactInput, supersedes: string, id: string, eventId: string, openOk: bool, appendOk: bool)
      returns (r: Result<Fact, FactError>)
      requires store.work.None?
      modifies store, this`memoryLog
      ensures store.work.None?
      ensures r == Err(InvalidSupersedes) <==> !IsUlid(supersedes)
      ensures IsUlid(supersedes) && Validate(input).Some? ==> r == Err(Validate(input).value)
      ensures IsUlid(supersedes) && Validate(input).None? && openOk ==>
                && (r == Err(SupersedeTargetNotFound) <==> supersedes !in old(store.committed).facts)
                && (supersedes in old(store.committed).facts && appendOk ==>
                      memoryLog == old(memoryLog) + [EventFor(input, id, eventId, Some(supersedes))]
                      && (r.Err? ==> r == Err(ProjectionWriteFailed)
                                     && (store.FaultSince(old(store.statements)) || id in old(store.committed).facts)))
      ensures r == Err(StoreUnavailable) <==> IsUlid(supersedes) && Validate(input).None? && !openOk
      ensures r == Err(EventAppendFailed) ==> !appendOk
      ensures r.Err? && r != Err(ProjectionWriteFailed) ==> memoryLog == old(memoryLog) && store.committed == old(store.committed)
      ensures old(memoryLog) <= memoryLog
      ensures forall k :: k in old(store.committed).facts ==> k in store.committed.facts && store.committed.facts[k] == old(store.committed).facts[k]
      ensures r.Ok? ==> supersedes in old(store.committed).facts && id !in old(store.committed).facts
                        && r.value.supersedes == Some(supersedes) && id in store.committed.facts && store.committed.facts[id] == r.value
    {
      hide Validate, EventFor;
      ValidateFirst(input);
      if !IsUlid(supersedes) { return Err(InvalidSupersedes); }
      r := RecordFact(input, Some(supersedes), id, eventId, openOk, appendOk);
    }
  }

  // ---------------------------------------------------------------- proof support

  /** The first i facts of the fold, as a table. */
  function Picked(st: State, i: nat): map<string, Fact>
    requires Ordered(st) && i <= |st.order|
  {
    if i == 0 then map[] else Picked(st, i - 1)[st.order[i - 1] := st.facts[st.order[i - 1]]]
  }

  lemma {:induction false} PickedMembers(st: State, i: nat, id: string)
    requires Ordered(st) && i <= |st.order|
    ensures id in Picked(st, i) <==> exists k :: 0 <= k < i && st.order[k] == id
    ensures id in Picked(st, i) ==> id in st.facts && Picked(st, i)[id] == st.facts[id]
  {
    if i != 0 { PickedMembers(st, i - 1, id); }
  }

  lemma PickedNext(st: State, i: nat)
    requires Ordered(st) && i < |st.order|
    ensures st.facts[st.order[i]].id == st.order[i] && st.order[i] !in Picked(st, i)
    ensures Picked(st, i + 1) == Picked(st, i)[st.order[i] := st.facts[st.order[i]]]
    ensures |Picked(st, i + 1)| == |Picked(st, i)| + 1
  {
    PickedMembers(st, i, st.order[i]);
    MapGrows(Picked(st, i), st.order[i], st.facts[st.order[i]]);
  }

  lemma MapGrows<K, V>(m: map<K, V>, k: K, v: V)
    requires k !in m
    ensures |m[k := v]| == |m| + 1
  {
    assert m[k := v].Keys == m.Keys + {k};
  }

  lemma PickedAll(st: State)
    requires Ordered(st)
    ensures Picked(st, |st.order|) == st.facts
  {
    forall id ensures id in Picked(st, |st.order|) <==> id in st.facts {
      PickedMembers(st, |st.order|, id);
      if id in st.facts { var k :| 0 <= k < |st.order| && st.order[k] == id; }
    }
    forall id | id in st.facts ensures Picked(st, |st.order|)[id] == st.facts[id] { PickedMembers(st, |st.order|, id); }
  }

  /** The state of a workspace nobody else is using. */
  function Alone(log: seq<Event>, rows: map<string, Fact>): Interleaving.Sys {
    Interleaving.Sys(log, rows, map[], None, {}, {}, 0)
  }

  /** The steps an undisturbed `recordFact` takes. */
  function RecordSteps(input: FactInput, supersedes: Option<string>, id: string, eventId: string): seq<Interleaving.Step> {
    [Interleaving.CheckTarget(0, input, supersedes, id, eventId), Interleaving.AppendEvent(0), Interleaving.InsertRow(0)]
  }

  lemma AloneRun(log: seq<Event>, rows: map<string, Fact>, input: FactInput, supersedes: Option<string>, id: string, eventId: string)
    requires Validate(input).None? && id !in rows
    requires supersedes.Some? ==> supersedes.value in rows
    ensures
      var s := Interleaving.Run(Alone(log, rows), RecordSteps(input, supersedes, id, eventId));
      s.log == log + [EventFor(input, id, eventId, supersedes)] && s.rows == rows[id := FactFor(input, id, supersedes)]
  {
    hide Validate, FactFor, EventFor;
    var steps := RecordSteps(input, supersedes, id, eventId);
    var s0 := Alone(log, rows);
    assert Interleaving.Enabled(s0, steps[0]);
    var s1 := Interleaving.Next(s0, steps[0]);
    var s2 := Interleaving.Next(s1, steps[1]);
    FactForId(input, id, supersedes);
    assert Interleaving.Enabled(s2, steps[2]);
    var s3 := Interleaving.Next(s2, steps[2]);
    assert steps[1..] == [steps[1], steps[2]] && steps[1..][1..] == [steps[2]];
    assert Interleaving.Run(s3, []) == s3;
    assert Interleaving.Run(s2, [steps[2]]) == s3;
    assert Interleaving.Run(s1, [steps[1], steps[2]]) == s3;
  }

  lemma FactForId(input: FactInput, id: string, supersedes: Option<string>)
    ensures FactFor(input, id, supersedes).id == id
  {
  }
}
