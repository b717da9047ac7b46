/** Entity nodes and edges derived from the vault, and the merges that join entities. */
module EntityGraph {
  import opened Wrappers
  import opened Json
  import opened Lists
  import opened MergeMap
  import opened Projector
  import opened Store
  import opened Ulid

  /** A note as the projections see it: its summary and its parsed frontmatter mapping. */
  datatype NoteView = NoteView(id: string, kind: Option<string>, title: Option<string>, frontmatter: Object)

  const EDGE_KIND := "related"

  datatype GraphError = InvalidEntityNote(id: string) | InvalidMerge | MergeTargetNotFound | MergeNotRecorded | ReplayFailed | StatementFailed

  // ---------------------------------------------------------------- nodes

  function TextField(fm: Object, key: string): Option<string> {
    if key in fm && fm[key].JString? && fm[key].s != "" then Some(fm[key].s) else None
  }

  /** The frontmatter title when it is a non-empty string, else the summary's; never an empty one. */
  function TitleOf(n: NoteView): Option<string> {
    var t := TextField(n.frontmatter, "title");
    if t.Some? then t else if n.title.Some? && n.title.value != "" then n.title else None
  }

  predicate NonEmptyText(j: Json) {
    j.JString? && j.s != ""
  }

  predicate UlidText(j: Json) {
    j.JString? && IsUlid(j.s)
  }

  function Unwrapped(texts: seq<Json>): seq<string>
    requires forall i :: 0 <= i < |texts| ==> texts[i].JString?
  {
    seq(|texts|, i requires 0 <= i < |texts| => texts[i].s)
  }

  function AliasesOf(fm: Object): Option<seq<string>> {
    if "aliases" in fm && fm["aliases"].JArray? && Filter(fm["aliases"].items, NonEmptyText) != []
    then Some(Unwrapped(Filter(fm["aliases"].items, NonEmptyText))) else None
  }

  function NodeFor(n: NoteView): EntityNode
    requires TitleOf(n).Some?
  {
    EntityNode(n.id, TitleOf(n).value, AliasesOf(n.frontmatter), n.id)
  }

  predicate Titled(notes: seq<NoteView>) {
    forall i :: 0 <= i < |notes| ==> TitleOf(notes[i]).Some?
  }

  /** The node table of a list of entity notes; of two notes with one id the later wins. */
  function NodeRows(notes: seq<NoteView>): map<string, EntityNode>
    requires Titled(notes)
  {
    if notes == [] then map[]
    else
      var n := |notes| - 1;
      NodeRows(notes[..n])[notes[n].id := NodeFor(notes[n])]
  }

  /**
   * Rebuilds the node table. A note without a title stops it part-way: outside a transaction the rows of
   * the notes before it are all that is left of the table.
   */
  method ProjectEntities(store: ProjectionStore, notes: seq<NoteView>) returns (r: Result<nat, GraphError>)
    modifies store
    ensures store.SameSnapshot()
    ensures store.Visible() == old(store.Visible()).(nodes := store.Visible().nodes)
    ensures r.Ok? ==> Titled(notes) && store.Visible().nodes == NodeRows(notes) && r.value == |notes|
    ensures r.Err? && !r.error.InvalidEntityNote? ==> r.error == StatementFailed && store.FaultSince(old(store.statements))
    ensures r.Err? && r.error.InvalidEntityNote? ==>
              exists k :: 0 <= k < |notes| && Titled(notes[..k]) && TitleOf(notes[k]).None? && r.error.id == notes[k].id
                          && store.Visible().nodes == NodeRows(notes[..k])
  {
    var ok := store.Exec(store.Visible().(nodes := map[]));
    if !ok { return Err(StatementFailed); }
    for i := 0 to |notes|
      invariant store.SameSnapshot()
      invariant Titled(notes[..i])
      invariant store.Visible() == old(store.Visible()).(nodes := NodeRows(notes[..i]))
    {
      var title := TitleOf(notes[i]);
      if title.None? { return Err(InvalidEntityNote(notes[i].id)); }
      assert notes[..i + 1][..i] == notes[..i];
      ok := store.InsertEntityNode(NodeFor(notes[i]));
      if !ok { return Err(StatementFailed); }
    }
    assert notes[..|notes|] == notes;
    return Ok(|notes|);
  }

  lemma {:induction false} NodeRowIds(notes: seq<NoteView>, id: string)
    requires Titled(notes)
    ensures id in NodeRows(notes) <==> exists i :: 0 <= i < |notes| && notes[i].id == id
  {
    if notes != [] {
      var n := |notes| - 1;
      var front := notes[..n];
      NodeRowIds(front, id);
      if i :| 0 <= i < n && front[i].id == id { assert notes[i].id == id; }
      if i :| 0 <= i < |notes| && notes[i].id == id { assert i < n ==> front[i].id == id; }
    }
  }

  /** The last of the notes with its id. */
  predicate LastWithId(notes: seq<NoteView>, i: nat) {
    i < |notes| && forall j :: i < j < |notes| ==> notes[j].id != notes[i].id
  }

  /** The title of a note, of its frontmatter if that has one, and else the listed one. */
  predicate TitleMeans(n: NoteView, title: string) {
    && title != ""
    && var fm := n.frontmatter;
    if "title" in fm && fm["title"].JString? && fm["title"].s != "" then title == fm["title"].s else n.title == Some(title)
  }

  /** The texts of an array that are not empty, each in its turn. */
  ghost predicate AliasesAt(items: seq<Json>, aliases: seq<string>, at: seq<nat>) {
    && |at| == |aliases| && aliases != []
    && (forall k :: 0 <= k < |at| ==> at[k] < |items| && items[at[k]] == JString(aliases[k]))
    && (forall k, h :: 0 <= k < h < |at| ==> at[k] < at[h])
    && (forall i: nat :: i < |items| ==> (i in at <==> items[i].JString? && items[i].s != ""))
  }

  ghost predicate AliasesMean(fm: Object, aliases: Option<seq<string>>) {
    match aliases
    case Some(list) => "aliases" in fm && fm["aliases"].JArray? && exists at :: AliasesAt(fm["aliases"].items, list, at)
    case None => "aliases" in fm && fm["aliases"].JArray? ==> forall j :: j in fm["aliases"].items && j.JString? ==> j.s == ""
  }

  lemma AliasesOfMean(fm: Object)
    ensures AliasesMean(fm, AliasesOf(fm))
  {
    hide Filter;
    if "aliases" in fm && fm["aliases"].JArray? {
      var items := fm["aliases"].items;
      var at := FilterKeeps(items, NonEmptyText);
      if Filter(items, NonEmptyText) != [] {
        assert AliasesAt(items, AliasesOf(fm).value, at);
      } else {
        forall j | j in items && j.JString? ensures j.s == "" {
          var i :| 0 <= i < |items| && items[i] == j;
          assert NonEmptyText(items[i]) <==> i in at;
        }
      }
    }
  }

  /** The row of an id is that of the last note with it, and says what that note says. */
  lemma {:induction false} NodeRowMeans(notes: seq<NoteView>, i: nat)
    requires Titled(notes) && LastWithId(notes, i)
    ensures
      var n := notes[i];
      n.id in NodeRows(notes)
      && var row := NodeRows(notes)[n.id];
      row.id == n.id && row.sourceRef == n.id && TitleMeans(n, row.title) && AliasesMean(n.frontmatter, row.aliases)
  {
    hide AliasesOf, AliasesMean;
    var last := |notes| - 1;
    if i == last {
      AliasesOfMean(notes[i].frontmatter);
    } else {
      assert notes[last].id != notes[i].id;
      NodeRowMeans(notes[..last], i);
    }
  }

  predicate DistinctNotes(notes: seq<NoteView>) {
    forall i, j :: 0 <= i < j < |notes| ==> notes[i].id != notes[j].id
  }

  /** The reported count is the number of rows exactly when no two entity notes share an id. */
  lemma {:induction false} NodeCountIff(notes: seq<NoteView>)
    requires Titled(notes)
    ensures |NodeRows(notes)| <= |notes|
    ensures |NodeRows(notes)| == |notes| <==> DistinctNotes(notes)
  {
    if notes != [] {
      var n := |notes| - 1;
      var front, rows, id := notes[..n], NodeRows(notes[..n]), notes[n].id;
      NodeCountIff(front);
      NodeRowIds(front, id);
      assert NodeRows(notes).Keys == rows.Keys + {id};
      assert |NodeRows(notes)| == |rows.Keys + {id}|;
      LastIdFresh(notes);
    }
  }

  lemma LastIdFresh(notes: seq<NoteView>)
    requires notes != []
    ensures
      var n := |notes| - 1;
      DistinctNotes(notes) <==>
        DistinctNotes(notes[..n]) && !exists i :: 0 <= i < n && notes[..n][i].id == notes[n].id
  {
    var n := |notes| - 1;
    var front := notes[..n];
    if DistinctNotes(front) && !exists i :: 0 <= i < n && front[i].id == notes[n].id {
      forall i, j | 0 <= i < j < |notes| ensures notes[i].id != notes[j].id {
        assert notes[i] == front[i];
        assert j < n ==> notes[j] == front[j];
      }
    }
    if DistinctNotes(notes) {
      forall i | 0 <= i < n ensures front[i].id != notes[n].id { assert front[i] == notes[i]; }
    }
  }

  // ---------------------------------------------------------------- edges

  /** The entity ids a note refers to. */
  function EntityRefsOf(n: NoteView): seq<string> {
    var fm := n.frontmatter;
    if "entities" in fm && fm["entities"].JArray? then Unwrapped(Filter(fm["entities"].items, UlidText)) else []
  }

  /** One reference: a note's id and the entity id it names. */
  datatype Ref = Ref(note: string, target: string)

  function RefsFrom(note: string, targets: seq<string>): seq<Ref> {
    seq(|targets|, i requires 0 <= i < |targets| => Ref(note, targets[i]))
  }

  /** Every reference of the notes, in the order the projection meets them. */
  function AllRefs(notes: seq<NoteView>): seq<Ref> {
    if notes == [] then []
    else
      var n := |notes| - 1;
      AllRefs(notes[..n]) + RefsFrom(notes[n].id, EntityRefsOf(notes[n]))
  }

  /** The edge rows so far and the keys of the deduplication set. */
  datatype EdgeState = EdgeState(rows: map<EdgeKey, string>, seen: set<string>)

  function SeenKey(from: string, to: string): string {
    from + "|" + to + "|" + EDGE_KIND
  }

  /** One reference: resolved at both ends, skipped when they meet or the key has been seen. */
  function AddRef(m: Merges, s: EdgeState, r: Ref): EdgeState {
    var from, to := Resolve(m, r.note), Resolve(m, r.target);
    if from == to || SeenKey(from, to) in s.seen then s
    else EdgeState(s.rows[EdgeKey(from, to, EDGE_KIND) := r.note], s.seen + {SeenKey(from, to)})
  }

  function AddRefs(m: Merges, refs: seq<Ref>): EdgeState {
    if refs == [] then EdgeState(map[], {}) else AddRef(m, AddRefs(m, refs[..|refs| - 1]), refs[|refs| - 1])
  }

  /** No row without its key in the deduplication set, so the unique index is never hit. */
  ghost predicate Covered(s: EdgeState) {
    forall k :: k in s.rows ==> k.kind == EDGE_KIND && SeenKey(k.from, k.to) in s.seen
  }

  lemma {:induction false} AddRefsCovered(m: Merges, refs: seq<Ref>)
    ensures Covered(AddRefs(m, refs))
  {
    if refs != [] { AddRefsCovered(m, refs[..|refs| - 1]); }
  }

  lemma AddRefsNext(m: Merges, before: seq<Ref>, r: Ref)
    ensures AddRefs(m, before + [r]) == AddRef(m, AddRefs(m, before), r)
  {
    assert (before + [r])[..|before|] == before;
  }

  /** One more reference, seen from the loop: which of its three ways it takes, and that the index is free. */
  lemma NextRef(m: Merges, before: seq<Ref>, note: string, refs: seq<string>, j: nat)
    requires j < |refs|
    ensures
      var done, more := before + RefsFrom(note, refs[..j]), before + RefsFrom(note, refs[..j + 1]);
      var s, from, to := AddRefs(m, done), Resolve(m, note), Resolve(m, refs[j]);
      && AddRefs(m, more) == (if from == to || SeenKey(from, to) in s.seen then s
                              else EdgeState(s.rows[EdgeKey(from, to, EDGE_KIND) := note], s.seen + {SeenKey(from, to)}))
      && (SeenKey(from, to) !in s.seen ==> EdgeKey(from, to, EDGE_KIND) !in s.rows)
  {
    var done := before + RefsFrom(note, refs[..j]);
    assert before + RefsFrom(note, refs[..j + 1]) == done + [Ref(note, refs[j])];
    AddRefsNext(m, done, Ref(note, refs[j]));
    AddRefsCovered(m, done);
  }

  lemma RefsStart(before: seq<Ref>, note: string, refs: seq<string>)
    ensures before + RefsFrom(note, refs[..0]) == before
  {
  }

  lemma NoRefs(m: Merges)
    ensures AddRefs(m, []) == EdgeState(map[], {})
  {
  }

  /** Rebuilds the edge table; the unique index never rejects a row, and `count` is the number of rows. */
  method ProjectEdges(store: ProjectionStore, notes: seq<NoteView>, log: seq<Event>) returns (r: Result<nat, GraphError>)
    modifies store
    ensures store.SameSnapshot()
    ensures store.Visible() == old(store.Visible()).(edges := store.Visible().edges)
    ensures r.Ok? ==>
              && Project(log).Ok? && r.value == |store.Visible().edges|
              && store.Visible().edges == AddRefs(Project(log).value.merges, AllRefs(notes)).rows
    ensures r.Err? ==> if Project(log).Err? then r.error == ReplayFailed else r.error == StatementFailed && store.FaultSince(old(store.statements))
  {
    hide Project, Resolve, SeenKey, AddRefs, RefsFrom, EntityRefsOf;
    var projected := ProjectEvents(log);
    if projected.Err? { return Err(ReplayFailed); }
    var m := projected.value.merges;
    var ok := store.Exec(store.Visible().(edges := map[]));
    if !ok { return Err(StatementFailed); }
    var seen: set<string> := {};
    var count := 0;
    NoRefs(m);
    for i := 0 to |notes|
      invariant store.SameSnapshot()
      invariant store.Visible() == old(store.Visible()).(edges := AddRefs(m, AllRefs(notes[..i])).rows)
      invariant seen == AddRefs(m, AllRefs(notes[..i])).seen
      invariant count == |store.Visible().edges|
    {
      var from, hops := ResolveEntity(m, notes[i].id);
      var refs := EntityRefsOf(notes[i]);
      ghost var before := AllRefs(notes[..i]);
      RefsStart(before, notes[i].id, refs);
      for j := 0 to |refs|
        invariant store.SameSnapshot()
        invariant store.Visible() == old(store.Visible()).(edges := AddRefs(m, before + RefsFrom(notes[i].id, refs[..j])).rows)
        invariant seen == AddRefs(m, before + RefsFrom(notes[i].id, refs[..j])).seen
        invariant count == |store.Visible().edges|
      {
        NextRef(m, before, notes[i].id, refs, j);
        var to, more := ResolveEntity(m, refs[j]);
        if from == to { continue; }
        var key := SeenKey(from, to);
        if key in seen { continue; }
        seen := seen + {key};
        ok := store.InsertEntityEdge(EdgeKey(from, to, EDGE_KIND), notes[i].id);
        if !ok { return Err(StatementFailed); }
        count := count + 1;
      }
      assert refs[..|refs|] == refs;
      assert notes[..i + 1][..i] == notes[..i];
    }
    assert notes[..|notes|] == notes;
    return Ok(count);
  }

  // ---------------------------------------------------------------- the edge table as a quotient

  /** Merge values are ids of 26 characters: `appendMemoryEvent` only takes ULID subjects. */
  predicate UlidMerges(m: Merges) {
    forall x :: x in m ==> IsUlid(m[x])
  }

  /** A log whose subjects passed the append validation replays to such a map. */
  lemma {:induction false} ReplayedMergesAreUlids(log: seq<Event>)
    requires Project(log).Ok? && forall i :: 0 <= i < |log| ==> IsUlid(log[i].subjectId)
    ensures UlidMerges(Project(log).value.merges)
  {
    hide IsUlid, FactOf, HasMerged;
    if log != [] {
      var n := |log| - 1;
      assert log == log[..n] + [log[n]];
      ProjectSnoc(log[..n], log[n]);
      ReplayedMergesAreUlids(log[..n]);
      var e, before := log[n], Project(log[..n]).value;
      if IsMergeEvent(e) && HasMerged(PayloadOf(e)) { MergeAllUlids(before.merges, MergedIds(PayloadOf(e)), e.subjectId); }
    }
  }

  lemma {:induction false} MergeAllUlids(m: Merges, dups: seq<string>, canonical: string)
    requires UlidMerges(m) && IsUlid(canonical)
    ensures UlidMerges(MergeAll(m, dups, canonical))
    decreases |dups|
  {
    hide IsUlid;
    if dups != [] { MergeAllUlids(m[dups[0] := canonical], dups[1..], canonical); }
  }

  predicate UlidTargets(refs: seq<Ref>) {
    forall i :: 0 <= i < |refs| ==> IsUlid(refs[i].target)
  }

  // ---------------------------------------------------------------- where references come from

  /** Item j of the `entities` array of note i. */
  datatype Place = Place(note: nat, item: nat)

  /** That item is an entity id. */
  predicate IsRefAt(notes: seq<NoteView>, p: Place) {
    && p.note < |notes| && "entities" in notes[p.note].frontmatter
    && var value := notes[p.note].frontmatter["entities"];
    && value.JArray? && p.item < |value.items| && value.items[p.item].JString? && IsUlid(value.items[p.item].s)
  }

  function RefAt(notes: seq<NoteView>, p: Place): Ref
    requires IsRefAt(notes, p)
  {
    Ref(notes[p.note].id, notes[p.note].frontmatter["entities"].items[p.item].s)
  }

  /** Earlier in the listing, or earlier in the array of one note. */
  predicate Earlier(p: Place, q: Place) {
    p.note < q.note || (p.note == q.note && p.item < q.item)
  }

  ghost predicate RefsAt(notes: seq<NoteView>, refs: seq<Ref>, at: seq<Place>) {
    && |at| == |refs|
    && (forall k :: 0 <= k < |at| ==> IsRefAt(notes, at[k]) && refs[k] == RefAt(notes, at[k]))
    && (forall k, h :: 0 <= k < h < |at| ==> Earlier(at[k], at[h]))
    && (forall p :: IsRefAt(notes, p) ==> p in at)
  }

  /** A place in the listing without its last note. */
  lemma FrontPlace(notes: seq<NoteView>, p: Place)
    requires notes != []
    ensures
      var front := notes[..|notes| - 1];
      && (IsRefAt(front, p) <==> IsRefAt(notes, p) && p.note < |front|)
      && (IsRefAt(front, p) ==> RefAt(front, p) == RefAt(notes, p))
      && (IsRefAt(notes, p) ==> p.note < |notes|)
  {
    hide IsUlid;
  }

  /** The references are exactly the entity ids in the arrays of the notes, in the listing's and the arrays' order. */
  lemma {:induction false} RefsInOrder(notes: seq<NoteView>) returns (at: seq<Place>)
    ensures RefsAt(notes, AllRefs(notes), at)
  {
    hide IsRefAt, RefAt, EntityRefsOf, RefsFrom;
    if notes == [] {
      at := [];
      forall p ensures !IsRefAt(notes, p) { NoPlace(p); }
    } else {
      var n := |notes| - 1;
      var front, refs := AllRefs(notes[..n]), RefsFrom(notes[n].id, EntityRefsOf(notes[n]));
      var before := RefsInOrder(notes[..n]);
      var own := OwnRefs(notes);
      at := before + own;
      assert AllRefs(notes) == front + refs;
      forall k | 0 <= k < |at|
        ensures IsRefAt(notes, at[k]) && AllRefs(notes)[k] == RefAt(notes, at[k]) && (k < |before| ==> at[k].note < n)
      {
        FrontPlace(notes, at[k]);
        if k < |before| { assert at[k] == before[k]; } else { assert at[k] == own[k - |before|]; }
      }
      forall p | IsRefAt(notes, p) ensures p in at { FrontPlace(notes, p); }
    }
  }

  lemma NoPlace(p: Place)
    ensures !IsRefAt([], p)
  {
  }

  /** The references of the last note. */
  lemma OwnRefs(notes: seq<NoteView>) returns (at: seq<Place>)
    requires notes != []
    ensures
      var n := |notes| - 1;
      var refs := RefsFrom(notes[n].id, EntityRefsOf(notes[n]));
      && |at| == |refs|
      && (forall k :: 0 <= k < |at| ==> at[k].note == n && IsRefAt(notes, at[k]) && refs[k] == RefAt(notes, at[k]))
      && (forall k, h :: 0 <= k < h < |at| ==> at[k].item < at[h].item)
      && (forall p :: IsRefAt(notes, p) && p.note == n ==> p in at)
  {
    hide IsUlid, Filter;
    var n, fm := |notes| - 1, notes[|notes| - 1].frontmatter;
    if "entities" in fm && fm["entities"].JArray? {
      var items := FilterKeeps(fm["entities"].items, UlidText);
      at := seq(|items|, k requires 0 <= k < |items| => Place(n, items[k]));
      forall p | IsRefAt(notes, p) && p.note == n ensures p in at {
        assert p.item in items;
        var k :| 0 <= k < |items| && items[k] == p.item;
        assert at[k] == p;
      }
    } else {
      at := [];
    }
  }

  lemma AllRefsUlid(notes: seq<NoteView>)
    ensures UlidTargets(AllRefs(notes))
  {
    hide IsUlid, AllRefs;
    var at := RefsInOrder(notes);
    forall i | 0 <= i < |AllRefs(notes)| ensures IsUlid(AllRefs(notes)[i].target) { assert IsRefAt(notes, at[i]); }
  }

  lemma {:induction false} WalkUlid(m: Merges, current: string, seen: set<string>)
    requires UlidMerges(m) && IsUlid(current)
    ensures IsUlid(Walk(m, current, seen))
    decreases m.Keys - seen
  {
    if current in m && current !in seen { WalkUlid(m, m[current], seen + {current}); }
  }

  /** With targets of one length, the joined key tells the pairs apart. */
  lemma SeenKeyInjective(a: string, b: string, c: string, d: string)
    requires |b| == |d| && SeenKey(a, b) == SeenKey(c, d)
    ensures a == c && b == d
  {
    var k := SeenKey(a, b);
    assert k[..|a|] == a && k[..|c|] == c;
    assert k[|a| + 1..|a| + 1 + |b|] == b && k[|c| + 1..|c| + 1 + |d|] == d;
  }

  /** The pair is what some reference of the notes resolves to, off the diagonal. */
  ghost predicate IsEdge(m: Merges, refs: seq<Ref>, from: string, to: string) {
    from != to && exists i :: 0 <= i < |refs| && Resolve(m, refs[i].note) == from && Resolve(m, refs[i].target) == to
  }

  /** The first reference that resolves to the pair. */
  ghost predicate FirstRef(m: Merges, refs: seq<Ref>, from: string, to: string, i: nat) {
    && i < |refs| && Resolve(m, refs[i].note) == from && Resolve(m, refs[i].target) == to
    && forall j :: 0 <= j < i ==> !(Resolve(m, refs[j].note) == from && Resolve(m, refs[j].target) == to)
  }

  /**
   * The edge table is the graph of the references with both ends resolved: exactly the pairs off the
   * diagonal, each once, carrying the note of the first reference that gave it.
   */
  lemma {:induction false} EdgesAreQuotient(m: Merges, refs: seq<Ref>, from: string, to: string)
    requires UlidMerges(m) && UlidTargets(refs)
    ensures
      var s := AddRefs(m, refs);
      && (EdgeKey(from, to, EDGE_KIND) in s.rows <==> IsEdge(m, refs, from, to))
      && (|to| == 26 ==> (SeenKey(from, to) in s.seen <==> IsEdge(m, refs, from, to)))
      && (EdgeKey(from, to, EDGE_KIND) in s.rows ==>
            exists i: nat :: FirstRef(m, refs, from, to, i) && s.rows[EdgeKey(from, to, EDGE_KIND)] == refs[i].note)
    decreases |refs|
  {
    hide Resolve, IsUlid;
    if refs != [] {
      var n := |refs| - 1;
      var front, last := refs[..n], refs[n];
      var f, t := Resolve(m, last.note), Resolve(m, last.target);
      EdgesAreQuotient(m, front, from, to);
      EdgesAreQuotient(m, front, f, t);
      WalkUlidTarget(m, last.target);
      IsEdgeNext(m, refs, from, to);
      if |to| == 26 && SeenKey(from, to) == SeenKey(f, t) { SeenKeyInjective(from, to, f, t); }
      FirstRefNext(m, refs, from, to);
    }
  }

  lemma WalkUlidTarget(m: Merges, target: string)
    requires UlidMerges(m) && IsUlid(target)
    ensures |Resolve(m, target)| == 26
  {
    WalkUlid(m, target, {});
  }

  lemma IsEdgeNext(m: Merges, refs: seq<Ref>, from: string, to: string)
    requires refs != []
    ensures
      var n := |refs| - 1;
      IsEdge(m, refs, from, to) <==>
        IsEdge(m, refs[..n], from, to)
        || (from != to && Resolve(m, refs[n].note) == from && Resolve(m, refs[n].target) == to)
  {
    hide Resolve;
    var n := |refs| - 1;
    if IsEdge(m, refs[..n], from, to) {
      var i :| 0 <= i < n && Resolve(m, refs[..n][i].note) == from && Resolve(m, refs[..n][i].target) == to;
      assert refs[i] == refs[..n][i];
    }
    if IsEdge(m, refs, from, to) {
      var i :| 0 <= i < |refs| && Resolve(m, refs[i].note) == from && Resolve(m, refs[i].target) == to;
      assert i < n ==> refs[..n][i] == refs[i];
    }
  }

  lemma FirstRefNext(m: Merges, refs: seq<Ref>, from: string, to: string)
    requires refs != []
    ensures
      var n := |refs| - 1;
      && (forall i: nat :: FirstRef(m, refs[..n], from, to, i) ==> FirstRef(m, refs, from, to, i) && refs[..n][i] == refs[i])
      && (!IsEdge(m, refs[..n], from, to) && from != to && Resolve(m, refs[n].note) == from && Resolve(m, refs[n].target) == to
          ==> FirstRef(m, refs, from, to, n))
  {
    hide Resolve;
    var n := |refs| - 1;
    var front := refs[..n];
    forall i: nat | FirstRef(m, front, from, to, i) ensures FirstRef(m, refs, from, to, i) && front[i] == refs[i] {
      forall j | 0 <= j < i ensures !(Resolve(m, refs[j].note) == from && Resolve(m, refs[j].target) == to) {
        assert front[j] == refs[j];
      }
    }
    if !IsEdge(m, front, from, to) && from != to {
      forall j | 0 <= j < n ensures !(Resolve(m, refs[j].note) == from && Resolve(m, refs[j].target) == to) {
        assert front[j] == refs[j];
      }
    }
  }

  /** That item is an entity id and, with its note, resolves to the pair. */
  predicate RefersTo(m: Merges, notes: seq<NoteView>, p: Place, from: string, to: string) {
    IsRefAt(notes, p) && Resolve(m, notes[p.note].id) == from && Resolve(m, RefAt(notes, p).target) == to
  }

  lemma PlaceResolves(m: Merges, notes: seq<NoteView>, refs: seq<Ref>, at: seq<Place>, k: nat)
    requires RefsAt(notes, refs, at) && k < |at|
    ensures at[k].note < |notes| && refs[k].note == notes[at[k].note].id
    ensures forall from, to ::
              RefersTo(m, notes, at[k], from, to) <==> Resolve(m, refs[k].note) == from && Resolve(m, refs[k].target) == to
  {
    hide Resolve, IsUlid;
  }

  lemma PlaceOf(m: Merges, notes: seq<NoteView>, refs: seq<Ref>, at: seq<Place>, p: Place, from: string, to: string) returns (k: nat)
    requires RefsAt(notes, refs, at) && RefersTo(m, notes, p, from, to)
    ensures k < |at| && at[k] == p && Resolve(m, refs[k].note) == from && Resolve(m, refs[k].target) == to
  {
    hide Resolve, IsUlid, IsRefAt;
    k :| 0 <= k < |at| && at[k] == p;
    PlaceResolves(m, notes, refs, at, k);
  }

  /**
   * The edge table of the notes: a pair off the diagonal is an edge if and only if some item of some note's
   * `entities` array resolves to it, and the edge carries the first such note, in the order of listing and array.
   */
  lemma EdgesOfNotes(m: Merges, notes: seq<NoteView>, from: string, to: string)
    requires UlidMerges(m)
    ensures
      var rows, key := AddRefs(m, AllRefs(notes)).rows, EdgeKey(from, to, "related");
      && (forall k :: k in rows ==> k.kind == "related")
      && (key in rows <==> from != to && exists p :: RefersTo(m, notes, p, from, to))
      && (key in rows ==> exists p :: RefersTo(m, notes, p, from, to) && rows[key] == notes[p.note].id
                            && forall q :: RefersTo(m, notes, q, from, to) ==> q == p || Earlier(p, q))
  {
    hide Resolve, IsUlid, AllRefs, AddRefs, RefersTo, UlidMerges;
    var refs, key := AllRefs(notes), EdgeKey(from, to, EDGE_KIND);
    var at := RefsInOrder(notes);
    AllRefsUlid(notes);
    AddRefsCovered(m, refs);
    EdgesAreQuotient(m, refs, from, to);
    if p :| from != to && RefersTo(m, notes, p, from, to) {
      var k := PlaceOf(m, notes, refs, at, p, from, to);
      assert IsEdge(m, refs, from, to);
    }
    if key in AddRefs(m, refs).rows {
      var k: nat :| FirstRef(m, refs, from, to, k) && AddRefs(m, refs).rows[key] == refs[k].note;
      PlaceResolves(m, notes, refs, at, k);
      assert RefersTo(m, notes, at[k], from, to);
      forall q | RefersTo(m, notes, q, from, to) ensures q == at[k] || Earlier(at[k], q) {
        var h := PlaceOf(m, notes, refs, at, q, from, to);
      }
    }
  }

  /** Both ends of every edge are resolved already. */
  lemma EndpointsResolved(m: Merges, refs: seq<Ref>, from: string, to: string)
    requires IsEdge(m, refs, from, to)
    ensures Resolve(m, from) == from && Resolve(m, to) == to
  {
    var i :| 0 <= i < |refs| && Resolve(m, refs[i].note) == from && Resolve(m, refs[i].target) == to;
    ResolveIdempotent(m, refs[i].note);
    ResolveIdempotent(m, refs[i].target);
  }

  /**
   * A merge that joins two entities maps the edge set through the collapse: the new edges are the images
   * of the old ones, less those whose ends now coincide.
   */
  lemma MergeCollapsesEdges(m: Merges, dup: string, canon: string, refs: seq<Ref>, from: string, to: string)
    requires Acyclic(m) && dup !in m && Resolve(m, canon) != dup
    ensures
      var root := Resolve(m, canon);
      IsEdge(m[dup := canon], refs, from, to) <==>
        from != to && exists a, b :: IsEdge(m, refs, a, b) && Collapse(dup, root, a) == from && Collapse(dup, root, b) == to
  {
    var m', root := m[dup := canon], Resolve(m, canon);
    UnionLaw(m, dup, canon);
    hide Resolve;
    if IsEdge(m', refs, from, to) {
      var i :| 0 <= i < |refs| && Resolve(m', refs[i].note) == from && Resolve(m', refs[i].target) == to;
      var a, b := Resolve(m, refs[i].note), Resolve(m, refs[i].target);
      assert a != b;
      assert IsEdge(m, refs, a, b) && Collapse(dup, root, a) == from && Collapse(dup, root, b) == to;
    }
    if from != to && exists a, b :: IsEdge(m, refs, a, b) && Collapse(dup, root, a) == from && Collapse(dup, root, b) == to {
      var a, b :| IsEdge(m, refs, a, b) && Collapse(dup, root, a) == from && Collapse(dup, root, b) == to;
      var i :| 0 <= i < |refs| && Resolve(m, refs[i].note) == a && Resolve(m, refs[i].target) == b;
      assert Resolve(m', refs[i].note) == from && Resolve(m', refs[i].target) == to;
    }
  }

  // ---------------------------------------------------------------- recording a merge

  /** The event of a confirmed merge. */
  function MergeEvent(canonical: string, duplicate: string, eventId: string, now: string, actor: string): Event {
    Event(eventId, MemoryStream, "entity_merged", now, actor, canonical, None,
          Some(map["merged" := JArray([JString(duplicate)])]))
  }

  /** What `mergeEntities` checks before it appends the event. */
  function CheckMerge(nodes: map<string, EntityNode>, canonical: string, duplicate: string): Option<GraphError> {
    if !IsUlid(canonical) || !IsUlid(duplicate) || canonical == duplicate then Some(InvalidMerge)
    else if canonical !in nodes || duplicate !in nodes then Some(MergeTargetNotFound)
    else None
  }

  /** A recorded merge adds exactly one entry to the folded map, overwriting an older one of the duplicate. */
  lemma MergeEventFolds(log: seq<Event>, canonical: string, duplicate: string, eventId: string, now: string, actor: string)
    requires Project(log).Ok? && duplicate != ""
    ensures
      var after := Project(log + [MergeEvent(canonical, duplicate, eventId, now, actor)]);
      after == Ok(Project(log).value.(merges := Project(log).value.merges[duplicate := canonical]))
  {
    var e := MergeEvent(canonical, duplicate, eventId, now, actor);
    ProjectSnoc(log, e);
    var p := PayloadOf(e);
    assert p["merged"].items == [JString(duplicate)];
    assert MergedIds(p) == [duplicate];
    var m := Project(log).value.merges;
    assert [duplicate][1..] == [];
    assert MergeAll(m, [duplicate], canonical) == MergeAll(m[duplicate := canonical], [], canonical);
  }

  /**
   * Recording a merge. Which check fails first; that only a recorded merge changes the log, by one event at
   * its end; and what it does to resolution: the folded map gains the one entry, and stays acyclic exactly
   * when the canonical id does not resolve to the duplicate already.
   */
  method MergeEntities(nodes: map<string, EntityNode>, log: seq<Event>, canonical: string, duplicate: string,
                       eventId: string, now: string, actor: string, appendOk: bool)
    returns (r: Result<seq<Event>, GraphError>)
    ensures r == Err(InvalidMerge) <==> !IsUlid(canonical) || !IsUlid(duplicate) || canonical == duplicate
    ensures r == Err(MergeTargetNotFound) <==>
              IsUlid(canonical) && IsUlid(duplicate) && canonical != duplicate && !(canonical in nodes && duplicate in nodes)
    ensures r == Err(MergeNotRecorded) <==> CheckMerge(nodes, canonical, duplicate).None? && !appendOk
    ensures r.Ok? ==>
              && |r.value| == |log| + 1 && r.value[..|log|] == log && IsMergeEvent(r.value[|log|])
              && var e := r.value[|log|];
              e.eventId == eventId && e.occurredAt == now && e.actor == actor && e.subjectId == canonical && e.sourceRef.None?
    ensures r.Ok? && Project(log).Ok? ==>
              var m := Project(log).value.merges;
              && Project(r.value) == Ok(Project(log).value.(merges := m[duplicate := canonical]))
              && (Acyclic(m) && duplicate !in m ==> (Acyclic(Project(r.value).value.merges) <==> Resolve(m, canonical) != duplicate))
  {
    hide IsUlid, Project, Resolve, Acyclic;
    if !IsUlid(canonical) || !IsUlid(duplicate) { return Err(InvalidMerge); }
    if canonical == duplicate { return Err(InvalidMerge); }
    if canonical !in nodes { return Err(MergeTargetNotFound); }
    if duplicate !in nodes { return Err(MergeTargetNotFound); }
    if !appendOk { return Err(MergeNotRecorded); }
    if Project(log).Ok? {
      assert duplicate != "" by { UlidNotEmpty(duplicate); }
      MergeEventFolds(log, canonical, duplicate, eventId, now, actor);
      if Acyclic(Project(log).value.merges) && duplicate !in Project(log).value.merges {
        UnionLaw(Project(log).value.merges, duplicate, canonical);
      }
    }
    return Ok(log + [MergeEvent(canonical, duplicate, eventId, now, actor)]);
  }

  lemma UlidNotEmpty(id: string)
    requires IsUlid(id)
    ensures id != ""
  {
  }

  /**
   * The checks do not keep the merge map acyclic: for any two entities, merging each into the other passes
   * them, and the two then resolve to themselves, not to one another.
   */
  lemma MergesMayCycle(nodes: map<string, EntityNode>, a: string, b: string)
    requires CheckMerge(nodes, a, b).None?
    ensures CheckMerge(nodes, b, a).None?
    ensures
      var m := map[b := a][a := b];
      !Acyclic(m) && Resolve(m, a) == a && Resolve(m, b) == b
  {
    var m := map[b := a][a := b];
    assert Nth(m, a, 1) == b && Nth(m, a, 2) == Nth(m, b, 1) == a;
    assert OnCycle(m, a);
    assert Nth(m, b, 2) == Nth(m, a, 1) == b;
    assert OnCycle(m, b);
    ResolveIdempotent(m, a);
    ResolveIdempotent(m, b);
  }
}
