/** The supersede forest over every run, and the current-facts view read from the database. */
module Supersede {
  import opened Wrappers
  import opened Json
  import opened Projector
  import opened FactRecord
  import opened Interleaving
  import opened Order

  // ---------------------------------------------------------------- chains of corrections

  /** Event j corrects the fact of event i. */
  predicate Corrects(log: seq<Event>, j: nat, i: nat) {
    FactAt(log, j) && FactAt(log, i) && Raw(log[j]).supersedes == Some(log[i].subjectId)
  }

  /** Nothing in the log corrects the fact of event i. */
  ghost predicate IsCurrent(log: seq<Event>, i: nat) {
    FactAt(log, i) && forall j: nat :: !Corrects(log, j, i)
  }

  /** Each event of the chain corrects the one before. */
  predicate CorrectionChain(log: seq<Event>, chain: seq<nat>) {
    chain != [] && forall k :: 0 <= k < |chain| - 1 ==> Corrects(log, chain[k + 1], chain[k])
  }

  /**
   * In every reachable state some chain of corrections leads from any fact to a current one; the chain
   * moves strictly forward in the log.
   */
  lemma CorrectionsEnd(steps: seq<Step>, i: nat) returns (chain: seq<nat>)
    requires FactAt(Run(START, steps).log, i)
    ensures
      var log := Run(START, steps).log;
      && CorrectionChain(log, chain) && chain[0] == i && IsCurrent(log, chain[|chain| - 1])
      && forall a, b :: 0 <= a < b < |chain| ==> chain[a] < chain[b]
  {
    Reached(steps);
    chain := Climb(Run(START, steps).log, i);
  }

  lemma {:induction false} Climb(log: seq<Event>, i: nat) returns (chain: seq<nat>)
    requires LogOk(log) && FactAt(log, i)
    ensures CorrectionChain(log, chain) && chain[0] == i && IsCurrent(log, chain[|chain| - 1])
    ensures forall a, b :: 0 <= a < b < |chain| ==> chain[a] < chain[b]
    decreases |log| - i
  {
    hide Raw, FactOf;
    if IsCurrent(log, i) {
      chain := [i];
    } else {
      var j: nat :| Corrects(log, j, i);
      CorrectionIsLater(log, j, i);
      var rest := Climb(log, j);
      chain := [i] + rest;
      forall k | 0 <= k < |chain| - 1 ensures Corrects(log, chain[k + 1], chain[k]) {
        if k > 0 { assert Corrects(log, rest[k - 1 + 1], rest[k - 1]); }
      }
      forall a, b | 0 <= a < b < |chain| ensures chain[a] < chain[b] {
        if a == 0 && b > 1 { assert rest[0] < rest[b - 1]; }
      }
    }
  }

  lemma CorrectionIsLater(log: seq<Event>, j: nat, i: nat)
    requires LogOk(log) && Corrects(log, j, i)
    ensures i < j
  {
    assert EventOk(log, j, log[j]);
    var target := log[i].subjectId;
    var k: nat :| k < j && FactAt(log, k) && log[k].subjectId == target;
  }

  // ---------------------------------------------------------------- counting

  predicate DistinctIds(fs: seq<Fact>) {
    forall i, j :: 0 <= i < j < |fs| ==> fs[i].id != fs[j].id
  }

  function IdSet(fs: seq<Fact>): set<string> {
    if fs == [] then {} else {fs[0].id} + IdSet(fs[1..])
  }

  lemma {:induction false} IdSetMember(fs: seq<Fact>, id: string)
    ensures id in IdSet(fs) <==> exists i :: 0 <= i < |fs| && fs[i].id == id
  {
    if fs != [] {
      IdSetMember(fs[1..], id);
      if i :| 0 <= i < |fs| && fs[i].id == id {
        assert i > 0 ==> fs[1..][i - 1].id == id;
      }
      if i :| 0 <= i < |fs[1..]| && fs[1..][i].id == id {
        assert fs[i + 1].id == id;
      }
    }
  }

  lemma {:induction false} UnsupersededCount(fs: seq<Fact>, targets: set<string>)
    requires DistinctIds(fs) && targets <= IdSet(fs)
    ensures |Unsuperseded(fs, targets)| + |targets| == |fs|
  {
    if fs == [] {
      assert IdSet(fs) == {};
    } else {
      var id, rest := fs[0].id, targets - {fs[0].id};
      assert IdSet(fs) == {id} + IdSet(fs[1..]);
      UnsupersededCount(fs[1..], rest);
      SameFilter(fs[1..], targets, rest, id);
      RemovedOne(targets, id);
    }
  }

  lemma RemovedOne(s: set<string>, x: string)
    ensures |s| == |s - {x}| + if x in s then 1 else 0
  {
    if x in s { assert s == s - {x} + {x}; } else { assert s - {x} == s; }
  }

  lemma {:induction false} SameFilter(fs: seq<Fact>, targets: set<string>, rest: set<string>, id: string)
    requires rest == targets - {id} && forall i :: 0 <= i < |fs| ==> fs[i].id != id
    ensures Unsuperseded(fs, targets) == Unsuperseded(fs, rest)
  {
    if fs != [] { SameFilter(fs[1..], targets, rest, id); }
  }

  lemma {:induction false} UnsupersededMembers(fs: seq<Fact>, targets: set<string>, f: Fact)
    ensures f in Unsuperseded(fs, targets) <==> f in fs && f.id !in targets
  {
    if fs != [] {
      UnsupersededMembers(fs[1..], targets, f);
      assert f in fs <==> f == fs[0] || f in fs[1..];
    }
  }

  /** In every reachable, replayable state each superseded id is a fact: current ones are all but those. */
  lemma CurrentCount(steps: seq<Step>)
    requires Project(Run(START, steps).log).Ok?
    ensures
      var st := Project(Run(START, steps).log).value;
      && Ordered(st)
      && |Unsuperseded(Values(st), Targets(Values(st)))| == |st.facts| - |Targets(Values(st))|
  {
    hide Raw, FactOf, Fold, Run, EventOk, Below, Unsuperseded, IdSet, Targets, Good;
    var log := Run(START, steps).log;
    var st := Project(log).value;
    ReachedReplay(steps);
    ValuesIds(st);
    TargetsAreFacts(log, st);
    UnsupersededCount(Values(st), Targets(Values(st)));
    DistinctSize(Values(st));
  }

  /**
   * In every reachable, replayable state a fact event is current in the log, nothing there correcting it, if
   * and only if its fact is among the current facts of the replay.
   */
  lemma CurrentIff(steps: seq<Step>, i: nat)
    requires Project(Run(START, steps).log).Ok? && FactAt(Run(START, steps).log, i)
    ensures
      var log := Run(START, steps).log;
      var st := Project(log).value;
      Ordered(st) && (IsCurrent(log, i) <==> Raw(log[i]) in Unsuperseded(Values(st), Targets(Values(st))))
  {
    hide Raw, FactOf, Fold, Run, EventOk, Below, Unsuperseded, Targets, Good, Values, LogOk;
    var log := Run(START, steps).log;
    var st := Project(log).value;
    ReachedReplay(steps);
    EventInValues(log, st, i);
    RawId(log[i]);
    UnsupersededMembers(Values(st), Targets(Values(st)), Raw(log[i]));
    TargetedIff(log, st, i);
  }

  /** The replay holds the fact of each fact event. */
  lemma EventInValues(log: seq<Event>, st: State, i: nat)
    requires Ordered(st) && Holds(st.facts, log, Below(|log|)) && FactAt(log, i)
    ensures Raw(log[i]) in Values(st)
  {
    hide Raw, Below;
    assert i in Below(|log|);
    assert HoldsAt(st.facts, log, i);
    RawId(log[i]);
    ValuesMembers(st, Raw(log[i]));
  }

  /** An id is superseded in the replay if and only if an event of the log corrects its event. */
  lemma TargetedIff(log: seq<Event>, st: State, i: nat)
    requires Ordered(st) && Holds(st.facts, log, Below(|log|)) && FactAt(log, i)
    ensures log[i].subjectId in Targets(Values(st)) <==> exists j: nat :: Corrects(log, j, i)
  {
    hide Raw, Below, Values;
    var id := log[i].subjectId;
    if j: nat :| Corrects(log, j, i) {
      EventInValues(log, st, j);
      assert Raw(log[j]).supersedes == Some(id);
    }
    if id in Targets(Values(st)) {
      var f :| f in Values(st) && f.supersedes == Some(id);
      ValuesMembers(st, f);
      var j: nat :| FactAt(log, j) && j in Below(|log|) && log[j].subjectId == f.id;
      assert HoldsAt(st.facts, log, j);
      assert Corrects(log, j, i);
    }
  }

  lemma ReachedReplay(steps: seq<Step>)
    requires Project(Run(START, steps).log).Ok?
    ensures
      var log := Run(START, steps).log;
      LogOk(log) && Ordered(Project(log).value) && Holds(Project(log).value.facts, log, Below(|log|))
  {
    hide Raw, FactOf, Fold, Run, EventOk, Below;
    var log := Run(START, steps).log;
    Reached(steps);
    ProjectOrdered(log);
    assert log[..|log|] == log;
    ReplayHolds(log, |log|);
  }

  lemma ValuesIds(st: State)
    requires Ordered(st)
    ensures DistinctIds(Values(st)) && IdSet(Values(st)) == st.facts.Keys
  {
    var fs := Values(st);
    forall id ensures id in IdSet(fs) <==> id in st.facts.Keys {
      IdSetMember(fs, id);
      if id in st.facts {
        var k :| 0 <= k < |st.order| && st.order[k] == id;
        assert fs[k].id == id;
      }
    }
  }

  lemma {:induction false} DistinctSize(fs: seq<Fact>)
    requires DistinctIds(fs)
    ensures |IdSet(fs)| == |fs|
  {
    if fs != [] {
      DistinctSize(fs[1..]);
      IdSetMember(fs[1..], fs[0].id);
    }
  }

  lemma TargetsAreFacts(log: seq<Event>, st: State)
    requires LogOk(log) && Ordered(st) && Holds(st.facts, log, Below(|log|))
    ensures Targets(Values(st)) <= st.facts.Keys
  {
    hide Below, LogOk, Holds;
    forall t | t in Targets(Values(st)) ensures t in st.facts {
      var f :| f in Values(st) && f.supersedes == Some(t);
      var k :| 0 <= k < |st.order| && Values(st)[k] == f;
      TargetIsFact(log, st, st.order[k], t);
    }
  }

  lemma TargetIsFact(log: seq<Event>, st: State, id: string, t: string)
    requires LogOk(log) && Holds(st.facts, log, Below(|log|))
    requires id in st.facts && st.facts[id].supersedes == Some(t)
    ensures t in st.facts
  {
    hide Raw, FactOf, Below;
    var i: nat :| FactAt(log, i) && i in Below(|log|) && log[i].subjectId == id;
    assert HoldsAt(st.facts, log, i);
    assert EventOk(log, i, log[i]);
    var j: nat :| j < i && FactAt(log, j) && log[j].subjectId == t;
    assert HoldsAt(st.facts, log, j);
  }

  // ---------------------------------------------------------------- the view

  datatype Clause = NotSuperseded | SourceIs(ref: string) | ConfidenceAtLeast(c: Double)

  /** The statement `listCurrentFacts` assembles: its conditions and its limit; it always orders by id. */
  datatype Select = Select(where: seq<Clause>, limit: Option<int>)

  datatype ListOptions = ListOptions(sourceRef: Option<string>, minConfidence: Option<Double>, limit: Option<int>)

  predicate Meets(rows: map<string, Fact>, f: Fact, c: Clause) {
    match c
    case NotSuperseded => forall id :: id in rows ==> rows[id].supersedes != Some(f.id)
    case SourceIs(ref) => f.sourceRef == ref
    case ConfidenceAtLeast(min) => ValueOf(f.confidence) >= ValueOf(min)
  }

  predicate Selected(rows: map<string, Fact>, where: seq<Clause>, id: string)
    requires id in rows
  {
    forall i :: 0 <= i < |where| ==> Meets(rows, rows[id], where[i])
  }

  function Matching(rows: map<string, Fact>, where: seq<Clause>): set<string> {
    set id | id in rows && Selected(rows, where, id)
  }

  /** Running the statement over the fact table; a negative limit is no limit. */
  function Execute(rows: map<string, Fact>, sql: Select): seq<Fact> {
    var chosen := Matching(rows, sql.where);
    var ids := SortIds(chosen);
    assert forall i :: 0 <= i < |ids| ==> ids[i] in chosen;
    var all := seq(|ids|, i requires 0 <= i < |ids| => rows[ids[i]]);
    if sql.limit.None? || sql.limit.value < 0 || sql.limit.value > |all| then all else all[..sql.limit.value]
  }

  method ListCurrentFacts(rows: map<string, Fact>, opts: ListOptions) returns (facts: seq<Fact>)
    ensures facts == Execute(rows, Select(Clauses(opts), opts.limit))
  {
    var where := [NotSuperseded];
    if opts.sourceRef.Some? {
      where := where + [SourceIs(opts.sourceRef.value)];
    }
    if opts.minConfidence.Some? {
      where := where + [ConfidenceAtLeast(opts.minConfidence.value)];
    }
    var limit := None;
    if opts.limit.Some? {
      limit := Some(opts.limit.value);
    }
    assert where == Clauses(opts);
    facts := Execute(rows, Select(where, limit));
  }

  function Clauses(opts: ListOptions): seq<Clause> {
    [NotSuperseded]
    + (if opts.sourceRef.Some? then [SourceIs(opts.sourceRef.value)] else [])
    + (if opts.minConfidence.Some? then [ConfidenceAtLeast(opts.minConfidence.value)] else [])
  }

  predicate Passes(f: Fact, opts: ListOptions) {
    && (opts.sourceRef.Some? ==> f.sourceRef == opts.sourceRef.value)
    && (opts.minConfidence.Some? ==> ValueOf(f.confidence) >= ValueOf(opts.minConfidence.value))
  }

  function FactIds(fs: seq<Fact>): seq<string> {
    seq(|fs|, i requires 0 <= i < |fs| => fs[i].id)
  }

  /**
   * Over a fact table equal to the fold, the view lists exactly the current facts of the fold that pass
   * the filters, by ascending id, cut off at a non-negative limit.
   */
  lemma ViewMatchesFold(st: State, opts: ListOptions)
    requires Ordered(st)
    ensures
      var current := Unsuperseded(Values(st), Targets(Values(st)));
      var all := Execute(st.facts, Select(Clauses(opts), None));
      && (forall f :: f in all <==> f in current && Passes(f, opts))
      && Ascending(FactIds(all))
      && Execute(st.facts, Select(Clauses(opts), opts.limit))
         == (if opts.limit.Some? && 0 <= opts.limit.value <= |all| then all[..opts.limit.value] else all)
  {
    var rows, fs, where := st.facts, Values(st), Clauses(opts);
    var chosen := Matching(rows, where);
    var all := Execute(rows, Select(where, None));
    forall f ensures f in all <==> f in Unsuperseded(fs, Targets(fs)) && Passes(f, opts) {
      UnsupersededMembers(fs, Targets(fs), f);
      ValuesMembers(st, f);
      SelectedMeans(st, opts, f);
      if f in all {
        var i :| 0 <= i < |all| && all[i] == f;
        assert SortIds(chosen)[i] in chosen;
      }
      if f.id in chosen && rows[f.id] == f {
        var i :| 0 <= i < |SortIds(chosen)| && SortIds(chosen)[i] == f.id;
        assert all[i] == f;
      }
    }
    assert FactIds(all) == SortIds(chosen) by {
      forall i | 0 <= i < |all| ensures all[i].id == SortIds(chosen)[i] { assert SortIds(chosen)[i] in chosen; }
    }
  }

  lemma ValuesMembers(st: State, f: Fact)
    requires Ordered(st)
    ensures f in Values(st) <==> f.id in st.facts && st.facts[f.id] == f
  {
    if f.id in st.facts && st.facts[f.id] == f {
      var k :| 0 <= k < |st.order| && st.order[k] == f.id;
      assert Values(st)[k] == f;
    }
  }

  lemma SelectedMeans(st: State, opts: ListOptions, f: Fact)
    requires Ordered(st)
    ensures f.id in st.facts && st.facts[f.id] == f ==>
              (Selected(st.facts, Clauses(opts), f.id) <==> f.id !in Targets(Values(st)) && Passes(f, opts))
  {
    if f.id in st.facts && st.facts[f.id] == f {
      var fs, where := Values(st), Clauses(opts);
      assert where[0] == NotSuperseded;
      assert opts.sourceRef.Some? ==> where[1] == SourceIs(opts.sourceRef.value);
      assert opts.minConfidence.Some? ==> where[|where| - 1] == ConfidenceAtLeast(opts.minConfidence.value);
      if f.id in Targets(fs) {
        var g :| g in fs && g.supersedes == Some(f.id);
        ValuesMembers(st, g);
        assert !Meets(st.facts, f, where[0]);
      } else {
        forall id | id in st.facts ensures st.facts[id].supersedes != Some(f.id) { ValuesMembers(st, st.facts[id]); }
      }
    }
  }
}
