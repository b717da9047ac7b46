/**
 * Recording facts and rebuilding the projections as separate steps of many processes over one log and
 * one database: checking a supersede target, appending the event, inserting the row; beginning a rebuild
 * transaction, reading the log, inserting rows, committing. Any step may fail, any process may die.
 */
module Interleaving {
  import opened Wrappers
  import opened Json
  import opened Projector
  import opened FactRecord

  /** Where a `recordFact` call stands: its target is checked, or its event is line `at` of the log. */
  datatype Phase = Checked(fact: Fact, event: Event) | Appended(fact: Fact, at: nat)

  /** The open rebuild transaction: how much of the log it has read, the rows to insert and those inserted. */
  datatype Txn = Txn(read: Option<nat>, todo: seq<Fact>, work: map<string, Fact>)

  /**
   * `rows` is the committed fact table. `used` holds every fact id generated so far. Two histories:
   * `inserted` has the log positions whose rows were inserted live, `replayed` is the length of the log
   * that the last committed rebuild had read.
   */
  datatype Sys = Sys(
    log: seq<Event>, rows: map<string, Fact>, records: map<nat, Phase>, txn: Option<Txn>,
    used: set<string>, inserted: set<nat>, replayed: nat)

  const START := Sys([], map[], map[], None, {}, {}, 0)

  datatype Step =
    | CheckTarget(p: nat, input: FactInput, supersedes: Option<string>, id: string, eventId: string)
    | AppendEvent(p: nat)
    | InsertRow(p: nat)
    | GiveUp(p: nat)
    | AppendOther(e: Event)
    | Begin
    | ReadLog
    | ReplayRow
    | Commit
    | Rollback

  /** The step can succeed; when it cannot, the call that tried it throws. */
  predicate Enabled(s: Sys, step: Step) {
    match step
    case CheckTarget(p, input, supersedes, id, eventId) =>
      && p !in s.records && id !in s.used && Validate(input).None?
      && (supersedes.Some? ==> supersedes.value in s.rows)
    case AppendEvent(p) => p in s.records && s.records[p].Checked?
    case InsertRow(p) => p in s.records && s.records[p].Appended? && s.txn.None? && s.records[p].fact.id !in s.rows
    case GiveUp(p) => p in s.records
    case AppendOther(e) => !IsFactEvent(e) && Applies(e)
    case Begin => s.txn.None?
    case ReadLog => s.txn.Some? && s.txn.value.read.None? && Project(s.log).Ok?
    case ReplayRow => s.txn.Some? && s.txn.value.todo != [] && s.txn.value.todo[0].id !in s.txn.value.work
    case Commit => s.txn.Some? && s.txn.value.read.Some? && s.txn.value.todo == []
    case Rollback => s.txn.Some?
  }

  function Next(s: Sys, step: Step): Sys
    requires Enabled(s, step)
  {
    match step
    case CheckTarget(p, input, supersedes, id, eventId) =>
      s.(records := s.records[p := Checked(FactFor(input, id, supersedes), EventFor(input, id, eventId, supersedes))],
         used := s.used + {id})
    case AppendEvent(p) =>
      s.(log := s.log + [s.records[p].event], records := s.records[p := Appended(s.records[p].fact, |s.log|)])
    case InsertRow(p) =>
      s.(rows := s.rows[s.records[p].fact.id := s.records[p].fact], inserted := s.inserted + {s.records[p].at},
         records := s.records - {p})
    case GiveUp(p) => s.(records := s.records - {p})
    case AppendOther(e) => s.(log := s.log + [e])
    case Begin => s.(txn := Some(Txn(None, [], map[])))
    case ReadLog => s.(txn := Some(Txn(Some(|s.log|), ReplayOrder(s.log), map[])))
    case ReplayRow =>
      var t := s.txn.value;
      s.(txn := Some(t.(todo := t.todo[1..], work := t.work[t.todo[0].id := t.todo[0]])))
    case Commit => s.(rows := s.txn.value.work, replayed := s.txn.value.read.value, txn := None)
    case Rollback => s.(txn := None)
  }

  /** The rows a rebuild inserts, in the iteration order of the projected fact map. */
  function ReplayOrder(log: seq<Event>): seq<Fact>
    requires Project(log).Ok?
  {
    ProjectOrdered(log);
    Values(Project(log).value)
  }

  function Run(s: Sys, steps: seq<Step>): Sys
    decreases |steps|
  {
    if steps == [] then s
    else Run(if Enabled(s, steps[0]) then Next(s, steps[0]) else s, steps[1..])
  }

  // ---------------------------------------------------------------- what the log says

  predicate FactAt(log: seq<Event>, i: nat) {
    i < |log| && IsFactEvent(log[i])
  }

  /** Some fact event before position n records this id. */
  ghost predicate Records(log: seq<Event>, n: nat, id: string) {
    exists i: nat :: i < n && FactAt(log, i) && log[i].subjectId == id
  }

  /** Each fact id is recorded once; superseded facts come first; only an empty `captured_at` spoils replay. */
  ghost predicate LogOk(log: seq<Event>) {
    && (forall i: nat, j: nat :: FactAt(log, i) && FactAt(log, j) && log[i].subjectId == log[j].subjectId ==> i == j)
    && (forall i: nat :: FactAt(log, i) ==> EventOk(log, i, log[i]))
    && (forall i :: 0 <= i < |log| ==> IsFactEvent(log[i]) || Applies(log[i]))
  }

  /** A recorded event, fit to stand at position n of the log. */
  ghost predicate EventOk(log: seq<Event>, n: nat, e: Event) {
    && IsFactEvent(e)
    && (FactOf(e).Ok? <==> Raw(e).capturedAt != "")
    && (e.kind == "fact_superseded" <==> Raw(e).supersedes.Some?)
    && (Raw(e).supersedes.Some? ==> Records(log, n, Raw(e).supersedes.value))
  }

  /** A fact table that holds exactly the facts of the fact events at the covered positions. */
  ghost predicate Holds(facts: map<string, Fact>, log: seq<Event>, covered: set<nat>) {
    && (forall i: nat :: FactAt(log, i) && i in covered ==> HoldsAt(facts, log, i))
    && (forall id :: id in facts ==> exists i: nat :: FactAt(log, i) && i in covered && log[i].subjectId == id)
  }

  predicate HoldsAt(facts: map<string, Fact>, log: seq<Event>, i: nat)
    requires i < |log|
  {
    log[i].subjectId in facts && facts[log[i].subjectId] == Raw(log[i])
  }

  function Below(n: nat): (r: set<nat>)
    ensures forall i: nat :: i in r <==> i < n
  {
    if n == 0 then {} else Below(n - 1) + {n - 1}
  }

  /** Replaying the first n lines gives the facts of exactly those lines. */
  lemma {:induction false} ReplayHolds(log: seq<Event>, n: nat)
    requires LogOk(log) && n <= |log| && Project(log[..n]).Ok?
    ensures Holds(Project(log[..n]).value.facts, log, Below(n))
    decreases n
  {
    if n != 0 {
      var e := log[n - 1];
      assert log[..n] == log[..n - 1] + [e];
      ProjectSnoc(log[..n - 1], e);
      ReplayHolds(log, n - 1);
      FactOfIsRaw(e);
      var before, after := Project(log[..n - 1]).value.facts, Project(log[..n]).value.facts;
      ReplayHoldsStep(log, n, before, after);
    }
  }

  lemma ReplayHoldsStep(log: seq<Event>, n: nat, before: map<string, Fact>, after: map<string, Fact>)
    requires LogOk(log) && 0 < n <= |log| && Holds(before, log, Below(n - 1))
    requires after == if IsFactEvent(log[n - 1]) then before[log[n - 1].subjectId := Raw(log[n - 1])] else before
    ensures Holds(after, log, Below(n))
  {
    hide Raw;
    forall i: nat | FactAt(log, i) && i in Below(n) ensures HoldsAt(after, log, i) {
      if i < n - 1 { assert HoldsAt(before, log, i); }
      assert FactAt(log, n - 1) <==> IsFactEvent(log[n - 1]);
    }
    forall id | id in after ensures exists i: nat :: FactAt(log, i) && i in Below(n) && log[i].subjectId == id {
      if id in before {
        var i: nat :| FactAt(log, i) && i in Below(n - 1) && log[i].subjectId == id;
        assert i in Below(n);
      } else {
        assert FactAt(log, n - 1) && (n - 1) in Below(n);
      }
    }
  }

  // ---------------------------------------------------------------- the invariant

  /** The log positions whose facts the committed table must hold. */
  function Covered(s: Sys): set<nat> {
    s.inserted + Below(s.replayed)
  }

  ghost predicate RowsOk(s: Sys) {
    && s.replayed <= |s.log| && (forall i :: i in s.inserted ==> i < |s.log|)
    && Holds(s.rows, s.log, Covered(s))
  }

  ghost predicate PhaseOk(s: Sys, ph: Phase) {
    && ph.fact.id in s.used
    && match ph
       case Checked(f, e) =>
         EventOk(s.log, |s.log|, e) && Raw(e) == f && !Records(s.log, |s.log|, f.id)
       case Appended(f, at) => FactAt(s.log, at) && Raw(s.log[at]) == f
  }

  ghost predicate RecordsOk(s: Sys) {
    && (forall p :: p in s.records ==> PhaseOk(s, s.records[p]))
    && (forall p, q :: p in s.records && q in s.records && p != q ==> s.records[p].fact.id != s.records[q].fact.id)
    && (forall i: nat :: FactAt(s.log, i) ==> s.log[i].subjectId in s.used)
  }

  /** What the open transaction has inserted and still has to insert is what it read from the log. */
  ghost predicate TxnOk(s: Sys, t: Txn) {
    match t.read
    case None => t.todo == [] && t.work == map[]
    case Some(n) =>
      && s.replayed <= n <= |s.log| && (forall i :: i in s.inserted ==> i < n)
      && (forall i: nat :: FactAt(s.log, i) && i < n ==> HoldsAt(t.work, s.log, i) || Raw(s.log[i]) in t.todo)
      && (forall f :: f in t.todo ==> Records(s.log, n, f.id))
      && (forall id :: id in t.work ==> Records(s.log, n, id))
  }

  ghost predicate Good(s: Sys) {
    && LogOk(s.log) && RowsOk(s) && RecordsOk(s)
    && (s.txn.Some? ==> TxnOk(s, s.txn.value))
  }

  lemma RawId(e: Event)
    ensures Raw(e).id == e.subjectId
  {
  }

  /** Facts about a log survive appending to it. */
  lemma Longer(log: seq<Event>, e: Event)
    ensures forall i: nat :: FactAt(log, i) ==> FactAt(log + [e], i) && (log + [e])[i] == log[i]
    ensures forall i: nat :: FactAt(log + [e], i) ==> FactAt(log, i) || (i == |log| && IsFactEvent(e))
    ensures forall n: nat, id :: n <= |log| ==> (Records(log, n, id) <==> Records(log + [e], n, id))
    ensures forall id :: Records(log + [e], |log| + 1, id) <==> Records(log, |log|, id) || (IsFactEvent(e) && e.subjectId == id)
  {
    var more := log + [e];
    forall n: nat, id | n <= |log| ensures Records(log, n, id) <==> Records(more, n, id) {
      if Records(log, n, id) {
        var i: nat :| i < n && FactAt(log, i) && log[i].subjectId == id;
        assert FactAt(more, i);
      }
      if Records(more, n, id) {
        var i: nat :| i < n && FactAt(more, i) && more[i].subjectId == id;
        assert FactAt(log, i);
      }
    }
    forall id ensures Records(more, |log| + 1, id) <==> Records(log, |log|, id) || (IsFactEvent(e) && e.subjectId == id) {
      if Records(log, |log|, id) {
        var i: nat :| i < |log| && FactAt(log, i) && log[i].subjectId == id;
        assert FactAt(more, i);
      }
      if IsFactEvent(e) && e.subjectId == id { assert FactAt(more, |log|); }
      if Records(more, |log| + 1, id) {
        var i: nat :| i < |log| + 1 && FactAt(more, i) && more[i].subjectId == id;
        if i < |log| { assert FactAt(log, i); }
      }
    }
  }

  lemma AppendLogOk(log: seq<Event>, e: Event)
    requires LogOk(log)
    requires if IsFactEvent(e) then EventOk(log, |log|, e) && !Records(log, |log|, e.subjectId) else Applies(e)
    ensures LogOk(log + [e])
  {
    hide Raw, FactOf, Applies;
    Longer(log, e);
    var more := log + [e];
    forall i: nat | FactAt(log, i) ensures Records(log, |log|, log[i].subjectId) {}
    forall i: nat, j: nat | FactAt(more, i) && FactAt(more, j) && more[i].subjectId == more[j].subjectId
      ensures i == j
    {
      assert i < |log| ==> Records(log, |log|, more[i].subjectId);
      assert j < |log| ==> Records(log, |log|, more[j].subjectId);
    }
    forall i: nat | FactAt(more, i) ensures EventOk(more, i, more[i]) {
      if i < |log| { assert EventOk(log, i, log[i]); }
    }
  }

  lemma HoldsLonger(facts: map<string, Fact>, log: seq<Event>, covered: set<nat>, e: Event)
    requires Holds(facts, log, covered) && forall i :: i in covered ==> i < |log|
    ensures Holds(facts, log + [e], covered)
  {
    hide Raw;
    Longer(log, e);
    var more := log + [e];
    forall i: nat | FactAt(more, i) && i in covered ensures HoldsAt(facts, more, i) { assert HoldsAt(facts, log, i); }
    forall id | id in facts ensures exists i: nat :: FactAt(more, i) && i in covered && more[i].subjectId == id {
      var i: nat :| FactAt(log, i) && i in covered && log[i].subjectId == id;
      assert FactAt(more, i);
    }
  }

  lemma TxnLonger(s: Sys, s': Sys, t: Txn, e: Event)
    requires TxnOk(s, t) && s'.log == s.log + [e] && s'.inserted == s.inserted && s'.replayed == s.replayed
    ensures TxnOk(s', t)
  {
    hide Raw;
    Longer(s.log, e);
    if t.read.Some? {
      forall i: nat | FactAt(s'.log, i) && i < t.read.value
        ensures HoldsAt(t.work, s'.log, i) || Raw(s'.log[i]) in t.todo
      {
        assert FactAt(s.log, i);
        assert HoldsAt(t.work, s.log, i) || Raw(s.log[i]) in t.todo;
      }
    }
  }

  // ---------------------------------------------------------------- each step keeps it

  lemma AppendKeeps(s: Sys, s': Sys, e: Event)
    requires Good(s) && s'.log == s.log + [e]
    requires s'.rows == s.rows && s'.txn == s.txn && s'.inserted == s.inserted && s'.replayed == s.replayed
    requires if IsFactEvent(e) then EventOk(s.log, |s.log|, e) && !Records(s.log, |s.log|, e.subjectId) else Applies(e)
    ensures LogOk(s'.log) && RowsOk(s') && (s'.txn.Some? ==> TxnOk(s', s'.txn.value))
  {
    AppendLogOk(s.log, e);
    HoldsLonger(s.rows, s.log, Covered(s), e);
    if s.txn.Some? { TxnLonger(s, s', s.txn.value, e); }
  }

  lemma PhaseLonger(s: Sys, s': Sys, ph: Phase, e: Event)
    requires PhaseOk(s, ph) && s'.log == s.log + [e] && s.used <= s'.used
    requires ph.Checked? && IsFactEvent(e) ==> e.subjectId != ph.fact.id
    ensures PhaseOk(s', ph)
  {
    hide Raw, FactOf;
    Longer(s.log, e);
    if ph.Checked? && Raw(ph.event).supersedes.Some? {
      var target := Raw(ph.event).supersedes.value;
      assert Records(s.log, |s.log|, target);
      assert Records(s'.log, |s'.log|, target);
    }
  }

  lemma CheckTargetKeeps(s: Sys, step: Step)
    requires Good(s) && step.CheckTarget? && Enabled(s, step)
    ensures Good(Next(s, step))
  {
    var s' := Next(s, step);
    var e := EventFor(step.input, step.id, step.eventId, step.supersedes);
    var f := FactFor(step.input, step.id, step.supersedes);
    RecordedReplays(step.input, step.id, step.eventId, step.supersedes);
    assert !Records(s.log, |s.log|, step.id);
    if step.supersedes.Some? { RowIsRecorded(s, step.supersedes.value); }
    assert EventOk(s.log, |s.log|, e) && Raw(e) == f;
    assert PhaseOk(s', Checked(f, e));
    CheckedKeeps(s, s', step.p, Checked(f, e));
  }

  lemma RowIsRecorded(s: Sys, id: string)
    requires RowsOk(s) && id in s.rows
    ensures Records(s.log, |s.log|, id)
  {
    var i: nat :| FactAt(s.log, i) && i in Covered(s) && s.log[i].subjectId == id;
    assert i < |s.log|;
  }

  lemma CheckedKeeps(s: Sys, s': Sys, p: nat, ph: Phase)
    requires Good(s) && PhaseOk(s', ph) && p !in s.records && ph.fact.id !in s.used
    requires s' == s.(records := s.records[p := ph], used := s.used + {ph.fact.id})
    ensures Good(s')
  {
    hide Raw, FactOf, LogOk, Holds, EventOk, Records;
    forall q | q in s'.records ensures PhaseOk(s', s'.records[q]) {
      if q != p { assert PhaseOk(s, s.records[q]); }
    }
    assert s.txn.Some? ==> TxnOk(s', s'.txn.value);
  }

  lemma AppendEventKeeps(s: Sys, p: nat)
    requires Good(s) && Enabled(s, AppendEvent(p))
    ensures Good(Next(s, AppendEvent(p)))
  {
    var s', ph := Next(s, AppendEvent(p)), s.records[p];
    assert PhaseOk(s, ph);
    RawId(ph.event);
    AppendKeeps(s, s', ph.event);
    Longer(s.log, ph.event);
    hide Raw, FactOf, LogOk, RowsOk, TxnOk;
    forall q | q in s'.records ensures PhaseOk(s', s'.records[q]) {
      if q != p {
        assert s.records[q].fact.id != ph.fact.id;
        PhaseLonger(s, s', s.records[q], ph.event);
      } else {
        assert FactAt(s'.log, |s.log|);
      }
    }
  }

  lemma AppendOtherKeeps(s: Sys, e: Event)
    requires Good(s) && Enabled(s, AppendOther(e))
    ensures Good(Next(s, AppendOther(e)))
  {
    var s' := Next(s, AppendOther(e));
    AppendKeeps(s, s', e);
    Longer(s.log, e);
    forall q | q in s'.records ensures PhaseOk(s', s'.records[q]) { PhaseLonger(s, s', s.records[q], e); }
  }

  lemma InsertRowKeeps(s: Sys, p: nat)
    requires Good(s) && Enabled(s, InsertRow(p))
    ensures Good(Next(s, InsertRow(p)))
  {
    hide Raw, LogOk, EventOk;
    var s', f, at := Next(s, InsertRow(p)), s.records[p].fact, s.records[p].at;
    assert PhaseOk(s, s.records[p]);
    RawId(s.log[at]);
    forall q | q in s'.records ensures PhaseOk(s', s'.records[q]) { assert PhaseOk(s, s.records[q]); }
    InsertHolds(s, s', at, f);
  }

  lemma InsertHolds(s: Sys, s': Sys, at: nat, f: Fact)
    requires RowsOk(s) && FactAt(s.log, at) && Raw(s.log[at]) == f && f.id !in s.rows
    requires s'.log == s.log && s'.rows == s.rows[f.id := f] && s'.inserted == s.inserted + {at} && s'.replayed == s.replayed
    ensures RowsOk(s')
  {
    RawId(s.log[at]);
    assert Covered(s') == Covered(s) + {at};
    hide Raw, Below, Covered;
    forall i: nat | FactAt(s.log, i) && i in Covered(s') ensures HoldsAt(s'.rows, s.log, i) {
      if i in Covered(s) { assert HoldsAt(s.rows, s.log, i); }
    }
    forall id | id in s'.rows ensures exists i: nat :: FactAt(s.log, i) && i in Covered(s') && s.log[i].subjectId == id {
      if id in s.rows {
        var i: nat :| FactAt(s.log, i) && i in Covered(s) && s.log[i].subjectId == id;
        assert i in Covered(s');
      } else {
        assert at in Covered(s');
      }
    }
  }

  lemma ReadLogKeeps(s: Sys)
    requires Good(s) && Enabled(s, ReadLog)
    ensures Good(Next(s, ReadLog))
  {
    var s' := Next(s, ReadLog);
    assert s.log[..|s.log|] == s.log;
    ReplayHolds(s.log, |s.log|);
    ProjectOrdered(s.log);
    ReadTxn(s.log, Project(s.log).value);
    assert TxnOk(s', s'.txn.value);
    SameButTxn(s, s');
  }

  /** Everything in the log is to be inserted, and nothing else. */
  lemma ReadTxn(log: seq<Event>, st: State)
    requires Ordered(st) && Holds(st.facts, log, Below(|log|))
    ensures forall i: nat :: FactAt(log, i) ==> Raw(log[i]) in Values(st)
    ensures forall f :: f in Values(st) ==> Records(log, |log|, f.id)
  {
    hide Raw, Below, Holds;
    forall i: nat | FactAt(log, i) ensures Raw(log[i]) in Values(st) { ReadsEach(log, st, i); }
    forall f | f in Values(st) ensures Records(log, |log|, f.id) { ReadsOnly(log, st, f); }
  }

  lemma ReadsOnly(log: seq<Event>, st: State, f: Fact)
    requires Ordered(st) && Holds(st.facts, log, Below(|log|)) && f in Values(st)
    ensures Records(log, |log|, f.id)
  {
    hide Raw, Below;
    var k :| 0 <= k < |Values(st)| && Values(st)[k] == f;
    var i: nat :| FactAt(log, i) && i in Below(|log|) && log[i].subjectId == st.order[k];
  }

  lemma ReadsEach(log: seq<Event>, st: State, i: nat)
    requires Ordered(st) && Holds(st.facts, log, Below(|log|)) && FactAt(log, i)
    ensures Raw(log[i]) in Values(st)
  {
    hide Raw, Below;
    assert HoldsAt(st.facts, log, i);
    var k :| 0 <= k < |st.order| && st.order[k] == log[i].subjectId;
    assert Values(st)[k] == Raw(log[i]);
  }

  lemma SameButTxn(s: Sys, s': Sys)
    requires Good(s) && s' == s.(txn := s'.txn) && (s'.txn.Some? ==> TxnOk(s', s'.txn.value))
    ensures Good(s')
  {
    hide Raw, LogOk, EventOk, Holds, Records;
    forall q | q in s'.records ensures PhaseOk(s', s'.records[q]) { assert PhaseOk(s, s.records[q]); }
  }

  lemma ReplayRowKeeps(s: Sys)
    requires Good(s) && Enabled(s, ReplayRow)
    ensures Good(Next(s, ReplayRow))
  {
    hide Raw, LogOk, Holds, Records, RecordsOk, TxnOk;
    var s' := Next(s, ReplayRow);
    TxnReplays(s, s', s.txn.value, s'.txn.value);
    SameButTxn(s, s');
  }

  lemma TxnReplays(s: Sys, s': Sys, t: Txn, u: Txn)
    requires TxnOk(s, t) && t.todo != [] && t.todo[0].id !in t.work
    requires u == t.(todo := t.todo[1..], work := t.work[t.todo[0].id := t.todo[0]])
    requires s'.log == s.log && s'.inserted == s.inserted && s'.replayed == s.replayed
    ensures TxnOk(s', u)
  {
    hide Raw, Records, FactAt;
    assert t.todo == [t.todo[0]] + u.todo;
    forall i: nat | FactAt(s.log, i) && i < t.read.value
      ensures HoldsAt(u.work, s.log, i) || Raw(s.log[i]) in u.todo
    {
      RawId(s.log[i]);
      assert HoldsAt(t.work, s.log, i) || Raw(s.log[i]) in t.todo;
    }
  }

  lemma CommitKeeps(s: Sys)
    requires Good(s) && Enabled(s, Commit)
    ensures Good(Next(s, Commit))
  {
    hide Raw, LogOk, EventOk;
    var s', t, n := Next(s, Commit), s.txn.value, s.txn.value.read.value;
    assert Covered(s') == Below(n);
    forall i: nat | FactAt(s.log, i) && i in Below(n) ensures HoldsAt(t.work, s.log, i) {
      assert Raw(s.log[i]) !in t.todo;
    }
    forall id | id in t.work ensures exists i: nat :: FactAt(s.log, i) && i in Below(n) && s.log[i].subjectId == id {
      assert Records(s.log, n, id);
      var i: nat :| i < n && FactAt(s.log, i) && s.log[i].subjectId == id;
      assert i in Below(n);
    }
    assert Holds(t.work, s.log, Below(n));
    forall q | q in s'.records ensures PhaseOk(s', s'.records[q]) { assert PhaseOk(s, s.records[q]); }
  }

  lemma GiveUpKeeps(s: Sys, p: nat)
    requires Good(s) && Enabled(s, GiveUp(p))
    ensures Good(Next(s, GiveUp(p)))
  {
    hide Raw, LogOk, EventOk, Holds, Records;
    var s' := Next(s, GiveUp(p));
    forall q | q in s'.records ensures PhaseOk(s', s'.records[q]) { assert PhaseOk(s, s.records[q]); }
  }

  lemma NextKeeps(s: Sys, step: Step)
    requires Good(s) && Enabled(s, step)
    ensures Good(Next(s, step))
  {
    hide Good;
    match step
    case CheckTarget(_, _, _, _, _) => CheckTargetKeeps(s, step);
    case AppendEvent(p) => AppendEventKeeps(s, p);
    case InsertRow(p) => InsertRowKeeps(s, p);
    case GiveUp(p) => GiveUpKeeps(s, p);
    case AppendOther(e) => AppendOtherKeeps(s, e);
    case Begin => SameButTxn(s, Next(s, step));
    case ReadLog => ReadLogKeeps(s);
    case ReplayRow => ReplayRowKeeps(s);
    case Commit => CommitKeeps(s);
    case Rollback => SameButTxn(s, Next(s, step));
  }

  lemma {:induction false} RunKeeps(s: Sys, steps: seq<Step>)
    requires Good(s)
    ensures Good(Run(s, steps))
    decreases |steps|
  {
    hide Good, Next;
    if steps != [] {
      if Enabled(s, steps[0]) {
        NextKeeps(s, steps[0]);
        RunKeeps(Next(s, steps[0]), steps[1..]);
      } else {
        RunKeeps(s, steps[1..]);
      }
    }
  }

  // ---------------------------------------------------------------- the theorems

  lemma StartGood()
    ensures Good(START)
  {
  }

  lemma Reached(steps: seq<Step>)
    ensures Good(Run(START, steps))
  {
    StartGood();
    RunKeeps(START, steps);
  }

  /**
   * In every reachable state the log replays exactly when no recorded fact has an empty `captured_at`.
   */
  lemma ReplayableIff(steps: seq<Step>)
    ensures
      var s := Run(START, steps);
      Project(s.log).Ok? <==> forall i: nat :: FactAt(s.log, i) ==> Raw(s.log[i]).capturedAt != ""
  {
    hide Raw, FactOf;
    Reached(steps);
    var s := Run(START, steps);
    ReplaySucceedsIff(s.log);
    if forall i: nat :: FactAt(s.log, i) ==> Raw(s.log[i]).capturedAt != "" {
      forall i | 0 <= i < |s.log| ensures Applies(s.log[i]) {
        if FactAt(s.log, i) { assert EventOk(s.log, i, s.log[i]); }
      }
    } else {
      var i: nat :| FactAt(s.log, i) && Raw(s.log[i]).capturedAt == "";
      assert EventOk(s.log, i, s.log[i]);
      assert !Applies(s.log[i]);
    }
  }

  /**
   * Live agrees with replay: in every reachable state the committed rows are among the facts a replay
   * of the log gives, and they are all of them exactly when every fact event so far was inserted live
   * or read by a committed rebuild.
   */
  lemma LiveAgreesWithReplay(steps: seq<Step>)
    requires Project(Run(START, steps).log).Ok?
    ensures
      var s := Run(START, steps);
      var facts := Project(s.log).value.facts;
      && (forall id :: id in s.rows ==> id in facts && facts[id] == s.rows[id])
      && (s.rows == facts <==> forall i: nat :: FactAt(s.log, i) ==> i in Covered(s))
  {
    hide Raw;
    Reached(steps);
    var s := Run(START, steps);
    assert s.log[..|s.log|] == s.log;
    ReplayHolds(s.log, |s.log|);
    HoldsCompare(s, Project(s.log).value.facts);
  }

  lemma HoldsCompare(s: Sys, facts: map<string, Fact>)
    requires LogOk(s.log) && RowsOk(s) && Holds(facts, s.log, Below(|s.log|))
    ensures forall id :: id in s.rows ==> id in facts && facts[id] == s.rows[id]
    ensures s.rows == facts <==> forall i: nat :: FactAt(s.log, i) ==> i in Covered(s)
  {
    hide Raw, EventOk;
    forall id | id in s.rows ensures id in facts && facts[id] == s.rows[id] {
      var i: nat :| FactAt(s.log, i) && i in Covered(s) && s.log[i].subjectId == id;
      assert HoldsAt(s.rows, s.log, i) && HoldsAt(facts, s.log, i);
    }
    if s.rows == facts {
      forall i: nat | FactAt(s.log, i) ensures i in Covered(s) {
        assert HoldsAt(facts, s.log, i);
        var j: nat :| FactAt(s.log, j) && j in Covered(s) && s.log[j].subjectId == s.log[i].subjectId;
      }
    }
    if forall i: nat :: FactAt(s.log, i) ==> i in Covered(s) {
      forall id | id in facts ensures id in s.rows {
        var i: nat :| FactAt(s.log, i) && i in Below(|s.log|) && s.log[i].subjectId == id;
        assert HoldsAt(s.rows, s.log, i);
      }
    }
  }

  /** The log only ever grows at its end. */
  lemma {:induction false} LogGrows(s: Sys, steps: seq<Step>)
    ensures s.log <= Run(s, steps).log
    decreases |steps|
  {
    if steps != [] {
      LogGrows(if Enabled(s, steps[0]) then Next(s, steps[0]) else s, steps[1..]);
    }
  }

  /**
   * One fact recorded with an empty `captured_at` makes every later replay fail, so no rebuild that has
   * not yet read the log ever commits again: the rebuilt prefix stays where it is.
   */
  lemma EmptyCapturedAtStopsRebuilds(steps: seq<Step>, later: seq<Step>, i: nat)
    requires FactAt(Run(START, steps).log, i) && Raw(Run(START, steps).log[i]).capturedAt == ""
    requires var txn := Run(START, steps).txn; txn.Some? ==> txn.value.read.None?
    ensures
      var s, t := Run(START, steps), Run(Run(START, steps), later);
      Project(t.log).Err? && t.replayed == s.replayed
  {
    var s := Run(START, steps);
    Reached(steps);
    assert EventOk(s.log, i, s.log[i]);
    assert !Applies(s.log[i]);
    NoReads(s, later, i);
  }

  lemma {:induction false} NoReads(s: Sys, later: seq<Step>, i: nat)
    requires i < |s.log| && !Applies(s.log[i])
    requires s.txn.Some? ==> s.txn.value.read.None?
    ensures Project(Run(s, later).log).Err? && Run(s, later).replayed == s.replayed
    decreases |later|
  {
    hide Applies, Next, Enabled, Project;
    ReplaySucceedsIff(s.log);
    if later != [] {
      if Enabled(s, later[0]) { NoReadYet(s, later[0], i); }
      NoReads(if Enabled(s, later[0]) then Next(s, later[0]) else s, later[1..], i);
    }
  }

  /** A step cannot read a log that does not replay, so it cannot commit either. */
  lemma NoReadYet(s: Sys, step: Step, i: nat)
    requires Enabled(s, step) && i < |s.log| && !Applies(s.log[i])
    requires s.txn.Some? ==> s.txn.value.read.None?
    ensures var t := Next(s, step); i < |t.log| && t.log[i] == s.log[i] && t.replayed == s.replayed
    ensures var t := Next(s, step); t.txn.Some? ==> t.txn.value.read.None?
  {
    hide Applies, Raw, FactFor, EventFor, Validate, ReplayOrder, Project;
    ReplaySucceedsIff(s.log);
  }

  /** A superseding fact's target was recorded strictly before it. */
  lemma TargetsComeFirst(steps: seq<Step>, i: nat)
    requires FactAt(Run(START, steps).log, i)
    ensures
      var log := Run(START, steps).log;
      && (log[i].kind == "fact_superseded" <==> Raw(log[i]).supersedes.Some?)
      && (Raw(log[i]).supersedes.Some? ==>
            exists j: nat :: j < i && FactAt(log, j) && log[j].subjectId == Raw(log[i]).supersedes.value)
  {
    Reached(steps);
    var log := Run(START, steps).log;
    assert EventOk(log, i, log[i]);
  }
}
