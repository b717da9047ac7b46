/** When the sources of an output were looked up: a history of the runs of `Provenance`. */
module Citations {
  import opened Wrappers
  import opened Ulid
  import opened NoteFormat
  import opened Provenance
  import opened Text
  import Interleaving

  lemma {:induction false} RunSnoc(s: Sys, steps: seq<Step>, a: Step)
    ensures Run(s, steps + [a]) == Advance(Run(s, steps), a)
    decreases |steps|
  {
    hide Advance;
    if steps == [] {
      assert [a][1..] == [];
    } else {
      assert (steps + [a])[1..] == steps[1..] + [a];
      RunSnoc(Advance(s, steps[0]), steps[1..], a);
    }
  }

  /** The state before step k of a run. */
  function At(steps: seq<Step>, k: nat): Sys
    requires k <= |steps|
  {
    Run(START, steps[..k])
  }

  /** Before step k the source resolved. */
  predicate ResolvedAt(steps: seq<Step>, k: nat, x: string)
    requires k <= |steps|
  {
    Resolves(At(steps, k).files, At(steps, k).facts.rows, x)
  }

  /** Some time after step b, and before the end, the source resolved. */
  predicate LookedUp(steps: seq<Step>, b: nat, x: string) {
    exists k :: b < k < |steps| && ResolvedAt(steps, k, x)
  }

  /** Some time after step b the current facts were read. */
  predicate IdsRead(steps: seq<Step>, b: nat, ids: set<string>) {
    exists k :: b < k < |steps| && ids == CurrentIds(At(steps, k).facts.rows)
  }

  /** A call that is looking its sources up began at step b and found those done so far since then. */
  predicate JobSince(steps: seq<Step>, p: nat, job: Job, b: nat)
    requires job.Resolving?
  {
    && b < |steps| && steps[b] == StartOutput(p, job.item)
    && job.next <= |Ulids(job.item.sources)|
    && (forall j :: 0 <= j < job.next ==> LookedUp(steps, b, Ulids(job.item.sources)[j]))
    && (job.factIds.Some? ==> IdsRead(steps, b, job.factIds.value))
  }

  /** An output was written at step w by the call begun at step b, which looked its sources up in between. */
  predicate WrittenBetween(steps: seq<Step>, path: Path, f: File, b: nat, w: nat)
    requires f.OutputFile?
  {
    && b < w < |steps| && steps[w].WriteOutput? && steps[w].id == path.id
    && steps[b] == StartOutput(steps[w].p, Item(f.title, f.sources, f.body))
    && forall x :: x in f.sources && IsUlid(x) ==> LookedUp(steps[..w], b, x)
  }

  ghost predicate HistoryOk(steps: seq<Step>) {
    var s := Run(START, steps);
    && (forall p :: p in s.jobs && s.jobs[p].Resolving? ==> exists b :: JobSince(steps, p, s.jobs[p], b))
    && (forall path :: path in s.files && s.files[path].OutputFile? ==>
          exists b, w :: WrittenBetween(steps, path, s.files[path], b, w))
  }

  lemma LookedUpLater(steps: seq<Step>, a: Step, b: nat, x: string)
    requires LookedUp(steps, b, x)
    ensures LookedUp(steps + [a], b, x)
  {
    hide Run, Resolves, CurrentIds;
    var k :| b < k < |steps| && ResolvedAt(steps, k, x);
    assert (steps + [a])[..k] == steps[..k];
    assert ResolvedAt(steps + [a], k, x);
  }

  lemma IdsReadLater(steps: seq<Step>, a: Step, b: nat, ids: set<string>)
    requires IdsRead(steps, b, ids)
    ensures IdsRead(steps + [a], b, ids)
  {
    hide Run, CurrentIds;
    var k :| b < k < |steps| && ids == CurrentIds(At(steps, k).facts.rows);
    assert (steps + [a])[..k] == steps[..k];
    assert ids == CurrentIds(At(steps + [a], k).facts.rows);
  }

  lemma JobLater(steps: seq<Step>, a: Step, p: nat, job: Job, b: nat)
    requires job.Resolving? && JobSince(steps, p, job, b)
    ensures JobSince(steps + [a], p, job, b)
  {
    hide LookedUp, IdsRead, Ulids;
    forall j | 0 <= j < job.next ensures LookedUp(steps + [a], b, Ulids(job.item.sources)[j]) {
      LookedUpLater(steps, a, b, Ulids(job.item.sources)[j]);
    }
    if job.factIds.Some? { IdsReadLater(steps, a, b, job.factIds.value); }
  }

  lemma FileLater(steps: seq<Step>, a: Step, path: Path, f: File, b: nat, w: nat)
    requires f.OutputFile? && WrittenBetween(steps, path, f, b, w)
    ensures WrittenBetween(steps + [a], path, f, b, w)
  {
    hide LookedUp, IsUlid;
    assert (steps + [a])[..w] == steps[..w];
  }

  /** Looking one more source up, now or in the facts read earlier. */
  lemma ResolveSince(steps: seq<Step>, p: nat, b: nat)
    requires
      var s := Run(START, steps);
      Enabled(s, ResolveNext(p)) && JobSince(steps, p, s.jobs[p], b)
    ensures
      var t := Next(Run(START, steps), ResolveNext(p));
      p in t.jobs ==> t.jobs[p].Resolving? && JobSince(steps + [ResolveNext(p)], p, t.jobs[p], b)
  {
    hide Run, CurrentIds, HasNote, Ulids;
    var a := ResolveNext(p);
    var s, more := Run(START, steps), steps + [a];
    var t, job := Next(s, a), s.jobs[p];
    var x := Ulids(job.item.sources)[job.next];
    assert more[..|steps|] == steps;
    assert At(more, |steps|) == s;
    JobLater(steps, a, p, job, b);
    if p in t.jobs {
      if HasNote(s.files, x) {
        assert ResolvedAt(more, |steps|, x);
      } else if job.factIds.Some? {
        FoundInRead(more, b, job.factIds.value, x);
      } else {
        assert CurrentIds(s.facts.rows) == CurrentIds(At(more, |steps|).facts.rows);
        assert IdsRead(more, b, CurrentIds(s.facts.rows));
        FoundInRead(more, b, CurrentIds(s.facts.rows), x);
      }
      assert LookedUp(more, b, x);
    }
  }

  lemma FoundInRead(steps: seq<Step>, b: nat, ids: set<string>, x: string)
    requires IdsRead(steps, b, ids) && x in ids
    ensures LookedUp(steps, b, x)
  {
    hide Run, CurrentIds, CurrentFact, HasNote;
    var k :| b < k < |steps| && ids == CurrentIds(At(steps, k).facts.rows);
    CurrentIdsAre(At(steps, k).facts.rows);
    assert ResolvedAt(steps, k, x);
  }

  lemma WriteEffect(s: Sys, p: nat, id: string, eventId: string, at: string)
    requires Enabled(s, WriteOutput(p, id, eventId, at))
    ensures p in s.jobs && s.jobs[p].Resolving? && s.jobs[p].next == |Ulids(s.jobs[p].item.sources)|
    ensures
      var item, path := s.jobs[p].item, Path(Output, id, None);
      var t := Next(s, WriteOutput(p, id, eventId, at));
      path in t.files && t.files[path] == OutputFile(item.title, item.sources, item.body, at)
  {
    hide IsUlid, Ulids;
  }

  /** The output a call writes was looked up by that call. */
  lemma WriteSince(steps: seq<Step>, p: nat, id: string, eventId: string, at: string, b: nat)
    requires
      var s := Run(START, steps);
      Enabled(s, WriteOutput(p, id, eventId, at)) && JobSince(steps, p, s.jobs[p], b)
    ensures
      var a := WriteOutput(p, id, eventId, at);
      var f := Next(Run(START, steps), a).files[Path(Output, id, None)];
      f.OutputFile? && WrittenBetween(steps + [a], Path(Output, id, None), f, b, |steps|)
  {
    hide Run, LookedUp, IdsRead, IsUlid, Ulids, Next, Enabled;
    var a := WriteOutput(p, id, eventId, at);
    WriteEffect(Run(START, steps), p, id, eventId, at);
    var item := Run(START, steps).jobs[p].item;
    assert (steps + [a])[..|steps|] == steps;
    forall x | x in item.sources && IsUlid(x) ensures LookedUp(steps, b, x) {
      UlidsAll(item.sources, x);
      var k :| 0 <= k < |Ulids(item.sources)| && Ulids(item.sources)[k] == x;
    }
  }

  /** What happens to calls and outputs in one step, as far as their history goes. */
  lemma JobsAfter(s: Sys, a: Step, p: nat)
    requires p in Advance(s, a).jobs && Advance(s, a).jobs[p].Resolving?
    ensures
      || (p in s.jobs && s.jobs[p] == Advance(s, a).jobs[p])
      || (Enabled(s, a) && a == ResolveNext(p) && s.jobs[p].Resolving?)
      || (Enabled(s, a) && a.StartOutput? && a.p == p && Advance(s, a).jobs[p] == Resolving(a.item, 0, None))
  {
    hide Interleaving.Enabled, Interleaving.Next, RawProblem, IsUlid, Print, Seeded, Blank;
  }

  lemma OutputsAfter(s: Sys, a: Step, path: Path)
    requires path in Advance(s, a).files && Advance(s, a).files[path].OutputFile?
    requires forall p :: p in s.jobs && s.jobs[p].Promoting? ==> s.jobs[p].file.WorkingFile?
    ensures
      || (path in s.files && s.files[path] == Advance(s, a).files[path])
      || (Enabled(s, a) && a.WriteOutput? && path == Path(Output, a.id, None))
  {
    hide Interleaving.Enabled, Interleaving.Next, RawProblem, IsUlid, Print, Seeded, Blank;
  }

  lemma {:induction false} HistoryKept(steps: seq<Step>)
    ensures HistoryOk(steps)
    decreases |steps|
  {
    hide Run, Advance, Enabled, Next, JobSince, WrittenBetween, IsUlid, FilesOk, Interleaving.Good, LogTrue;
    if steps == [] {
      assert Run(START, steps) == START by { RunNothing(steps); }
    } else {
      var n := |steps| - 1;
      var front, a := steps[..n], steps[n];
      assert steps == front + [a];
      HistoryKept(front);
      RunSnoc(START, front, a);
      var s, t := Run(START, front), Run(START, steps);
      SoundRun(front);
      forall p | p in t.jobs && t.jobs[p].Resolving? ensures exists b :: JobSince(steps, p, t.jobs[p], b) {
        JobsAfter(s, a, p);
        JobHistory(front, a, p);
      }
      forall path | path in t.files && t.files[path].OutputFile?
        ensures exists b, w :: WrittenBetween(steps, path, t.files[path], b, w)
      {
        PromotingWorking(s);
        OutputsAfter(s, a, path);
        FileHistory(front, a, path);
      }
    }
  }

  lemma RunNothing(steps: seq<Step>)
    requires steps == []
    ensures Run(START, steps) == START
  {
  }

  lemma SoundRun(steps: seq<Step>)
    ensures Sound(Run(START, steps))
  {
    hide Sound, Run;
    Interleaving.StartGood();
    StartSound();
    RunKeeps(START, steps);
  }

  lemma PromotingWorking(s: Sys)
    requires Sound(s)
    ensures forall p :: p in s.jobs && s.jobs[p].Promoting? ==> s.jobs[p].file.WorkingFile?
  {
    hide Interleaving.Good, FilesOk, LogTrue;
    forall p | p in s.jobs && s.jobs[p].Promoting? ensures s.jobs[p].file.WorkingFile? {
      assert JobOk(s.files, s.facts.log, s.jobs[p]);
    }
  }

  lemma JobHistory(front: seq<Step>, a: Step, p: nat)
    requires HistoryOk(front)
    requires var t := Advance(Run(START, front), a); p in t.jobs && t.jobs[p].Resolving?
    ensures exists b :: JobSince(front + [a], p, Advance(Run(START, front), a).jobs[p], b)
  {
    hide Run, Next, Enabled, JobSince, WrittenBetween;
    var s, steps := Run(START, front), front + [a];
    var t := Advance(s, a);
    JobsAfter(s, a, p);
    if p in s.jobs && s.jobs[p] == t.jobs[p] {
      var b :| JobSince(front, p, s.jobs[p], b);
      JobLater(front, a, p, s.jobs[p], b);
    } else if a.ResolveNext? {
      EnabledResolve(s, p);
      var b :| JobSince(front, p, s.jobs[p], b);
      ResolveSince(front, p, b);
    } else {
      Began(steps, |front|, p, a.item);
    }
  }

  lemma EnabledResolve(s: Sys, p: nat)
    requires Enabled(s, ResolveNext(p))
    ensures p in s.jobs && s.jobs[p].Resolving?
  {
  }

  lemma Began(steps: seq<Step>, b: nat, p: nat, item: Item)
    requires b < |steps| && steps[b] == StartOutput(p, item)
    ensures JobSince(steps, p, Resolving(item, 0, None), b)
  {
    hide LookedUp, IdsRead;
  }

  lemma FileHistory(front: seq<Step>, a: Step, path: Path)
    requires HistoryOk(front)
    requires forall p :: p in Run(START, front).jobs && Run(START, front).jobs[p].Promoting? ==> Run(START, front).jobs[p].file.WorkingFile?
    requires var t := Advance(Run(START, front), a); path in t.files && t.files[path].OutputFile?
    ensures exists b, w :: WrittenBetween(front + [a], path, Advance(Run(START, front), a).files[path], b, w)
  {
    hide Run, Next, Enabled, JobSince, WrittenBetween;
    var s := Run(START, front);
    var t := Advance(s, a);
    OutputsAfter(s, a, path);
    if path in s.files && s.files[path] == t.files[path] {
      var b, w :| WrittenBetween(front, path, s.files[path], b, w);
      FileLater(front, a, path, s.files[path], b, w);
    } else {
      EnabledWrite(s, a);
      var b :| JobSince(front, a.p, s.jobs[a.p], b);
      WriteSince(front, a.p, a.id, a.eventId, a.at, b);
    }
  }

  lemma EnabledWrite(s: Sys, a: Step)
    requires a.WriteOutput? && Enabled(s, a)
    ensures a.p in s.jobs && s.jobs[a.p].Resolving?
  {
  }

  /** From a write and its call's beginning to the moment one source was looked up. */
  lemma LookupOf(steps: seq<Step>, path: Path, f: File, b: nat, w: nat, x: string) returns (k: nat)
    requires f.OutputFile? && WrittenBetween(steps, path, f, b, w) && x in f.sources && IsUlid(x)
    ensures b < k < w < |steps| && ResolvedAt(steps, k, x)
    ensures steps[w].WriteOutput? && steps[w].id == path.id
    ensures steps[b] == StartOutput(steps[w].p, Item(f.title, f.sources, f.body))
  {
    hide Run, IsUlid, Resolves, CurrentIds;
    assert LookedUp(steps[..w], b, x);
    k :| b < k < |steps[..w]| && ResolvedAt(steps[..w], k, x);
    assert steps[..w][..k] == steps[..k];
  }

  /**
   * Every ULID an output cites was a note, or a fact current at that time, at some moment after the call that
   * wrote the output began with just these sources and before it wrote the output.
   */
  lemma CitedWhenLookedUp(steps: seq<Step>, path: Path, x: string)
    requires
      var files := Run(START, steps).files;
      path in files && files[path].OutputFile? && x in files[path].sources && IsUlid(x)
    ensures
      var f := Run(START, steps).files[path];
      exists b: nat, k: nat, w: nat ::
        && b < k < w < |steps|
        && steps[w].WriteOutput? && steps[w].id == path.id
        && steps[b] == StartOutput(steps[w].p, Item(f.title, f.sources, f.body))
        && ResolvedAt(steps, k, x)
  {
    hide *;
    HistoryKept(steps);
    var b, w := LastWrite(steps, path);
    var k := LookupOf(steps, path, Run(START, steps).files[path], b, w, x);
  }

  lemma LastWrite(steps: seq<Step>, path: Path) returns (b: nat, w: nat)
    requires HistoryOk(steps) && path in Run(START, steps).files && Run(START, steps).files[path].OutputFile?
    ensures WrittenBetween(steps, path, Run(START, steps).files[path], b, w)
  {
    hide Run, WrittenBetween;
    b, w :| WrittenBetween(steps, path, Run(START, steps).files[path], b, w);
  }
}
