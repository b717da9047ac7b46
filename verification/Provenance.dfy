/**
 * Where notes come from: capturing, promoting, accepting and composing over one vault and one memory log,
 * beside any number of fact recordings and rebuilds. Every call is cut into its reads and writes.
 */
module Provenance {
  import opened Wrappers
  import opened Text
  import opened Json
  import opened Ulid
  import opened NoteFormat
  import opened Projector
  import Order
  import Interleaving
  import Supersede

  // ---------------------------------------------------------------- the vault

  datatype Kind = Raw | Working | Distilled | Output

  /** Each kind has its folder; a file is named by its id and an optional slug. */
  datatype Path = Path(kind: Kind, id: string, slug: Option<string>)

  datatype File =
    | RawFile(note: RawNote)
    | WorkingFile(sourceRef: string, heading: Option<string>, body: string, created: string)
    | DistilledFile(sourceRef: string, links: seq<string>, title: string, body: string, created: string)
    | OutputFile(title: string, sources: seq<string>, body: string, created: string)

  type Vault = map<Path, File>

  predicate HasNote(files: Vault, id: string) {
    exists p :: p in files && p.id == id
  }

  // ---------------------------------------------------------------- writing a raw note

  datatype RawError = InvalidUlid | InvalidContent | InvalidSource | InvalidSlug | AlreadyExists | WriteFailed

  const RAW_SOURCE_KINDS := ["paste", "email", "wechat", "ocr", "voice", "clip", "import", "transcript"]

  predicate IsAlnum(c: char) {
    'A' <= c <= 'Z' || 'a' <= c <= 'z' || '0' <= c <= '9'
  }

  predicate IsSlug(s: string) {
    0 < |s| <= 200 && IsAlnum(s[0]) && forall i :: 0 <= i < |s| ==> IsAlnum(s[i]) || s[i] in "._-"
  }

  /** The first problem the writer finds, before it touches the disk. */
  function RawProblem(n: RawNote, slug: Option<string>): Option<RawError> {
    if !IsUlid(n.id) then Some(InvalidUlid)
    else if n.createdAt == "" then Some(InvalidContent)
    else if n.source !in RAW_SOURCE_KINDS then Some(InvalidSource)
    else if slug.Some? && !IsSlug(slug.value) then Some(InvalidSlug)
    else None
  }

  // ---------------------------------------------------------------- promoting

  function DropNewlines(s: string): (r: string)
    ensures |r| <= |s| && r == s[|s| - |r|..] && (r != "" ==> r[0] != '\n')
    ensures forall i :: 0 <= i < |s| - |r| ==> s[i] == '\n'
  {
    if s != "" && s[0] == '\n' then
      var r := DropNewlines(s[1..]);
      assert s[1..][|s| - 1 - |r|..] == s[|s| - |r|..];
      assert forall i :: 1 <= i < |s| ==> s[i] == s[1..][i - 1];
      r
    else s
  }

  /** The caller's title, or else the one the raw note was printed with. */
  function TitleFor(title: Option<string>, n: RawNote): Option<string> {
    if title.Some? then title else n.title
  }

  /** A title is printed only when it is not blank. */
  function ShownTitle(title: Option<string>): Option<string> {
    if title.Some? && !Blank(title.value, JsSpace) then title else None
  }

  /** The working note seeded from a raw file: the parsed body without its leading newlines. */
  function Seeded(id: string, text: string, title: Option<string>, created: string): File {
    var parsed := SplitTs(text);
    WorkingFile(id, ShownTitle(title), DropNewlines(if parsed.Some? then parsed.value.1 else text), created)
  }

  /** The body a working note starts with is the captured content, but for leading newlines. */
  lemma SeededBody(n: RawNote, title: Option<string>, created: string)
    requires IsUlid(n.id)
    ensures Seeded(n.id, Print(n), title, created) == WorkingFile(n.id, ShownTitle(title), DropNewlines(n.content), created)
  {
    hide Print, Block, SplitTs;
    BodiesVerbatim(n);
    assert ("\n" + n.content)[1..] == n.content;
  }

  // ---------------------------------------------------------------- composing an output

  datatype Item = Item(title: string, sources: seq<string>, body: string)

  predicate ValidItem(i: Item) {
    !Blank(i.title, JsSpace) && i.sources != [] && forall k :: 0 <= k < |i.sources| ==> !Blank(i.sources[k], JsSpace)
  }

  function Ulids(sources: seq<string>): seq<string> {
    if sources == [] then []
    else (if IsUlid(sources[0]) then [sources[0]] else []) + Ulids(sources[1..])
  }

  /** The ids `listCurrentFacts` returns for the whole table. */
  function CurrentIds(rows: map<string, Fact>): set<string> {
    var listed := Supersede.Execute(rows, Supersede.Select(Supersede.Clauses(Supersede.ListOptions(None, None, None)), None));
    set f | f in listed :: f.id
  }

  /** Some row is the fact, and no row supersedes it. */
  predicate CurrentFact(rows: map<string, Fact>, id: string) {
    (exists k :: k in rows && rows[k].id == id) && forall k :: k in rows ==> rows[k].supersedes != Some(id)
  }

  lemma CurrentIdsAre(rows: map<string, Fact>)
    ensures forall id :: id in CurrentIds(rows) <==> CurrentFact(rows, id)
  {
    hide Supersede.Clauses, Supersede.Selected;
    var sql := Supersede.Select(Supersede.Clauses(Supersede.ListOptions(None, None, None)), None);
    var listed, ids := Supersede.Execute(rows, sql), Order.SortIds(Supersede.Matching(rows, sql.where));
    forall k | k in rows ensures Supersede.Selected(rows, sql.where, k) <==> CurrentFact(rows, rows[k].id) { SelectedIsCurrent(rows, k); }
    forall id ensures id in CurrentIds(rows) <==> CurrentFact(rows, id) {
      if id in CurrentIds(rows) {
        var f :| f in listed && f.id == id;
        var i :| 0 <= i < |listed| && listed[i] == f;
        assert ids[i] in Supersede.Matching(rows, sql.where) && rows[ids[i]] == f;
      }
      if CurrentFact(rows, id) {
        var k :| k in rows && rows[k].id == id;
        assert k in ids;
        var i :| 0 <= i < |ids| && ids[i] == k;
        assert listed[i] == rows[k];
      }
    }
  }

  lemma SelectedIsCurrent(rows: map<string, Fact>, k: string)
    requires k in rows
    ensures Supersede.Selected(rows, Supersede.Clauses(Supersede.ListOptions(None, None, None)), k) <==> CurrentFact(rows, rows[k].id)
  {
    var where := Supersede.Clauses(Supersede.ListOptions(None, None, None));
    assert where == [Supersede.NotSuperseded];
    assert Supersede.Selected(rows, where, k) <==> Supersede.Meets(rows, rows[k], where[0]);
  }

  /** A source resolves to a note or to a current fact. */
  predicate Resolves(files: Vault, rows: map<string, Fact>, source: string) {
    HasNote(files, source) || CurrentFact(rows, source)
  }

  /** The event an output note is announced with. */
  function NoteCreated(eventId: string, id: string, title: string, sources: seq<string>, at: string): Event {
    Event(eventId, MemoryStream, "note_created", at, "cli", id, None,
          Some(map["note_id" := JString(id), "title" := JString(title),
                   "sources" := JArray(seq(|sources|, i requires 0 <= i < |sources| => JString(sources[i])))]))
  }

  /** The event an accepted distillation is announced with; its payload is left to the caller. */
  function DistillationAccepted(eventId: string, id: string, sourceRef: string, payload: Object, at: string): Event {
    Event(eventId, MemoryStream, "distillation_accepted", at, "human", id, Some(sourceRef), Some(payload))
  }

  // ---------------------------------------------------------------- many processes

  /**
   * A call under way: a promotion that has read its source; an output whose next ULID source is to be
   * looked up, with the fact ids once they are read; a note written whose event is still to be appended.
   */
  datatype Job =
    | Promoting(file: File)
    | Resolving(item: Item, next: nat, factIds: Option<set<string>>)
    | Announcing(event: Event)

  datatype Sys = Sys(files: Vault, facts: Interleaving.Sys, jobs: map<nat, Job>)

  const START := Sys(map[], Interleaving.START, map[])

  datatype Step =
    | FactStep(step: Interleaving.Step)
    | Capture(n: RawNote, slug: Option<string>)
    | ReadForPromote(p: nat, source: Path, title: Option<string>, created: string)
    | WriteWorking(p: nat, id: string)
    | StartOutput(p: nat, item: Item)
    | ResolveNext(p: nat)
    | WriteOutput(p: nat, id: string, eventId: string, at: string)
    | AcceptDistilled(p: nat, id: string, file: File, eventId: string, payload: Object)
    | Announce(p: nat)
    | Abandon(p: nat)

  /** What the CLI appends besides facts and merges. */
  predicate IsNoteEvent(e: Event) {
    e.stream == MemoryStream && (e.kind == "note_created" || e.kind == "distillation_accepted")
  }

  predicate Enabled(s: Sys, step: Step) {
    match step
    case FactStep(f) => Interleaving.Enabled(s.facts, f) && (f.AppendOther? ==> !IsNoteEvent(f.e))
    case Capture(n, slug) => n.content != "" && RawProblem(n, slug).None? && Path(Raw, n.id, slug) !in s.files
    case ReadForPromote(p, source, _, _) => p !in s.jobs && source in s.files && s.files[source].RawFile?
    case WriteWorking(p, id) =>
      p in s.jobs && s.jobs[p].Promoting? && IsUlid(id) && Path(Working, id, None) !in s.files
    case StartOutput(p, item) => p !in s.jobs && ValidItem(item)
    case ResolveNext(p) => p in s.jobs && s.jobs[p].Resolving? && s.jobs[p].next < |Ulids(s.jobs[p].item.sources)|
    case WriteOutput(p, id, _, _) =>
      && p in s.jobs && s.jobs[p].Resolving? && s.jobs[p].next == |Ulids(s.jobs[p].item.sources)|
      && IsUlid(id) && Path(Output, id, None) !in s.files
    case AcceptDistilled(p, id, file, _, _) =>
      && p !in s.jobs && file.DistilledFile? && IsUlid(file.sourceRef) && !Blank(file.title, JsSpace)
      && IsUlid(id) && Path(Distilled, id, None) !in s.files
    case Announce(p) => p in s.jobs && s.jobs[p].Announcing?
    case Abandon(p) => p in s.jobs
  }

  function Next(s: Sys, step: Step): Sys
    requires Enabled(s, step)
  {
    match step
    case FactStep(f) => s.(facts := Interleaving.Next(s.facts, f))
    case Capture(n, slug) => s.(files := s.files[Path(Raw, n.id, slug) := RawFile(n)])
    case ReadForPromote(p, source, title, created) =>
      s.(jobs := s.jobs[p := Promoting(Seeded(source.id, Print(s.files[source].note), TitleFor(title, s.files[source].note), created))])
    case WriteWorking(p, id) =>
      s.(files := s.files[Path(Working, id, None) := s.jobs[p].file], jobs := s.jobs - {p})
    case StartOutput(p, item) => s.(jobs := s.jobs[p := Resolving(item, 0, None)])
    case ResolveNext(p) => s.(jobs := ResolvedOnce(s, p))
    case WriteOutput(p, id, eventId, at) =>
      var item := s.jobs[p].item;
      s.(files := s.files[Path(Output, id, None) := OutputFile(item.title, item.sources, item.body, at)],
         jobs := s.jobs[p := Announcing(NoteCreated(eventId, id, item.title, item.sources, at))])
    case AcceptDistilled(p, id, file, eventId, payload) =>
      s.(files := s.files[Path(Distilled, id, None) := file],
         jobs := s.jobs[p := Announcing(DistillationAccepted(eventId, id, file.sourceRef, payload, file.created))])
    case Announce(p) => s.(facts := s.facts.(log := s.facts.log + [s.jobs[p].event]), jobs := s.jobs - {p})
    case Abandon(p) => s.(jobs := s.jobs - {p})
  }

  /** One round of the loop over the ULID sources; an unresolved source ends the call. */
  function ResolvedOnce(s: Sys, p: nat): map<nat, Job>
    requires Enabled(s, ResolveNext(p))
  {
    var job := s.jobs[p];
    var source := Ulids(job.item.sources)[job.next];
    if HasNote(s.files, source) then s.jobs[p := job.(next := job.next + 1)]
    else
      var ids := if job.factIds.Some? then job.factIds.value else CurrentIds(s.facts.rows);
      if source in ids then s.jobs[p := Resolving(job.item, job.next + 1, Some(ids))] else s.jobs - {p}
  }

  /** A step that cannot succeed changes nothing. */
  function Advance(s: Sys, step: Step): Sys {
    if Enabled(s, step) then Next(s, step) else s
  }

  function Run(s: Sys, steps: seq<Step>): Sys
    decreases |steps|
  {
    if steps == [] then s else Run(Advance(s, steps[0]), steps[1..])
  }

  // ---------------------------------------------------------------- the invariant

  /** The fact with this id has an event in the log. */
  ghost predicate Logged(log: seq<Event>, id: string) {
    Interleaving.Records(log, |log|, id)
  }

  /** A source of an output, cited for good: a note, or a fact in the log. */
  ghost predicate Cited(files: Vault, log: seq<Event>, source: string) {
    HasNote(files, source) || Logged(log, source)
  }

  /** A working note stems from a raw note in the vault, whose content is its body. */
  predicate Stems(files: Vault, f: File)
    requires f.WorkingFile?
  {
    exists p :: p in files && StemsFrom(files[p], p, f)
  }

  predicate StemsFrom(raw: File, p: Path, f: File)
    requires f.WorkingFile?
  {
    p.kind == Raw && p.id == f.sourceRef && raw.RawFile? && f.body == DropNewlines(raw.note.content)
  }

  ghost predicate FileOk(files: Vault, log: seq<Event>, p: Path, f: File) {
    match f
    case RawFile(n) => p.kind == Raw && n.id == p.id && IsUlid(p.id)
    case WorkingFile(_, _, _, _) => p.kind == Working && Stems(files, f)
    case DistilledFile(_, _, _, _, _) => p.kind == Distilled
    case OutputFile(_, sources, _, _) =>
      p.kind == Output && sources != [] && forall x :: x in sources && IsUlid(x) ==> Cited(files, log, x)
  }

  /** What a note event says holds of the vault: the note is there, with the sources or the origin announced. */
  predicate EventTrue(files: Vault, e: Event) {
    && (e.stream == MemoryStream && e.kind == "note_created" ==>
          var p := Path(Output, e.subjectId, None);
          p in files && files[p].OutputFile?
          && e == NoteCreated(e.eventId, e.subjectId, files[p].title, files[p].sources, e.occurredAt))
    && (e.stream == MemoryStream && e.kind == "distillation_accepted" ==>
          var p := Path(Distilled, e.subjectId, None);
          p in files && files[p].DistilledFile? && e.sourceRef == Some(files[p].sourceRef))
  }

  predicate LogTrue(files: Vault, log: seq<Event>) {
    forall i :: 0 <= i < |log| ==> EventTrue(files, log[i])
  }

  ghost predicate JobOk(files: Vault, log: seq<Event>, j: Job) {
    match j
    case Promoting(f) => f.WorkingFile? && Stems(files, f)
    case Resolving(item, next, ids) =>
      && item.sources != [] && next <= |Ulids(item.sources)|
      && (forall k :: 0 <= k < next ==> Cited(files, log, Ulids(item.sources)[k]))
      && (ids.Some? ==> forall id :: id in ids.value ==> Logged(log, id))
    case Announcing(e) => IsNoteEvent(e) && EventTrue(files, e)
  }

  ghost predicate FilesOk(s: Sys) {
    forall p :: p in s.files ==> FileOk(s.files, s.facts.log, p, s.files[p])
  }

  ghost predicate JobsOk(s: Sys) {
    forall p :: p in s.jobs ==> JobOk(s.files, s.facts.log, s.jobs[p])
  }

  ghost predicate Sound(s: Sys) {
    Interleaving.Good(s.facts) && FilesOk(s) && JobsOk(s) && LogTrue(s.files, s.facts.log)
  }

  // ---------------------------------------------------------------- growing keeps it

  /** Every file is still there and the same. */
  predicate Keeps(files: Vault, more: Vault) {
    forall p :: p in files ==> p in more && more[p] == files[p]
  }

  lemma LoggedLonger(log: seq<Event>, more: seq<Event>, id: string)
    requires log <= more && Logged(log, id)
    ensures Logged(more, id)
  {
    var i: nat :| i < |log| && Interleaving.FactAt(log, i) && log[i].subjectId == id;
    assert more[i] == log[i] && Interleaving.FactAt(more, i);
  }

  lemma CitedGrows(files: Vault, log: seq<Event>, files': Vault, log': seq<Event>, x: string)
    requires Keeps(files, files') && log <= log' && Cited(files, log, x)
    ensures Cited(files', log', x)
  {
    hide Logged;
    if Logged(log, x) { LoggedLonger(log, log', x); }
  }

  lemma StemsGrows(files: Vault, files': Vault, f: File)
    requires Keeps(files, files') && f.WorkingFile? && Stems(files, f)
    ensures Stems(files', f)
  {
    hide StemsFrom;
    var p :| p in files && StemsFrom(files[p], p, f);
    assert files'[p] == files[p];
  }

  lemma FileGrows(files: Vault, log: seq<Event>, files': Vault, log': seq<Event>, p: Path, f: File)
    requires Keeps(files, files') && log <= log' && FileOk(files, log, p, f)
    ensures FileOk(files', log', p, f)
  {
    hide Cited, Stems, IsUlid, Keeps;
    if f.WorkingFile? { StemsGrows(files, files', f); }
    if f.OutputFile? {
      forall x | x in f.sources && IsUlid(x) ensures Cited(files', log', x) { CitedGrows(files, log, files', log', x); }
    }
  }

  lemma EventGrows(files: Vault, files': Vault, e: Event)
    requires Keeps(files, files') && EventTrue(files, e)
    ensures EventTrue(files', e)
  {
  }

  lemma JobGrows(files: Vault, log: seq<Event>, files': Vault, log': seq<Event>, j: Job)
    requires Keeps(files, files') && log <= log' && JobOk(files, log, j)
    ensures JobOk(files', log', j)
  {
    hide Cited, Stems, Logged, Keeps, Ulids, EventTrue;
    if j.Promoting? { StemsGrows(files, files', j.file); }
    if j.Announcing? { EventGrows(files, files', j.event); }
    if j.Resolving? {
      forall k | 0 <= k < j.next ensures Cited(files', log', Ulids(j.item.sources)[k]) {
        CitedGrows(files, log, files', log', Ulids(j.item.sources)[k]);
      }
      if j.factIds.Some? {
        forall id | id in j.factIds.value ensures Logged(log', id) { LoggedLonger(log, log', id); }
      }
    }
  }

  /** What one step may do: files stay, at most one comes, the log grows, at most one job changes. */
  lemma Grows(s: Sys, t: Sys, newFile: Option<Path>, changed: Option<nat>)
    requires Sound(s) && Interleaving.Good(t.facts)
    requires Keeps(s.files, t.files) && s.facts.log <= t.facts.log
    requires forall p :: p in t.files && p !in s.files ==> newFile == Some(p)
    requires newFile.Some? ==> newFile.value in t.files && FileOk(t.files, t.facts.log, newFile.value, t.files[newFile.value])
    requires forall j :: j in t.jobs && changed != Some(j) ==> j in s.jobs && t.jobs[j] == s.jobs[j]
    requires changed.Some? && changed.value in t.jobs ==> JobOk(t.files, t.facts.log, t.jobs[changed.value])
    requires forall i :: |s.facts.log| <= i < |t.facts.log| ==> EventTrue(t.files, t.facts.log[i])
    ensures Sound(t)
  {
    hide FileOk, JobOk, Interleaving.Good, EventTrue;
    forall i | 0 <= i < |t.facts.log| ensures EventTrue(t.files, t.facts.log[i]) {
      if i < |s.facts.log| {
        assert t.facts.log[i] == s.facts.log[i];
        EventGrows(s.files, t.files, s.facts.log[i]);
      }
    }
    forall p | p in t.files ensures FileOk(t.files, t.facts.log, p, t.files[p]) {
      if p in s.files { FileGrows(s.files, s.facts.log, t.files, t.facts.log, p, s.files[p]); }
    }
    forall j | j in t.jobs ensures JobOk(t.files, t.facts.log, t.jobs[j]) {
      if changed != Some(j) { JobGrows(s.files, s.facts.log, t.files, t.facts.log, s.jobs[j]); }
    }
  }

  // ---------------------------------------------------------------- each step keeps it

  /** A current fact has its event in the log. */
  lemma CurrentLogged(s: Interleaving.Sys, id: string)
    requires Interleaving.Good(s) && id in CurrentIds(s.rows)
    ensures Logged(s.log, id)
  {
    hide Interleaving.Records, Interleaving.LogOk, Interleaving.RecordsOk, Interleaving.TxnOk;
    var sql := Supersede.Select(Supersede.Clauses(Supersede.ListOptions(None, None, None)), None);
    var listed := Supersede.Execute(s.rows, sql);
    var f :| f in listed && f.id == id;
    var chosen := Supersede.Matching(s.rows, sql.where);
    var i :| 0 <= i < |listed| && listed[i] == f;
    var key := Order.SortIds(chosen)[i];
    assert key in chosen && s.rows[key] == f;
    RowLogged(s, key);
  }

  lemma RowLogged(s: Interleaving.Sys, key: string)
    requires Interleaving.RowsOk(s) && key in s.rows
    ensures Logged(s.log, key) && s.rows[key].id == key
  {
    Interleaving.RowIsRecorded(s, key);
    var i: nat :| Interleaving.FactAt(s.log, i) && i in Interleaving.Covered(s) && s.log[i].subjectId == key;
    assert Interleaving.HoldsAt(s.rows, s.log, i);
  }

  lemma {:induction false} UlidsAll(sources: seq<string>, x: string)
    requires x in sources && IsUlid(x)
    ensures x in Ulids(sources)
  {
    hide IsUlid;
    if x != sources[0] { UlidsAll(sources[1..], x); }
  }

  lemma FactStepKeeps(s: Sys, f: Interleaving.Step)
    requires Sound(s) && Enabled(s, FactStep(f))
    ensures Sound(Next(s, FactStep(f)))
  {
    hide Interleaving.Good, FileOk, JobOk, EventTrue, Interleaving.Next, Interleaving.Enabled;
    var t := Next(s, FactStep(f));
    Interleaving.NextKeeps(s.facts, f);
    LogKept(s.facts, f);
    forall i | |s.facts.log| <= i < |t.facts.log| ensures EventTrue(t.files, t.facts.log[i]) {
      NoNoteEvent(s.facts, f, i);
      OtherEventTrue(t.files, t.facts.log[i]);
    }
    Grows(s, t, None, None);
  }

  /** Recording and rebuilding append no note events. */
  lemma NoNoteEvent(s: Interleaving.Sys, f: Interleaving.Step, i: nat)
    requires Interleaving.Good(s) && Interleaving.Enabled(s, f) && (f.AppendOther? ==> !IsNoteEvent(f.e))
    requires |s.log| <= i < |Interleaving.Next(s, f).log|
    ensures !IsNoteEvent(Interleaving.Next(s, f).log[i])
  {
    hide Interleaving.LogOk, Interleaving.RowsOk, Interleaving.TxnOk, Interleaving.ReplayOrder;
    if f.AppendEvent? {
      assert Interleaving.PhaseOk(s, s.records[f.p]);
    }
  }

  lemma OtherEventTrue(files: Vault, e: Event)
    requires !IsNoteEvent(e)
    ensures EventTrue(files, e)
  {
  }

  lemma LogKept(s: Interleaving.Sys, f: Interleaving.Step)
    requires Interleaving.Enabled(s, f)
    ensures s.log <= Interleaving.Next(s, f).log
  {
    Interleaving.LogGrows(s, [f]);
    assert [f][1..] == [];
  }

  lemma CaptureKeeps(s: Sys, n: RawNote, slug: Option<string>)
    requires Sound(s) && Enabled(s, Capture(n, slug))
    ensures Sound(Next(s, Capture(n, slug)))
  {
    hide Interleaving.Good, JobOk, IsUlid;
    Grows(s, Next(s, Capture(n, slug)), Some(Path(Raw, n.id, slug)), None);
  }

  lemma ReadKeeps(s: Sys, p: nat, source: Path, title: Option<string>, created: string)
    requires Sound(s) && Enabled(s, ReadForPromote(p, source, title, created))
    ensures Sound(Next(s, ReadForPromote(p, source, title, created)))
  {
    hide Interleaving.Good, IsUlid, Print, Seeded, Blank, DropNewlines, TitleFor;
    var n := s.files[source].note;
    assert FileOk(s.files, s.facts.log, source, s.files[source]);
    SeededBody(n, TitleFor(title, n), created);
    var f := Seeded(source.id, Print(n), TitleFor(title, n), created);
    assert StemsFrom(s.files[source], source, f);
    assert JobOk(s.files, s.facts.log, Promoting(f));
    Grows(s, Next(s, ReadForPromote(p, source, title, created)), None, Some(p));
  }

  lemma WorkingKeeps(s: Sys, p: nat, id: string)
    requires Sound(s) && Enabled(s, WriteWorking(p, id))
    ensures Sound(Next(s, WriteWorking(p, id)))
  {
    hide Interleaving.Good, IsUlid, StemsFrom;
    var t := Next(s, WriteWorking(p, id));
    assert JobOk(s.files, s.facts.log, s.jobs[p]);
    StemsGrows(s.files, t.files, s.jobs[p].file);
    Grows(s, t, Some(Path(Working, id, None)), Some(p));
  }

  lemma StartOutputKeeps(s: Sys, p: nat, item: Item)
    requires Sound(s) && Enabled(s, StartOutput(p, item))
    ensures Sound(Next(s, StartOutput(p, item)))
  {
    hide Interleaving.Good, FileOk, Cited, Ulids, Blank;
    Grows(s, Next(s, StartOutput(p, item)), None, Some(p));
  }

  lemma ResolveKeeps(s: Sys, p: nat)
    requires Sound(s) && Enabled(s, ResolveNext(p))
    ensures Sound(Next(s, ResolveNext(p)))
  {
    hide Interleaving.Good, FileOk, JobOk, HasNote, Ulids, CurrentIds, EventTrue, ResolvedOnce;
    assert JobOk(s.files, s.facts.log, s.jobs[p]);
    forall id | id in CurrentIds(s.facts.rows) ensures Logged(s.facts.log, id) { CurrentLogged(s.facts, id); }
    RoundOk(s, p);
    Grows(s, Next(s, ResolveNext(p)), None, Some(p));
  }

  /** One round of the loop leaves the call with one more source that is cited, or ends it. */
  lemma RoundOk(s: Sys, p: nat)
    requires Enabled(s, ResolveNext(p)) && JobOk(s.files, s.facts.log, s.jobs[p])
    requires forall id :: id in CurrentIds(s.facts.rows) ==> Logged(s.facts.log, id)
    ensures p in ResolvedOnce(s, p) ==> JobOk(s.files, s.facts.log, ResolvedOnce(s, p)[p])
    ensures forall j :: j in ResolvedOnce(s, p) && j != p ==> j in s.jobs && ResolvedOnce(s, p)[j] == s.jobs[j]
  {
    hide Logged, HasNote, Ulids, CurrentIds;
  }

  lemma OutputKeeps(s: Sys, p: nat, id: string, eventId: string, at: string)
    requires Sound(s) && Enabled(s, WriteOutput(p, id, eventId, at))
    ensures Sound(Next(s, WriteOutput(p, id, eventId, at)))
  {
    hide Interleaving.Good, IsUlid, Cited, Ulids, Keeps;
    assert forall q :: q in s.files ==> q != Path(Output, id, None);
    var t, item, path := Next(s, WriteOutput(p, id, eventId, at)), s.jobs[p].item, Path(Output, id, None);
    assert JobOk(s.files, s.facts.log, s.jobs[p]);
    assert Keeps(s.files, t.files) by { FileAdded(s.files, path, t.files[path]); }
    AllCited(s.files, t.files, s.facts.log, item);
    Grows(s, t, Some(path), Some(p));
  }

  lemma FileAdded(files: Vault, path: Path, f: File)
    requires path !in files
    ensures Keeps(files, files[path := f])
  {
  }

  /** When the lookups are done, all ULID sources are cited, and stay so. */
  lemma AllCited(files: Vault, more: Vault, log: seq<Event>, item: Item)
    requires Keeps(files, more) && forall k :: 0 <= k < |Ulids(item.sources)| ==> Cited(files, log, Ulids(item.sources)[k])
    ensures forall x :: x in item.sources && IsUlid(x) ==> Cited(more, log, x)
  {
    hide Cited, IsUlid, Ulids, Keeps;
    forall x | x in item.sources && IsUlid(x) ensures Cited(more, log, x) {
      UlidsAll(item.sources, x);
      var k :| 0 <= k < |Ulids(item.sources)| && Ulids(item.sources)[k] == x;
      CitedGrows(files, log, more, log, x);
    }
  }

  lemma DistilledKeeps(s: Sys, p: nat, id: string, file: File, eventId: string, payload: Object)
    requires Sound(s) && Enabled(s, AcceptDistilled(p, id, file, eventId, payload))
    ensures Sound(Next(s, AcceptDistilled(p, id, file, eventId, payload)))
  {
    hide Interleaving.Good, IsUlid, Blank;
    Grows(s, Next(s, AcceptDistilled(p, id, file, eventId, payload)), Some(Path(Distilled, id, None)), Some(p));
  }

  lemma AnnounceKeeps(s: Sys, p: nat)
    requires Sound(s) && Enabled(s, Announce(p))
    ensures Sound(Next(s, Announce(p)))
  {
    hide Interleaving.Good, FileOk, EventTrue;
    var e := s.jobs[p].event;
    assert JobOk(s.files, s.facts.log, s.jobs[p]);
    NoteEventKeeps(s.facts, e);
    Grows(s, Next(s, Announce(p)), None, Some(p));
  }

  lemma NoteEventKeeps(s: Interleaving.Sys, e: Event)
    requires Interleaving.Good(s) && IsNoteEvent(e)
    ensures Interleaving.Good(s.(log := s.log + [e]))
  {
    hide Interleaving.Good;
    assert Applies(e);
    Interleaving.NextKeeps(s, Interleaving.AppendOther(e));
  }

  lemma AbandonKeeps(s: Sys, p: nat)
    requires Sound(s) && Enabled(s, Abandon(p))
    ensures Sound(Next(s, Abandon(p)))
  {
    hide Interleaving.Good, FileOk, JobOk;
    Grows(s, Next(s, Abandon(p)), None, Some(p));
  }

  lemma NextKeeps(s: Sys, step: Step)
    requires Sound(s) && Enabled(s, step)
    ensures Sound(Next(s, step))
  {
    hide Sound;
    match step
    case FactStep(f) => FactStepKeeps(s, f);
    case Capture(n, slug) => CaptureKeeps(s, n, slug);
    case ReadForPromote(p, source, title, created) => ReadKeeps(s, p, source, title, created);
    case WriteWorking(p, id) => WorkingKeeps(s, p, id);
    case StartOutput(p, item) => StartOutputKeeps(s, p, item);
    case ResolveNext(p) => ResolveKeeps(s, p);
    case WriteOutput(p, id, eventId, at) => OutputKeeps(s, p, id, eventId, at);
    case AcceptDistilled(p, id, file, eventId, payload) => DistilledKeeps(s, p, id, file, eventId, payload);
    case Announce(p) => AnnounceKeeps(s, p);
    case Abandon(p) => AbandonKeeps(s, p);
  }

  lemma {:induction false} RunKeeps(s: Sys, steps: seq<Step>)
    requires Sound(s)
    ensures Sound(Run(s, steps))
    decreases |steps|
  {
    hide Sound, Next, Enabled;
    if steps != [] {
      if Enabled(s, steps[0]) { NextKeeps(s, steps[0]); }
      RunKeeps(Advance(s, steps[0]), steps[1..]);
    }
  }

  // ---------------------------------------------------------------- the theorems

  /**
   * In every reachable state each working note cites a raw note of the vault whose content, without leading
   * newlines, is its body; each output has sources, and each of them that is a ULID is a note of the vault
   * or a fact in the log.
   */
  lemma ProvenanceClosed(steps: seq<Step>)
    ensures
      var s := Run(START, steps);
      && (forall p :: p in s.files && s.files[p].WorkingFile? ==>
            exists q :: q in s.files && q.kind == Raw && q.id == s.files[p].sourceRef && s.files[q].RawFile?
                        && s.files[p].body == DropNewlines(s.files[q].note.content))
      && (forall p :: p in s.files && s.files[p].OutputFile? ==>
            s.files[p].sources != []
            && forall x :: x in s.files[p].sources && IsUlid(x) ==>
                 HasNote(s.files, x) || Interleaving.Records(s.facts.log, |s.facts.log|, x))
  {
    hide Interleaving.Good, IsUlid, HasNote, Interleaving.Records, DropNewlines;
    Interleaving.StartGood();
    RunKeeps(START, steps);
    var s := Run(START, steps);
    forall p | p in s.files && s.files[p].WorkingFile?
      ensures exists q :: q in s.files && q.kind == Raw && q.id == s.files[p].sourceRef && s.files[q].RawFile?
                          && s.files[p].body == DropNewlines(s.files[q].note.content)
    {
      assert FileOk(s.files, s.facts.log, p, s.files[p]);
      var q :| q in s.files && StemsFrom(s.files[q], q, s.files[p]);
    }
    forall p | p in s.files && s.files[p].OutputFile? ensures FileOk(s.files, s.facts.log, p, s.files[p]) {}
  }

  /** The event announces this output: its id, title and sources, as the human-confirmed command writes them. */
  predicate Announces(e: Event, id: string, f: File)
    requires f.OutputFile?
  {
    && e.subjectId == id && e.actor == "cli" && e.sourceRef.None? && e.payload.Some?
    && var p := e.payload.value;
    && p.Keys == {"note_id", "title", "sources"} && p["note_id"] == JString(id) && p["title"] == JString(f.title)
    && p["sources"].JArray? && |p["sources"].items| == |f.sources|
    && forall i :: 0 <= i < |f.sources| ==> p["sources"].items[i] == JString(f.sources[i])
  }

  /**
   * In every reachable state the log tells the truth about the vault: each announced output is there with
   * the title and the sources announced, each accepted distillation with its origin.
   */
  lemma AnnouncedNotesExist(steps: seq<Step>, i: nat)
    requires i < |Run(START, steps).facts.log|
    ensures
      var s := Run(START, steps);
      var e := s.facts.log[i];
      && (e.stream == MemoryStream && e.kind == "note_created" ==>
            var p := Path(Output, e.subjectId, None);
            p in s.files && s.files[p].OutputFile? && Announces(e, e.subjectId, s.files[p]))
      && (e.stream == MemoryStream && e.kind == "distillation_accepted" ==>
            var p := Path(Distilled, e.subjectId, None);
            p in s.files && s.files[p].DistilledFile? && e.sourceRef == Some(s.files[p].sourceRef))
  {
    hide Interleaving.Good, FilesOk, JobsOk, Announces, NoteCreated, Run;
    Interleaving.StartGood();
    assert Sound(START) by { StartSound(); }
    RunKeeps(START, steps);
    var s := Run(START, steps);
    var e := s.facts.log[i];
    assert EventTrue(s.files, e);
    var p := Path(Output, e.subjectId, None);
    if p in s.files && s.files[p].OutputFile? { CreatedAnnounces(e.eventId, e.subjectId, s.files[p], e.occurredAt); }
  }

  lemma CreatedAnnounces(eventId: string, id: string, f: File, at: string)
    requires f.OutputFile?
    ensures Announces(NoteCreated(eventId, id, f.title, f.sources, at), id, f)
  {
  }

  lemma StartSound()
    requires Interleaving.Good(START.facts)
    ensures Sound(START)
  {
  }

  /** From any state on: no file changes or disappears, and the memory log only gets longer at its end. */
  lemma {:induction false} NothingLost(s: Sys, steps: seq<Step>)
    ensures Keeps(s.files, Run(s, steps).files) && s.facts.log <= Run(s, steps).facts.log
    decreases |steps|
  {
    if steps != [] {
      hide Advance;
      StepLosesNothing(s, steps[0]);
      NothingLost(Advance(s, steps[0]), steps[1..]);
    }
  }

  lemma StepLosesNothing(s: Sys, step: Step)
    ensures Keeps(s.files, Advance(s, step).files) && s.facts.log <= Advance(s, step).facts.log
  {
    hide Interleaving.Enabled, Interleaving.Next, RawProblem, IsUlid, Print, Seeded;
    if Enabled(s, step) && step.FactStep? { LogKept(s.facts, step.step); }
  }

  /**
   * Accepting a distillation writes the note, has its event still to be appended and does not look its source
   * up. Right afterwards the origin resolves if and only if
   * it did before or is the new note itself; what does not resolve then is dangling.
   */
  lemma DistilledCitedIff(s: Sys, p: nat, id: string, file: File, eventId: string, payload: Object)
    requires Enabled(s, AcceptDistilled(p, id, file, eventId, payload))
    ensures
      var t := Next(s, AcceptDistilled(p, id, file, eventId, payload));
      && t.files[Path(Distilled, id, None)] == file
      && p in t.jobs && t.jobs[p].Announcing?
      && (var e := t.jobs[p].event;
          e.eventId == eventId && e.kind == "distillation_accepted" && e.actor == "human" && e.subjectId == id
          && e.sourceRef == Some(file.sourceRef) && e.payload == Some(payload) && e.occurredAt == file.created)
      && (Cited(t.files, t.facts.log, file.sourceRef) <==>
            Cited(s.files, s.facts.log, file.sourceRef) || file.sourceRef == id)
  {
    hide IsUlid, Blank, Logged;
    var t, path := Next(s, AcceptDistilled(p, id, file, eventId, payload)), Path(Distilled, id, None);
    assert path in t.files && path.id == id;
    forall q | q in s.files ensures q in t.files {}
  }

  /** What resolves once resolves for good. */
  lemma CitedForGood(s: Sys, steps: seq<Step>, x: string)
    requires Cited(s.files, s.facts.log, x)
    ensures Cited(Run(s, steps).files, Run(s, steps).facts.log, x)
  {
    hide Cited, Run;
    NothingLost(s, steps);
    CitedGrows(s.files, s.facts.log, Run(s, steps).files, Run(s, steps).facts.log, x);
  }

  /** From the empty workspace the origin of an accepted distillation dangles, unless it is the note itself. */
  lemma DistilledMayDangle(p: nat, id: string, file: File, eventId: string, payload: Object)
    requires Enabled(START, AcceptDistilled(p, id, file, eventId, payload)) && file.sourceRef != id
    ensures
      var s := Run(START, [AcceptDistilled(p, id, file, eventId, payload)]);
      && Path(Distilled, id, None) in s.files && s.files[Path(Distilled, id, None)] == file
      && !Cited(s.files, s.facts.log, file.sourceRef)
  {
    var steps := [AcceptDistilled(p, id, file, eventId, payload)];
    assert steps[1..] == [];
    DistilledCitedIff(START, p, id, file, eventId, payload);
  }
}
