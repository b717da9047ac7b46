/** The commands that write notes, run alone: each is proved to be the run of its steps in `Provenance`. */
module NoteCommands {
  import opened Wrappers
  import opened Text
  import opened Ulid
  import opened NoteFormat
  import opened Projector
  import opened Provenance
  import Interleaving

  // ---------------------------------------------------------------- looking notes and sources up

  /** The first listed file whose name starts with the id. */
  function Found(listing: seq<Path>, id: string): Option<Path> {
    if listing == [] then None else if listing[0].id == id then Some(listing[0]) else Found(listing[1..], id)
  }

  /** The files in the order the directories list them. */
  predicate IsListing(files: Vault, listing: seq<Path>) {
    (forall p :: p in files ==> p in listing) && forall i :: 0 <= i < |listing| ==> listing[i] in files
  }

  method FindNote(listing: seq<Path>, id: string) returns (found: Option<Path>)
    ensures found == Found(listing, id)
  {
    for i := 0 to |listing|
      invariant Found(listing, id) == Found(listing[i..], id)
    {
      if listing[i].id == id { return Some(listing[i]); }
      assert listing[i..][1..] == listing[i + 1..];
    }
    return None;
  }

  predicate ListedFirst(listing: seq<Path>, id: string, i: nat) {
    i < |listing| && listing[i].id == id && forall j :: 0 <= j < i ==> listing[j].id != id
  }

  /** A note is found if and only if the vault has one with that id. */
  lemma {:induction false} FoundIff(files: Vault, listing: seq<Path>, id: string)
    requires IsListing(files, listing)
    ensures Found(listing, id).Some? <==> HasNote(files, id)
    ensures Found(listing, id).Some? ==> Found(listing, id).value in files && Found(listing, id).value.id == id
    ensures Found(listing, id).Some? ==> exists i: nat :: ListedFirst(listing, id, i) && listing[i] == Found(listing, id).value
    ensures forall i: nat :: ListedFirst(listing, id, i) ==> i < |listing| && Found(listing, id) == Some(listing[i])
  {
    FoundFirst(listing, id);
    if HasNote(files, id) {
      var p :| p in files && p.id == id;
      var i :| 0 <= i < |listing| && listing[i] == p;
    }
  }

  lemma {:induction false} FoundFirst(listing: seq<Path>, id: string)
    ensures Found(listing, id).Some? ==> exists i: nat :: ListedFirst(listing, id, i) && listing[i] == Found(listing, id).value
    ensures forall i :: 0 <= i < |listing| && listing[i].id == id ==> Found(listing, id).Some?
  {
    if listing != [] {
      FoundFirst(listing[1..], id);
      assert forall i :: 1 <= i < |listing| ==> listing[i] == listing[1..][i - 1];
      if listing[0].id == id {
        assert ListedFirst(listing, id, 0);
      } else if Found(listing, id).Some? {
        var i: nat :| ListedFirst(listing[1..], id, i) && listing[1..][i] == Found(listing, id).value;
        assert ListedFirst(listing, id, i + 1);
      }
    }
  }

  predicate FirstUnresolved(files: Vault, rows: map<string, Fact>, sources: seq<string>, k: nat)
    requires k < |sources|
  {
    && IsUlid(sources[k]) && !Resolves(files, rows, sources[k])
    && forall j :: 0 <= j < k && IsUlid(sources[j]) ==> Resolves(files, rows, sources[j])
  }

  /** The check before an output is written: the first ULID source that does not resolve, if any. */
  method AssertSourcesResolve(files: Vault, rows: map<string, Fact>, sources: seq<string>) returns (unresolved: Option<string>)
    ensures unresolved.None? <==> forall s :: s in sources && IsUlid(s) ==> Resolves(files, rows, s)
    ensures unresolved.Some? ==> exists k :: 0 <= k < |sources| && sources[k] == unresolved.value
                                              && FirstUnresolved(files, rows, sources, k)
  {
    hide CurrentIds, CurrentFact, IsUlid;
    CurrentIdsAre(rows);
    var factIds: Option<set<string>> := None;
    for k := 0 to |sources|
      invariant factIds.Some? ==> factIds.value == CurrentIds(rows)
      invariant forall j :: 0 <= j < k && IsUlid(sources[j]) ==> Resolves(files, rows, sources[j])
    {
      if !IsUlid(sources[k]) { continue; }
      if HasNote(files, sources[k]) { continue; }
      if factIds.None? {
        factIds := Some(CurrentIds(rows));
      }
      if sources[k] !in factIds.value {
        return Some(sources[k]);
      }
    }
    return None;
  }

  // ---------------------------------------------------------------- the commands

  /** A workspace in which nothing is under way. */
  function Alone(files: Vault, log: seq<Event>, rows: map<string, Fact>): Sys {
    Sys(files, Interleaving.START.(log := log, rows := rows), map[])
  }

  datatype PromoteError = InvalidId | NoteNotFound | NotRaw | NotWritten

  datatype OutputError = InvalidProposal | SourceNotFound | NoteNotWritten | EventAppendFailed

  class NoteVault {
    var files: Vault
    var log: seq<Event>

    /** Raw notes lie in their folder under their own ids. */
    ghost predicate Valid()
      reads this
    {
      forall p :: p in files && files[p].RawFile? ==> p.kind == Raw && files[p].note.id == p.id && IsUlid(p.id)
    }

    constructor ()
      ensures Valid() && files == map[] && log == []
    {
      files, log := map[], [];
    }

    /** Exclusive create: on any error the vault is as it was; otherwise it has exactly one file more. */
    method WriteRawNote(n: RawNote, slug: Option<string>, diskOk: bool) returns (r: Result<Path, RawError>)
      requires Valid()
      modifies this`files
      ensures Valid()
      ensures r == Err(InvalidUlid) <==> !IsUlid(n.id)
      ensures r == Err(InvalidContent) <==> IsUlid(n.id) && n.createdAt == ""
      ensures r == Err(InvalidSource) <==> IsUlid(n.id) && n.createdAt != "" && n.source !in RAW_SOURCE_KINDS
      ensures r == Err(InvalidSlug) <==>
                IsUlid(n.id) && n.createdAt != "" && n.source in RAW_SOURCE_KINDS && slug.Some? && !IsSlug(slug.value)
      ensures r == Err(AlreadyExists) <==> RawProblem(n, slug).None? && Path(Raw, n.id, slug) in old(files)
      ensures r == Err(WriteFailed) <==> RawProblem(n, slug).None? && Path(Raw, n.id, slug) !in old(files) && !diskOk
      ensures r.Ok? ==> r.value == Path(Raw, n.id, slug)
      ensures r.Err? ==> files == old(files)
      ensures r.Ok? ==> r.value !in old(files) && files == old(files)[r.value := RawFile(n)]
      ensures r.Ok? && n.content != "" ==> forall rows :: files == Run(Alone(old(files), log, rows), [Capture(n, slug)]).files
    {
      hide Run, IsUlid;
      if !IsUlid(n.id) { return Err(InvalidUlid); }
      if n.createdAt == "" { return Err(InvalidContent); }
      if n.source !in RAW_SOURCE_KINDS { return Err(InvalidSource); }
      if slug.Some? && !IsSlug(slug.value) { return Err(InvalidSlug); }
      var path := Path(Raw, n.id, slug);
      if path in files { return Err(AlreadyExists); }
      if !diskOk { return Err(WriteFailed); }
      if n.content != "" {
        forall rows ensures Run(Alone(files, log, rows), [Capture(n, slug)]).files == files[path := RawFile(n)] {
          CaptureAlone(files, log, rows, n, slug);
        }
      }
      files := files[path := RawFile(n)];
      return Ok(path);
    }

    /** Promoting a note by its id: nothing but a raw note is promoted, and it is only read. */
    method PromoteNote(listing: seq<Path>, source: string, title: Option<string>, id: string, created: string, diskOk: bool)
      returns (r: Result<Path, PromoteError>)
      requires Valid() && IsListing(files, listing) && IsUlid(id)
      modifies this`files
      ensures Valid()
      ensures r == Err(InvalidId) <==> !IsUlid(source)
      ensures r == Err(NoteNotFound) <==> IsUlid(source) && !HasNote(old(files), source)
      ensures r == Err(NotRaw) <==>
                IsUlid(source) && exists i: nat :: ListedFirst(listing, source, i) && !old(files)[listing[i]].RawFile?
      ensures r == Err(NotWritten) ==> Path(Working, id, None) in old(files) || !diskOk
      ensures r.Err? ==> files == old(files)
      ensures r.Ok? ==>
                && r.value == Path(Working, id, None) && r.value !in old(files)
                && exists p ::
                     && p in old(files) && p.id == source && old(files)[p].RawFile?
                     && var n := old(files)[p].note;
                     && var heading := if title.Some? then title else n.title;
                     && files == old(files)[r.value := WorkingFile(
                          source, if heading.Some? && !Blank(heading.value, JsSpace) then heading else None,
                          DropNewlines(n.content), created)]
                     && forall rows ::
                          files == Run(Alone(old(files), log, rows), [ReadForPromote(0, p, title, created), WriteWorking(0, id)]).files
    {
      hide Run, IsUlid, HasNote, Print, Seeded, DropNewlines, Blank, ListedFirst, ShownTitle, TitleFor;
      if !IsUlid(source) { return Err(InvalidId); }
      var found := FindNote(listing, source);
      FoundIff(files, listing, source);
      if found.None? { return Err(NoteNotFound); }
      var file := files[found.value];
      if !file.RawFile? { return Err(NotRaw); }
      var path := Path(Working, id, None);
      if path in files || !diskOk { return Err(NotWritten); }
      SeededBody(file.note, TitleFor(title, file.note), created);
      HeadingShown(title, file.note);
      forall rows
        ensures Run(Alone(files, log, rows), [ReadForPromote(0, found.value, title, created), WriteWorking(0, id)]).files
                == files[path := Seeded(source, Print(file.note), TitleFor(title, file.note), created)]
      {
        PromoteAlone(files, log, rows, found.value, title, id, created);
      }
      files := files[path := Seeded(source, Print(file.note), TitleFor(title, file.note), created)];
      return Ok(path);
    }

    /** Composing an output: nothing is written unless every ULID source resolves; a lost event keeps the note. */
    method CreateOutput(item: Item, rows: map<string, Fact>, id: string, eventId: string, at: string, diskOk: bool, appendOk: bool)
      returns (r: Result<Path, OutputError>)
      requires Valid() && IsUlid(id)
      modifies this
      ensures Valid()
      ensures r == Err(InvalidProposal) <==>
                Blank(item.title, JsSpace) || item.sources == [] || exists x :: x in item.sources && Blank(x, JsSpace)
      ensures r == Err(SourceNotFound) <==>
                ValidItem(item) && exists s :: s in item.sources && IsUlid(s) && !Resolves(old(files), rows, s)
      ensures r == Err(NoteNotWritten) ==> Path(Output, id, None) in old(files) || !diskOk
      ensures r == Err(EventAppendFailed) ==> !appendOk
      ensures r in {Err(InvalidProposal), Err(SourceNotFound), Err(NoteNotWritten)} ==> files == old(files)
      ensures r.Ok? || r == Err(EventAppendFailed) ==>
                && Path(Output, id, None) !in old(files) && diskOk && (r.Ok? ==> appendOk)
                && files == old(files)[Path(Output, id, None) := OutputFile(item.title, item.sources, item.body, at)]
      ensures log == if r.Ok? then old(log) + [NoteCreated(eventId, id, item.title, item.sources, at)] else old(log)
      ensures r.Ok? || r == Err(SourceNotFound) ==> Path(Output, id, None) !in old(files) ==>
                var s := Run(Alone(old(files), old(log), rows), OutputSteps(item, id, eventId, at));
                files == s.files && log == s.facts.log
    {
      hide CurrentIds, ValidItem, IsUlid, Run, HasNote, OutputSteps, Blank;
      ValidMeans(item);
      if !ValidItem(item) { return Err(InvalidProposal); }
      var unresolved := AssertSourcesResolve(files, rows, item.sources);
      var path := Path(Output, id, None);
      if path !in files { OutputAlone(files, log, rows, item, id, eventId, at); }
      if unresolved.Some? { return Err(SourceNotFound); }
      if path in files || !diskOk { return Err(NoteNotWritten); }
      files := files[path := OutputFile(item.title, item.sources, item.body, at)];
      if !appendOk { return Err(EventAppendFailed); }
      log := log + [NoteCreated(eventId, id, item.title, item.sources, at)];
      return Ok(path);
    }
  }

  /** The heading of a working note: the caller's title or else the raw note's, when it is not blank. */
  lemma HeadingShown(title: Option<string>, n: RawNote)
    ensures
      var heading := if title.Some? then title else n.title;
      ShownTitle(TitleFor(title, n)) == if heading.Some? && !Blank(heading.value, JsSpace) then heading else None
  {
    hide Blank;
  }

  lemma ValidMeans(i: Item)
    ensures !ValidItem(i) <==> Blank(i.title, JsSpace) || i.sources == [] || exists x :: x in i.sources && Blank(x, JsSpace)
  {
    hide Blank;
    if x :| x in i.sources && Blank(x, JsSpace) {
      var k :| 0 <= k < |i.sources| && i.sources[k] == x;
    }
  }

  // ---------------------------------------------------------------- the same as steps

  lemma RunOne(s: Sys, a: Step)
    ensures Run(s, [a]) == Advance(s, a)
  {
    hide Advance;
    assert [a][1..] == [];
  }

  lemma {:induction false} RunAppend(s: Sys, a: seq<Step>, b: seq<Step>)
    ensures Run(s, a + b) == Run(Run(s, a), b)
    decreases |a|
  {
    hide Advance;
    if a == [] {
      assert a + b == b;
    } else {
      assert (a + b)[1..] == a[1..] + b;
      RunAppend(Advance(s, a[0]), a[1..], b);
    }
  }

  lemma CaptureAlone(files: Vault, log: seq<Event>, rows: map<string, Fact>, n: RawNote, slug: Option<string>)
    requires RawProblem(n, slug).None? && n.content != "" && Path(Raw, n.id, slug) !in files
    ensures Run(Alone(files, log, rows), [Capture(n, slug)]).files == files[Path(Raw, n.id, slug) := RawFile(n)]
  {
    hide Run, RawProblem;
    RunOne(Alone(files, log, rows), Capture(n, slug));
  }

  lemma PromoteAlone(files: Vault, log: seq<Event>, rows: map<string, Fact>, source: Path, title: Option<string>, id: string, created: string)
    requires source in files && files[source].RawFile? && IsUlid(id) && Path(Working, id, None) !in files
    ensures Run(Alone(files, log, rows), [ReadForPromote(0, source, title, created), WriteWorking(0, id)]).files
            == files[Path(Working, id, None) := Seeded(source.id, Print(files[source].note), TitleFor(title, files[source].note), created)]
  {
    hide Run, IsUlid, Print, Seeded;
    var s, a, b := Alone(files, log, rows), ReadForPromote(0, source, title, created), WriteWorking(0, id);
    assert [a, b] == [a] + [b];
    RunAppend(s, [a], [b]);
    RunOne(s, a);
    RunOne(Advance(s, a), b);
  }

  function Rounds(n: nat): seq<Step> {
    seq(n, _ => ResolveNext(0))
  }

  /** One output command without interruption. */
  function OutputSteps(item: Item, id: string, eventId: string, at: string): seq<Step> {
    [StartOutput(0, item)] + (Rounds(|Ulids(item.sources)|) + ([WriteOutput(0, id, eventId, at)] + [Announce(0)]))
  }

  predicate AllResolve(files: Vault, rows: map<string, Fact>, sources: seq<string>) {
    forall i :: 0 <= i < |sources| ==> Resolves(files, rows, sources[i])
  }

  /** The call is looking sources up, alone; facts it has read are those of the table. */
  predicate Looking(s: Sys, item: Item, next: nat) {
    && s.jobs.Keys == {0} && s.jobs[0].Resolving? && s.jobs[0].item == item && s.jobs[0].next == next <= |Ulids(item.sources)|
    && (s.jobs[0].factIds.Some? ==> s.jobs[0].factIds.value == CurrentIds(s.facts.rows))
  }

  lemma {:induction false} Idle(s: Sys, n: nat)
    requires s.jobs == map[]
    ensures Run(s, Rounds(n)) == s
  {
    if n > 0 {
      assert Rounds(n)[1..] == Rounds(n - 1);
      Idle(s, n - 1);
    }
  }

  lemma OneRound(s: Sys, item: Item, next: nat)
    requires Looking(s, item, next) && next < |Ulids(item.sources)|
    ensures
      var t := Advance(s, ResolveNext(0));
      && t.files == s.files && t.facts == s.facts
      && if Resolves(s.files, s.facts.rows, Ulids(item.sources)[next]) then Looking(t, item, next + 1) else t.jobs == map[]
  {
    hide CurrentIds, CurrentFact, Ulids, HasNote;
    CurrentIdsAre(s.facts.rows);
  }

  lemma AllResolveCons(files: Vault, rows: map<string, Fact>, x: string, rest: seq<string>)
    ensures AllResolve(files, rows, [x] + rest) <==> Resolves(files, rows, x) && AllResolve(files, rows, rest)
  {
    hide Resolves;
    var all := [x] + rest;
    if AllResolve(files, rows, all) {
      assert all[0] == x;
      forall i | 0 <= i < |rest| ensures Resolves(files, rows, rest[i]) { assert all[i + 1] == rest[i]; }
    }
  }

  lemma {:induction false} AllRounds(s: Sys, item: Item, next: nat)
    requires Looking(s, item, next)
    ensures
      var u := Ulids(item.sources);
      var t := Run(s, Rounds(|u| - next));
      && t.files == s.files && t.facts == s.facts
      && if AllResolve(s.files, s.facts.rows, u[next..]) then Looking(t, item, |u|) else t.jobs == map[]
    decreases |Ulids(item.sources)| - next
  {
    hide CurrentIds, Ulids, Resolves, Advance;
    var u := Ulids(item.sources);
    var n := |u| - next;
    if n > 0 {
      var t := Advance(s, ResolveNext(0));
      assert Rounds(n)[1..] == Rounds(n - 1);
      OneRound(s, item, next);
      assert u[next..] == [u[next]] + u[next + 1..];
      AllResolveCons(s.files, s.facts.rows, u[next], u[next + 1..]);
      if Resolves(s.files, s.facts.rows, u[next]) {
        AllRounds(t, item, next + 1);
      } else {
        Idle(t, n - 1);
      }
    }
  }

  lemma {:induction false} UlidsOnly(sources: seq<string>, x: string)
    requires x in Ulids(sources)
    ensures x in sources && IsUlid(x)
  {
    hide IsUlid;
    if x in Ulids(sources[1..]) { UlidsOnly(sources[1..], x); }
  }

  lemma AllResolveMeans(files: Vault, rows: map<string, Fact>, sources: seq<string>)
    ensures AllResolve(files, rows, Ulids(sources)) <==> forall x :: x in sources && IsUlid(x) ==> Resolves(files, rows, x)
  {
    hide IsUlid, Resolves, Ulids;
    if AllResolve(files, rows, Ulids(sources)) {
      forall x | x in sources && IsUlid(x) ensures Resolves(files, rows, x) { UlidsAll(sources, x); }
    }
    if forall x :: x in sources && IsUlid(x) ==> Resolves(files, rows, x) {
      forall i | 0 <= i < |Ulids(sources)| ensures Resolves(files, rows, Ulids(sources)[i]) { UlidsOnly(sources, Ulids(sources)[i]); }
    }
  }

  /** The command's steps write and announce the output if every source resolves, and otherwise nothing. */
  lemma OutputAlone(files: Vault, log: seq<Event>, rows: map<string, Fact>, item: Item, id: string, eventId: string, at: string)
    requires ValidItem(item) && IsUlid(id) && Path(Output, id, None) !in files
    ensures
      var s := Run(Alone(files, log, rows), OutputSteps(item, id, eventId, at));
      var ok := forall x :: x in item.sources && IsUlid(x) ==> Resolves(files, rows, x);
      && s.jobs == map[]
      && s.files == (if ok then files[Path(Output, id, None) := OutputFile(item.title, item.sources, item.body, at)] else files)
      && s.facts.log == (if ok then log + [NoteCreated(eventId, id, item.title, item.sources, at)] else log)
  {
    hide Run, Advance, CurrentIds, Ulids, Resolves, IsUlid, ValidItem, NoteCreated;
    var s0, u := Alone(files, log, rows), Ulids(item.sources);
    var a, w, n := StartOutput(0, item), WriteOutput(0, id, eventId, at), Announce(0);
    var s1 := Advance(s0, a);
    var s2 := Run(s1, Rounds(|u|));
    RunAppend(s0, [a], Rounds(|u|) + ([w] + [n]));
    RunOne(s0, a);
    RunAppend(s1, Rounds(|u|), [w] + [n]);
    RunAppend(s2, [w], [n]);
    RunOne(s2, w);
    RunOne(Advance(s2, w), n);
    Starts(files, log, rows, item);
    AllRounds(s1, item, 0);
    assert u[0..] == u;
    AllResolveMeans(files, rows, item.sources);
    if AllResolve(files, rows, u) { Finishes(s2, item, id, eventId, at); } else { NothingLeft(s2, id, eventId, at); }
  }

  lemma Starts(files: Vault, log: seq<Event>, rows: map<string, Fact>, item: Item)
    requires ValidItem(item)
    ensures
      var s := Advance(Alone(files, log, rows), StartOutput(0, item));
      Looking(s, item, 0) && s.files == files && s.facts.log == log && s.facts.rows == rows
  {
    hide ValidItem, Ulids, CurrentIds;
  }

  lemma Finishes(s: Sys, item: Item, id: string, eventId: string, at: string)
    requires Looking(s, item, |Ulids(item.sources)|) && IsUlid(id) && Path(Output, id, None) !in s.files
    ensures
      var t := Advance(Advance(s, WriteOutput(0, id, eventId, at)), Announce(0));
      && t.jobs == map[]
      && t.files == s.files[Path(Output, id, None) := OutputFile(item.title, item.sources, item.body, at)]
      && t.facts.log == s.facts.log + [NoteCreated(eventId, id, item.title, item.sources, at)]
  {
    hide Ulids, CurrentIds, IsUlid, NoteCreated;
  }

  lemma NothingLeft(s: Sys, id: string, eventId: string, at: string)
    requires s.jobs == map[]
    ensures Advance(Advance(s, WriteOutput(0, id, eventId, at)), Announce(0)) == s
  {
  }
}
