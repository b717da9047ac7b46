/** Transcript intake: one raw note per media id over every run of ingests, captures and other writes. */
module MediaLedger {
  import opened Wrappers
  import opened Text
  import opened Order
  import opened Ulid
  import opened JsonString
  import opened NoteFormat
  import opened NoteFields
  import opened MediaReader

  // ---------------------------------------------------------------- listing the raw notes

  function Summarized(files: map<string, string>, id: string): Summary
    requires id in files
  {
    SummaryOf(RawFilename(id, None), files[id])
  }

  /** One line of `note list`; a title with a newline in it spills over into lines of its own. */
  function ListLine(s: Summary): string {
    s.id + "\t" + s.kind.GetOr("-") + "\t" + s.title.GetOr("") + "\n"
  }

  /** `note list --type raw`: ids ascending. */
  function RawIds(files: map<string, string>): (r: seq<string>)
    ensures forall i :: 0 <= i < |r| ==> r[i] in files
  {
    var raw := set id | id in files && Summarized(files, id).kind == Some("raw");
    var ids := SortIds(raw);
    assert forall i :: 0 <= i < |ids| ==> ids[i] in raw;
    ids
  }

  function Listing(files: map<string, string>, ids: seq<string>): string
    requires forall i :: 0 <= i < |ids| ==> ids[i] in files
  {
    if ids == [] then "" else ListLine(Summarized(files, ids[0])) + Listing(files, ids[1..])
  }

  /** What a line holds before its first tab, trimmed. */
  function FirstField(line: string): string {
    var i := IndexOf(line, '\t');
    Trim(if i == -1 then line else line[..i], JsSpace)
  }

  function NonEmptyFields(lines: seq<string>): seq<string> {
    if lines == [] then []
    else (if FirstField(lines[0]) == "" then [] else [FirstField(lines[0])]) + NonEmptyFields(lines[1..])
  }

  /** The ids the intake takes from that output: it splits at newlines. */
  function ListedIds(stdout: string): seq<string> {
    NonEmptyFields(Lines(stdout) + [Rest(stdout)])
  }

  function IdsToScan(files: map<string, string>): seq<string> {
    ListedIds(Listing(files, RawIds(files)))
  }

  // ---------------------------------------------------------------- one ingest

  datatype Existing = Existing(id: string, sha: Option<string>, fp: Option<string>)

  /** The first listed note that reads as having the media id; ids `note get` rejects are skipped. */
  function FindIn(files: map<string, string>, ids: seq<string>, mediaId: string): Option<Existing> {
    if ids == [] then None
    else if IsUlid(ids[0]) && ids[0] in files && ReadMedia(GetOutput(files[ids[0]])).mediaId == Some(mediaId) then
      var r := ReadMedia(GetOutput(files[ids[0]]));
      Some(Existing(ids[0], r.sha, r.fp))
    else FindIn(files, ids[1..], mediaId)
  }

  /** An ingest whose transcript is already read: its text, or the reason it was refused. */
  datatype Request = Request(
    mediaId: string, publicRef: Option<string>, secretRef: Option<string>, transcript: Result<string, string>,
    title: Option<string>)

  datatype Handle = Handle(refClass: string, ref: Option<string>, secref: Option<string>)

  /**
   * What the surroundings contribute: the new note's id and time, the recorded media reference when that
   * succeeds, whether the note is written and whether its capture event is appended.
   */
  datatype World = World(noteId: string, now: string, handle: Option<Handle>, writeOk: bool, eventOk: bool)

  datatype IngestError = BadMediaId | BadArguments | TranscriptRefused | MediaIdConflict | MediaReferenceFailed | CaptureFailed

  datatype Ingested = Ingested(noteId: string, idempotent: bool)

  /** The pointer of a request that gives exactly one. */
  function PointerOf(q: Request): Option<string> {
    if q.publicRef.Some? && q.secretRef.Some? then None
    else if q.publicRef.Some? then q.publicRef else q.secretRef
  }

  function Fingerprint(hash: string -> string, pointer: string): string {
    hash(Trim(pointer, JsSpace))
  }

  /** The raw note an ingest writes. */
  function NoteFor(hash: string -> string, q: Request, pointer: string, text: string, h: Handle, w: World): RawNote {
    RawNote(w.noteId, text, "transcript", w.now, q.title, [], None,
            Some(Media(q.mediaId, hash(text), Some(Fingerprint(hash, pointer)), h.refClass, h.ref, h.secref)))
  }

  /** The vault after an ingest, and what it reports. */
  function Ingest(hash: string -> string, files: map<string, string>, q: Request, w: World)
    : (map<string, string>, Result<Ingested, IngestError>)
  {
    if !IsMediaId(q.mediaId) then (files, Err(BadMediaId))
    else if PointerOf(q).None? then (files, Err(BadArguments))
    else if q.transcript.Err? then (files, Err(TranscriptRefused))
    else
      var pointer, text := PointerOf(q).value, q.transcript.value;
      var existing := FindIn(files, IdsToScan(files), q.mediaId);
      if existing.Some? then
        if existing.value.sha == Some(hash(text)) && existing.value.fp == Some(Fingerprint(hash, pointer)) then
          (files, Ok(Ingested(existing.value.id, true)))
        else (files, Err(MediaIdConflict))
      else if w.handle.None? then (files, Err(MediaReferenceFailed))
      else if !w.writeOk || w.noteId in files then (files, Err(CaptureFailed))
      else
        (files[w.noteId := Print(NoteFor(hash, q, pointer, text, w.handle.value, w))],
         if w.eventOk then Ok(Ingested(w.noteId, false)) else Err(CaptureFailed))
  }

  class MediaIntake {
    const hash: string -> string
    var files: map<string, string>

    constructor (hash: string -> string)
      ensures this.hash == hash && files == map[]
    {
      this.hash, files := hash, map[];
    }

    method FindExistingByMediaId(mediaId: string) returns (r: Option<Existing>)
      ensures r == FindIn(files, IdsToScan(files), mediaId)
    {
      hide ReadMedia, IdsToScan;
      var ids := IdsToScan(files);
      for i := 0 to |ids|
        invariant FindIn(files, ids, mediaId) == FindIn(files, ids[i..], mediaId)
      {
        if !IsUlid(ids[i]) || ids[i] !in files { continue; }
        var read := ReadMedia(GetOutput(files[ids[i]]));
        if read.mediaId == Some(mediaId) {
          return Some(Existing(ids[i], read.sha, read.fp));
        }
      }
      return None;
    }

    method RunIngest(q: Request, w: World) returns (r: Result<Ingested, IngestError>)
      modifies this
      ensures (files, r) == Ingest(hash, old(files), q, w)
    {
      hide FindIn, IdsToScan, Print, IsMediaId;
      if !IsMediaId(q.mediaId) { return Err(BadMediaId); }
      var pointer := if q.publicRef.Some? then q.publicRef else q.secretRef;
      if pointer.None? { return Err(BadArguments); }
      if q.publicRef.Some? && q.secretRef.Some? { return Err(BadArguments); }
      if q.transcript.Err? { return Err(TranscriptRefused); }
      var text := q.transcript.value;
      var sha, fp := hash(text), hash(Trim(pointer.value, JsSpace));
      var existing := FindExistingByMediaId(q.mediaId);
      if existing.Some? {
        if existing.value.sha == Some(sha) && existing.value.fp == Some(fp) {
          return Ok(Ingested(existing.value.id, true));
        }
        return Err(MediaIdConflict);
      }
      if w.handle.None? { return Err(MediaReferenceFailed); }
      var h := w.handle.value;
      var media := Media(q.mediaId, sha, Some(fp), h.refClass, h.ref, h.secref);
      if !w.writeOk || w.noteId in files { return Err(CaptureFailed); }
      files := files[w.noteId := Print(RawNote(w.noteId, text, "transcript", w.now, q.title, [], None, Some(media)))];
      if !w.eventOk { return Err(CaptureFailed); }
      return Ok(Ingested(w.noteId, false));
    }
  }

  // ---------------------------------------------------------------- every raw note is listed

  lemma RestOfLine(x: string)
    ensures Rest(x + "\n") == ""
    ensures Lines(x + "\n") != []
  {
    hide Lines, Rest;
    FramingSound(x);
    FramingAppend(x, "\n");
    FramingStep(Rest(x), "");
    assert Rest(x) + "\n" + "" == Rest(x) + "\n";
    assert Rest("") == "" && Lines("") == [] by { FramingUnique([], ""); assert Unlines([]) + "" == ""; }
  }

  /** A record's first line gives its id. */
  lemma RecordField(s: Summary)
    requires IsUlid(s.id) && s.kind == Some("raw")
    ensures exists k :: 0 <= k < |Lines(ListLine(s))| && FirstField(Lines(ListLine(s))[k]) == s.id
  {
    hide JsSpace;
    var head := s.id + "\t" + "raw" + "\t";
    var rec := ListLine(s);
    assert rec == head + (s.title.GetOr("") + "\n");
    var i := IndexOf(rec, '\n');
    IdChars(s.id);
    assert '\n' !in head && '\t' !in s.id;
    IndexBehind(head, s.title.GetOr("") + "\n", '\n');
    assert (s.title.GetOr("") + "\n")[|s.title.GetOr("")|] == '\n';
    var line := rec[..i];
    assert Lines(rec)[0] == line;
    assert line[..26] == s.id && line[26] == '\t';
    FirstAt(line, '\t', 26);
    TrimTight(s.id, JsSpace);
    assert FirstField(line) == s.id;
  }

  lemma {:induction false} IndexBehind(a: string, b: string, c: char)
    requires c !in a
    ensures IndexOf(a + b, c) == if IndexOf(b, c) == -1 then -1 else |a| + IndexOf(b, c)
  {
    if a == "" {
      assert a + b == b;
    } else {
      assert (a + b)[1..] == a[1..] + b && (a + b)[0] == a[0];
      IndexBehind(a[1..], b, c);
    }
  }

  lemma IdChars(id: string)
    requires IsUlid(id)
    ensures '\n' !in id && '\t' !in id && !JsSpace(id[0]) && !JsSpace(id[25])
  {
    assert forall i :: 0 <= i < 26 ==> IsCrockford(id[i]);
  }

  lemma {:induction false} FieldsKept(lines: seq<string>, k: nat)
    requires k < |lines| && FirstField(lines[k]) != ""
    ensures FirstField(lines[k]) in NonEmptyFields(lines)
  {
    hide FirstField;
    if k > 0 { FieldsKept(lines[1..], k - 1); }
  }

  lemma {:induction false} RecordsListed(files: map<string, string>, ids: seq<string>, k: nat)
    requires forall i :: 0 <= i < |ids| ==> ids[i] in files
    requires k < |ids| && IsUlid(ids[k]) && Summarized(files, ids[k]).kind == Some("raw")
    ensures exists i :: 0 <= i < |Lines(Listing(files, ids))| && FirstField(Lines(Listing(files, ids))[i]) == ids[k]
  {
    hide Lines, Rest, FirstField, Summarized, IsUlid, ListLine;
    var s := Summarized(files, ids[0]);
    var rec, more := ListLine(s), Listing(files, ids[1..]);
    var all := Lines(Listing(files, ids));
    EndsLine(s);
    RestOfLine(rec[..|rec| - 1]);
    FramingAppend(rec, more);
    assert "" + more == more;
    assert all == Lines(rec) + Lines(more);
    if k == 0 {
      SummarizedId(files, ids[0]);
      RecordField(s);
      var i :| 0 <= i < |Lines(rec)| && FirstField(Lines(rec)[i]) == ids[0];
      assert all[i] == Lines(rec)[i];
    } else {
      RecordsListed(files, ids[1..], k - 1);
      var i :| 0 <= i < |Lines(more)| && FirstField(Lines(more)[i]) == ids[k];
      assert all[|Lines(rec)| + i] == Lines(more)[i];
    }
  }

  lemma EndsLine(s: Summary)
    ensures var r := ListLine(s); r != "" && r == r[..|r| - 1] + "\n"
  {
  }

  lemma SummarizedId(files: map<string, string>, id: string)
    requires id in files && IsUlid(id)
    ensures Summarized(files, id).id == id
  {
    hide FrontmatterBlock, Field, Unquote, IsUlid;
    assert (id + ".md")[..26] == id by { assert |id| == 26 by { UlidLength(id); } }
  }

  lemma UlidLength(id: string)
    requires IsUlid(id)
    ensures |id| == 26
  {
  }

  /** Whatever the titles do to the listing, every raw note's id is among the ids scanned. */
  lemma RawNotesScanned(files: map<string, string>, id: string)
    requires id in files && IsUlid(id) && Summarized(files, id).kind == Some("raw")
    ensures id in IdsToScan(files)
  {
    hide Lines, Rest, FirstField, Summarized, IsUlid, ListLine, Listing, NonEmptyFields;
    var ids := RawIds(files);
    assert id in ids;
    var k :| 0 <= k < |ids| && ids[k] == id;
    RecordsListed(files, ids, k);
    var ls := Lines(Listing(files, ids));
    var i :| 0 <= i < |ls| && FirstField(ls[i]) == id;
    var all := ls + [Rest(Listing(files, ids))];
    assert all[i] == ls[i];
    assert id != "" by { UlidLength(id); }
    FieldsKept(all, i);
  }

  // ---------------------------------------------------------------- the scan

  /** The media id a file reads as having, if it is one. */
  function MediaIdOf(text: string): Option<string> {
    var r := ReadMedia(GetOutput(text)).mediaId;
    if r.Some? && IsMediaId(r.value) then r else None
  }

  predicate Listed(files: map<string, string>, id: string) {
    id in files && IsUlid(id) && Summarized(files, id).kind == Some("raw")
  }

  /** What is found reads as having the media id, and nothing is found only if no raw note does. */
  lemma {:induction false} FindSound(files: map<string, string>, ids: seq<string>, mediaId: string)
    requires IsMediaId(mediaId)
    ensures
      var r := FindIn(files, ids, mediaId);
      && (r.Some? ==> r.value.id in files && MediaIdOf(files[r.value.id]) == Some(mediaId)
                      && r.value.sha == ReadMedia(GetOutput(files[r.value.id])).sha
                      && r.value.fp == ReadMedia(GetOutput(files[r.value.id])).fp)
      && (r.None? ==> forall i :: 0 <= i < |ids| && IsUlid(ids[i]) && ids[i] in files ==> MediaIdOf(files[ids[i]]) != Some(mediaId))
  {
    hide ReadMedia, GetOutput, IsUlid, IsMediaId;
    if ids != [] { FindSound(files, ids[1..], mediaId); }
  }

  lemma ScanSound(files: map<string, string>, mediaId: string)
    requires IsMediaId(mediaId)
    ensures
      var r := FindIn(files, IdsToScan(files), mediaId);
      && (r.Some? ==> r.value.id in files && MediaIdOf(files[r.value.id]) == Some(mediaId)
                      && r.value.sha == ReadMedia(GetOutput(files[r.value.id])).sha
                      && r.value.fp == ReadMedia(GetOutput(files[r.value.id])).fp)
      && (r.None? ==> forall id :: Listed(files, id) ==> MediaIdOf(files[id]) != Some(mediaId))
  {
    hide FindIn, IdsToScan, MediaIdOf, Summarized, ReadMedia, GetOutput, IsMediaId, IsUlid;
    var ids := IdsToScan(files);
    FindSound(files, ids, mediaId);
    if FindIn(files, ids, mediaId).None? {
      forall id | Listed(files, id) ensures MediaIdOf(files[id]) != Some(mediaId) {
        RawNotesScanned(files, id);
        var i :| 0 <= i < |ids| && ids[i] == id;
      }
    }
  }

  // ---------------------------------------------------------------- the note an ingest writes

  /** The hash is a SHA-256 in lower-case hexadecimal; nothing else about it matters. */
  ghost predicate IsHash(hash: string -> string) {
    forall s: string :: IsSha256(hash(s))
  }

  /** The characters of a time stamp. */
  predicate IsTimestamp(s: string) {
    forall i :: 0 <= i < |s| ==> '0' <= s[i] <= '9' || s[i] in "-:.TZ+"
  }

  /** The title, as printed, ends in the key, its colon and white space. */
  predicate TitleMasks(title: Option<string>, pattern: string) {
    title.Some? && Hides(true, Escape(title.value), pattern)
  }

  predicate TitleClear(title: Option<string>) {
    !TitleMasks(title, MEDIA_ID) && !TitleMasks(title, TRANSCRIPT_SHA) && !TitleMasks(title, REF_FP)
  }

  /** Text without an underscore cannot hide a key. */
  lemma {:induction false} HidesNeedsUnderscore(boundary: bool, w: string, pattern: string)
    requires '_' in pattern && '_' !in w
    ensures !Hides(boundary, w, pattern)
    decreases |w|
  {
    if w != "" {
      HidesNeedsUnderscore(!Word(w[0]), w[1..], pattern);
      var k :| 0 <= k < |pattern| && pattern[k] == '_';
      PrefixLacks(w, pattern, k);
    }
  }

  lemma TimestampHidesNothing(s: string, pattern: string)
    requires IsTimestamp(s) && '_' in pattern
    ensures !Hides(true, Escape(s), pattern)
  {
    hide Hides;
    assert forall i :: 0 <= i < |s| ==> PlainChar(s[i]) && s[i] != '_';
    EscapeSame(s);
    HidesNeedsUnderscore(true, s, pattern);
  }

  lemma TranscriptHidesNothing(pattern: string)
    requires '_' in pattern
    ensures !Hides(true, Escape("transcript"), pattern)
  {
    hide Hides;
    assert forall i :: 0 <= i < |"transcript"| ==> PlainChar("transcript"[i]) && "transcript"[i] != '_';
    EscapeSame("transcript");
    HidesNeedsUnderscore(true, "transcript", pattern);
  }

  lemma OnlyTheTitleMasks(n: RawNote, pattern: string)
    requires IsKey(pattern) && n.source == "transcript" && n.ref.None? && IsTimestamp(n.createdAt)
    ensures Masks(n, pattern) <==> TitleMasks(n.title, pattern)
  {
    hide Hides, Escape, IsKey;
    KeyFacts(pattern);
    TimestampHidesNothing(n.createdAt, pattern);
    TranscriptHidesNothing(pattern);
  }

  predicate Sane(w: World) {
    IsUlid(w.noteId) && IsTimestamp(w.now)
  }

  /** A written note is read back key by key, if and only if its title does not mask the key. */
  lemma WrittenReads(hash: string -> string, q: Request, pointer: string, text: string, h: Handle, w: World)
    requires IsHash(hash) && IsMediaId(q.mediaId) && Sane(w)
    ensures
      var r := ReadMedia(GetOutput(Print(NoteFor(hash, q, pointer, text, h, w))));
      && (r.mediaId == Some(q.mediaId) <==> !TitleMasks(q.title, MEDIA_ID))
      && (TitleMasks(q.title, MEDIA_ID) ==> r.mediaId.Some? && !IsMediaId(r.mediaId.value))
      && (r.sha == Some(hash(text)) <==> !TitleMasks(q.title, TRANSCRIPT_SHA))
      && (r.fp == Some(Fingerprint(hash, pointer)) <==> !TitleMasks(q.title, REF_FP))
  {
    hide Print, ReadMedia, GetOutput, Masks, TitleMasks, IsMediaId, IsUlid, IsTimestamp, IsSha256;
    var n := NoteFor(hash, q, pointer, text, h, w);
    MediaReadBack(n);
    OnlyTheTitleMasks(n, MEDIA_ID);
    OnlyTheTitleMasks(n, TRANSCRIPT_SHA);
    OnlyTheTitleMasks(n, REF_FP);
  }

  lemma PrintedListed(files: map<string, string>, n: RawNote)
    requires IsUlid(n.id) && n.id in files && files[n.id] == Print(n)
    ensures Listed(files, n.id)
  {
    hide Print, IsUlid, FrontmatterBlock, Field, Block;
    assert RawFilename(n.id, None) == n.id + ".md";
    BodiesVerbatim(n);
    FixedFields(n);
  }

  // ---------------------------------------------------------------- runs

  datatype Booking = Booking(noteId: string, sha: string, fp: string)

  /** The vault, and for each media id written the note and the two hashes it was written with. */
  datatype Ledger = Ledger(files: map<string, string>, booked: map<string, Booking>)

  datatype Step =
    | DoIngest(q: Request, w: World)
    | DoCapture(n: RawNote)
    | OtherNote(id: string, text: string)

  /**
   * Ingests with sane surroundings and a title that masks no key; captures without a media block; other
   * notes whose frontmatter does not read as a media id.
   */
  predicate Admissible(step: Step) {
    match step
    case DoIngest(q, w) => Sane(w) && TitleClear(q.title)
    case DoCapture(n) => IsUlid(n.id) && n.media.None?
    case OtherNote(id, text) => IsUlid(id) && MediaIdOf(text).None?
  }

  function Next(hash: string -> string, s: Ledger, step: Step): Ledger {
    match step
    case DoIngest(q, w) =>
      var files := Ingest(hash, s.files, q, w).0;
      if files == s.files then s
      else Ledger(files, s.booked[q.mediaId := BookingFor(hash, q, w)])
    case DoCapture(n) => if n.id in s.files then s else s.(files := s.files[n.id := Print(n)])
    case OtherNote(id, text) => if id in s.files then s else s.(files := s.files[id := text])
  }

  function BookingFor(hash: string -> string, q: Request, w: World): Booking {
    Booking(w.noteId, hash(q.transcript.GetOr("")), Fingerprint(hash, PointerOf(q).GetOr("")))
  }

  function Run(hash: string -> string, s: Ledger, steps: seq<Step>): Ledger
    decreases |steps|
  {
    if steps == [] then s else Run(hash, Next(hash, s, steps[0]), steps[1..])
  }

  const EMPTY := Ledger(map[], map[])

  /** The booked note of each media id reads as such, and no other file does. */
  ghost predicate Inv(s: Ledger) {
    && (forall m :: m in s.booked ==> BookedReads(s.files, m, s.booked[m]))
    && (forall id :: id in s.files && MediaIdOf(s.files[id]).Some? ==> IsBookedNote(s.booked, MediaIdOf(s.files[id]).value, id))
  }

  predicate IsBookedNote(booked: map<string, Booking>, m: string, id: string) {
    m in booked && booked[m].noteId == id
  }

  predicate BookedReads(files: map<string, string>, m: string, b: Booking) {
    && IsMediaId(m) && Listed(files, b.noteId)
    && ReadMedia(GetOutput(files[b.noteId])) == MediaRead(Some(m), Some(b.sha), Some(b.fp))
  }

  /** A booked media id is found, with the hashes it was booked with; one that is not booked is not found. */
  lemma ScanFindsBooked(s: Ledger, m: string)
    requires Inv(s) && IsMediaId(m)
    ensures
      FindIn(s.files, IdsToScan(s.files), m)
      == if m in s.booked then Some(Existing(s.booked[m].noteId, Some(s.booked[m].sha), Some(s.booked[m].fp))) else None
  {
    hide FindIn, IdsToScan, ReadMedia, GetOutput, IsMediaId, Summarized, IsUlid;
    ScanSound(s.files, m);
    var r := FindIn(s.files, IdsToScan(s.files), m);
    assert m in s.booked ==> BookedReads(s.files, m, s.booked[m]);
    if r.Some? { assert IsBookedNote(s.booked, m, r.value.id); }
  }

  lemma InvAdd(s: Ledger, id: string, text: string)
    requires Inv(s) && id !in s.files && MediaIdOf(text).None?
    ensures Inv(s.(files := s.files[id := text]))
  {
    hide ReadMedia, GetOutput, IsMediaId, IsUlid, MediaIdOf;
    var files := s.files[id := text];
    forall m | m in s.booked ensures BookedReads(files, m, s.booked[m]) {
      assert BookedReads(s.files, m, s.booked[m]);
    }
    forall x | x in files && MediaIdOf(files[x]).Some? ensures IsBookedNote(s.booked, MediaIdOf(files[x]).value, x) {
      assert x != id ==> files[x] == s.files[x];
    }
  }

  /** Only the text of the booked note matters. */
  lemma BookedFrame(files: map<string, string>, more: map<string, string>, m: string, b: Booking)
    requires BookedReads(files, m, b) && b.noteId in more && more[b.noteId] == files[b.noteId]
    ensures BookedReads(more, m, b) && MediaIdOf(more[b.noteId]) == Some(m)
  {
    hide SummaryOf, ReadMedia, GetOutput, IsMediaId, IsUlid;
  }

  lemma InvBook(s: Ledger, id: string, text: string, m: string, b: Booking)
    requires Inv(s) && id !in s.files && m !in s.booked && b.noteId == id
    requires BookedReads(s.files[id := text], m, b)
    ensures Inv(Ledger(s.files[id := text], s.booked[m := b]))
  {
    hide BookedReads, MediaIdOf;
    var files, booked := s.files[id := text], s.booked[m := b];
    BookedFrame(files, files, m, b);
    forall k | k in booked ensures BookedReads(files, k, booked[k]) {
      if k != m {
        assert BookedReads(s.files, k, s.booked[k]);
        BookedIn(s.files, k, s.booked[k]);
        BookedFrame(s.files, files, k, s.booked[k]);
      }
    }
    forall x | x in files && MediaIdOf(files[x]).Some? ensures IsBookedNote(booked, MediaIdOf(files[x]).value, x) {
      if x != id {
        assert files[x] == s.files[x];
        assert IsBookedNote(s.booked, MediaIdOf(s.files[x]).value, x);
      }
    }
  }

  lemma BookedIn(files: map<string, string>, m: string, b: Booking)
    requires BookedReads(files, m, b)
    ensures b.noteId in files
  {
  }

  lemma InvStep(hash: string -> string, s: Ledger, step: Step)
    requires IsHash(hash) && Inv(s) && Admissible(step)
    ensures Inv(Next(hash, s, step))
  {
    hide Inv, FindIn, IdsToScan, Print, ReadMedia, GetOutput, IsMediaId, IsUlid, IsTimestamp, TitleMasks, MediaIdOf, IsHash;
    match step
    case DoIngest(q, w) =>
      if Ingest(hash, s.files, q, w).0 != s.files { IngestBooks(hash, s, q, w); }
    case DoCapture(n) =>
      if n.id !in s.files {
        PlainNoteNotRead(n);
        assert MediaIdOf(Print(n)).None? by { PlainIsNone(n); }
        InvAdd(s, n.id, Print(n));
      }
    case OtherNote(id, text) =>
      if id !in s.files { InvAdd(s, id, text); }
  }

  lemma PlainIsNone(n: RawNote)
    requires IsUlid(n.id) && n.media.None?
    ensures MediaIdOf(Print(n)).None?
  {
    hide Print, ReadMedia, GetOutput, IsMediaId;
    PlainNoteNotRead(n);
  }

  /** A request that reaches the ledger: a media id, one pointer and a transcript. */
  predicate WellFormed(q: Request) {
    IsMediaId(q.mediaId) && PointerOf(q).Some? && q.transcript.Ok?
  }

  /** When an ingest writes at all, it writes one new file, for a media id that was not found. */
  lemma IngestWrites(hash: string -> string, files: map<string, string>, q: Request, w: World)
    ensures
      var written := Ingest(hash, files, q, w).0 != files;
      && (written <==> WellFormed(q) && FindIn(files, IdsToScan(files), q.mediaId).None? && w.handle.Some? && w.writeOk && w.noteId !in files)
      && (written ==> Ingest(hash, files, q, w).0 == files[w.noteId := Print(Written(hash, q, w))])
  {
    hide FindIn, IdsToScan, Print, IsMediaId, NoteFor, Fingerprint, PointerOf;
  }

  function Written(hash: string -> string, q: Request, w: World): RawNote
    requires WellFormed(q) && w.handle.Some?
  {
    NoteFor(hash, q, PointerOf(q).value, q.transcript.value, w.handle.value, w)
  }

  lemma WrittenBooked(hash: string -> string, files: map<string, string>, q: Request, w: World)
    requires IsHash(hash) && WellFormed(q) && Sane(w) && TitleClear(q.title) && w.handle.Some?
    requires w.noteId in files && files[w.noteId] == Print(Written(hash, q, w))
    ensures BookedReads(files, q.mediaId, BookingFor(hash, q, w))
  {
    hide Print, ReadMedia, GetOutput, IsMediaId, IsUlid, IsTimestamp, TitleMasks, Listed, IsHash;
    WrittenReads(hash, q, PointerOf(q).value, q.transcript.value, w.handle.value, w);
    PrintedListed(files, Written(hash, q, w));
  }

  lemma IngestBooks(hash: string -> string, s: Ledger, q: Request, w: World)
    requires IsHash(hash) && Inv(s) && Sane(w) && TitleClear(q.title)
    requires Ingest(hash, s.files, q, w).0 != s.files
    ensures Inv(Next(hash, s, DoIngest(q, w)))
    ensures q.mediaId !in s.booked
  {
    hide Inv, FindIn, IdsToScan, Print, IsMediaId, IsHash, Ingest, Sane, TitleClear, BookedReads, Written, BookingFor;
    IngestWrites(hash, s.files, q, w);
    ScanFindsBooked(s, q.mediaId);
    WrittenBooked(hash, Ingest(hash, s.files, q, w).0, q, w);
    assert BookingFor(hash, q, w).noteId == w.noteId by { BookingId(hash, q, w); }
    InvBook(s, w.noteId, Print(Written(hash, q, w)), q.mediaId, BookingFor(hash, q, w));
  }

  lemma BookingId(hash: string -> string, q: Request, w: World)
    ensures BookingFor(hash, q, w).noteId == w.noteId
  {
  }

  lemma InvEmpty()
    ensures Inv(EMPTY)
  {
  }

  lemma {:induction false} InvRun(hash: string -> string, s: Ledger, steps: seq<Step>)
    requires IsHash(hash) && Inv(s) && forall i :: 0 <= i < |steps| ==> Admissible(steps[i])
    ensures Inv(Run(hash, s, steps))
    decreases |steps|
  {
    hide Inv, Next, Admissible, IsHash;
    if steps != [] {
      InvStep(hash, s, steps[0]);
      InvRun(hash, Next(hash, s, steps[0]), steps[1..]);
    }
  }

  // ---------------------------------------------------------------- the ledger over every run

  /** After any run no two notes read as the same media id. */
  lemma OneNotePerMediaId(hash: string -> string, steps: seq<Step>, a: string, b: string)
    requires IsHash(hash) && forall i :: 0 <= i < |steps| ==> Admissible(steps[i])
    ensures
      var files := Run(hash, EMPTY, steps).files;
      a in files && b in files && MediaIdOf(files[a]).Some? && MediaIdOf(files[a]) == MediaIdOf(files[b]) ==> a == b
  {
    hide MediaIdOf, IsHash, Admissible;
    InvRun(hash, EMPTY, steps);
    var s := Run(hash, EMPTY, steps);
    if a in s.files && b in s.files && MediaIdOf(s.files[a]).Some? && MediaIdOf(s.files[a]) == MediaIdOf(s.files[b]) {
      assert IsBookedNote(s.booked, MediaIdOf(s.files[a]).value, a);
      assert IsBookedNote(s.booked, MediaIdOf(s.files[b]).value, b);
    }
  }

  /**
   * After any run, ingesting a media id that some ingest wrote before (also one that then failed to
   * record its capture event) writes nothing: with the same hashes it returns the very note written
   * then, with any other it conflicts. A new media id is written, unless the surroundings fail.
   */
  lemma StrictlyIdempotent(hash: string -> string, steps: seq<Step>, q: Request, w: World)
    requires IsHash(hash) && forall i :: 0 <= i < |steps| ==> Admissible(steps[i])
    requires WellFormed(q)
    ensures
      var s := Run(hash, EMPTY, steps);
      var sha, fp := hash(q.transcript.value), hash(Trim(PointerOf(q).value, JsSpace));
      var (files, r) := Ingest(hash, s.files, q, w);
      if q.mediaId in s.booked then
        && files == s.files
        && r == if s.booked[q.mediaId].sha == sha && s.booked[q.mediaId].fp == fp
                then Ok(Ingested(s.booked[q.mediaId].noteId, true)) else Err(MediaIdConflict)
      else
        && r == (if w.handle.None? then Err(MediaReferenceFailed)
                 else if !w.writeOk || w.noteId in s.files || !w.eventOk then Err(CaptureFailed)
                 else Ok(Ingested(w.noteId, false)))
        && (files != s.files <==> w.handle.Some? && w.writeOk && w.noteId !in s.files)
        && (files != s.files ==> Next(hash, s, DoIngest(q, w)).booked == s.booked[q.mediaId := Booking(w.noteId, sha, fp)])
  {
    hide IsHash, Admissible, FindIn, IdsToScan, Inv, Print, WellFormed, Run, Ingest, PointerOf, Trim;
    var s := Run(hash, EMPTY, steps);
    InvEmpty();
    InvRun(hash, EMPTY, steps);
    assert IsMediaId(q.mediaId) && PointerOf(q).Some? && q.transcript.Ok? by { WellFormedMeans(q); }
    ScanFindsBooked(s, q.mediaId);
    IngestAnswers(hash, s.files, q, w);
    IngestWrites(hash, s.files, q, w);
  }

  /** What is refused before anything is looked up, and in which order; nothing is written then. */
  lemma IngestRefuses(hash: string -> string, files: map<string, string>, q: Request, w: World)
    ensures
      var (later, r) := Ingest(hash, files, q, w);
      var onePointer := q.publicRef.Some? <==> q.secretRef.None?;
      && (r == Err(BadMediaId) <==> !IsMediaId(q.mediaId))
      && (r == Err(BadArguments) <==> IsMediaId(q.mediaId) && !onePointer)
      && (r == Err(TranscriptRefused) <==> IsMediaId(q.mediaId) && onePointer && q.transcript.Err?)
      && (r in {Err(BadMediaId), Err(BadArguments), Err(TranscriptRefused), Err(MediaIdConflict), Err(MediaReferenceFailed)} ==> later == files)
  {
    hide FindIn, IdsToScan, Print, IsMediaId, NoteFor, Fingerprint;
  }

  /** The note an ingest writes holds the transcript verbatim and, read back, everything the request said. */
  lemma WrittenNote(hash: string -> string, files: map<string, string>, q: Request, w: World)
    requires Ingest(hash, files, q, w).0 != files && IsUlid(w.noteId)
    ensures
      var later := Ingest(hash, files, q, w).0;
      && w.handle.Some? && q.transcript.Ok? && (q.publicRef.Some? || q.secretRef.Some?) && w.noteId in later
      && var text, pointer, h := q.transcript.value, if q.publicRef.Some? then q.publicRef.value else q.secretRef.value, w.handle.value;
      && NoteOf(later[w.noteId])
         == RawNote(w.noteId, text, "transcript", w.now, q.title, [], None,
                    Some(Media(q.mediaId, hash(text), Some(hash(Trim(pointer, JsSpace))), h.refClass, h.ref, h.secref)))
  {
    hide FindIn, IdsToScan, Print, IsMediaId, NoteOf, IsUlid, Trim;
    IngestWrites(hash, files, q, w);
    NoteRoundTrip(Written(hash, q, w));
  }

  lemma WellFormedMeans(q: Request)
    requires WellFormed(q)
    ensures IsMediaId(q.mediaId) && PointerOf(q).Some? && q.transcript.Ok?
  {
  }

  /** A capture under a new id adds exactly that note, to be read back whole. */
  lemma CaptureKept(hash: string -> string, s: Ledger, n: RawNote)
    requires IsUlid(n.id) && n.id !in s.files
    ensures
      var t := Next(hash, s, DoCapture(n));
      t.booked == s.booked && t.files.Keys == s.files.Keys + {n.id} && NoteOf(t.files[n.id]) == n
  {
    hide Print, NoteOf, IsUlid, Ingest;
    NoteRoundTrip(n);
  }

  /** Another note under a new id adds exactly that file. */
  lemma OtherKept(hash: string -> string, s: Ledger, id: string, text: string)
    requires id !in s.files
    ensures Next(hash, s, OtherNote(id, text)) == Ledger(s.files[id := text], s.booked)
  {
  }

  /** Everything that was there is still there, unchanged. */
  predicate Extends(s: Ledger, t: Ledger) {
    && (forall id :: id in s.files ==> id in t.files && t.files[id] == s.files[id])
    && (forall m :: m in s.booked ==> m in t.booked && t.booked[m] == s.booked[m])
  }

  lemma NextExtends(hash: string -> string, s: Ledger, step: Step)
    requires IsHash(hash) && Inv(s) && Admissible(step)
    ensures Extends(s, Next(hash, s, step))
  {
    hide IsHash, Inv, Admissible, Print, Ingest, Written, BookingFor, Extends, WellFormed, FindIn, IdsToScan;
    match step
    case DoIngest(q, w) =>
      SameExtends(s);
      if Ingest(hash, s.files, q, w).0 != s.files {
        AdmissibleIngest(step);
        IngestBooks(hash, s, q, w);
        IngestWrites(hash, s.files, q, w);
        BookingExtends(s, w.noteId, Print(Written(hash, q, w)), q.mediaId, BookingFor(hash, q, w));
      }
    case DoCapture(n) =>
      SameExtends(s);
      if n.id !in s.files { FileExtends(s, n.id, Print(n)); }
    case OtherNote(id, text) =>
      SameExtends(s);
      if id !in s.files { FileExtends(s, id, text); }
  }

  lemma SameExtends(s: Ledger)
    ensures Extends(s, s)
  {
  }

  lemma FileExtends(s: Ledger, id: string, text: string)
    requires id !in s.files
    ensures Extends(s, s.(files := s.files[id := text]))
  {
  }

  lemma BookingExtends(s: Ledger, id: string, text: string, m: string, b: Booking)
    requires id !in s.files && m !in s.booked
    ensures Extends(s, Ledger(s.files[id := text], s.booked[m := b]))
  {
  }

  /** Files never disappear and never change; neither do bookings. */
  lemma {:induction false} NothingRewritten(hash: string -> string, s: Ledger, steps: seq<Step>)
    requires IsHash(hash) && Inv(s) && forall i :: 0 <= i < |steps| ==> Admissible(steps[i])
    ensures Extends(s, Run(hash, s, steps))
    decreases |steps|
  {
    hide IsHash, Inv, Admissible, Next;
    if steps != [] {
      InvStep(hash, s, steps[0]);
      NextExtends(hash, s, steps[0]);
      NothingRewritten(hash, Next(hash, s, steps[0]), steps[1..]);
    }
  }

  lemma AdmissibleIngest(step: Step)
    requires step.DoIngest? && Admissible(step)
    ensures Sane(step.w) && TitleClear(step.q.title)
  {
  }

  // ---------------------------------------------------------------- titles that defeat the ledger

  /**
   * The exact condition on the title. A fresh ingest with any title is followed by the same request:
   * that one is a no-op returning the first note if and only if the title masks none of the three keys.
   * If it masks the media id, a second note is written; if only one of the hashes, the repetition is
   * rejected as a conflict.
   */
  lemma TitleDecides(hash: string -> string, s: Ledger, q: Request, w: World, again: World)
    requires IsHash(hash) && Inv(s) && WellFormed(q) && Sane(w)
    requires q.mediaId !in s.booked && w.handle.Some? && w.writeOk && w.noteId !in s.files
    ensures
      var files := Ingest(hash, s.files, q, w).0;
      var (later, r) := Ingest(hash, files, q, again);
      && (r == Ok(Ingested(w.noteId, true)) <==> TitleClear(q.title))
      && (TitleMasks(q.title, MEDIA_ID) && again.handle.Some? && again.writeOk && again.noteId !in files ==>
            later == files[again.noteId := Print(Written(hash, q, again))])
      && (!TitleMasks(q.title, MEDIA_ID) ==> later == files)
      && (!TitleMasks(q.title, MEDIA_ID) && !TitleClear(q.title) ==> r == Err(MediaIdConflict))
  {
    hide IsHash, FindIn, IdsToScan, Print, IsMediaId, Sane, TitleMasks, Inv, Ingest, Written;
    var files := Ingest(hash, s.files, q, w).0;
    ScanFindsBooked(s, q.mediaId);
    IngestWrites(hash, s.files, q, w);
    ScanAfter(hash, s, q, w, files);
    IngestAnswers(hash, files, q, again);
    IngestWrites(hash, files, q, again);
  }

  /** What a scan for the media id finds right after the note was written. */
  lemma ScanAfter(hash: string -> string, s: Ledger, q: Request, w: World, files: map<string, string>)
    requires IsHash(hash) && Inv(s) && WellFormed(q) && Sane(w) && q.mediaId !in s.booked && w.handle.Some?
    requires w.noteId !in s.files && files == s.files[w.noteId := Print(Written(hash, q, w))]
    ensures
      var r := FindIn(files, IdsToScan(files), q.mediaId);
      && (r.Some? <==> !TitleMasks(q.title, MEDIA_ID))
      && (r.Some? ==> r.value.id == w.noteId)
      && (r.Some? ==> (r.value.sha == Some(hash(q.transcript.value)) <==> !TitleMasks(q.title, TRANSCRIPT_SHA)))
      && (r.Some? ==> (r.value.fp == Some(Fingerprint(hash, PointerOf(q).value)) <==> !TitleMasks(q.title, REF_FP)))
  {
    hide IsHash, FindIn, IdsToScan, Print, ReadMedia, GetOutput, IsMediaId, IsUlid, IsTimestamp, TitleMasks, Listed, Inv, NoteFor;
    WrittenReads(hash, q, PointerOf(q).value, q.transcript.value, w.handle.value, w);
    assert Written(hash, q, w).id == w.noteId by { WrittenId(hash, q, w); }
    PrintedListed(files, Written(hash, q, w));
    ScanSound(files, q.mediaId);
    var r := FindIn(files, IdsToScan(files), q.mediaId);
    if r.Some? && r.value.id != w.noteId {
      OldDiffers(s, r.value.id, q.mediaId);
    }
  }

  lemma WrittenId(hash: string -> string, q: Request, w: World)
    requires WellFormed(q) && w.handle.Some?
    ensures Written(hash, q, w).id == w.noteId
  {
  }

  lemma OldDiffers(s: Ledger, x: string, m: string)
    requires Inv(s) && x in s.files && m !in s.booked
    ensures MediaIdOf(s.files[x]) != Some(m)
  {
    hide MediaIdOf;
    assert MediaIdOf(s.files[x]).Some? ==> IsBookedNote(s.booked, MediaIdOf(s.files[x]).value, x);
  }

  lemma IngestAnswers(hash: string -> string, files: map<string, string>, q: Request, w: World)
    requires WellFormed(q)
    ensures
      var (later, r) := Ingest(hash, files, q, w);
      var e := FindIn(files, IdsToScan(files), q.mediaId);
      && (e.Some? ==> later == files)
      && (e.Some? && e.value.sha == Some(hash(q.transcript.value)) && e.value.fp == Some(Fingerprint(hash, PointerOf(q).value)) ==>
            r == Ok(Ingested(e.value.id, true)))
      && (e.Some? && (e.value.sha != Some(hash(q.transcript.value)) || e.value.fp != Some(Fingerprint(hash, PointerOf(q).value))) ==>
            r == Err(MediaIdConflict))
      && (e.None? ==>
            r == if w.handle.None? then Err(MediaReferenceFailed)
                 else if !w.writeOk || w.noteId in files || !w.eventOk then Err(CaptureFailed)
                 else Ok(Ingested(w.noteId, false)))
  {
    hide FindIn, IdsToScan, Print, IsMediaId;
  }

  /** Such titles exist: the key itself, and one whose tab is printed as an escape that completes a key. */
  lemma MaskingTitles()
    ensures TitleMasks(Some("media_id:"), MEDIA_ID)
    ensures TitleMasks(Some("\transcript_sha256:"), TRANSCRIPT_SHA)
  {
    hide Escape, Hides, EscapeChar;
    assert Escape(MEDIA_ID) == MEDIA_ID by { assert forall i :: 0 <= i < |MEDIA_ID| ==> PlainChar(MEDIA_ID[i]); EscapeSame(MEDIA_ID); }
    WholeKeyHides(MEDIA_ID);
    TabTitle();
    WholeKeyHides(TRANSCRIPT_SHA);
    BehindBackslash(TRANSCRIPT_SHA);
  }

  lemma TabTitle()
    ensures Escape("\transcript_sha256:") == "\\" + TRANSCRIPT_SHA
  {
    hide Escape, EscapeChar;
    var t := "ranscript_sha256:";
    assert forall i :: 0 <= i < |t| ==> PlainChar(t[i]);
    EscapeSame(t);
    TabEscapes(t);
    assert "\t" + t == "\transcript_sha256:";
    assert "\\t" + t == "\\" + TRANSCRIPT_SHA;
  }

  lemma WholeKeyHides(pattern: string)
    requires pattern != ""
    ensures Hides(true, pattern, pattern)
  {
    assert pattern[|pattern|..] == "";
  }

  lemma BehindBackslash(pattern: string)
    requires Hides(true, pattern, pattern)
    ensures Hides(true, "\\" + pattern, pattern)
  {
    assert ("\\" + pattern)[1..] == pattern;
  }

  lemma TabEscapes(t: string)
    ensures Escape("\t" + t) == "\\t" + Escape(t)
  {
    assert ("\t" + t)[1..] == t;
  }
}
