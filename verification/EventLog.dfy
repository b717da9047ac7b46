/** The memory event stream: a text file of JSON lines that is only ever appended to, and its reader. */
module EventLog {
  import opened Wrappers
  import opened Text
  import opened Json
  import opened Lists
  import opened Projector
  import opened Ulid

  /** `recorded_at` and the schema version are written but not read back into events. */
  datatype Draft = Draft(event: Event, recordedAt: string)

  const SCHEMA_VERSION := "1.0.0"
  const MEMORY_KINDS := ["note_created", "note_updated", "fact_added", "fact_superseded", "entity_merged", "distillation_accepted"]

  // ---------------------------------------------------------------- validation

  predicate NameChar(c: char) {
    'a' <= c <= 'z' || '0' <= c <= '9'
  }

  predicate IsName(s: string) {
    s != "" && NameChar(s[0]) && forall i :: 0 <= i < |s| ==> NameChar(s[i]) || s[i] == '-'
  }

  /** The actor pattern: a human, the CLI, or a named skill or sidecar. */
  predicate IsActor(s: string) {
    || s == "human" || s == "cli"
    || ("skill:" <= s && IsName(s[6..]))
    || ("sidecar:" <= s && IsName(s[8..]))
  }

  /**
   * The first field the validator rejects. Whether a text is a date is left to `Date.parse`; the stream
   * and the version are filled in by the append and always pass.
   */
  function Problem(isDate: string -> bool, d: Draft): Option<string> {
    var e := d.event;
    if !IsUlid(e.eventId) then Some("event_id")
    else if e.kind !in MEMORY_KINDS then Some("kind")
    else if e.occurredAt == "" || !isDate(e.occurredAt) then Some("occurred_at")
    else if !IsActor(e.actor) then Some("actor")
    else if !IsUlid(e.subjectId) then Some("subject_id")
    else if d.recordedAt == "" || !isDate(d.recordedAt) then Some("recorded_at")
    else if e.sourceRef.Some? && !IsUlid(e.sourceRef.value) then Some("source_ref")
    else None
  }

  /** What a draft must be to pass, and which field is named when it is not: the first that fails. */
  lemma ProblemFirst(isDate: string -> bool, d: Draft)
    ensures
      var e, p := d.event, Problem(isDate, d);
      var id, subject := IsUlid(e.eventId), IsUlid(e.subjectId);
      var kind := e.kind in MEMORY_KINDS;
      var occurred, recorded := e.occurredAt != "" && isDate(e.occurredAt), d.recordedAt != "" && isDate(d.recordedAt);
      var source := e.sourceRef.Some? ==> IsUlid(e.sourceRef.value);
      && (p.None? <==> id && kind && occurred && IsActor(e.actor) && subject && recorded && source)
      && (p == Some("event_id") <==> !id)
      && (p == Some("kind") <==> id && !kind)
      && (p == Some("occurred_at") <==> id && kind && !occurred)
      && (p == Some("actor") <==> id && kind && occurred && !IsActor(e.actor))
      && (p == Some("subject_id") <==> id && kind && occurred && IsActor(e.actor) && !subject)
      && (p == Some("recorded_at") <==> id && kind && occurred && IsActor(e.actor) && subject && !recorded)
      && (p == Some("source_ref") <==> id && kind && occurred && IsActor(e.actor) && subject && recorded && !source)
  {
    hide IsUlid, IsActor;
  }

  // ---------------------------------------------------------------- events as JSON

  function ToJson(d: Draft): Json {
    var e := d.event;
    var base: Object := map[
      "event_id" := JString(e.eventId), "stream" := JString("memory"), "kind" := JString(e.kind),
      "occurred_at" := JString(e.occurredAt), "recorded_at" := JString(d.recordedAt), "actor" := JString(e.actor),
      "subject_id" := JString(e.subjectId), "schema_version" := JString(SCHEMA_VERSION)];
    var sourced := if e.sourceRef.Some? then base["source_ref" := JString(e.sourceRef.value)] else base;
    JObject(if e.payload.Some? then sourced["payload" := JObject(e.payload.value)] else sourced)
  }

  /** The parsed object taken for an event, as the reader does without checks. */
  function FromJson(j: Json): Event {
    var o := if j.JObject? then j.fields else map[];
    Event(TextOr(o, "event_id"),
          if TextOr(o, "stream") == "memory" then MemoryStream else if TextOr(o, "stream") == "capture" then CaptureStream else ProjectionStream,
          TextOr(o, "kind"), TextOr(o, "occurred_at"), TextOr(o, "actor"), TextOr(o, "subject_id"),
          if "source_ref" in o && o["source_ref"].JString? then Some(o["source_ref"].s) else None,
          if "payload" in o && o["payload"].JObject? then Some(o["payload"].fields) else None)
  }

  lemma FromToJson(d: Draft)
    requires d.event.stream == MemoryStream
    ensures FromJson(ToJson(d)) == d.event
  {
  }

  /** The time of recording and the schema version are on the line too. */
  lemma AlsoWritten(d: Draft)
    ensures
      var j := ToJson(d);
      && j.JObject? && "recorded_at" in j.fields && j.fields["recorded_at"] == JString(d.recordedAt)
      && "schema_version" in j.fields && j.fields["schema_version"] == JString("1.0.0")
  {
  }

  // ---------------------------------------------------------------- the file

  /** The lines that hold something, parsed; one line that is no JSON makes the whole read fail. */
  function ParseLines(codec: Codec, lines: seq<string>): Option<seq<Event>> {
    if lines == [] then Some([])
    else if lines[0] == "" then ParseLines(codec, lines[1..])
    else
      var j, rest := codec.parse(lines[0]), ParseLines(codec, lines[1..]);
      if j.None? || rest.None? then None else Some([FromJson(j.value)] + rest.value)
  }

  /** `readMemoryEvents`: split at newlines, drop the empty pieces, parse. */
  function Read(codec: Codec, text: string): Option<seq<Event>> {
    ParseLines(codec, Lines(text) + [Rest(text)])
  }

  predicate NotEmpty(line: string) {
    line != ""
  }

  /** An event for each line, unless one of them is no JSON. */
  predicate ReadAs(codec: Codec, kept: seq<string>, read: Option<seq<Event>>) {
    match read
    case None => exists i :: 0 <= i < |kept| && codec.parse(kept[i]).None?
    case Some(events) =>
      |events| == |kept| && forall i :: 0 <= i < |kept| ==> codec.parse(kept[i]).Some? && events[i] == FromJson(codec.parse(kept[i]).value)
  }

  /** What any lines read as: those that are not empty give the events, in order, and one that is no JSON fails the read. */
  lemma {:induction false} ParseLinesMeans(codec: Codec, lines: seq<string>)
    ensures ReadAs(codec, Filter(lines, NotEmpty), ParseLines(codec, lines))
  {
    hide ReadAs, FromJson;
    if lines == [] {
      ReadsNothing(codec);
    } else {
      ParseLinesMeans(codec, lines[1..]);
      var more := Filter(lines[1..], NotEmpty);
      if lines[0] == "" {
        assert [] + more == more;
      } else {
        ReadsOneMore(codec, lines[0], more, ParseLines(codec, lines[1..]));
      }
    }
  }

  lemma ReadsNothing(codec: Codec)
    ensures ReadAs(codec, [], Some([]))
  {
  }

  lemma ReadsOneMore(codec: Codec, line: string, more: seq<string>, rest: Option<seq<Event>>)
    requires ReadAs(codec, more, rest)
    ensures
      var j := codec.parse(line);
      ReadAs(codec, [line] + more, if j.None? || rest.None? then None else Some([FromJson(j.value)] + rest.value))
  {
    hide FromJson;
    var kept := [line] + more;
    assert kept[0] == line && forall i :: 0 <= i < |more| ==> kept[i + 1] == more[i];
  }

  function LineOf(codec: Codec, d: Draft): string {
    codec.stringify(ToJson(d))
  }

  function LinesOf(codec: Codec, ds: seq<Draft>): seq<string> {
    seq(|ds|, i requires 0 <= i < |ds| => LineOf(codec, ds[i]))
  }

  function Events(ds: seq<Draft>): seq<Event> {
    seq(|ds|, i requires 0 <= i < |ds| => ds[i].event)
  }

  datatype AppendError = InvalidField(field: string) | AppendFailed

  class MemoryStreamFile {
    const codec: Codec
    const isDate: string -> bool
    var text: string
    ghost var appended: seq<Draft>

    ghost predicate Valid()
      reads this
    {
      && codec.LawfulAlone() && text == Unlines(LinesOf(codec, appended))
      && forall i :: 0 <= i < |appended| ==> appended[i].event.stream == MemoryStream && Problem(isDate, appended[i]).None?
    }

    constructor (codec: Codec, isDate: string -> bool)
      requires codec.LawfulAlone()
      ensures Valid() && this.codec == codec && this.isDate == isDate && appended == []
    {
      this.codec, this.isDate, text, appended := codec, isDate, "", [];
    }

    /** Validate, then append one line; nothing that was there is rewritten, and an error appends nothing. */
    method Append(d: Draft, diskOk: bool) returns (r: Result<string, AppendError>)
      requires Valid() && d.event.stream == MemoryStream
      modifies this
      ensures Valid()
      ensures r == if Problem(isDate, d).Some? then Err(InvalidField(Problem(isDate, d).value))
                   else if !diskOk then Err(AppendFailed) else Ok(d.event.eventId)
      ensures text == if r.Ok? then old(text) + LineOf(codec, d) + "\n" else old(text)
      ensures appended == if r.Ok? then old(appended) + [d] else old(appended)
    {
      hide ToJson, Problem;
      var problem := Problem(isDate, d);
      if problem.Some? { return Err(InvalidField(problem.value)); }
      var line := codec.stringify(ToJson(d)) + "\n";
      if !diskOk { return Err(AppendFailed); }
      AppendedText(codec, appended, d);
      text := text + line;
      appended := appended + [d];
      assert text == old(text) + LineOf(codec, d) + "\n";
      return Ok(d.event.eventId);
    }

    /** Reading gives back every event appended so far, in order. */
    method ReadAll() returns (events: Option<seq<Event>>)
      requires Valid()
      ensures events == Some(Events(appended))
    {
      ReadsBack(codec, appended);
      events := Read(codec, text);
    }
  }

  lemma AppendedText(codec: Codec, ds: seq<Draft>, d: Draft)
    ensures Unlines(LinesOf(codec, ds + [d])) == Unlines(LinesOf(codec, ds)) + (LineOf(codec, d) + "\n")
  {
    hide LineOf;
    assert LinesOf(codec, ds + [d]) == LinesOf(codec, ds) + [LineOf(codec, d)];
    UnlinesAppend(LinesOf(codec, ds), [LineOf(codec, d)]);
  }

  /** The file written by any sequence of appends is read back as exactly that sequence. */
  lemma ReadsBack(codec: Codec, ds: seq<Draft>)
    requires codec.LawfulAlone() && forall i :: 0 <= i < |ds| ==> ds[i].event.stream == MemoryStream
    ensures Read(codec, Unlines(LinesOf(codec, ds))) == Some(Events(ds))
  {
    hide ToJson, ParseLines, OneLine, Lines, Rest;
    var lines := LinesOf(codec, ds);
    forall i | 0 <= i < |lines| ensures '\n' !in lines[i] { LineSound(codec, ds[i]); }
    assert Unlines(lines) + "" == Unlines(lines);
    FramingUnique(lines, "");
    ParsesBack(codec, ds);
  }

  lemma LineSound(codec: Codec, d: Draft)
    requires codec.LawfulAlone()
    ensures '\n' !in LineOf(codec, d) && LineOf(codec, d) != "" && codec.parse(LineOf(codec, d)) == Some(ToJson(d))
  {
    hide ToJson;
    assert OneLine(codec.stringify(ToJson(d)));
  }

  lemma {:induction false} ParsesBack(codec: Codec, ds: seq<Draft>)
    requires codec.LawfulAlone() && forall i :: 0 <= i < |ds| ==> ds[i].event.stream == MemoryStream
    ensures ParseLines(codec, LinesOf(codec, ds) + [""]) == Some(Events(ds))
  {
    hide ToJson, FromJson, LineOf;
    if ds == [] {
      assert LinesOf(codec, ds) + [""] == [""] && [""][1..] == [];
    } else {
      var lines := LinesOf(codec, ds) + [""];
      LineSound(codec, ds[0]);
      FromToJson(ds[0]);
      ParsesBack(codec, ds[1..]);
      assert lines[1..] == LinesOf(codec, ds[1..]) + [""];
      assert Events(ds) == [ds[0].event] + Events(ds[1..]);
    }
  }
}
