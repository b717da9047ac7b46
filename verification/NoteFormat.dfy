/** Printing a raw note, and the scanners that read its frontmatter back. */
module NoteFormat {
  import opened Wrappers
  import opened Text
  import opened JsonString
  import opened Ulid

  datatype Media = Media(
    mediaId: string, transcriptSha256: string, mediaRefFp: Option<string>, refClass: string,
    ref: Option<string>, secref: Option<string>)

  datatype RawNote = RawNote(
    id: string, content: string, source: string, createdAt: string, title: Option<string>,
    tags: seq<string>, ref: Option<string>, media: Option<Media>)

  // ---------------------------------------------------------------- reading a printed scalar

  /** `unquote`: a value that starts with a quote is parsed, and kept as it is when that fails. */
  function Unquote(value: string): string {
    if value != "" && value[0] == '"' then ParseBody(value[1..]).GetOr(value) else value
  }

  // ---------------------------------------------------------------- printing

  function OptLine(start: string, value: Option<string>): seq<string> {
    if value.Some? then [start + Quote(value.value)] else []
  }

  function MediaLines(m: Media): seq<string> {
    ["media:", "  media_id: " + Quote(m.mediaId), "  transcript_sha256: " + Quote(m.transcriptSha256)]
    + OptLine("  media_ref_fp: ", m.mediaRefFp)
    + ["  ref_class: " + Quote(m.refClass)]
    + OptLine("  ref: ", m.ref) + OptLine("  secref: ", m.secref)
  }

  function TagLines(tags: seq<string>): seq<string> {
    seq(|tags|, i requires 0 <= i < |tags| => "  - " + Quote(tags[i]))
  }

  /** The lines up to and with the title. */
  function HeadLines(n: RawNote): seq<string> {
    ["id: " + n.id, "type: raw", "layer: 0"] + OptLine("title: ", n.title)
  }

  /** The lines after the title. */
  function TailLines(n: RawNote): seq<string> {
    ["created: " + Quote(n.createdAt), "source:", "  kind: " + Quote(n.source)]
    + OptLine("  ref: ", n.ref)
    + (if n.media.Some? then MediaLines(n.media.value) else [])
    + (if n.tags == [] then [] else ["tags:"] + TagLines(n.tags))
  }

  /** The lines between the two fences. */
  function Inner(n: RawNote): seq<string> {
    HeadLines(n) + TailLines(n)
  }

  method PushMedia(before: seq<string>, m: Media) returns (lines: seq<string>)
    ensures lines == before + MediaLines(m)
  {
    hide Quote;
    lines := ["media:", "  media_id: " + Quote(m.mediaId), "  transcript_sha256: " + Quote(m.transcriptSha256)];
    if m.mediaRefFp.Some? { lines := lines + ["  media_ref_fp: " + Quote(m.mediaRefFp.value)]; }
    lines := lines + ["  ref_class: " + Quote(m.refClass)];
    if m.ref.Some? { lines := lines + ["  ref: " + Quote(m.ref.value)]; }
    if m.secref.Some? { lines := lines + ["  secref: " + Quote(m.secref.value)]; }
    assert lines == MediaLines(m);
    lines := before + lines;
  }

  method PushTags(before: seq<string>, tags: seq<string>) returns (lines: seq<string>)
    ensures lines == before + ["tags:"] + TagLines(tags)
  {
    hide Quote;
    var base := before + ["tags:"];
    lines := base;
    for i := 0 to |tags|
      invariant lines == base + TagLines(tags)[..i]
    {
      assert TagLines(tags)[..i + 1] == TagLines(tags)[..i] + ["  - " + Quote(tags[i])];
      lines := lines + ["  - " + Quote(tags[i])];
    }
    assert TagLines(tags)[..|tags|] == TagLines(tags);
  }

  method PushOpt(before: seq<string>, start: string, value: Option<string>) returns (lines: seq<string>)
    ensures lines == before + OptLine(start, value)
  {
    hide Quote;
    lines := before;
    if value.Some? { lines := lines + [start + Quote(value.value)]; }
  }

  method PushHead(n: RawNote) returns (lines: seq<string>)
    ensures lines == ["---"] + HeadLines(n)
  {
    hide Quote, OptLine;
    lines := PushOpt(["---", "id: " + n.id, "type: raw", "layer: 0"], "title: ", n.title);
    assert lines == ["---"] + (["id: " + n.id, "type: raw", "layer: 0"] + OptLine("title: ", n.title));
  }

  method PushTail(before: seq<string>, n: RawNote) returns (lines: seq<string>)
    ensures lines == before + TailLines(n)
  {
    hide Quote, OptLine, MediaLines, TagLines;
    ghost var a, b := ["created: " + Quote(n.createdAt), "source:", "  kind: " + Quote(n.source)], OptLine("  ref: ", n.ref);
    ghost var c := if n.media.Some? then MediaLines(n.media.value) else [];
    ghost var d := if n.tags == [] then [] else ["tags:"] + TagLines(n.tags);
    lines := before + ["created: " + Quote(n.createdAt), "source:", "  kind: " + Quote(n.source)];
    lines := PushOpt(lines, "  ref: ", n.ref);
    if n.media.Some? { lines := PushMedia(lines, n.media.value); }
    assert lines == before + a + b + c;
    if n.tags != [] { lines := PushTags(lines, n.tags); }
    assert lines == before + a + b + c + d by { ConcatAssoc(before + a + b + c, ["tags:"], TagLines(n.tags)); }
    TailParts(before, a, b, c, d);
  }

  lemma TailParts(before: seq<string>, a: seq<string>, b: seq<string>, c: seq<string>, d: seq<string>)
    ensures before + a + b + c + d == before + (a + b + c + d)
  {
  }

  method BuildFrontmatter(n: RawNote) returns (frontmatter: string)
    ensures frontmatter == Join(["---"] + Inner(n) + ["---"], "\n")
  {
    hide Join, HeadLines, TailLines;
    var lines := PushHead(n);
    lines := PushTail(lines, n);
    lines := lines + ["---"];
    ConcatAssoc(["---"], HeadLines(n), TailLines(n));
    frontmatter := Join(lines, "\n");
  }

  /** The whole file: frontmatter, one blank line, the content verbatim. */
  function Print(n: RawNote): string {
    Join(["---"] + Inner(n) + ["---"], "\n") + "\n\n" + n.content
  }

  // ---------------------------------------------------------------- scanning

  /** `indexOf(pattern)`: the first position the pattern occurs at, or -1. */
  function Find(s: string, pattern: string): (i: int)
    ensures -1 <= i <= |s|
    ensures i >= 0 ==> pattern <= s[i..]
  {
    if pattern <= s then 0
    else if s == "" then -1
    else
      var i := Find(s[1..], pattern);
      if i == -1 then -1 else i + 1
  }

  /** `indexOf(pattern, from)`. */
  function FindFrom(s: string, pattern: string, from: nat): (i: int)
    ensures i == -1 || (from <= i <= |s| && pattern <= s[i..])
  {
    if from > |s| then -1
    else
      var i := Find(s[from..], pattern);
      if i == -1 then -1 else from + i
  }

  const FENCE := "\n---"

  predicate Opens(text: string) {
    "---\n" <= text
  }

  /** Where `read-notes` and `frontmatter` see the closing fence. */
  function ClosingFence(text: string): int {
    if Opens(text) then FindFrom(text, FENCE, 4) else -1
  }

  /** The line reader's block; empty when there is none. */
  function FrontmatterBlock(text: string): string {
    var e := ClosingFence(text);
    if e == -1 then "" else text[4..e]
  }

  /** `parseFrontmatter` apart from the YAML parser: the block it hands over and the body. */
  function SplitTs(text: string): Option<(string, string)> {
    var e := ClosingFence(text);
    if e == -1 then None
    else
      var after := text[e + 4..];
      Some((text[4..e], if after != "" && after[0] == '\n' then after[1..] else after))
  }

  /** The sidecar's `split_frontmatter`. */
  function SplitPy(text: string): (string, string) {
    if !Opens(text) && text != "---" then ("", text)
    else
      var end := FindFrom(text, FENCE, 4);
      if end == -1 then ("", text)
      else
        var after := FindFrom(text, "\n", end + 1);
        (text[4..end], if after == -1 then "" else text[after + 1..])
  }

  // ---------------------------------------------------------------- the line reader

  /** The characters `.` does not match and `^`, `$` stop at. */
  predicate LineEnd(c: char) {
    c == '\n' || c == '\r' || c == '\U{2028}' || c == '\U{2029}'
  }

  predicate OneJsLine(s: string) {
    forall i :: 0 <= i < |s| ==> !LineEnd(s[i])
  }

  /** The stretches between line ends. */
  function JsLines(s: string): seq<string> {
    if s == "" then [""]
    else if LineEnd(s[0]) then [""] + JsLines(s[1..])
    else
      var ls := JsLines(s[1..]);
      [[s[0]] + ls[0]] + ls[1..]
  }

  /** `field`: the first line that starts with the key and a colon and goes on; trimmed. */
  function FieldOf(lines: seq<string>, key: string): Option<string> {
    if lines == [] then None
    else if key + ":" < lines[0] then Some(Trim(lines[0][|key| + 1..], JsSpace))
    else FieldOf(lines[1..], key)
  }

  function Field(block: string, key: string): Option<string> {
    FieldOf(JsLines(block), key)
  }

  datatype Summary = Summary(id: string, kind: Option<string>, title: Option<string>, layer: Option<nat>)

  predicate AllDigits(s: string) {
    s != "" && forall i :: 0 <= i < |s| ==> '0' <= s[i] <= '9'
  }

  function Number(s: string): nat
    requires AllDigits(s)
  {
    if |s| == 1 then s[0] as nat - '0' as nat
    else
      assert AllDigits(s[..|s| - 1]);
      10 * Number(s[..|s| - 1]) + (s[|s| - 1] as nat - '0' as nat)
  }

  /** The ULID a file name starts with. */
  function FileId(name: string): Option<string> {
    if |name| >= 26 && IsUlid(name[..26]) then Some(name[..26]) else None
  }

  function RawFilename(id: string, slug: Option<string>): string {
    if slug.Some? then id + "--" + slug.value + ".md" else id + ".md"
  }

  method Summarize(name: string, text: string) returns (summary: Summary)
    ensures summary == SummaryOf(name, text)
  {
    var block := FrontmatterBlock(text);
    var fileId := FileId(name);
    var id := if fileId.Some? then fileId.value else Field(block, "id").GetOr(name);
    var kind := Field(block, "type");
    var titleRaw := Field(block, "title");
    var title := if titleRaw.Some? then Some(Unquote(titleRaw.value)) else None;
    var layerRaw := Field(block, "layer");
    summary := Summary(id, None, None, None);
    if kind.Some? { summary := summary.(kind := kind); }
    if title.Some? { summary := summary.(title := title); }
    if layerRaw.Some? && AllDigits(layerRaw.value) { summary := summary.(layer := Some(Number(layerRaw.value))); }
  }

  function SummaryOf(name: string, text: string): Summary {
    var block := FrontmatterBlock(text);
    var title, layer := Field(block, "title"), Field(block, "layer");
    Summary(
      FileId(name).GetOr(Field(block, "id").GetOr(name)),
      Field(block, "type"),
      if title.Some? then Some(Unquote(title.value)) else None,
      if layer.Some? && AllDigits(layer.value) then Some(Number(layer.value)) else None)
  }

  // ---------------------------------------------------------------- scalars read back

  /** Every string is read back from its printed form. */
  lemma UnquoteQuote(s: string)
    ensures Unquote(Quote(s)) == s
  {
    EscapeParses(s);
    assert Quote(s)[1..] == Escape(s) + "\"";
  }

  // ---------------------------------------------------------------- the printed lines

  /** No control characters; a line separator only when the source has one. */
  lemma {:induction false} EscapeClean(s: string)
    ensures forall c :: c in Escape(s) ==> c >= ' '
    ensures SeparatorFree(s) ==> OneJsLine(Escape(s))
  {
    if s != "" {
      EscapeClean(s[1..]);
      EscapeCharClean(s[0]);
      assert SeparatorFree(s) ==> SeparatorFree(s[1..]) && !Separator(s[0]);
    }
  }

  /** The line ends that JSON strings may hold unescaped. */
  predicate Separator(c: char) {
    c == '\U{2028}' || c == '\U{2029}'
  }

  predicate SeparatorFree(s: string) {
    forall i :: 0 <= i < |s| ==> !Separator(s[i])
  }

  lemma EscapeCharClean(c: char)
    ensures forall i :: 0 <= i < |EscapeChar(c)| ==> EscapeChar(c)[i] >= ' '
    ensures !Separator(c) ==> OneJsLine(EscapeChar(c))
  {
    if c < ' ' {
      HexDigitClean(c as nat / 16);
      HexDigitClean(c as nat % 16);
    }
  }

  lemma HexDigitClean(n: nat)
    requires n < 16
    ensures ' ' < HEX[n] < '\U{7f}'
  {
  }

  /** A line that cannot be taken for a fence: not empty, not starting with a dash, no newline. */
  predicate PlainLine(line: string) {
    line != "" && line[0] != '-' && '\n' !in line
  }

  predicate PlainLines(lines: seq<string>) {
    forall i :: 0 <= i < |lines| ==> PlainLine(lines[i])
  }

  lemma LabelledPlain(start: string, value: string)
    requires PlainLine(start)
    ensures PlainLine(start + Quote(value))
  {
    EscapeClean(value);
  }

  lemma MediaPlain(m: Media)
    ensures PlainLines(MediaLines(m))
  {
    hide Quote;
    LabelledPlain("  media_id: ", m.mediaId);
    LabelledPlain("  transcript_sha256: ", m.transcriptSha256);
    if m.mediaRefFp.Some? { LabelledPlain("  media_ref_fp: ", m.mediaRefFp.value); }
    LabelledPlain("  ref_class: ", m.refClass);
    if m.ref.Some? { LabelledPlain("  ref: ", m.ref.value); }
    if m.secref.Some? { LabelledPlain("  secref: ", m.secref.value); }
  }

  lemma TailPlain(n: RawNote)
    ensures PlainLines(TailLines(n))
  {
    hide Quote, MediaLines;
    LabelledPlain("created: ", n.createdAt);
    LabelledPlain("  kind: ", n.source);
    if n.ref.Some? { LabelledPlain("  ref: ", n.ref.value); }
    if n.media.Some? { MediaPlain(n.media.value); }
    forall i | 0 <= i < |n.tags| ensures PlainLine(TagLines(n.tags)[i]) { LabelledPlain("  - ", n.tags[i]); }
  }

  lemma HeadPlain(n: RawNote)
    requires IsUlid(n.id)
    ensures PlainLines(HeadLines(n))
  {
    hide Quote;
    assert forall i :: 0 <= i < 26 ==> IsCrockford(n.id[i]);
    assert '\n' !in n.id;
    if n.title.Some? { LabelledPlain("title: ", n.title.value); }
  }

  // ---------------------------------------------------------------- the fence

  lemma FindShift(c: char, u: string)
    requires c != '\n' || (u != "" && u[0] != '-')
    ensures Find([c] + u, FENCE) == if Find(u, FENCE) == -1 then -1 else Find(u, FENCE) + 1
  {
    var s := [c] + u;
    assert s[0] == c && s[1..] == u;
    assert u != "" ==> s[1] == u[0];
    assert FENCE[0] == '\n' && FENCE[1] == '-';
    assert !(FENCE <= s);
  }

  /** A line without a newline holds no fence; the search goes on behind it. */
  lemma {:induction false} FindSkipsLine(line: string, t: string)
    requires '\n' !in line && t != "" && t[0] != '-'
    ensures Find(line + "\n" + t, FENCE) == if Find(t, FENCE) == -1 then -1 else |line| + 1 + Find(t, FENCE)
  {
    hide Find;
    if line == "" {
      assert line + "\n" + t == ['\n'] + t;
      FindShift('\n', t);
    } else {
      assert line + "\n" + t == [line[0]] + (line[1..] + "\n" + t);
      FindShift(line[0], line[1..] + "\n" + t);
      FindSkipsLine(line[1..], t);
    }
  }

  lemma {:induction false} FindsFence(line: string, rest: string)
    requires '\n' !in line
    ensures Find(line + FENCE + rest, FENCE) == |line|
  {
    if line != "" {
      hide Find;
      assert line + FENCE + rest == [line[0]] + (line[1..] + FENCE + rest);
      FindShift(line[0], line[1..] + FENCE + rest);
      FindsFence(line[1..], rest);
    } else {
      assert line + FENCE + rest == FENCE + rest;
    }
  }

  /** Among plain lines followed by a fence, that fence is the first. */
  lemma {:induction false} FirstFence(lines: seq<string>, rest: string)
    requires PlainLines(lines) && lines != []
    ensures Find(Join(lines, "\n") + FENCE + rest, FENCE) == |Join(lines, "\n")|
  {
    hide Find;
    if |lines| == 1 {
      FindsFence(lines[0], rest);
    } else {
      var more := lines[1..];
      var t := Join(more, "\n") + FENCE + rest;
      FirstFence(more, rest);
      JoinStarts(more);
      assert t[0] == more[0][0];
      assert Join(lines, "\n") + FENCE + rest == lines[0] + "\n" + t;
      FindSkipsLine(lines[0], t);
    }
  }

  lemma JoinStarts(lines: seq<string>)
    requires lines != []
    ensures lines[0] <= Join(lines, "\n")
  {
  }

  function Block(n: RawNote): string {
    Join(Inner(n), "\n")
  }

  /** The file is the opening fence, the block, the closing fence, a blank line and the content. */
  lemma PrintShape(n: RawNote)
    ensures Print(n) == "---\n" + (Block(n) + FENCE + ("\n\n" + n.content))
  {
    hide HeadLines, TailLines, Join;
    var inner := Inner(n);
    JoinAppendOne(["---"] + inner, "\n", "---");
    HeadNonEmpty(n);
    JoinCons("---", inner);
  }

  lemma HeadNonEmpty(n: RawNote)
    ensures HeadLines(n) != []
  {
  }

  /** The first closing fence found is the printed one. */
  lemma PrintedFence(n: RawNote)
    requires IsUlid(n.id)
    ensures Opens(Print(n)) && ClosingFence(Print(n)) == 4 + |Block(n)| <= |Print(n)|
    ensures Print(n)[4..4 + |Block(n)|] == Block(n)
    ensures Print(n)[4 + |Block(n)|..] == FENCE + ("\n\n" + n.content)
  {
    hide HeadLines, TailLines, Print, Find, Join;
    PrintShape(n);
    HeadPlain(n);
    TailPlain(n);
    HeadNonEmpty(n);
    FirstFence(Inner(n), "\n\n" + n.content);
    var t := Block(n) + FENCE + ("\n\n" + n.content);
    assert Print(n)[4..] == t;
    assert t[..|Block(n)|] == Block(n);
    assert t[|Block(n)|..] == FENCE + ("\n\n" + n.content);
  }

  /** Both parsers give the printed block, and the body as one newline and the verbatim content. */
  lemma BodiesVerbatim(n: RawNote)
    requires IsUlid(n.id)
    ensures FrontmatterBlock(Print(n)) == Block(n)
    ensures SplitTs(Print(n)) == Some((Block(n), "\n" + n.content))
    ensures SplitPy(Print(n)) == (Block(n), "\n" + n.content)
  {
    hide *;
    PrintedFence(n);
    var text, e := Print(n), 4 + |Block(n)|;
    assert "\n\n" + n.content == "\n" + ("\n" + n.content);
    BehindFence(text, e, "\n" + n.content);
    SplittersAgree(text);
    SplitTsForm(text, e);
    FenceFound(text);
  }

  lemma BehindFence(text: string, e: nat, body: string)
    requires e <= |text| && text[e..] == FENCE + ("\n" + body)
    ensures e + 5 <= |text| && text[e + 4] == '\n' && text[e + 5..] == body
    ensures var tail := text[e + 1..]; |tail| > 3 && tail[3] == '\n' && tail[4..] == body
  {
    assert forall k :: 0 <= k < |body| + 5 ==> text[e + k] == (FENCE + ("\n" + body))[k];
    assert |text| == e + 5 + |body|;
  }

  /**
   * On any text the scanners find the same block; they agree on the body exactly when the closing fence
   * is a line of three dashes, that is, when it ends the text or is followed by a newline.
   */
  lemma SplittersAgree(text: string)
    requires ClosingFence(text) != -1
    ensures
      var e, ts, py := ClosingFence(text), SplitTs(text).value, SplitPy(text);
      && ts.0 == py.0 == FrontmatterBlock(text)
      && (ts.1 == py.1 <==> e + 4 == |text| || text[e + 4] == '\n')
  {
    hide *;
    var e := ClosingFence(text);
    FenceFound(text);
    FenceTail(text, e);
    var tail := text[e + 1..];
    FindNewline(tail);
    BodyAgreement(tail, Find(tail, "\n"));
    SplitTsForm(text, e);
    SplitPyForm(text, e, tail, Find(tail, "\n"));
    assert |text| > e + 4 ==> text[e + 4] == tail[3];
  }

  /** A text that does not open with a fence, or has no closing one, is all body to both parsers. */
  lemma NoFrontmatter(text: string)
    requires ClosingFence(text) == -1
    ensures FrontmatterBlock(text) == "" && SplitTs(text) == None && SplitPy(text) == ("", text)
  {
    hide Find;
    if text == "---" { assert FindFrom(text, FENCE, 4) == -1; }
  }

  lemma FenceFound(text: string)
    requires ClosingFence(text) != -1
    ensures Opens(text) && var e := ClosingFence(text); 4 <= e <= |text| && FENCE <= text[e..] && FindFrom(text, FENCE, 4) == e
    ensures FrontmatterBlock(text) == text[4..ClosingFence(text)]
  {
    hide FindFrom;
  }

  lemma SplitTsUnfold(text: string, e: nat, after: string)
    requires e == ClosingFence(text) && 4 <= e && e + 4 <= |text| && after == text[e + 4..]
    ensures SplitTs(text) == Some((text[4..e], if after != "" && after[0] == '\n' then after[1..] else after))
  {
    hide ClosingFence;
  }

  lemma SplitTsForm(text: string, e: nat)
    requires e == ClosingFence(text) && 4 <= e && e + 4 <= |text|
    ensures
      var tail := text[e + 1..];
      SplitTs(text) == Some((text[4..e], if |tail| > 3 && tail[3] == '\n' then tail[4..] else tail[3..]))
  {
    hide *;
    SplitTsUnfold(text, e, text[e + 4..]);
    Drop(text, e + 1, 3);
    if e + 4 < |text| {
      Drop(text, e + 1, 4);
      Drop(text, e + 4, 1);
    }
  }

  lemma SplitPyUnfold(text: string, e: nat, after: int)
    requires Opens(text) && e == FindFrom(text, FENCE, 4) && 4 <= e < |text| && after == FindFrom(text, "\n", e + 1)
    ensures after < |text|
    ensures SplitPy(text) == (text[4..e], if after == -1 then "" else text[after + 1..])
  {
    hide Find, FindFrom, Opens;
  }

  lemma SplitPyForm(text: string, e: nat, tail: string, i: int)
    requires Opens(text) && e == FindFrom(text, FENCE, 4) && 4 <= e < |text|
    requires tail == text[e + 1..] && i == Find(tail, "\n") && i < |tail|
    ensures SplitPy(text) == (text[4..e], if i == -1 then "" else tail[i + 1..])
  {
    hide *;
    FindBehind(text, "\n", e + 1);
    SplitPyUnfold(text, e, FindFrom(text, "\n", e + 1));
    if 0 <= i { Drop(text, e + 1, i + 1); }
  }

  lemma FindBehind(text: string, pattern: string, from: nat)
    requires from <= |text|
    ensures FindFrom(text, pattern, from) ==
            if Find(text[from..], pattern) == -1 then -1 else from + Find(text[from..], pattern)
  {
    hide Find;
  }

  lemma Drop(s: string, a: nat, b: nat)
    requires a + b <= |s|
    ensures s[a..][b..] == s[a + b..]
    ensures b < |s| - a ==> s[a..][b] == s[a + b]
  {
  }

  lemma FenceTail(text: string, e: nat)
    requires e <= |text| && FENCE <= text[e..]
    ensures e + 4 <= |text|
    ensures var tail := text[e + 1..]; tail[0] == tail[1] == tail[2] == '-'
  {
    assert FENCE == text[e..][..4];
    assert forall i :: 0 <= i < 4 ==> text[e + i] == FENCE[i];
  }

  /** What each parser takes from the text behind the newline of the closing fence. */
  lemma BodyAgreement(tail: string, i: int)
    requires |tail| >= 3 && tail[0] == tail[1] == tail[2] == '-'
    requires -1 <= i < |tail| && (i == -1 ==> '\n' !in tail) && (i >= 0 ==> tail[i] == '\n')
    requires forall k :: 0 <= k < i ==> tail[k] != '\n'
    ensures
      var ts := if |tail| > 3 && tail[3] == '\n' then tail[4..] else tail[3..];
      var py := if i == -1 then "" else tail[i + 1..];
      ts == py <==> |tail| == 3 || tail[3] == '\n'
  {
    assert |tail| > 3 ==> |tail[4..]| < |tail[3..]|;
  }

  /** The first newline, seen through the general search. */
  lemma {:induction false} FindNewline(s: string)
    ensures var i := Find(s, "\n");
      (i == -1 ==> '\n' !in s) && (i >= 0 ==> i < |s| && s[i] == '\n')
      && forall k :: 0 <= k < i ==> s[k] != '\n'
  {
    if s != "" && s[0] != '\n' {
      FindNewline(s[1..]);
      assert s == [s[0]] + s[1..];
    } else {
      assert s != "" ==> "\n" <= s;
    }
  }

  // ---------------------------------------------------------------- the fields read back

  lemma {:induction false} JsLinesCons(line: string, t: string)
    requires OneJsLine(line)
    ensures JsLines(line + "\n" + t) == [line] + JsLines(t)
  {
    var s := line + "\n" + t;
    if line == "" {
      assert s[1..] == t && s[0] == '\n';
    } else {
      assert s[1..] == line[1..] + "\n" + t && s[0] == line[0];
      JsLinesCons(line[1..], t);
      assert line == [line[0]] + line[1..];
    }
  }

  lemma {:induction false} JsLinesOne(line: string)
    requires OneJsLine(line)
    ensures JsLines(line) == [line]
  {
    if line != "" {
      JsLinesOne(line[1..]);
      assert line == [line[0]] + line[1..];
    }
  }

  lemma JoinCons(line: string, more: seq<string>)
    requires more != []
    ensures Join([line] + more, "\n") == line + "\n" + Join(more, "\n")
  {
    assert ([line] + more)[1..] == more;
  }

  /** Lines free of line ends are read back one by one. */
  lemma {:induction false} JsLinesJoin(lines: seq<string>)
    requires lines != [] && forall i :: 0 <= i < |lines| ==> OneJsLine(lines[i])
    ensures JsLines(Join(lines, "\n")) == lines
  {
    hide JsLines;
    if |lines| == 1 {
      JsLinesOne(lines[0]);
      assert lines == [lines[0]];
    } else {
      JsLinesJoin(lines[1..]);
      JsLinesCons(lines[0], Join(lines[1..], "\n"));
      assert lines == [lines[0]] + lines[1..];
    }
  }

  /** The block as the line reader sees it: the fixed lines, then whatever the rest gives. */
  lemma BlockLines(n: RawNote)
    requires IsUlid(n.id)
    ensures
      var rest := if n.title.Some? then ["title: " + Quote(n.title.value)] + TailLines(n) else TailLines(n);
      JsLines(Block(n)) == ["id: " + n.id, "type: raw", "layer: 0"] + JsLines(Join(rest, "\n"))
  {
    hide Quote, TailLines, Join, JsLines;
    var rest := if n.title.Some? then ["title: " + Quote(n.title.value)] + TailLines(n) else TailLines(n);
    TailNonEmpty(n);
    forall i | 0 <= i < 26 ensures !LineEnd(n.id[i]) { assert IsCrockford(n.id[i]); }
    assert OneJsLine("id: " + n.id);
    assert Inner(n) == ["id: " + n.id] + (["type: raw"] + (["layer: 0"] + rest));
    JoinCons("layer: 0", rest);
    JoinCons("type: raw", ["layer: 0"] + rest);
    JoinCons("id: " + n.id, ["type: raw"] + (["layer: 0"] + rest));
    JsLinesCons("layer: 0", Join(rest, "\n"));
    JsLinesCons("type: raw", Join(["layer: 0"] + rest, "\n"));
    JsLinesCons("id: " + n.id, Join(["type: raw"] + (["layer: 0"] + rest), "\n"));
  }

  lemma TailNonEmpty(n: RawNote)
    ensures TailLines(n) != []
  {
  }

  /** A first line that starts differently is passed over. */
  lemma FieldSkip(line: string, rest: seq<string>, key: string)
    requires key != "" && line != "" && line[0] != key[0]
    ensures FieldOf([line] + rest, key) == FieldOf(rest, key)
  {
    assert (key + ":")[0] == key[0];
    assert ([line] + rest)[1..] == rest;
  }

  /** The line `key: value` gives the value, when that neither starts nor ends with white space. */
  lemma FieldHit(line: string, rest: seq<string>, key: string, value: string)
    requires line == key + ":" + (" " + value)
    requires value != "" && !JsSpace(value[0]) && !JsSpace(value[|value| - 1])
    ensures FieldOf([line] + rest, key) == Some(value)
  {
    hide JsSpace;
    assert line[|key| + 1..] == " " + value;
    assert line[..|key| + 1] == key + ":";
    TrimLead(value);
  }

  lemma TrimLead(s: string)
    requires s != "" && !JsSpace(s[0]) && !JsSpace(s[|s| - 1])
    ensures Trim(" " + s, JsSpace) == s
  {
    var t := " " + s;
    assert t[1..] == s;
    assert TrimStart(t, JsSpace) == TrimStart(t[1..], JsSpace);
    TrimTight(s, JsSpace);
  }

  /** The fixed fields, whatever else the note holds. */
  lemma FixedFields(n: RawNote)
    requires IsUlid(n.id)
    ensures Field(Block(n), "type") == Some("raw")
    ensures Field(Block(n), "layer") == Some("0")
  {
    hide Block, JsLines, Join, FieldOf, TailLines, Quote;
    BlockLines(n);
    var a, b, c := "id: " + n.id, "type: raw", "layer: 0";
    var rest := JsLines(Block(n))[3..];
    assert JsLines(Block(n)) == [a] + ([b] + ([c] + rest));
    assert a[0] == 'i';
    FieldSkip(a, [b] + ([c] + rest), "type");
    FieldSkip(a, [b] + ([c] + rest), "layer");
    FieldSkip(b, [c] + rest, "layer");
    assert b == "type" + ":" + (" " + "raw") && c == "layer" + ":" + (" " + "0");
    FieldHit(b, [c] + rest, "type", "raw");
    FieldHit(c, rest, "layer", "0");
  }

  // ---------------------------------------------------------------- the title read back

  /** A line that differs from the key somewhere is passed over. */
  lemma FieldMiss(line: string, rest: seq<string>, key: string, k: nat)
    requires k < |line| && k < |key| && line[k] != key[k]
    ensures FieldOf([line] + rest, key) == FieldOf(rest, key)
  {
    assert (key + ":")[k] == key[k];
    assert ([line] + rest)[1..] == rest;
  }

  /** The title is looked for behind the three fixed lines. */
  lemma TitleBehind(n: RawNote)
    requires IsUlid(n.id)
    ensures
      var rest := if n.title.Some? then ["title: " + Quote(n.title.value)] + TailLines(n) else TailLines(n);
      Field(Block(n), "title") == FieldOf(JsLines(Join(rest, "\n")), "title")
  {
    hide Block, JsLines, Join, FieldOf, TailLines, Quote;
    BlockLines(n);
    var rest := if n.title.Some? then ["title: " + Quote(n.title.value)] + TailLines(n) else TailLines(n);
    var more := JsLines(Join(rest, "\n"));
    var a, b, c := "id: " + n.id, "type: raw", "layer: 0";
    assert JsLines(Block(n)) == [a] + ([b] + ([c] + more));
    assert a[0] == 'i' && b[1] == 'y' && c[0] == 'l' && "title"[0] == 't' && "title"[1] == 'i';
    FieldMiss(a, [b] + ([c] + more), "title", 0);
    FieldMiss(b, [c] + more, "title", 1);
    FieldMiss(c, more, "title", 0);
  }

  /** No prefix of an escaped text holds a closing quote. */
  lemma {:induction false} PrefixNeverParses(t: string, w: string)
    requires w <= Escape(t)
    ensures ParseBody(w) == None
    decreases |t|
  {
    if t != "" {
      var e, more := EscapeChar(t[0]), Escape(t[1..]);
      if |w| >= |e| {
        assert w == e + w[|e|..] && w[|e|..] <= more;
        hide EscapeChar;
        PrefixNeverParses(t[1..], w[|e|..]);
        EscapeCharParses(t[0], w[|e|..]);
      } else {
        assert w == e[..|w|];
      }
    }
  }

  /** The first of the stretches: everything up to the first line end. */
  lemma {:induction false} FirstJsLine(s: string)
    ensures JsLines(s) != [] && JsLines(s)[0] <= s && OneJsLine(JsLines(s)[0])
    ensures |JsLines(s)[0]| < |s| ==> LineEnd(s[|JsLines(s)[0]|])
  {
    if s != "" && !LineEnd(s[0]) { FirstJsLine(s[1..]); }
  }

  /** The first line of a printed title that holds a separator: it stops inside the quoted text. */
  lemma TitleLineCut(t: string, after: string) returns (cut: string)
    requires !SeparatorFree(t)
    ensures cut <= Escape(t) && OneJsLine(cut)
    ensures var lines := JsLines("title: \"" + (Escape(t) + after)); lines != [] && lines[0] == "title: \"" + cut
  {
    hide JsLines, Escape;
    var start, text := "title: \"", Escape(t) + after;
    var s := start + text;
    FirstJsLine(s);
    var line := JsLines(s)[0];
    var i :| 0 <= i < |t| && Separator(t[i]);
    var at := SeparatorPrinted(t, i);
    assert s[9 - 1 + at] == text[at];
    LineReaches(start, text, line, at);
    cut := line[8..];
    assert line == s[..|line|];
    assert cut == text[..|cut|] == Escape(t)[..|cut|];
  }

  lemma LineReaches(start: string, text: string, line: string, at: nat)
    requires start == "title: \""
    requires at < |text| && Separator(text[at])
    requires line <= start + text && OneJsLine(line)
    requires |line| < |start + text| ==> LineEnd((start + text)[|line|])
    ensures 8 <= |line| <= 8 + at && line[..8] == start
  {
    var s := start + text;
    assert s[8 + at] == text[at];
    assert forall k :: 0 <= k < |line| ==> line[k] == s[k];
    assert forall k :: 0 <= k < 8 ==> s[k] == start[k];
  }

  lemma QuoteNoSpace()
    ensures JsSpace(' ') && !JsSpace('"')
  {
  }

  /** The printed title line, cut at a separator, gives a text without one. */
  lemma CutTitle(t: string, after: string)
    requires !SeparatorFree(t)
    ensures
      var r := FieldOf(JsLines("title: " + Quote(t) + after), "title");
      r.Some? && Unquote(r.value) != t
  {
    hide ParseBody, JsLines, JsSpace, Trim, TrimEnd, Escape;
    assert "title: " + Quote(t) + after == "title: \"" + (Escape(t) + ("\"" + after));
    var cut := TitleLineCut(t, "\"" + after);
    var lines := JsLines("title: " + Quote(t) + after);
    var kept := TrimEnd(cut, JsSpace);
    assert lines[0][6..] == " " + ("\"" + cut);
    QuoteNoSpace();
    TrimQuoted(cut, JsSpace);
    assert lines[0][..6] == "title:";
    assert FieldOf(lines, "title") == Some("\"" + kept);
    PrefixNeverParses(t, kept);
    assert ("\"" + kept)[1..] == kept;
    CutDiffers(t, kept);
  }

  lemma CutDiffers(t: string, kept: string)
    requires !SeparatorFree(t) && OneJsLine(kept)
    ensures "\"" + kept != t
  {
    var i :| 0 <= i < |t| && Separator(t[i]);
    assert OneJsLine("\"" + kept);
  }

  lemma {:induction false} SeparatorPrinted(t: string, i: nat) returns (at: nat)
    requires i < |t| && Separator(t[i])
    ensures at < |Escape(t)| && Escape(t)[at] == t[i]
  {
    if i == 0 {
      at := 0;
    } else {
      var j := SeparatorPrinted(t[1..], i - 1);
      at := |EscapeChar(t[0])| + j;
    }
  }

  lemma TrimQuoted(s: string, space: char -> bool)
    requires space(' ') && !space('"')
    ensures Trim(" " + ("\"" + s), space) == "\"" + TrimEnd(s, space)
  {
    var q := "\"" + s;
    assert (" " + q)[1..] == q && TrimStart(" " + q, space) == TrimStart(q, space) == q;
    TrimEndKeepsQuote(s, space);
  }

  lemma {:induction false} TrimEndKeepsQuote(s: string, space: char -> bool)
    requires !space('"')
    ensures TrimEnd("\"" + s, space) == "\"" + TrimEnd(s, space)
  {
    var q := "\"" + s;
    if s != "" && space(s[|s| - 1]) {
      assert q[..|q| - 1] == "\"" + s[..|s| - 1];
      TrimEndKeepsQuote(s[..|s| - 1], space);
    }
  }

  /** A printed title is read back exactly when it holds no line or paragraph separator. */
  lemma TitleReadBackIff(n: RawNote)
    requires IsUlid(n.id) && n.title.Some?
    ensures
      var r := Field(Block(n), "title");
      r.Some? && (Unquote(r.value) == n.title.value <==> SeparatorFree(n.title.value))
  {
    hide *;
    var t, rest := n.title.value, Join(TailLines(n), "\n");
    TitleBehind(n);
    TailNonEmpty(n);
    JoinCons("title: " + Quote(t), TailLines(n));
    if SeparatorFree(t) {
      TitleKept(t, rest);
      UnquoteQuote(t);
    } else {
      ConcatAssoc("title: " + Quote(t), "\n", rest);
      CutTitle(t, "\n" + rest);
    }
  }

  /** The printed title line is a line of its own when the title holds no separator. */
  lemma TitleKept(t: string, rest: string)
    requires SeparatorFree(t)
    ensures FieldOf(JsLines("title: " + Quote(t) + "\n" + rest), "title") == Some(Quote(t))
  {
    hide JsLines, FieldOf, Quote, JsSpace;
    var line := "title: " + Quote(t);
    QuotedLine("title: ", t);
    JsLinesCons(line, rest);
    QuoteEnds(t);
    assert line == "title" + ":" + (" " + Quote(t));
    FieldHit(line, JsLines(rest), "title", Quote(t));
  }

  lemma QuotedLine(start: string, value: string)
    requires OneJsLine(start) && SeparatorFree(value)
    ensures OneJsLine(start + Quote(value))
  {
    EscapeClean(value);
  }

  lemma QuoteEnds(s: string)
    ensures var q := Quote(s); |q| >= 2 && q[0] == '"' && q[|q| - 1] == '"' && !JsSpace('"')
  {
  }
}
