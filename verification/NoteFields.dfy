/** A printed raw note read back whole: the block mapping its lines stand for, and the note that gives. */
module NoteFields {
  import opened Wrappers
  import opened Text
  import opened JsonString
  import opened Ulid
  import opened NoteFormat

  // ---------------------------------------------------------------- reading a block mapping

  /** The scalar on the first line that starts with the key, as it is written with its indentation. */
  function Value(lines: seq<string>, start: string): Option<string> {
    if lines == [] then None
    else if start <= lines[0] then Some(Unquote(lines[0][|start|..]))
    else Value(lines[1..], start)
  }

  /** The lines at the front that are indented. */
  function Indented(lines: seq<string>): seq<string> {
    if lines == [] || lines[0] == "" || lines[0][0] != ' ' then [] else [lines[0]] + Indented(lines[1..])
  }

  /** The indented lines behind a heading. */
  function Under(lines: seq<string>, heading: string): seq<string> {
    if lines == [] then []
    else if lines[0] == heading then Indented(lines[1..])
    else Under(lines[1..], heading)
  }

  /** The items of a block sequence. */
  function Items(lines: seq<string>): seq<string> {
    if lines == [] then []
    else (if "  - " <= lines[0] then [Unquote(lines[0][4..])] else []) + Items(lines[1..])
  }

  function MediaOf(lines: seq<string>): Media {
    Media(Value(lines, "  media_id: ").GetOr(""), Value(lines, "  transcript_sha256: ").GetOr(""), Value(lines, "  media_ref_fp: "),
          Value(lines, "  ref_class: ").GetOr(""), Value(lines, "  ref: "), Value(lines, "  secref: "))
  }

  /** The note a file with frontmatter stands for. */
  function NoteOf(text: string): RawNote {
    var lines := Lines(FrontmatterBlock(text) + "\n");
    var source, media := Under(lines, "source:"), Under(lines, "media:");
    RawNote(
      Value(lines, "id: ").GetOr(""),
      DropOne(if SplitTs(text).Some? then SplitTs(text).value.1 else text),
      Value(source, "  kind: ").GetOr(""),
      Value(lines, "created: ").GetOr(""),
      Value(lines, "title: "),
      Items(Under(lines, "tags:")),
      Value(source, "  ref: "),
      if media == [] then None else Some(MediaOf(media)))
  }

  function DropOne(s: string): string {
    if s != "" then s[1..] else s
  }

  // ---------------------------------------------------------------- passing lines over

  /** The two cannot start the same line. */
  predicate Apart(a: string, b: string) {
    exists k :: 0 <= k < |a| && k < |b| && a[k] != b[k]
  }

  lemma ApartAt(a: string, b: string, k: nat)
    requires k < |a| && k < |b| && a[k] != b[k]
    ensures Apart(a, b)
  {
  }

  predicate NoneStarts(lines: seq<string>, start: string) {
    forall i :: 0 <= i < |lines| ==> !(start <= lines[i])
  }

  lemma {:induction false} ValueBehind(a: seq<string>, b: seq<string>, start: string)
    requires NoneStarts(a, start)
    ensures Value(a + b, start) == Value(b, start)
  {
    if a == [] {
      assert a + b == b;
    } else {
      assert (a + b)[1..] == a[1..] + b && (a + b)[0] == a[0];
      ValueBehind(a[1..], b, start);
    }
  }

  lemma {:induction false} ValueNone(lines: seq<string>, start: string)
    requires NoneStarts(lines, start)
    ensures Value(lines, start) == None
  {
    if lines != [] { ValueNone(lines[1..], start); }
  }

  lemma LabelApart(key: string, v: string, start: string)
    requires Apart(key, start)
    ensures !(start <= key + v)
  {
    var k :| 0 <= k < |key| && k < |start| && key[k] != start[k];
    assert (key + v)[k] == key[k];
  }

  /** A labelled value in front is the one found. */
  lemma ValueFound(key: string, v: string, rest: seq<string>)
    ensures Value([key + Quote(v)] + rest, key) == Some(v)
  {
    hide Quote, Unquote;
    var line := key + Quote(v);
    assert line[|key|..] == Quote(v) && key <= line;
    UnquoteQuote(v);
  }

  lemma ValuePast(key: string, v: string, rest: seq<string>, start: string)
    requires Apart(key, start)
    ensures Value([key + v] + rest, start) == Value(rest, start)
  {
    LabelApart(key, v, start);
    ValueBehind([key + v], rest, start);
  }

  lemma OptPast(key: string, v: Option<string>, rest: seq<string>, start: string)
    requires Apart(key, start)
    ensures Value(OptLine(key, v) + rest, start) == Value(rest, start)
  {
    hide Quote;
    if v.Some? { ValuePast(key, Quote(v.value), rest, start); } else { assert [] + rest == rest; }
  }

  lemma OptFound(key: string, v: Option<string>, rest: seq<string>)
    requires Value(rest, key) == None
    ensures Value(OptLine(key, v) + rest, key) == v
  {
    hide Quote, Value;
    if v.Some? { ValueFound(key, v.value, rest); } else { assert [] + rest == rest; }
  }

  // ---------------------------------------------------------------- indentation

  predicate AllIndented(lines: seq<string>) {
    forall i :: 0 <= i < |lines| ==> lines[i] != "" && lines[i][0] == ' '
  }

  predicate StartsFlush(lines: seq<string>) {
    lines == [] || lines[0] == "" || lines[0][0] != ' '
  }

  lemma {:induction false} IndentedFront(a: seq<string>, b: seq<string>)
    requires AllIndented(a) && StartsFlush(b)
    ensures Indented(a + b) == a
  {
    if a == [] {
      assert a + b == b;
    } else {
      assert (a + b)[1..] == a[1..] + b && (a + b)[0] == a[0];
      IndentedFront(a[1..], b);
    }
  }

  lemma {:induction false} UnderBehind(a: seq<string>, b: seq<string>, heading: string)
    requires heading !in a
    ensures Under(a + b, heading) == Under(b, heading)
  {
    if a == [] {
      assert a + b == b;
    } else {
      assert (a + b)[1..] == a[1..] + b && (a + b)[0] == a[0];
      UnderBehind(a[1..], b, heading);
    }
  }

  lemma {:induction false} UnderNone(lines: seq<string>, heading: string)
    requires heading !in lines
    ensures Under(lines, heading) == []
  {
    if lines != [] { UnderNone(lines[1..], heading); }
  }

  /** What stands under a heading. */
  lemma UnderHeading(before: seq<string>, heading: string, inside: seq<string>, after: seq<string>)
    requires heading !in before && AllIndented(inside) && StartsFlush(after)
    ensures Under(before + ([heading] + (inside + after)), heading) == inside
  {
    UnderBehind(before, [heading] + (inside + after), heading);
    assert ([heading] + (inside + after))[1..] == inside + after;
    IndentedFront(inside, after);
  }

  // ---------------------------------------------------------------- the parts of a printed note

  function Opening(n: RawNote): seq<string> {
    ["id: " + n.id, "type: raw", "layer: 0"] + OptLine("title: ", n.title) + ["created: " + Quote(n.createdAt)]
  }

  function SourcePart(n: RawNote): seq<string> {
    ["  kind: " + Quote(n.source)] + OptLine("  ref: ", n.ref)
  }

  function MediaPart(m: Media): seq<string> {
    ["  media_id: " + Quote(m.mediaId)] + (["  transcript_sha256: " + Quote(m.transcriptSha256)]
    + (OptLine("  media_ref_fp: ", m.mediaRefFp) + (["  ref_class: " + Quote(m.refClass)]
    + (OptLine("  ref: ", m.ref) + (OptLine("  secref: ", m.secref) + [])))))
  }

  function MediaBlock(n: RawNote): seq<string> {
    if n.media.Some? then ["media:"] + MediaPart(n.media.value) else []
  }

  function TagBlock(n: RawNote): seq<string> {
    if n.tags == [] then [] else ["tags:"] + TagLines(n.tags)
  }

  lemma InnerParts(n: RawNote)
    ensures Inner(n) == Opening(n) + ["source:"] + SourcePart(n) + MediaBlock(n) + TagBlock(n)
  {
    hide Quote, OptLine, TagLines, MediaPart, MediaLines;
    if n.media.Some? { MediaParts(n.media.value); }
  }

  lemma MediaParts(m: Media)
    ensures MediaLines(m) == ["media:"] + MediaPart(m)
  {
    hide Quote, OptLine;
  }

  lemma {:induction false} ItemsBack(tags: seq<string>)
    ensures Items(TagLines(tags)) == tags
  {
    hide Quote, Unquote;
    if tags != [] {
      var line := "  - " + Quote(tags[0]);
      assert TagLines(tags) == [line] + TagLines(tags[1..]);
      assert line[4..] == Quote(tags[0]) && line[..4] == "  - ";
      UnquoteQuote(tags[0]);
      ItemsBack(tags[1..]);
    }
  }

  /** A quoted line is no heading. */
  lemma QuotedNoHeading(key: string, v: string)
    ensures key + Quote(v) != "source:" && key + Quote(v) != "media:" && key + Quote(v) != "tags:"
  {
    var line := key + Quote(v);
    assert line[|line| - 1] == '"';
    assert "source:"[6] == ':' && "media:"[5] == ':' && "tags:"[4] == ':';
  }

  predicate NoHeading(lines: seq<string>) {
    "source:" !in lines && "media:" !in lines && "tags:" !in lines
  }

  lemma OptNoHeading(key: string, v: Option<string>)
    ensures NoHeading(OptLine(key, v))
    ensures key != "" && key[0] == ' ' ==> AllIndented(OptLine(key, v))
  {
    if v.Some? { QuotedNoHeading(key, v.value); }
  }

  lemma OpeningPlain(n: RawNote)
    ensures NoHeading(Opening(n))
  {
    hide Quote, OptLine;
    var a, b, c := "id: " + n.id, "type: raw", "layer: 0";
    assert a[2] == ':' && b[8] == 'w' && c[7] == '0';
    assert a != "source:" && a != "media:" && a != "tags:" by { assert "source:"[2] == 'u' && "media:"[2] == 'd' && "tags:"[2] == 'g'; }
    OptNoHeading("title: ", n.title);
    QuotedNoHeading("created: ", n.createdAt);
  }

  lemma SourceIndented(n: RawNote)
    ensures NoHeading(SourcePart(n)) && AllIndented(SourcePart(n))
  {
    hide Quote, OptLine;
    QuotedNoHeading("  kind: ", n.source);
    OptNoHeading("  ref: ", n.ref);
  }

  lemma MediaIndented(m: Media)
    ensures NoHeading(MediaPart(m)) && AllIndented(MediaPart(m)) && MediaPart(m) != []
  {
    hide Quote, OptLine;
    QuotedNoHeading("  media_id: ", m.mediaId);
    QuotedNoHeading("  transcript_sha256: ", m.transcriptSha256);
    OptNoHeading("  media_ref_fp: ", m.mediaRefFp);
    QuotedNoHeading("  ref_class: ", m.refClass);
    OptNoHeading("  ref: ", m.ref);
    OptNoHeading("  secref: ", m.secref);
  }

  lemma TagsIndented(tags: seq<string>)
    ensures NoHeading(TagLines(tags)) && AllIndented(TagLines(tags))
  {
    hide Quote;
    forall i | 0 <= i < |tags| ensures NoHeading([TagLines(tags)[i]]) { QuotedNoHeading("  - ", tags[i]); }
    forall line | line in TagLines(tags) ensures NoHeading([line]) {
      var i :| 0 <= i < |TagLines(tags)| && TagLines(tags)[i] == line;
    }
    assert forall line :: line in TagLines(tags) ==> line in [line];
  }

  // ---------------------------------------------------------------- each part read back

  lemma MediaBack(m: Media)
    ensures MediaOf(MediaPart(m)) == m
  {
    hide Quote, OptLine, Value, Apart;
    var id, sha, fp, cls, ref, sec := "  media_id: ", "  transcript_sha256: ", "  media_ref_fp: ", "  ref_class: ", "  ref: ", "  secref: ";
    var g := OptLine(sec, m.secref) + [];
    var f := OptLine(ref, m.ref) + g;
    var e := [cls + Quote(m.refClass)] + f;
    var d := OptLine(fp, m.mediaRefFp) + e;
    var c := [sha + Quote(m.transcriptSha256)] + d;
    MediaLabels();
    NoValue();
    ValueFound(id, m.mediaId, c);
    ValuePast(id, Quote(m.mediaId), c, sha);
    ValueFound(sha, m.transcriptSha256, d);
    ValuePast(id, Quote(m.mediaId), c, fp);
    ValuePast(sha, Quote(m.transcriptSha256), d, fp);
    ValuePast(cls, Quote(m.refClass), f, fp);
    OptPast(ref, m.ref, g, fp);
    OptPast(sec, m.secref, [], fp);
    OptFound(fp, m.mediaRefFp, e);
    ValuePast(id, Quote(m.mediaId), c, cls);
    ValuePast(sha, Quote(m.transcriptSha256), d, cls);
    OptPast(fp, m.mediaRefFp, e, cls);
    ValueFound(cls, m.refClass, f);
    ValuePast(id, Quote(m.mediaId), c, ref);
    ValuePast(sha, Quote(m.transcriptSha256), d, ref);
    OptPast(fp, m.mediaRefFp, e, ref);
    ValuePast(cls, Quote(m.refClass), f, ref);
    OptPast(sec, m.secref, [], ref);
    OptFound(ref, m.ref, g);
    ValuePast(id, Quote(m.mediaId), c, sec);
    ValuePast(sha, Quote(m.transcriptSha256), d, sec);
    OptPast(fp, m.mediaRefFp, e, sec);
    ValuePast(cls, Quote(m.refClass), f, sec);
    OptPast(ref, m.ref, g, sec);
    OptFound(sec, m.secref, []);
  }

  lemma NoValue()
    ensures forall start :: Value([], start) == None
  {
  }

  lemma MediaLabels()
    ensures
      var id, sha, fp, cls, ref, sec := "  media_id: ", "  transcript_sha256: ", "  media_ref_fp: ", "  ref_class: ", "  ref: ", "  secref: ";
      && Apart(id, sha) && Apart(id, fp) && Apart(id, cls) && Apart(id, ref) && Apart(id, sec)
      && Apart(sha, fp) && Apart(sha, cls) && Apart(sha, ref) && Apart(sha, sec)
      && Apart(fp, cls) && Apart(fp, ref) && Apart(fp, sec)
      && Apart(cls, fp) && Apart(cls, ref) && Apart(cls, sec)
      && Apart(ref, fp) && Apart(ref, sec) && Apart(sec, fp) && Apart(sec, ref)
  {
    hide Apart;
    var id, sha, fp, cls, ref, sec := "  media_id: ", "  transcript_sha256: ", "  media_ref_fp: ", "  ref_class: ", "  ref: ", "  secref: ";
    ApartAt(id, sha, 2); ApartAt(id, fp, 8); ApartAt(id, cls, 2); ApartAt(id, ref, 2); ApartAt(id, sec, 2);
    ApartAt(sha, fp, 2); ApartAt(sha, cls, 2); ApartAt(sha, ref, 2); ApartAt(sha, sec, 2);
    ApartAt(fp, cls, 2); ApartAt(fp, ref, 2); ApartAt(fp, sec, 2);
    ApartAt(cls, fp, 2); ApartAt(cls, ref, 5); ApartAt(cls, sec, 2);
    ApartAt(ref, fp, 2); ApartAt(ref, sec, 2); ApartAt(sec, fp, 2); ApartAt(sec, ref, 2);
  }

  lemma SourceBack(n: RawNote)
    ensures Value(SourcePart(n), "  kind: ") == Some(n.source) && Value(SourcePart(n), "  ref: ") == n.ref
  {
    hide Quote, OptLine, Value, Apart;
    var kind, ref := "  kind: ", "  ref: ";
    ApartAt(kind, ref, 2);
    NoValue();
    ValueFound(kind, n.source, OptLine(ref, n.ref));
    ValuePast(kind, Quote(n.source), OptLine(ref, n.ref), ref);
    OptFound(ref, n.ref, []);
    assert OptLine(ref, n.ref) + [] == OptLine(ref, n.ref);
  }

  /** The keys at the left margin, whatever comes behind them. */
  lemma OpeningBack(n: RawNote, rest: seq<string>)
    requires IsUlid(n.id) && Value(rest, "title: ") == None
    ensures
      var lines := Opening(n) + rest;
      Value(lines, "id: ") == Some(n.id) && Value(lines, "title: ") == n.title && Value(lines, "created: ") == Some(n.createdAt)
  {
    hide Quote, OptLine, Value, Apart, IsUlid;
    var id, title, created := "id: ", "title: ", "created: ";
    var d := [created + Quote(n.createdAt)] + rest;
    var c := OptLine(title, n.title) + d;
    var b := ["layer: 0"] + c;
    var a := ["type: raw"] + b;
    assert Opening(n) + rest == [id + n.id] + a;
    assert "type: raw" == "type" + ": raw" && "layer: 0" == "layer" + ": 0";
    ApartAt(id, title, 0); ApartAt("type", title, 1); ApartAt("layer", title, 0); ApartAt(created, title, 0);
    ApartAt(id, created, 0); ApartAt("type", created, 0); ApartAt("layer", created, 0); ApartAt(title, created, 0);
    IdFound(n.id, a);
    ValuePast(id, n.id, a, title);
    ValuePast("type", ": raw", b, title);
    ValuePast("layer", ": 0", c, title);
    ValuePast(created, Quote(n.createdAt), rest, title);
    OptFound(title, n.title, d);
    ValuePast(id, n.id, a, created);
    ValuePast("type", ": raw", b, created);
    ValuePast("layer", ": 0", c, created);
    OptPast(title, n.title, d, created);
    ValueFound(created, n.createdAt, rest);
  }

  lemma IdFound(id: string, rest: seq<string>)
    requires IsUlid(id)
    ensures Value(["id: " + id] + rest, "id: ") == Some(id)
  {
    var line := "id: " + id;
    assert line[4..] == id && line[..4] == "id: ";
    assert id[0] != '"';
  }

  /** No line behind the opening starts like the title. */
  lemma RestHasNoTitle(n: RawNote)
    ensures Value(["source:"] + (SourcePart(n) + (MediaBlock(n) + TagBlock(n))), "title: ") == None
  {
    hide Value, TagLines, MediaPart, SourcePart, Quote;
    var lines := ["source:"] + (SourcePart(n) + (MediaBlock(n) + TagBlock(n)));
    SourceIndented(n);
    if n.media.Some? { MediaIndented(n.media.value); }
    TagsIndented(n.tags);
    assert "title: "[0] == 't' && "title: "[1] == 'i' && "tags:"[1] == 'a';
    forall i | 0 <= i < |lines| ensures !("title: " <= lines[i]) {
      assert lines[i] == "source:" || lines[i] == "media:" || lines[i] == "tags:" || (lines[i] != "" && lines[i][0] == ' ');
    }
    ValueNone(lines, "title: ");
  }

  lemma SourceUnder(n: RawNote)
    ensures Under(Inner(n), "source:") == SourcePart(n)
  {
    hide Opening, SourcePart, MediaPart, TagLines, Under, OptLine, Inner;
    InnerParts(n);
    OpeningPlain(n);
    SourceIndented(n);
    UnderHeading(Opening(n), "source:", SourcePart(n), MediaBlock(n) + TagBlock(n));
    assert Inner(n) == Opening(n) + (["source:"] + (SourcePart(n) + (MediaBlock(n) + TagBlock(n))));
  }

  lemma MediaUnder(n: RawNote)
    ensures Under(Inner(n), "media:") == if n.media.Some? then MediaPart(n.media.value) else []
  {
    hide Opening, SourcePart, MediaPart, TagLines, Under, OptLine, Inner;
    InnerParts(n);
    OpeningPlain(n);
    SourceIndented(n);
    TagsIndented(n.tags);
    var before := Opening(n) + ["source:"] + SourcePart(n);
    if n.media.Some? {
      MediaIndented(n.media.value);
      UnderHeading(before, "media:", MediaPart(n.media.value), TagBlock(n));
      assert Inner(n) == before + (["media:"] + (MediaPart(n.media.value) + TagBlock(n)));
    } else {
      assert Inner(n) == before + TagBlock(n);
      UnderNone(Inner(n), "media:");
    }
  }

  lemma TagsUnder(n: RawNote)
    ensures Under(Inner(n), "tags:") == TagLines(n.tags)
  {
    hide Opening, SourcePart, MediaPart, Under, OptLine, Inner, Quote;
    InnerParts(n);
    OpeningPlain(n);
    SourceIndented(n);
    TagsIndented(n.tags);
    if n.media.Some? { MediaIndented(n.media.value); }
    var before := Opening(n) + ["source:"] + SourcePart(n) + MediaBlock(n);
    assert "tags:" !in before;
    if n.tags == [] {
      assert Inner(n) == before;
      UnderNone(before, "tags:");
    } else {
      UnderHeading(before, "tags:", TagLines(n.tags), []);
      assert TagLines(n.tags) + [] == TagLines(n.tags);
      assert Inner(n) == before + (["tags:"] + (TagLines(n.tags) + []));
    }
  }

  // ---------------------------------------------------------------- the whole note

  lemma {:induction false} JoinUnlines(lines: seq<string>)
    requires lines != []
    ensures Join(lines, "\n") + "\n" == Unlines(lines)
  {
    if |lines| == 1 {
      assert lines == [lines[0]] && Unlines([]) == "";
      UnlinesCons(lines[0], []);
    } else {
      JoinUnlines(lines[1..]);
      assert lines[0] + "\n" + (Join(lines[1..], "\n") + "\n") == Join(lines, "\n") + "\n";
    }
  }

  /** The lines of the printed block are the lines that were pushed. */
  lemma BlockBack(n: RawNote)
    requires IsUlid(n.id)
    ensures Lines(FrontmatterBlock(Print(n)) + "\n") == Inner(n)
  {
    hide Print, HeadLines, TailLines, Lines, Rest, Unlines, Join, IsUlid, FrontmatterBlock;
    BodiesVerbatim(n);
    HeadPlain(n);
    TailPlain(n);
    HeadNonEmpty(n);
    JoinUnlines(Inner(n));
    FramingUnique(Inner(n), "");
    assert Unlines(Inner(n)) + "" == Unlines(Inner(n));
  }

  /** Every part of a raw note, each of its optional ones included, is read back from the printed file. */
  lemma NoteRoundTrip(n: RawNote)
    requires IsUlid(n.id)
    ensures NoteOf(Print(n)) == n
  {
    hide *;
    BlockBack(n);
    BodiesVerbatim(n);
    ScalarsBack(n);
    SourceUnder(n);
    SourceBack(n);
    MediaUnder(n);
    if n.media.Some? {
      MediaBack(n.media.value);
      MediaIndented(n.media.value);
    }
    TagsUnder(n);
    ItemsBack(n.tags);
    NoteAssembled(n, Inner(n));
  }

  lemma ScalarsBack(n: RawNote)
    requires IsUlid(n.id)
    ensures Value(Inner(n), "id: ") == Some(n.id) && Value(Inner(n), "title: ") == n.title && Value(Inner(n), "created: ") == Some(n.createdAt)
  {
    hide *;
    InnerParts(n);
    RestHasNoTitle(n);
    OpeningBack(n, ["source:"] + (SourcePart(n) + (MediaBlock(n) + TagBlock(n))));
    assert Inner(n) == Opening(n) + (["source:"] + (SourcePart(n) + (MediaBlock(n) + TagBlock(n))));
  }

  lemma NoteAssembled(n: RawNote, lines: seq<string>)
    requires Lines(FrontmatterBlock(Print(n)) + "\n") == lines && SplitTs(Print(n)).Some? && SplitTs(Print(n)).value.1 == "\n" + n.content
    requires Value(lines, "id: ") == Some(n.id) && Value(lines, "title: ") == n.title && Value(lines, "created: ") == Some(n.createdAt)
    requires Value(Under(lines, "source:"), "  kind: ") == Some(n.source) && Value(Under(lines, "source:"), "  ref: ") == n.ref
    requires if n.media.Some? then Under(lines, "media:") != [] && MediaOf(Under(lines, "media:")) == n.media.value else Under(lines, "media:") == []
    requires Items(Under(lines, "tags:")) == n.tags
    ensures NoteOf(Print(n)) == n
  {
    hide Print, Lines, FrontmatterBlock, SplitTs, Value, Under, MediaOf, Items;
    assert ("\n" + n.content)[1..] == n.content;
  }
}
