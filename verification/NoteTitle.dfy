/** Which titles a note without one is read as having, and what a printed note is read back as. */
module NoteTitle {
  import opened Wrappers
  import opened Text
  import opened JsonString
  import opened Ulid
  import opened NoteFormat

  const TITLE := "title:"

  // ---------------------------------------------------------------- where the line reader finds a title

  /** The text starts with the key and goes on on the same line. */
  predicate TitleStarts(s: string) {
    TITLE <= s && |s| > 6 && !LineEnd(s[6])
  }

  /** Somewhere behind a line end a title starts. */
  predicate TitleBehindEnd(s: string) {
    s != "" && ((LineEnd(s[0]) && TitleStarts(s[1..])) || TitleBehindEnd(s[1..]))
  }

  lemma TitleClean()
    ensures |TITLE| == 6 && OneJsLine(TITLE) && "title" + ":" == TITLE
    ensures forall i :: 0 <= i < 6 ==> PlainTitleChar(TITLE[i])
  {
  }

  /** Characters printed as they are, that no line ends at. */
  predicate PlainTitleChar(c: char) {
    c > ' ' && c != '"' && c != '\\' && !LineEnd(c)
  }

  lemma FirstLineTitle(s: string)
    ensures JsLines(s) != [] && (TITLE < JsLines(s)[0] <==> TitleStarts(s))
  {
    hide JsLines;
    FirstJsLine(s);
    TitleClean();
    var line := JsLines(s)[0];
    assert forall i :: 0 <= i < |line| ==> line[i] == s[i];
    if TitleStarts(s) {
      assert forall i :: 0 <= i < 6 ==> s[i] == TITLE[i];
      assert |line| > 6;
    }
  }

  /** In any text the reader finds a title if and only if one starts the text or a line behind. */
  lemma {:induction false} FieldIff(s: string)
    ensures FieldOf(JsLines(s), "title").Some? <==> TitleStarts(s) || TitleBehindEnd(s)
  {
    hide TitleStarts;
    TitleClean();
    FirstLineTitle(s);
    LaterLines(s);
    var ls := JsLines(s);
    assert FieldOf(ls, "title").Some? <==> TITLE < ls[0] || FieldOf(ls[1..], "title").Some?;
  }

  lemma {:induction false} LaterLines(s: string)
    ensures JsLines(s) != []
    ensures FieldOf(JsLines(s)[1..], "title").Some? <==> TitleBehindEnd(s)
  {
    hide TitleStarts;
    TitleClean();
    if s != "" {
      LaterLines(s[1..]);
      FirstLineTitle(s[1..]);
      var ls, more := JsLines(s), JsLines(s[1..]);
      if LineEnd(s[0]) {
        assert ls[1..] == more;
        assert FieldOf(more, "title").Some? <==> TITLE < more[0] || FieldOf(more[1..], "title").Some?;
      } else {
        assert ls[1..] == more[1..];
      }
    }
  }

  // ---------------------------------------------------------------- line by line

  lemma StartsBeforeNewline(a: string, t: string)
    requires '\n' !in a
    ensures TitleStarts(a + "\n" + t) <==> TitleStarts(a)
  {
    TitleClean();
    var s := a + "\n" + t;
    assert s[|a|] == '\n' && s[..|a|] == a;
    assert forall i :: 0 <= i < |a| ==> s[i] == a[i];
    if TITLE <= s {
      assert |a| >= 6 by { assert forall i :: 0 <= i < 6 ==> s[i] == TITLE[i]; }
    }
  }

  lemma {:induction false} BehindNewline(a: string, t: string)
    requires '\n' !in a
    ensures TitleBehindEnd(a + "\n" + t) <==> TitleBehindEnd(a) || TitleStarts(t) || TitleBehindEnd(t)
  {
    hide TitleStarts;
    var s := a + "\n" + t;
    if a == "" {
      assert s[0] == '\n' && s[1..] == t;
    } else {
      assert s[0] == a[0] && s[1..] == a[1..] + "\n" + t;
      StartsBeforeNewline(a[1..], t);
      BehindNewline(a[1..], t);
    }
  }

  predicate SomeTitle(lines: seq<string>) {
    exists i :: 0 <= i < |lines| && (TitleStarts(lines[i]) || TitleBehindEnd(lines[i]))
  }

  lemma SomeTitleAppend(a: seq<string>, b: seq<string>)
    ensures SomeTitle(a + b) <==> SomeTitle(a) || SomeTitle(b)
  {
    hide TitleStarts, TitleBehindEnd;
    var c := a + b;
    if i :| 0 <= i < |a| && (TitleStarts(a[i]) || TitleBehindEnd(a[i])) { assert c[i] == a[i]; }
    if i :| 0 <= i < |b| && (TitleStarts(b[i]) || TitleBehindEnd(b[i])) { assert c[|a| + i] == b[i]; }
    if i :| 0 <= i < |c| && (TitleStarts(c[i]) || TitleBehindEnd(c[i])) { assert c[i] == if i < |a| then a[i] else b[i - |a|]; }
  }

  lemma SomeTitleOne(line: string)
    ensures SomeTitle([line]) <==> TitleStarts(line) || TitleBehindEnd(line)
  {
    hide TitleStarts, TitleBehindEnd;
    assert [line][0] == line;
  }

  /** Joined lines hold a title if and only if one of them does. */
  lemma {:induction false} JoinedTitle(lines: seq<string>)
    requires lines != [] && forall i :: 0 <= i < |lines| ==> '\n' !in lines[i]
    ensures TitleStarts(Join(lines, "\n")) || TitleBehindEnd(Join(lines, "\n")) <==> SomeTitle(lines)
  {
    hide TitleStarts, TitleBehindEnd, Join, SomeTitle;
    SomeTitleOne(lines[0]);
    if |lines| == 1 {
      assert Join(lines, "\n") == lines[0] by { JoinSingle(lines); }
      assert lines == [lines[0]];
    } else {
      var more := lines[1..];
      assert lines == [lines[0]] + more;
      JoinedTitle(more);
      JoinCons(lines[0], more);
      StartsBeforeNewline(lines[0], Join(more, "\n"));
      BehindNewline(lines[0], Join(more, "\n"));
      SomeTitleAppend([lines[0]], more);
    }
  }

  lemma JoinSingle(lines: seq<string>)
    requires |lines| == 1
    ensures Join(lines, "\n") == lines[0]
  {
  }

  // ---------------------------------------------------------------- inside a printed value

  /** The value starts with the key and then ends or goes on with anything but a separator. */
  predicate GoesOn(u: string) {
    TITLE <= u && (|u| == 6 || !Separator(u[6]))
  }

  /** Somewhere behind a separator, the only line end that is printed as it is, the value goes on like a title. */
  predicate HoldsTitle(v: string) {
    v != "" && ((Separator(v[0]) && GoesOn(v[1..])) || HoldsTitle(v[1..]))
  }

  lemma {:induction false} PrefixEscaped(u: string, p: string)
    requires forall i :: 0 <= i < |p| ==> PlainTitleChar(p[i])
    ensures p <= Escape(u) + "\"" <==> p <= u
    ensures p <= u ==> Escape(u) == p + Escape(u[|p|..])
    decreases |p|
  {
    hide EscapeChar;
    if p != "" {
      var s := Escape(u) + "\"";
      assert PlainTitleChar(p[0]);
      if u == "" {
        assert s == "\"" && p[0] != s[0];
        NoPrefix(p, s);
      } else {
        EscapeStart(u[0], p[0]);
        var e := EscapeChar(u[0]);
        assert s == e + (Escape(u[1..]) + "\"");
        if u[0] == p[0] {
          assert s[1..] == Escape(u[1..]) + "\"" && s[0] == p[0];
          PrefixEscaped(u[1..], p[1..]);
          PrefixTail(p, s);
          PrefixTail(p, u);
          if p <= u { assert u[1..][|p| - 1..] == u[|p|..]; }
        } else {
          assert s[0] == e[0] != p[0];
          NoPrefix(p, s);
          NoPrefix(p, u);
        }
      }
    }
  }

  lemma NoPrefix(p: string, s: string)
    requires p != "" && s != "" && p[0] != s[0]
    ensures !(p <= s)
  {
  }

  lemma PrefixTail(p: string, s: string)
    requires p != "" && s != "" && p[0] == s[0]
    ensures p <= s <==> p[1..] <= s[1..]
  {
    assert p == [p[0]] + p[1..] && s == [s[0]] + s[1..];
    if p[1..] <= s[1..] { assert s[1..] == p[1..] + s[1..][|p[1..]|..]; }
  }

  /** Only a plain character itself is printed with that character in front. */
  lemma EscapeStart(c: char, p: char)
    requires PlainTitleChar(p)
    ensures EscapeChar(c)[0] == p <==> c == p
    ensures c == p ==> EscapeChar(c) == [p]
  {
  }

  lemma EscapeEnds(c: char)
    ensures Separator(c) ==> EscapeChar(c) == [c]
    ensures !Separator(c) ==> OneJsLine(EscapeChar(c))
    ensures LineEnd(EscapeChar(c)[0]) <==> Separator(c)
  {
    EscapeCharClean(c);
  }

  lemma StartsIff(u: string)
    ensures TitleStarts(Escape(u) + "\"") <==> GoesOn(u)
  {
    hide Escape;
    TitleClean();
    PrefixEscaped(u, TITLE);
    if TITLE <= u {
      var rest := Escape(u[6..]) + "\"";
      assert Escape(u) + "\"" == TITLE + rest;
      assert (TITLE + rest)[6] == rest[0];
      FirstOf(u[6..]);
    }
  }

  lemma FirstOf(u: string)
    ensures var s := Escape(u) + "\""; LineEnd(s[0]) <==> u != "" && Separator(u[0])
  {
    hide EscapeChar;
    if u != "" {
      EscapeEnds(u[0]);
      assert (Escape(u) + "\"")[0] == EscapeChar(u[0])[0];
    }
  }

  lemma {:induction false} SkipClean(a: string, t: string)
    requires OneJsLine(a)
    ensures TitleBehindEnd(a + t) <==> TitleBehindEnd(t)
  {
    hide TitleStarts;
    if a == "" {
      assert a + t == t;
    } else {
      assert (a + t)[1..] == a[1..] + t && (a + t)[0] == a[0];
      SkipClean(a[1..], t);
    }
  }

  lemma {:induction false} ValueTitle(v: string)
    ensures TitleBehindEnd(Escape(v) + "\"") <==> HoldsTitle(v)
  {
    hide TitleStarts, EscapeChar, GoesOn;
    if v == "" {
      assert Escape(v) + "\"" == "\"";
      SkipClean("\"", "");
      assert "\"" + "" == "\"";
    } else {
      var e, rest := EscapeChar(v[0]), Escape(v[1..]) + "\"";
      assert Escape(v) + "\"" == e + rest;
      ValueTitle(v[1..]);
      EscapeEnds(v[0]);
      if Separator(v[0]) {
        assert (e + rest)[0] == v[0] && (e + rest)[1..] == rest;
        StartsIff(v[1..]);
      } else {
        SkipClean(e, rest);
      }
    }
  }

  /** Anything that cannot start a title. */
  predicate OtherStart(start: string) {
    OneJsLine(start) && |start| >= 2 && (start[0] != 't' || start[1] != 'i')
  }

  lemma NotStarting(s: string)
    requires |s| >= 2 && (s[0] != 't' || s[1] != 'i')
    ensures !TitleStarts(s)
  {
    assert TITLE[0] == 't' && TITLE[1] == 'i';
  }

  /** A labelled value holds a title if and only if the value does. */
  lemma LabelledTitle(start: string, v: string)
    requires OtherStart(start)
    ensures SomeTitle([start + Quote(v)]) <==> HoldsTitle(v)
  {
    hide TitleStarts, TitleBehindEnd, Escape, HoldsTitle;
    var line := start + Quote(v);
    SomeTitleOne(line);
    NotStarting(line);
    assert line == (start + "\"") + (Escape(v) + "\"");
    SkipClean(start + "\"", Escape(v) + "\"");
    ValueTitle(v);
  }

  lemma PlainTitle(line: string)
    requires OtherStart(line)
    ensures !SomeTitle([line])
  {
    hide TitleStarts;
    SomeTitleOne(line);
    NotStarting(line);
    SkipClean(line, "");
    assert line + "" == line;
  }

  // ---------------------------------------------------------------- the lines behind the title

  predicate OptHolds(v: Option<string>) {
    v.Some? && HoldsTitle(v.value)
  }

  predicate MediaHolds(m: Media) {
    || HoldsTitle(m.mediaId) || HoldsTitle(m.transcriptSha256) || OptHolds(m.mediaRefFp)
    || HoldsTitle(m.refClass) || OptHolds(m.ref) || OptHolds(m.secref)
  }

  /** One of the strings printed behind the place of the title holds one. */
  predicate TailHolds(n: RawNote) {
    || HoldsTitle(n.createdAt) || HoldsTitle(n.source) || OptHolds(n.ref)
    || (n.media.Some? && MediaHolds(n.media.value))
    || exists i :: 0 <= i < |n.tags| && HoldsTitle(n.tags[i])
  }

  lemma OptTitle(start: string, v: Option<string>)
    requires OtherStart(start)
    ensures SomeTitle(OptLine(start, v)) <==> OptHolds(v)
  {
    hide Quote, HoldsTitle;
    if v.Some? { LabelledTitle(start, v.value); }
  }

  lemma Starts()
    ensures OtherStart("created: ") && OtherStart("source:") && OtherStart("  kind: ") && OtherStart("  ref: ")
    ensures OtherStart("tags:") && OtherStart("  - ")
  {
  }

  lemma MediaStarts()
    ensures OtherStart("media:") && OtherStart("  media_id: ") && OtherStart("  transcript_sha256: ")
    ensures OtherStart("  media_ref_fp: ") && OtherStart("  ref_class: ") && OtherStart("  ref: ") && OtherStart("  secref: ")
  {
  }

  lemma MediaTitle(m: Media)
    ensures SomeTitle(MediaLines(m)) <==> MediaHolds(m)
  {
    hide Quote, HoldsTitle, SomeTitle, OtherStart, OptLine, OptHolds;
    MediaStarts();
    var a, b, c := ["media:"], ["  media_id: " + Quote(m.mediaId)], ["  transcript_sha256: " + Quote(m.transcriptSha256)];
    var d, e := OptLine("  media_ref_fp: ", m.mediaRefFp), ["  ref_class: " + Quote(m.refClass)];
    var f, g := OptLine("  ref: ", m.ref), OptLine("  secref: ", m.secref);
    PlainTitle("media:");
    LabelledTitle("  media_id: ", m.mediaId);
    LabelledTitle("  transcript_sha256: ", m.transcriptSha256);
    OptTitle("  media_ref_fp: ", m.mediaRefFp);
    LabelledTitle("  ref_class: ", m.refClass);
    OptTitle("  ref: ", m.ref);
    OptTitle("  secref: ", m.secref);
    assert MediaLines(m) == a + b + c + d + e + f + g;
    SomeTitleAppend(a, b);
    SomeTitleAppend(a + b, c);
    SomeTitleAppend(a + b + c, d);
    SomeTitleAppend(a + b + c + d, e);
    SomeTitleAppend(a + b + c + d + e, f);
    SomeTitleAppend(a + b + c + d + e + f, g);
  }

  lemma TagTitle(tags: seq<string>)
    ensures SomeTitle(TagLines(tags)) <==> exists i :: 0 <= i < |tags| && HoldsTitle(tags[i])
  {
    hide Quote, HoldsTitle, OtherStart, TitleStarts, TitleBehindEnd;
    Starts();
    forall i | 0 <= i < |tags|
      ensures TitleStarts(TagLines(tags)[i]) || TitleBehindEnd(TagLines(tags)[i]) <==> HoldsTitle(tags[i])
    {
      LabelledTitle("  - ", tags[i]);
      SomeTitleOne("  - " + Quote(tags[i]));
    }
  }

  lemma TailTitle(n: RawNote)
    ensures SomeTitle(TailLines(n)) <==> TailHolds(n)
  {
    hide Quote, HoldsTitle, SomeTitle, OtherStart, OptLine, OptHolds, MediaLines, MediaHolds, TagLines;
    Starts();
    var a, b, c := ["created: " + Quote(n.createdAt)], ["source:"], ["  kind: " + Quote(n.source)];
    var d := OptLine("  ref: ", n.ref);
    var e := if n.media.Some? then MediaLines(n.media.value) else [];
    var f := if n.tags == [] then [] else ["tags:"] + TagLines(n.tags);
    LabelledTitle("created: ", n.createdAt);
    PlainTitle("source:");
    LabelledTitle("  kind: ", n.source);
    OptTitle("  ref: ", n.ref);
    EmptyHasNone();
    if n.media.Some? { MediaTitle(n.media.value); }
    PlainTitle("tags:");
    TagTitle(n.tags);
    SomeTitleAppend(["tags:"], TagLines(n.tags));
    assert TailLines(n) == a + b + c + d + e + f;
    SomeTitleAppend(a, b);
    SomeTitleAppend(a + b, c);
    SomeTitleAppend(a + b + c, d);
    SomeTitleAppend(a + b + c + d, e);
    SomeTitleAppend(a + b + c + d + e, f);
  }

  lemma EmptyHasNone()
    ensures !SomeTitle([])
  {
  }

  // ---------------------------------------------------------------- what is read back

  /**
   * A note without a title is read as having none if and only if no string printed behind the title's place
   * holds, behind a line or paragraph separator, the title key going on.
   */
  lemma AbsentTitleIff(n: RawNote)
    requires IsUlid(n.id) && n.title.None?
    ensures Field(Block(n), "title") == None <==> !TailHolds(n)
  {
    hide Block, JsLines, Join, TailLines, FieldOf, TailHolds, SomeTitle, TitleStarts, TitleBehindEnd, IsUlid;
    TitleBehind(n);
    TailNonEmpty(n);
    TailPlain(n);
    JoinedTitle(TailLines(n));
    FieldIff(Join(TailLines(n), "\n"));
    TailTitle(n);
  }

  /** Id, type and layer survive printing and reading; a title, or its absence, does under an exact condition. */
  lemma NoteReadsBack(n: RawNote, slug: Option<string>)
    requires IsUlid(n.id)
    ensures
      var s := SummaryOf(RawFilename(n.id, slug), Print(n));
      && s.id == n.id && s.kind == Some("raw") && s.layer == Some(0)
      && (n.title.Some? ==> (s.title == n.title <==> SeparatorFree(n.title.value)))
      && (n.title.None? ==> (s.title == n.title <==> !TailHolds(n)))
  {
    hide Print, Block, JsLines, FieldOf, Unquote, TailHolds;
    BodiesVerbatim(n);
    FixedFields(n);
    assert RawFilename(n.id, slug)[..26] == n.id;
    if n.title.Some? { TitleReadBackIff(n); } else { AbsentTitleIff(n); }
    assert AllDigits("0") && Number("0") == 0;
  }
}
