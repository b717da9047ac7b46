/** Heading-aware chunking of a note body: sections, oversized sections, greedy packing. */
module Chunker {
  import opened Lists
  import opened Text

  const TARGET_CHARS := 2048

  datatype Chunk = Chunk(chunkId: string, noteId: string, seqNo: nat, text: string)

  function Strip(s: string): string {
    Trim(s, PySpace)
  }

  // ---------------------------------------------------------------- Python's line and paragraph splits

  /** The characters `str.splitlines` ends a line at. */
  predicate LineBreak(c: char) {
    c in "\n\U{b}\U{c}\r\U{1c}\U{1d}\U{1e}\U{85}\U{2028}\U{2029}"
  }

  function BreakAt(s: string): (i: nat)
    ensures i <= |s|
    ensures i < |s| ==> LineBreak(s[i])
    ensures forall j :: 0 <= j < i ==> !LineBreak(s[j])
  {
    if s == "" || LineBreak(s[0]) then 0 else BreakAt(s[1..]) + 1
  }

  /** How many characters end the line at i: two for a carriage return and a newline, else one. */
  function BreakWidth(s: string, i: nat): (w: nat)
    requires i < |s|
    ensures 1 <= w && i + w <= |s|
  {
    if s[i] == '\r' && i + 1 < |s| && s[i + 1] == '\n' then 2 else 1
  }

  function SplitLines(s: string): seq<string>
    decreases |s|
  {
    var i := BreakAt(s);
    if s == "" then []
    else if i == |s| then [s]
    else [s[..i]] + SplitLines(s[i + BreakWidth(s, i)..])
  }

  /** The first blank-line separator, or the end of the text. */
  function ParagraphEnd(s: string): (i: nat)
    ensures i <= |s|
    ensures i < |s| ==> i + 2 <= |s| && s[i] == '\n' && s[i + 1] == '\n'
    ensures forall j :: 0 <= j < i && j + 1 < |s| ==> !(s[j] == '\n' && s[j + 1] == '\n')
  {
    if |s| < 2 then |s|
    else if s[0] == '\n' && s[1] == '\n' then 0
    else
      assert forall j :: 1 <= j < |s| ==> s[j] == s[1..][j - 1];
      ParagraphEnd(s[1..]) + 1
  }

  /** `split("\n\n")`. */
  function Paragraphs(s: string): seq<string>
    decreases |s|
  {
    var i := ParagraphEnd(s);
    if i == |s| then [s] else [s[..i]] + Paragraphs(s[i + 2..])
  }

  /** No two newlines stand next to each other. */
  predicate NoBlankLine(s: string) {
    forall i :: 0 <= i < |s| - 1 ==> !(s[i] == '\n' && s[i + 1] == '\n')
  }

  /** Cut at every blank line, as early as possible, and nowhere else. */
  predicate CutAtBlankLines(s: string, parts: seq<string>) {
    && parts != [] && Join(parts, "\n\n") == s
    && (forall i :: 0 <= i < |parts| ==> NoBlankLine(parts[i]))
    && (forall i :: 0 <= i < |parts| - 1 ==> parts[i] == "" || parts[i][|parts[i]| - 1] != '\n')
  }

  lemma {:induction false} ParagraphsCut(s: string)
    ensures CutAtBlankLines(s, Paragraphs(s))
    decreases |s|
  {
    hide Paragraphs, CutAtBlankLines;
    var i := ParagraphEnd(s);
    ParagraphsStep(s);
    if i == |s| {
      OnePart(s);
    } else {
      ParagraphsCut(s[i + 2..]);
      FirstPart(s[..i], s[i + 2..], Paragraphs(s[i + 2..]));
      assert s[i..i + 2] == "\n\n" && s == s[..i] + s[i..i + 2] + s[i + 2..];
    }
  }

  lemma OnePart(s: string)
    requires NoBlankLine(s)
    ensures CutAtBlankLines(s, [s])
  {
  }

  lemma FirstPart(first: string, more: string, parts: seq<string>)
    requires NoBlankLine(first) && (first != "" ==> first[|first| - 1] != '\n') && CutAtBlankLines(more, parts)
    ensures CutAtBlankLines(first + "\n\n" + more, [first] + parts)
  {
    hide NoBlankLine;
    assert ([first] + parts)[1..] == parts;
  }

  lemma {:induction false} ParagraphsStep(s: string)
    ensures
      var i := ParagraphEnd(s);
      if i == |s| then Paragraphs(s) == [s] && NoBlankLine(s)
      else Paragraphs(s) == [s[..i]] + Paragraphs(s[i + 2..]) && NoBlankLine(s[..i]) && (i > 0 ==> s[i - 1] != '\n')
  {
    hide ParagraphEnd;
  }

  /** Lines and what ends them, in turn. */
  function Woven(lines: seq<string>, ends: seq<string>): string
    requires |lines| == |ends|
  {
    if lines == [] then "" else lines[0] + ends[0] + Woven(lines[1..], ends[1..])
  }

  predicate IsBreak(e: string) {
    e == "\r\n" || (|e| == 1 && LineBreak(e[0]))
  }

  /** The text is the lines with their ends; a carriage return and a newline are one end; only the last may have none. */
  predicate CutAtBreaks(s: string, lines: seq<string>, ends: seq<string>) {
    && |lines| == |ends| && Woven(lines, ends) == s
    && (forall k :: 0 <= k < |lines| ==> forall c :: c in lines[k] ==> !LineBreak(c))
    && (forall k :: 0 <= k < |ends| ==> IsBreak(ends[k]) || (k == |ends| - 1 && ends[k] == "" && lines[k] != ""))
    && (forall k :: 0 <= k < |ends| - 1 && ends[k] == "\r" ==> lines[k + 1] != "" || ends[k + 1] != "\n")
  }

  lemma {:induction false} LinesCut(s: string) returns (ends: seq<string>)
    ensures CutAtBreaks(s, SplitLines(s), ends)
    decreases |s|
  {
    hide LineBreak, SplitLines, CutAtBreaks, BreakWidth;
    var i := BreakAt(s);
    SplitLinesStep(s);
    if s == "" {
      ends := [];
      assert CutAtBreaks("", [], []) by { NoLineCut(); }
    } else if i == |s| {
      ends := [""];
      OneLineCut(s);
    } else {
      var w := BreakWidth(s, i);
      ends := LinesCut(s[i + w..]);
      LineEndIsBreak(s, i);
      FirstLineCut(s[..i], s[i..i + w], s[i + w..], SplitLines(s[i + w..]), ends);
      ends := [s[i..i + w]] + ends;
      assert s == s[..i] + s[i..i + w] + s[i + w..];
    }
  }

  lemma {:induction false} SplitLinesStep(s: string)
    ensures
      var i := BreakAt(s);
      SplitLines(s) == if s == "" then [] else if i == |s| then [s] else [s[..i]] + SplitLines(s[i + BreakWidth(s, i)..])
  {
    hide LineBreak, BreakAt, BreakWidth;
  }

  lemma NoLineCut()
    ensures CutAtBreaks("", [], [])
  {
  }

  lemma OneLineCut(s: string)
    requires s != "" && forall c :: c in s ==> !LineBreak(c)
    ensures CutAtBreaks(s, [s], [""])
  {
    hide LineBreak;
    assert Woven([s], [""]) == s + "" + Woven([s][1..], [""][1..]);
  }

  lemma LineEndIsBreak(s: string, i: nat)
    requires i < |s| && LineBreak(s[i])
    ensures
      var end, more := s[i..i + BreakWidth(s, i)], s[i + BreakWidth(s, i)..];
      IsBreak(end) && (end == "\r" ==> more == "" || more[0] != '\n')
  {
    hide LineBreak;
    if BreakWidth(s, i) == 2 { assert s[i..i + 2] == "\r\n"; }
  }

  lemma FirstLineCut(line: string, end: string, more: string, lines: seq<string>, ends: seq<string>)
    requires CutAtBreaks(more, lines, ends) && IsBreak(end) && (end == "\r" ==> more == "" || more[0] != '\n')
    requires forall c :: c in line ==> !LineBreak(c)
    ensures CutAtBreaks(line + end + more, [line] + lines, [end] + ends)
  {
    hide LineBreak, Woven;
    var ls, es := [line] + lines, [end] + ends;
    assert ls[1..] == lines && es[1..] == ends;
    assert Woven(ls, es) == line + end + Woven(lines, ends) by { WovenFirst(ls, es); }
    WovenStarts(lines, ends);
  }

  lemma {:induction false} WovenFirst(lines: seq<string>, ends: seq<string>)
    requires |lines| == |ends| > 0
    ensures Woven(lines, ends) == lines[0] + ends[0] + Woven(lines[1..], ends[1..])
  {
  }

  lemma {:induction false} WovenStarts(lines: seq<string>, ends: seq<string>)
    requires |lines| == |ends|
    ensures lines != [] && lines[0] == "" && ends[0] == "\n" ==> Woven(lines, ends) != "" && Woven(lines, ends)[0] == '\n'
  {
    if lines != [] { assert lines[0] + ends[0] <= Woven(lines, ends); }
  }

  // ---------------------------------------------------------------- sections

  function Hashes(line: string): (n: nat)
    ensures n <= |line|
  {
    if line != "" && line[0] == '#' then Hashes(line[1..]) + 1 else 0
  }

  /** One to six `#` and a space. */
  predicate IsHeading(line: string) {
    1 <= Hashes(line) <= 6 && Hashes(line) < |line| && line[Hashes(line)] == ' '
  }

  lemma {:induction false} HashesAre(line: string)
    ensures forall i :: 0 <= i < Hashes(line) ==> line[i] == '#'
    ensures Hashes(line) < |line| ==> line[Hashes(line)] != '#'
  {
    if line != "" && line[0] == '#' {
      HashesAre(line[1..]);
      assert forall i :: 1 <= i < |line| ==> line[i] == line[1..][i - 1];
    }
  }

  /** The heading pattern. */
  lemma HeadingIff(line: string)
    ensures IsHeading(line) <==> exists n :: 1 <= n <= 6 && n < |line| && (forall i :: 0 <= i < n ==> line[i] == '#') && line[n] == ' '
  {
    HashesAre(line);
    if n :| 1 <= n <= 6 && n < |line| && (forall i :: 0 <= i < n ==> line[i] == '#') && line[n] == ' ' {
      assert n == Hashes(line);
    }
  }

  /** The lines cut before every heading, `current` being the group already begun. */
  function Groups(current: seq<string>, lines: seq<string>): seq<seq<string>>
    decreases |lines|
  {
    if lines == [] then [current]
    else if IsHeading(lines[0]) && current != [] then [current] + Groups([lines[0]], lines[1..])
    else Groups(current + [lines[0]], lines[1..])
  }

  /** A group as a section: its lines joined and stripped, dropped when nothing is left. */
  function SectionOf(g: seq<string>): seq<string> {
    var s := Strip(Join(g, "\n"));
    if s == "" then [] else [s]
  }

  function Sections(groups: seq<seq<string>>): seq<string> {
    if groups == [] then [] else SectionOf(groups[0]) + Sections(groups[1..])
  }

  method SplitSections(body: string) returns (sections: seq<string>)
    ensures sections == Sections(Groups([], SplitLines(body)))
  {
    hide SplitLines, Trim, Join, IsHeading;
    var lines := SplitLines(body);
    sections := [];
    var current: seq<string> := [];
    for i := 0 to |lines|
      invariant sections + Sections(Groups(current, lines[i..])) == Sections(Groups([], lines))
    {
      assert lines[i..][1..] == lines[i + 1..];
      if IsHeading(lines[i]) && current != [] {
        var section := Strip(Join(current, "\n"));
        SectionsCons(current, Groups([lines[i]], lines[i + 1..]));
        if section != "" {
          sections := sections + [section];
        }
        current := [lines[i]];
      } else {
        current := current + [lines[i]];
      }
    }
    var tail := Strip(Join(current, "\n"));
    SectionsCons(current, []);
    if tail != "" {
      sections := sections + [tail];
    }
  }

  lemma SectionsCons(g: seq<string>, gs: seq<seq<string>>)
    ensures Sections([g] + gs) == SectionOf(g) + Sections(gs)
  {
    assert ([g] + gs)[1..] == gs;
  }

  /** The joined and stripped text of every group. */
  function GroupTexts(groups: seq<seq<string>>): seq<string> {
    seq(|groups|, i requires 0 <= i < |groups| => Trim(Join(groups[i], "\n"), PySpace))
  }

  predicate NotEmpty(s: string) {
    s != ""
  }

  /** The sections are the stripped texts of the groups that are not blank, in order. */
  lemma {:induction false} SectionsAreTexts(groups: seq<seq<string>>) returns (at: seq<nat>)
    ensures Kept(GroupTexts(groups), NotEmpty, Sections(groups), at)
  {
    SectionsFilter(groups);
    at := FilterKeeps(GroupTexts(groups), NotEmpty);
  }

  lemma {:induction false} SectionsFilter(groups: seq<seq<string>>)
    ensures Sections(groups) == Filter(GroupTexts(groups), NotEmpty)
  {
    hide Trim, Join;
    if groups != [] {
      SectionsFilter(groups[1..]);
      assert GroupTexts(groups)[1..] == GroupTexts(groups[1..]);
    }
  }

  function Flatten<T>(groups: seq<seq<T>>): seq<T> {
    if groups == [] then [] else groups[0] + Flatten(groups[1..])
  }

  /** Only the first line of a group may be a heading. */
  predicate Headed(g: seq<string>) {
    forall i :: 1 <= i < |g| ==> !IsHeading(g[i])
  }

  /**
   * The groups partition the lines in order; a heading line is always the first of its group, and every
   * group but the first starts with one.
   */
  lemma {:induction false} HeadingsStartSections(current: seq<string>, lines: seq<string>)
    requires Headed(current)
    ensures
      var gs := Groups(current, lines);
      && gs != [] && Flatten(gs) == current + lines
      && (forall k :: 0 <= k < |gs| ==> Headed(gs[k]))
      && (forall k :: 1 <= k < |gs| ==> gs[k] != [] && IsHeading(gs[k][0]))
    decreases |lines|
  {
    if lines == [] {
      assert Flatten([current]) == current + Flatten<string>([]);
    } else if IsHeading(lines[0]) && current != [] {
      var rest := Groups([lines[0]], lines[1..]);
      HeadingsStartSections([lines[0]], lines[1..]);
      HeadKept([lines[0]], lines[1..]);
      var gs := [current] + rest;
      assert gs[1..] == rest;
      assert forall k :: 1 <= k < |gs| ==> gs[k] == rest[k - 1];
      assert [lines[0]] + lines[1..] == lines;
    } else {
      HeadingsStartSections(current + [lines[0]], lines[1..]);
      assert (current + [lines[0]]) + lines[1..] == current + lines;
    }
  }

  lemma {:induction false} HeadKept(current: seq<string>, lines: seq<string>)
    requires current != []
    ensures Groups(current, lines) != [] && Groups(current, lines)[0] != [] && Groups(current, lines)[0][0] == current[0]
    decreases |lines|
  {
    if lines != [] && !IsHeading(lines[0]) { HeadKept(current + [lines[0]], lines[1..]); }
  }

  // ---------------------------------------------------------------- pieces

  /** A text cut every 2048 characters. */
  function Slices(p: string): (r: seq<string>)
    ensures forall i :: 0 <= i < |r| ==> 0 < |r[i]| <= TARGET_CHARS
    decreases |p|
  {
    if p == "" then []
    else if |p| <= TARGET_CHARS then [p]
    else [p[..TARGET_CHARS]] + Slices(p[TARGET_CHARS..])
  }

  function ParagraphPieces(paragraph: string): seq<string> {
    var p := Strip(paragraph);
    if p == "" then [] else if |p| <= TARGET_CHARS then [p] else Slices(p)
  }

  function AllParagraphPieces(ps: seq<string>): seq<string> {
    if ps == [] then [] else ParagraphPieces(ps[0]) + AllParagraphPieces(ps[1..])
  }

  function Oversized(section: string): seq<string> {
    if |section| <= TARGET_CHARS then [section] else AllParagraphPieces(Paragraphs(section))
  }

  method SplitOversized(section: string) returns (pieces: seq<string>)
    ensures pieces == Oversized(section)
  {
    if |section| <= TARGET_CHARS {
      return [section];
    }
    hide Paragraphs, Trim, Slices, AllParagraphPieces;
    pieces := [];
    var paragraphs := Paragraphs(section);
    assert paragraphs[0..] == paragraphs;
    for i := 0 to |paragraphs|
      invariant pieces + AllParagraphPieces(paragraphs[i..]) == AllParagraphPieces(paragraphs)
    {
      NextParagraph(paragraphs, i);
      var paragraph := Strip(paragraphs[i]);
      if paragraph == "" {
        continue;
      }
      ConcatAssoc(pieces, ParagraphPieces(paragraphs[i]), AllParagraphPieces(paragraphs[i + 1..]));
      if |paragraph| <= TARGET_CHARS {
        pieces := pieces + [paragraph];
      } else {
        pieces := pieces + Slices(paragraph);
      }
    }
    NoParagraphs(paragraphs[|paragraphs|..]);
  }

  lemma NextParagraph(ps: seq<string>, i: nat)
    requires i < |ps|
    ensures AllParagraphPieces(ps[i..]) == ParagraphPieces(ps[i]) + AllParagraphPieces(ps[i + 1..])
    ensures ParagraphPieces(ps[i]) == [] ==> AllParagraphPieces(ps[i..]) == AllParagraphPieces(ps[i + 1..])
  {
    assert ps[i..][1..] == ps[i + 1..];
  }

  lemma NoParagraphs(ps: seq<string>)
    requires ps == []
    ensures AllParagraphPieces(ps) == []
  {
  }

  function PiecesOf(sections: seq<string>): seq<string> {
    if sections == [] then [] else Oversized(sections[0]) + PiecesOf(sections[1..])
  }

  /** A piece `_pack` can handle: not empty, and not over the target. */
  predicate Fits(p: string) {
    0 < |p| <= TARGET_CHARS
  }

  predicate AllFit(ps: seq<string>) {
    forall i :: 0 <= i < |ps| ==> Fits(ps[i])
  }

  lemma {:induction false} ParagraphPiecesFit(ps: seq<string>)
    ensures AllFit(AllParagraphPieces(ps))
  {
    hide Slices, Trim;
    if ps != [] { ParagraphPiecesFit(ps[1..]); }
  }

  lemma {:induction false} PiecesFit(sections: seq<string>)
    requires forall i :: 0 <= i < |sections| ==> sections[i] != ""
    ensures AllFit(PiecesOf(sections))
  {
    hide AllParagraphPieces, Paragraphs;
    if sections != [] {
      PiecesFit(sections[1..]);
      ParagraphPiecesFit(Paragraphs(sections[0]));
    }
  }

  lemma {:induction false} SectionsNonEmpty(groups: seq<seq<string>>)
    ensures forall i :: 0 <= i < |Sections(groups)| ==> Sections(groups)[i] != ""
  {
    if groups != [] { SectionsNonEmpty(groups[1..]); }
  }

  // ---------------------------------------------------------------- packing

  /** The greedy runs, `buffer` being the run already begun. */
  function Runs(buffer: seq<string>, pieces: seq<string>): seq<seq<string>>
    decreases |pieces|
  {
    if pieces == [] then (if buffer == [] then [] else [buffer])
    else if buffer != [] && TotalLength(buffer) + |pieces[0]| > TARGET_CHARS
    then [buffer] + Runs([pieces[0]], pieces[1..])
    else Runs(buffer + [pieces[0]], pieces[1..])
  }

  function Joined(runs: seq<seq<string>>): seq<string> {
    if runs == [] then [] else [Join(runs[0], "\n\n")] + Joined(runs[1..])
  }

  method Pack(pieces: seq<string>) returns (chunks: seq<string>)
    ensures chunks == Joined(Runs([], pieces))
  {
    chunks := [];
    var buffer: seq<string> := [];
    var bufferedChars := 0;
    for i := 0 to |pieces|
      invariant bufferedChars == TotalLength(buffer)
      invariant chunks + Joined(Runs(buffer, pieces[i..])) == Joined(Runs([], pieces))
    {
      var piece := pieces[i];
      assert pieces[i..][0] == piece && pieces[i..][1..] == pieces[i + 1..];
      if buffer != [] && bufferedChars + |piece| > TARGET_CHARS {
        JoinedCons(buffer, Runs([piece], pieces[i + 1..]));
        chunks := chunks + [Join(buffer, "\n\n")];
        buffer, bufferedChars := [], 0;
      }
      assert [] + [piece] == [piece];
      TotalLengthAppend(buffer, [piece]);
      assert TotalLength([piece]) == |piece|;
      buffer := buffer + [piece];
      bufferedChars := bufferedChars + |piece|;
    }
    JoinedCons(buffer, []);
    if buffer != [] {
      chunks := chunks + [Join(buffer, "\n\n")];
    }
  }

  lemma JoinedCons(run: seq<string>, runs: seq<seq<string>>)
    ensures Joined([run] + runs) == [Join(run, "\n\n")] + Joined(runs)
  {
    assert ([run] + runs)[1..] == runs;
  }

  /** A way to cut the pieces into consecutive runs, none over the target. */
  predicate IsPacking(runs: seq<seq<string>>, pieces: seq<string>) {
    Flatten(runs) == pieces && forall i :: 0 <= i < |runs| ==> TotalLength(runs[i]) <= TARGET_CHARS
  }

  lemma {:induction false} GreedyIsPacking(buffer: seq<string>, pieces: seq<string>)
    requires TotalLength(buffer) <= TARGET_CHARS
    requires forall i :: 0 <= i < |pieces| ==> |pieces[i]| <= TARGET_CHARS
    ensures IsPacking(Runs(buffer, pieces), buffer + pieces)
    ensures forall i :: 0 <= i < |Runs(buffer, pieces)| ==> Runs(buffer, pieces)[i] != []
    decreases |pieces|
  {
    if pieces == [] {
      assert Flatten([buffer]) == buffer + Flatten<string>([]);
    } else {
      var p, rest := pieces[0], pieces[1..];
      assert TotalLength([p]) == |p|;
      if buffer != [] && TotalLength(buffer) + |p| > TARGET_CHARS {
        GreedyIsPacking([p], rest);
        var runs := [buffer] + Runs([p], rest);
        assert runs[1..] == Runs([p], rest);
        assert [p] + rest == pieces;
      } else {
        TotalLengthAppend(buffer, [p]);
        GreedyIsPacking(buffer + [p], rest);
        assert (buffer + [p]) + rest == buffer + pieces;
      }
    }
  }

  lemma OneLength(p: string)
    ensures TotalLength([p]) == |p|
  {
  }

  /** The first greedy run takes as many pieces as fit; the rest is packed afresh. */
  lemma {:induction false} FirstRun(buffer: seq<string>, pieces: seq<string>) returns (n: nat)
    requires buffer != []
    ensures n <= |pieces| && Runs(buffer, pieces) == [buffer + pieces[..n]] + Runs([], pieces[n..])
    ensures n < |pieces| ==> TotalLength(buffer) + TotalLength(pieces[..n + 1]) > TARGET_CHARS
    decreases |pieces|
  {
    hide TotalLength;
    if pieces == [] {
      n := 0;
      assert buffer + pieces[..0] == buffer;
    } else {
      var p, rest := pieces[0], pieces[1..];
      OneLength(p);
      if TotalLength(buffer) + |p| > TARGET_CHARS {
        n := 0;
        assert buffer + pieces[..0] == buffer && pieces[0..] == pieces && [] + [p] == [p];
        assert pieces[..1] == [p];
      } else {
        n := FirstRun(buffer + [p], rest);
        n := n + 1;
        assert buffer + pieces[..n] == (buffer + [p]) + rest[..n - 1] && pieces[n..] == rest[n - 1..];
        TotalLengthAppend(buffer, [p]);
        if n < |pieces| {
          HeadTake(pieces, n);
          TotalLengthAppend([p], rest[..n]);
        }
      }
    }
  }

  lemma HeadTake(pieces: seq<string>, n: nat)
    requires n < |pieces|
    ensures pieces[..n + 1] == [pieces[0]] + pieces[1..][..n]
  {
  }

  lemma TotalLengthPrefix(a: seq<string>, k: nat)
    requires k <= |a|
    ensures TotalLength(a[..k]) <= TotalLength(a) && TotalLength(a[k..]) <= TotalLength(a)
  {
    TotalLengthAppend(a[..k], a[k..]);
    assert a[..k] + a[k..] == a;
  }

  /** A run that could still take a piece of `first` is within the target. */
  lemma RunTooShort(first: seq<string>, rest: seq<string>, k: nat, n: nat)
    requires k + n + 1 < |first|
    ensures
      var todo := (first + rest)[k..];
      TotalLength([todo[0]]) + TotalLength(todo[1..][..n + 1]) <= TotalLength(first)
  {
    hide TotalLength;
    var todo := (first + rest)[k..];
    HeadTake(todo, n + 1);
    assert todo[..n + 2] == first[k..][..n + 2];
    TotalLengthAppend([todo[0]], todo[1..][..n + 1]);
    TotalLengthPrefix(first, k);
    TotalLengthPrefix(first[k..], n + 2);
  }

  /** Greedy packing of any suffix needs no more runs than any packing of the whole. */
  lemma {:induction false} SuffixOptimal(packing: seq<seq<string>>, pieces: seq<string>, k: nat)
    requires IsPacking(packing, pieces) && k <= |pieces|
    ensures |Runs([], pieces[k..])| <= |packing|
    decreases |packing|, |pieces| - k
  {
    if k < |pieces| {
      var first, others := packing[0], packing[1..];
      var rest := Flatten(others);
      assert pieces == first + rest;
      assert IsPacking(others, rest);
      if k >= |first| {
        assert pieces[k..] == rest[k - |first|..];
        SuffixOptimal(others, rest, k - |first|);
      } else {
        var todo := pieces[k..];
        var n := FirstRun([todo[0]], todo[1..]);
        assert [] + [todo[0]] == [todo[0]];
        assert Runs([], todo) == [[todo[0]] + todo[1..][..n]] + Runs([], todo[1..][n..]);
        if n + 1 < |first| - k {
          RunTooShort(first, rest, k, n);
          assert false;
        }
        var past := k + 1 + n - |first|;
        assert todo[1..][n..] == rest[past..];
        SuffixOptimal(others, rest, past);
      }
    }
  }

  /**
   * Greedy packing: a partition into consecutive non-empty runs within the target, with the fewest runs
   * of all partitions within the target.
   */
  lemma PackIsOptimal(pieces: seq<string>, packing: seq<seq<string>>)
    requires forall i :: 0 <= i < |pieces| ==> |pieces[i]| <= TARGET_CHARS
    requires IsPacking(packing, pieces)
    ensures IsPacking(Runs([], pieces), pieces)
    ensures forall i :: 0 <= i < |Runs([], pieces)| ==> Runs([], pieces)[i] != []
    ensures |Runs([], pieces)| <= |packing|
  {
    GreedyIsPacking([], pieces);
    assert [] + pieces == pieces && pieces[0..] == pieces;
    SuffixOptimal(packing, pieces, 0);
  }

  lemma {:induction false} JoinedAt(runs: seq<seq<string>>)
    ensures |Joined(runs)| == |runs|
    ensures forall i :: 0 <= i < |runs| ==> Joined(runs)[i] == Join(runs[i], "\n\n")
  {
    if runs != [] { JoinedAt(runs[1..]); }
  }

  lemma {:induction false} NonEmptyTotal(run: seq<string>)
    requires AllFit(run)
    ensures TotalLength(run) >= |run|
  {
    if run != [] { NonEmptyTotal(run[1..]); }
  }

  /**
   * The real length of a packed text: its pieces plus two characters per join. Since pieces are not
   * empty this stays below three times the target.
   */
  lemma PackedLength(pieces: seq<string>, i: nat)
    requires AllFit(pieces) && i < |Runs([], pieces)|
    ensures
      var run, text := Runs([], pieces)[i], Joined(Runs([], pieces));
      && i < |text| && |text[i]| == TotalLength(run) + 2 * (|run| - 1)
      && |text[i]| <= 3 * TARGET_CHARS - 2
  {
    var runs := Runs([], pieces);
    GreedyIsPacking([], pieces);
    assert [] + pieces == pieces;
    JoinedAt(runs);
    JoinLength(runs[i], "\n\n");
    FlattenFits(runs, i);
    NonEmptyTotal(runs[i]);
  }

  lemma {:induction false} FlattenFits(runs: seq<seq<string>>, i: nat)
    requires AllFit(Flatten(runs)) && i < |runs|
    ensures AllFit(runs[i])
  {
    var rest := Flatten(runs[1..]);
    assert Flatten(runs) == runs[0] + rest;
    if i == 0 {
      forall k | 0 <= k < |runs[0]| ensures Fits(runs[0][k]) { assert Flatten(runs)[k] == runs[0][k]; }
    } else {
      forall k | 0 <= k < |rest| ensures Fits(rest[k]) { assert Flatten(runs)[|runs[0]| + k] == rest[k]; }
      FlattenFits(runs[1..], i - 1);
    }
  }

  // ---------------------------------------------------------------- the whole note

  function PiecesOfBody(body: string): seq<string> {
    PiecesOf(Sections(Groups([], SplitLines(body))))
  }

  /** The packed texts with the title put before the first. */
  function Texts(title: string, body: string): seq<string> {
    var packed := Joined(Runs([], PiecesOfBody(body)));
    var texts := if packed == [] && title != "" then [""] else packed;
    if texts != [] && title != "" then [Strip(title + "\n\n" + texts[0])] + texts[1..] else texts
  }

  /**
   * What a title does: it leads the first text, stripped, or makes up the only one; every other text is as without it.
   * An empty title changes nothing.
   */
  lemma TitleLeads(title: string, body: string)
    ensures
      var plain, titled := Texts("", body), Texts(title, body);
      && plain == Joined(Runs([], PiecesOfBody(body)))
      && (title != "" && plain == [] ==> titled == [Trim(title + "\n\n", PySpace)])
      && (title != "" && plain != [] ==>
            |titled| == |plain| && titled[0] == Trim(title + "\n\n" + plain[0], PySpace)
            && forall i :: 1 <= i < |plain| ==> titled[i] == plain[i])
  {
    hide Joined, Runs, PiecesOfBody, Trim;
    assert title + "\n\n" + "" == title + "\n\n";
  }

  lemma NextPieces(sections: seq<string>, i: nat)
    requires i < |sections|
    ensures PiecesOf(sections[i..]) == Oversized(sections[i]) + PiecesOf(sections[i + 1..])
  {
    assert sections[i..][1..] == sections[i + 1..];
  }

  lemma NoPieces(sections: seq<string>)
    requires sections == []
    ensures PiecesOf(sections) == []
  {
  }

  method ChunkNote(noteId: string, title: string, body: string) returns (chunks: seq<Chunk>)
    ensures |chunks| == |Texts(title, body)|
    ensures forall i :: 0 <= i < |chunks| ==>
              chunks[i] == Chunk(noteId + "#" + Decimal(i), noteId, i, Texts(title, body)[i])
  {
    hide Decimal, Join, Trim, Runs, Oversized, PiecesOf, Sections, Groups, SplitLines, Joined;
    var pieces: seq<string> := [];
    var sections := SplitSections(body);
    assert sections[0..] == sections;
    for i := 0 to |sections|
      invariant pieces + PiecesOf(sections[i..]) == PiecesOf(sections)
    {
      NextPieces(sections, i);
      var more := SplitOversized(sections[i]);
      ConcatAssoc(pieces, more, PiecesOf(sections[i + 1..]));
      pieces := pieces + more;
    }
    NoPieces(sections[|sections|..]);
    assert pieces == PiecesOfBody(body);
    var texts := Pack(pieces);
    if texts == [] && title != "" {
      texts := [""];
    }
    if texts != [] && title != "" {
      texts := texts[0 := Strip(title + "\n\n" + texts[0])];
    }
    assert texts == Texts(title, body);
    chunks := [];
    for k := 0 to |texts|
      invariant |chunks| == k
      invariant forall i :: 0 <= i < k ==> chunks[i] == Chunk(noteId + "#" + Decimal(i), noteId, i, texts[i])
    {
      chunks := chunks + [Chunk(noteId + "#" + Decimal(k), noteId, k, texts[k])];
    }
  }

  // ---------------------------------------------------------------- conservation

  /** The characters that are not white space. */
  function NonWs(s: string): string {
    if s == "" then "" else (if PySpace(s[0]) then "" else [s[0]]) + NonWs(s[1..])
  }

  lemma {:induction false} NonWsAppend(a: string, b: string)
    ensures NonWs(a + b) == NonWs(a) + NonWs(b)
  {
    hide PySpace;
    if a == "" {
      assert a + b == b;
    } else {
      assert (a + b)[1..] == a[1..] + b;
      NonWsAppend(a[1..], b);
    }
  }

  lemma {:induction false} NonWsBlank(s: string)
    requires Blank(s, PySpace)
    ensures NonWs(s) == ""
  {
    if s != "" { NonWsBlank(s[1..]); }
  }

  lemma NonWsAround(s: string, i: nat, j: nat)
    requires i <= j <= |s| && Blank(s[i..j], PySpace)
    ensures NonWs(s) == NonWs(s[..i]) + NonWs(s[j..])
  {
    hide *;
    assert s[..i] + s[i..j] + s[j..] == s;
    NonWsThree(s[..i], s[i..j], s[j..]);
  }

  lemma NonWsThree(a: string, b: string, c: string)
    requires Blank(b, PySpace)
    ensures NonWs(a + b + c) == NonWs(a) + NonWs(c)
  {
    hide NonWs, PySpace;
    NonWsBlank(b);
    NonWsAppend(a + b, c);
    NonWsAppend(a, b);
    assert NonWs(a) + "" == NonWs(a);
  }

  lemma NonWsStrip(s: string)
    ensures NonWs(Strip(s)) == NonWs(s)
  {
    hide NonWs, PySpace, TrimStart, TrimEnd;
    var t := TrimStart(s, PySpace);
    var r := TrimEnd(t, PySpace);
    var k := |s| - |t|;
    assert s[0..k] == s[..k] && s[..0] == "";
    NonWsAround(s, 0, k);
    NonWsAround(t, |r|, |t|);
    assert t[..|r|] == r && t[|t|..] == "";
    NonWsBlank("");
  }

  lemma {:induction false} FlattenAppend<T>(a: seq<seq<T>>, b: seq<seq<T>>)
    ensures Flatten(a + b) == Flatten(a) + Flatten(b)
  {
    if a == [] {
      assert a + b == b;
    } else {
      assert (a + b)[1..] == a[1..] + b;
      FlattenAppend(a[1..], b);
    }
  }

  lemma FlattenOne<T>(x: seq<T>, rest: seq<seq<T>>)
    ensures Flatten([x] + rest) == x + Flatten(rest)
  {
    assert ([x] + rest)[1..] == rest;
  }

  lemma {:induction false} NonWsJoin(parts: seq<string>, sep: string)
    requires Blank(sep, PySpace)
    ensures NonWs(Join(parts, sep)) == NonWs(Flatten(parts))
  {
    hide NonWs, PySpace;
    if |parts| == 1 {
      assert parts == [parts[0]] + [];
      FlattenOne(parts[0], []);
      assert parts[0] + [] == parts[0];
    } else if parts != [] {
      var tail := Join(parts[1..], sep);
      NonWsJoin(parts[1..], sep);
      var all := parts[0] + sep + tail;
      assert all[..|parts[0]|] == parts[0] && all[|parts[0] + sep|..] == tail && all[|parts[0]|..|parts[0] + sep|] == sep;
      NonWsAround(all, |parts[0]|, |parts[0] + sep|);
      NonWsAppend(parts[0], Flatten(parts[1..]));
    }
  }

  lemma BreakIsSpace(c: char)
    requires LineBreak(c)
    ensures PySpace(c)
  {
  }

  /** Cutting white space out of a text, the part before it becoming a text of its own. */
  lemma NonWsCut(s: string, i: nat, j: nat, rest: seq<string>)
    requires i <= j <= |s| && Blank(s[i..j], PySpace) && NonWs(Flatten(rest)) == NonWs(s[j..])
    ensures NonWs(Flatten([s[..i]] + rest)) == NonWs(s)
  {
    hide NonWs, PySpace;
    NonWsAround(s, i, j);
    FlattenOne(s[..i], rest);
    NonWsAppend(s[..i], Flatten(rest));
  }

  lemma FlattenSingle(s: string)
    ensures Flatten([s]) == s
  {
    FlattenOne(s, []);
    assert [s] + [] == [s] && s + [] == s;
  }

  lemma BreakBlank(s: string, i: nat)
    requires i < |s| && LineBreak(s[i])
    ensures Blank(s[i..i + BreakWidth(s, i)], PySpace)
  {
    BreakIsSpace(s[i]);
    BreakIsNewline();
  }

  lemma {:induction false} NonWsSplitLines(s: string)
    ensures NonWs(Flatten(SplitLines(s))) == NonWs(s)
    decreases |s|
  {
    hide NonWs, PySpace, LineBreak, BreakWidth, Flatten;
    var i := BreakAt(s);
    if s == "" {
      EmptyFlat();
    } else if i == |s| {
      FlattenSingle(s);
    } else {
      BreakBlank(s, i);
      NonWsSplitLines(s[i + BreakWidth(s, i)..]);
      NonWsCut(s, i, i + BreakWidth(s, i), SplitLines(s[i + BreakWidth(s, i)..]));
    }
  }

  lemma EmptyFlat()
    ensures Flatten<char>([]) == ""
  {
  }

  lemma BreakIsNewline()
    ensures PySpace('\n')
  {
  }

  lemma {:induction false} NonWsParagraphs(s: string)
    ensures NonWs(Flatten(Paragraphs(s))) == NonWs(s)
    decreases |s|
  {
    hide NonWs, PySpace, Flatten;
    var i := ParagraphEnd(s);
    if i == |s| {
      FlattenSingle(s);
    } else {
      BreakIsNewline();
      NonWsParagraphs(s[i + 2..]);
      NonWsCut(s, i, i + 2, Paragraphs(s[i + 2..]));
    }
  }

  lemma {:induction false} NonWsSections(groups: seq<seq<string>>)
    ensures NonWs(Flatten(Sections(groups))) == NonWs(Flatten(Flatten(groups)))
  {
    hide NonWs, PySpace, Trim, Join;
    if groups != [] {
      var g, rest := groups[0], groups[1..];
      NonWsSections(rest);
      BreakIsNewline();
      NonWsJoin(g, "\n");
      NonWsStrip(Join(g, "\n"));
      FlattenAppend(SectionOf(g), Sections(rest));
      FlattenOne(Strip(Join(g, "\n")), []);
      assert [Strip(Join(g, "\n"))] + [] == [Strip(Join(g, "\n"))];
      assert Flatten(SectionOf(g)) == Strip(Join(g, "\n"));
      NonWsAppend(Flatten(SectionOf(g)), Flatten(Sections(rest)));
      FlattenAppend(g, Flatten(rest));
      NonWsAppend(Flatten(g), Flatten(Flatten(rest)));
    }
  }

  lemma {:induction false} FlattenSlices(p: string)
    ensures Flatten(Slices(p)) == p
    decreases |p|
  {
    if p != "" && |p| <= TARGET_CHARS {
      FlattenOne(p, []);
      assert [p] + [] == [p] && p + [] == p;
    } else if p != "" {
      FlattenSlices(p[TARGET_CHARS..]);
      FlattenOne(p[..TARGET_CHARS], Slices(p[TARGET_CHARS..]));
    }
  }

  /** A text cut into pieces of 2048 characters, but for the last; a short one is one piece, an empty one none. */
  predicate CutToSize(p: string, pieces: seq<string>) {
    && Flatten(pieces) == p
    && (forall k :: 0 <= k < |pieces| ==> if k < |pieces| - 1 then |pieces[k]| == 2048 else 0 < |pieces[k]| <= 2048)
    && (|p| <= 2048 ==> pieces == if p == "" then [] else [p])
  }

  lemma {:induction false} SlicesToSize(p: string)
    ensures CutToSize(p, Slices(p))
    decreases |p|
  {
    FlattenSlices(p);
    if |p| > 2048 {
      SlicesToSize(p[2048..]);
      assert Slices(p[2048..]) != [];
    }
  }

  lemma ParagraphToSize(paragraph: string)
    ensures CutToSize(Strip(paragraph), ParagraphPieces(paragraph))
  {
    hide Trim;
    SlicesToSize(Strip(paragraph));
    if Strip(paragraph) == "" { EmptyFlat(); }
  }

  /** The pieces of each paragraph. */
  function EachParagraph(ps: seq<string>): seq<seq<string>> {
    seq(|ps|, i requires 0 <= i < |ps| => ParagraphPieces(ps[i]))
  }

  lemma {:induction false} PiecesByParagraph(ps: seq<string>)
    ensures AllParagraphPieces(ps) == Flatten(EachParagraph(ps))
  {
    hide ParagraphPieces;
    if ps != [] {
      PiecesByParagraph(ps[1..]);
      assert EachParagraph(ps)[1..] == EachParagraph(ps[1..]);
    }
  }

  /**
   * A section within the target is one piece. A longer one is cut at its blank lines, and each paragraph, stripped,
   * gives its pieces in turn: none when blank, itself when it fits, and else pieces of 2048 characters but the last.
   */
  lemma OversizedMeans(section: string) returns (paragraphs: seq<string>, pieces: seq<seq<string>>)
    ensures CutAtBlankLines(section, paragraphs) && |pieces| == |paragraphs|
    ensures forall i :: 0 <= i < |paragraphs| ==> CutToSize(Strip(paragraphs[i]), pieces[i])
    ensures Oversized(section) == if |section| <= 2048 then [section] else Flatten(pieces)
  {
    hide Paragraphs, AllParagraphPieces, ParagraphPieces, CutAtBlankLines, CutToSize, Trim;
    paragraphs := Paragraphs(section);
    pieces := EachParagraph(paragraphs);
    ParagraphsCut(section);
    PiecesByParagraph(paragraphs);
    forall i | 0 <= i < |paragraphs| ensures CutToSize(Strip(paragraphs[i]), pieces[i]) { ParagraphToSize(paragraphs[i]); }
  }

  lemma {:induction false} NonWsParagraphPieces(ps: seq<string>)
    ensures NonWs(Flatten(AllParagraphPieces(ps))) == NonWs(Flatten(ps))
  {
    hide NonWs, PySpace, Trim, Slices;
    if ps != [] {
      var p := Strip(ps[0]);
      NonWsParagraphPieces(ps[1..]);
      FlattenAppend(ParagraphPieces(ps[0]), AllParagraphPieces(ps[1..]));
      FlattenSlices(p);
      FlattenOne(p, []);
      assert [p] + [] == [p] && p + [] == p;
      NonWsStrip(ps[0]);
      assert Flatten(ParagraphPieces(ps[0])) == p;
      NonWsAppend(p, Flatten(AllParagraphPieces(ps[1..])));
      NonWsAppend(ps[0], Flatten(ps[1..]));
    }
  }

  lemma {:induction false} NonWsPieces(sections: seq<string>)
    ensures NonWs(Flatten(PiecesOf(sections))) == NonWs(Flatten(sections))
  {
    hide NonWs, PySpace, AllParagraphPieces, Paragraphs;
    if sections != [] {
      var s := sections[0];
      NonWsPieces(sections[1..]);
      FlattenAppend(Oversized(s), PiecesOf(sections[1..]));
      NonWsAppend(Flatten(Oversized(s)), Flatten(PiecesOf(sections[1..])));
      NonWsAppend(s, Flatten(sections[1..]));
      NonWsParagraphPieces(Paragraphs(s));
      NonWsParagraphs(s);
      FlattenOne(s, []);
      assert [s] + [] == [s] && s + [] == s;
    }
  }

  lemma {:induction false} NonWsJoined(runs: seq<seq<string>>)
    ensures NonWs(Flatten(Joined(runs))) == NonWs(Flatten(Flatten(runs)))
  {
    hide NonWs, PySpace, Join;
    if runs != [] {
      var run, rest := runs[0], runs[1..];
      NonWsJoined(rest);
      BreakIsNewline();
      NonWsJoin(run, "\n\n");
      FlattenOne(Join(run, "\n\n"), Joined(rest));
      NonWsAppend(Join(run, "\n\n"), Flatten(Joined(rest)));
      FlattenAppend(run, Flatten(rest));
      NonWsAppend(Flatten(run), Flatten(Flatten(rest)));
    }
  }

  /**
   * Nothing but white space is lost or moved: the other characters of all chunk texts, in order, are
   * those of the title followed by those of the body. And every piece handed to packing fits the target.
   */
  lemma ChunksConserve(title: string, body: string)
    ensures NonWs(Flatten(Texts(title, body))) == NonWs(title) + NonWs(body)
    ensures AllFit(PiecesOfBody(body))
  {
    hide NonWs, PySpace, Trim, Join, Runs, Groups, SplitLines, PiecesOf, Sections, Joined;
    var groups, pieces := Groups([], SplitLines(body)), PiecesOfBody(body);
    HeadingsStartSections([], SplitLines(body));
    assert [] + SplitLines(body) == SplitLines(body);
    NonWsSplitLines(body);
    NonWsSections(groups);
    NonWsPieces(Sections(groups));
    SectionsNonEmpty(groups);
    PiecesFit(Sections(groups));
    GreedyIsPacking([], pieces);
    assert [] + pieces == pieces;
    NonWsJoined(Runs([], pieces));
    TitleConserves(title, Joined(Runs([], pieces)));
  }

  lemma TitleConserves(title: string, packed: seq<string>)
    ensures
      var texts := if packed == [] && title != "" then [""] else packed;
      NonWs(Flatten(if texts != [] && title != "" then [Strip(title + "\n\n" + texts[0])] + texts[1..] else texts))
      == NonWs(title) + NonWs(Flatten(packed))
  {
    hide PySpace, Trim, NonWs;
    var texts := if packed == [] && title != "" then [""] else packed;
    if title != "" {
      FirstTextConserves(title, texts[0], texts[1..]);
      assert texts == [texts[0]] + texts[1..];
      if packed == [] { FlattenSingle(""); }
    } else {
      NonWsBlank(title);
      assert "" + NonWs(Flatten(packed)) == NonWs(Flatten(packed));
    }
  }

  lemma FirstTextConserves(title: string, text: string, rest: seq<string>)
    ensures NonWs(Flatten([Strip(title + "\n\n" + text)] + rest)) == NonWs(title) + NonWs(Flatten([text] + rest))
  {
    hide PySpace, Trim, NonWs, Flatten;
    var first := title + "\n\n" + text;
    BreakIsNewline();
    assert first[..|title|] == title && first[|title| + 2..] == text && first[|title|..|title| + 2] == "\n\n";
    NonWsAround(first, |title|, |title| + 2);
    NonWsStrip(first);
    FlattenOne(Strip(first), rest);
    NonWsAppend(Strip(first), Flatten(rest));
    FlattenOne(text, rest);
    NonWsAppend(text, Flatten(rest));
    ConcatAssoc(NonWs(title), NonWs(text), NonWs(Flatten(rest)));
  }

  // ---------------------------------------------------------------- how far a chunk can exceed the target

  function Copies<T>(x: T, n: nat): seq<T> {
    seq(n, _ => x)
  }

  lemma {:induction false} CopiesTotal(n: nat)
    ensures TotalLength(Copies("#", n)) == n
  {
    if n != 0 {
      CopiesTotal(n - 1);
      assert Copies("#", n)[1..] == Copies("#", n - 1);
    }
  }

  lemma {:induction false} AllInOneRun(buffer: seq<string>, pieces: seq<string>)
    requires TotalLength(buffer) + TotalLength(pieces) <= TARGET_CHARS && buffer + pieces != []
    ensures Runs(buffer, pieces) == [buffer + pieces]
    decreases |pieces|
  {
    if pieces == [] {
      assert buffer + pieces == buffer;
    } else {
      assert pieces == [pieces[0]] + pieces[1..] && TotalLength([pieces[0]]) == |pieces[0]|;
      TotalLengthAppend(buffer, [pieces[0]]);
      AllInOneRun(buffer + [pieces[0]], pieces[1..]);
      assert (buffer + [pieces[0]]) + pieces[1..] == buffer + pieces;
    }
  }

  /** A note body of n lines, each a heading mark and a space. */
  function HeadingBody(n: nat): string {
    if n == 0 then "" else if n == 1 then "# " else "# \n" + HeadingBody(n - 1)
  }

  lemma {:induction false} HeadingLines(n: nat)
    ensures SplitLines(HeadingBody(n)) == Copies("# ", n)
  {
    if n == 1 {
      hide SplitLines;
      OneHeadingLine();
      assert Copies("# ", 1) == ["# "];
    } else if n > 1 {
      hide SplitLines;
      HeadingLines(n - 1);
      FirstHeadingLine(HeadingBody(n - 1));
      CopiesCons("# ", n - 1);
    }
  }

  lemma OneHeadingLine()
    ensures SplitLines("# ") == ["# "]
  {
    BreakBehind("# ", "");
    assert "# " + "" == "# ";
  }

  lemma FirstHeadingLine(t: string)
    ensures SplitLines("# \n" + t) == ["# "] + SplitLines(t)
  {
    var s := "# \n" + t;
    BreakBehind("# ", "\n" + t);
    assert "# " + ("\n" + t) == s;
    assert s[..2] == "# " && s[3..] == t && LineBreak('\n');
  }

  lemma BreakBehind(line: string, t: string)
    requires line == "# "
    ensures BreakAt(line + t) == 2 + BreakAt(t)
  {
    assert (line + t)[1..] == " " + t && (" " + t)[1..] == t;
    assert !LineBreak('#') && !LineBreak(' ');
  }

  lemma HeadingMark()
    ensures IsHeading("# ") && SectionOf(["# "]) == ["#"]
  {
    assert Join(["# "], "\n") == "# ";
    assert Hashes("# ") == 1 by { assert "# "[1..] == " "; }
    StripMark();
  }

  lemma StripMark()
    ensures Strip("# ") == "#"
  {
    assert PySpace(' ') && !PySpace('#');
    assert "# "[..1] == "#";
  }

  lemma {:induction false} HeadingGroups(n: nat)
    ensures Groups(["# "], Copies("# ", n)) == Copies(["# "], n + 1)
    decreases n
  {
    hide IsHeading, Groups, SectionOf;
    CopiesCons(["# "], n);
    if n == 0 {
      NoGroups(["# "], Copies("# ", 0));
      assert [["# "]] + Copies(["# "], 0) == [["# "]];
    } else {
      HeadingMark();
      HeadingGroups(n - 1);
      CopiesCons("# ", n - 1);
      NextGroup(["# "], "# ", Copies("# ", n - 1));
    }
  }

  lemma CopiesCons<T>(x: T, n: nat)
    ensures Copies(x, n + 1) == [x] + Copies(x, n)
  {
  }

  lemma NoGroups(current: seq<string>, lines: seq<string>)
    requires lines == []
    ensures Groups(current, lines) == [current]
  {
  }

  lemma NextGroup(current: seq<string>, line: string, rest: seq<string>)
    requires current != [] && IsHeading(line)
    ensures Groups(current, [line] + rest) == [current] + Groups([line], rest)
  {
    hide IsHeading;
    assert ([line] + rest)[1..] == rest;
  }

  lemma {:induction false} HeadingSections(n: nat)
    ensures Sections(Copies(["# "], n)) == Copies("#", n)
  {
    hide SectionOf;
    if n > 0 {
      HeadingMark();
      HeadingSections(n - 1);
      assert Copies(["# "], n)[1..] == Copies(["# "], n - 1);
      assert Copies("#", n) == ["#"] + Copies("#", n - 1);
    }
  }

  lemma {:induction false} HeadingPieces(n: nat)
    ensures PiecesOf(Copies("#", n)) == Copies("#", n)
  {
    if n > 0 {
      HeadingPieces(n - 1);
      assert Copies("#", n)[1..] == Copies("#", n - 1);
      assert Copies("#", n) == ["#"] + Copies("#", n - 1);
    }
  }

  lemma HeadingBodyPieces(n: nat)
    requires n > 0
    ensures PiecesOfBody(HeadingBody(n)) == Copies("#", n)
  {
    hide IsHeading, SectionOf, HeadingBody, PiecesOf;
    HeadingLines(n);
    HeadingMark();
    assert Copies("# ", n)[1..] == Copies("# ", n - 1) && Copies("# ", n)[0] == "# " && [] + ["# "] == ["# "];
    HeadingGroups(n - 1);
    HeadingSections(n);
    HeadingPieces(n);
  }

  /**
   * The bound is reached by a note: 2048 lines of a heading mark and a space give 2048 one-character pieces,
   * packed into a single text of 6142 characters, so a chunk can be longer than twice the target.
   */
  lemma PackedLengthIsTight()
    ensures
      var texts := Texts("", HeadingBody(TARGET_CHARS));
      |texts| == 1 && |texts[0]| == 3 * TARGET_CHARS - 2
  {
    hide HeadingBody, PiecesOfBody, Join;
    var pieces := Copies("#", TARGET_CHARS);
    HeadingBodyPieces(TARGET_CHARS);
    CopiesTotal(TARGET_CHARS);
    AllInOneRun([], pieces);
    assert [] + pieces == pieces;
    JoinedAt([pieces]);
    JoinLength(pieces, "\n\n");
  }
}
