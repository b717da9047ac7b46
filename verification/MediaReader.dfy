/** How the media intake reads `key: "value"` pairs out of a printed note: an unanchored search, not a parser. */
module MediaReader {
  import opened Wrappers
  import opened Text
  import opened Ulid
  import opened JsonString
  import opened NoteFormat

  // ---------------------------------------------------------------- the search

  /** The characters `\w` matches; `\b` stands between one of them and anything else. */
  predicate Word(c: char) {
    'a' <= c <= 'z' || 'A' <= c <= 'Z' || '0' <= c <= '9' || c == '_'
  }

  /** `pattern\s*"([^"]+)"` at the start of the text. */
  function MatchHere(s: string, pattern: string): Option<string> {
    if !(pattern <= s) then None
    else
      var t := TrimStart(s[|pattern|..], JsSpace);
      if t == "" || t[0] != '"' then None
      else
        var q := IndexOf(t[1..], '"');
        if q <= 0 then None else Some(t[1..][..q])
  }

  /** The first match at or behind a word boundary, for a pattern that starts with a word character. */
  function Search(boundary: bool, s: string, pattern: string): Option<string>
    decreases |s|
  {
    if s == "" then None
    else if boundary && MatchHere(s, pattern).Some? then MatchHere(s, pattern)
    else Search(!Word(s[0]), s[1..], pattern)
  }

  const MEDIA_ID := "media_id:"
  const TRANSCRIPT_SHA := "transcript_sha256:"
  const REF_FP := "media_ref_fp:"

  function Exec(block: string, pattern: string): Option<string> {
    Search(true, block, pattern)
  }

  /** The intake's own `frontmatterOf`; it starts looking for the closing fence one character earlier. */
  function IngestFrontmatter(text: string): string {
    if !Opens(text) then ""
    else
      var end := FindFrom(text, FENCE, 3);
      if end == -1 then "" else if end < 4 then "" else text[4..end]
  }

  /** What `note get` prints: the file, with a newline at the end. */
  function GetOutput(text: string): string {
    if text != "" && text[|text| - 1] == '\n' then text else text + "\n"
  }

  // ---------------------------------------------------------------- skipping what does not match

  /** What all three patterns have in common. */
  predicate IsPattern(pattern: string) {
    pattern != "" && Word(pattern[0]) && forall k :: 0 <= k < |pattern| ==> Word(pattern[k]) || pattern[k] == ':'
  }

  lemma PatternChars(pattern: string)
    requires IsPattern(pattern)
    ensures '"' !in pattern && '\n' !in pattern
    ensures forall k :: 0 <= k < |pattern| ==> !JsSpace(pattern[k]) && pattern[k] != '\\'
  {
    hide Word, JsSpace;
    forall k | 0 <= k < |pattern| ensures !JsSpace(pattern[k]) && pattern[k] != '\\' && pattern[k] != '"' && pattern[k] != '\n' {
      WordDark(pattern[k]);
    }
  }

  lemma WordDark(c: char)
    requires Word(c) || c == ':'
    ensures !JsSpace(c) && c != '\\' && c != '"' && c != '\n'
  {
  }

  /** Text without one of the pattern's characters, up to a character the pattern does not have. */
  predicate Foreign(u: string, pattern: string) {
    exists k :: 0 <= k < |pattern| && pattern[k] !in u
  }

  lemma NoMatchIn(u: string, x: char, rest: string, pattern: string)
    requires Foreign(u, pattern) && x !in pattern
    ensures !(pattern <= u + [x] + rest)
  {
    var s := u + [x] + rest;
    var k :| 0 <= k < |pattern| && pattern[k] !in u;
    assert k < |u| ==> s[k] == u[k] && u[k] in u;
    assert |u| < |pattern| ==> s[|u|] == x && pattern[|u|] in pattern;
  }

  /** The search passes over foreign text and the character behind it. */
  lemma {:induction false} SkipForeign(boundary: bool, u: string, x: char, rest: string, pattern: string)
    requires Foreign(u, pattern) && x !in pattern && !Word(x)
    ensures Search(boundary, u + [x] + rest, pattern) == Search(true, rest, pattern)
    decreases |u|
  {
    hide MatchHere;
    var s := u + [x] + rest;
    NoMatchIn(u, x, rest, pattern);
    NoMatch(s, pattern);
    if u == "" {
      assert s[0] == x && s[1..] == rest;
    } else {
      assert s[0] == u[0] && s[1..] == u[1..] + [x] + rest;
      var k :| 0 <= k < |pattern| && pattern[k] !in u;
      assert pattern[k] !in u[1..];
      SkipForeign(!Word(u[0]), u[1..], x, rest, pattern);
    }
  }

  lemma NotPrefix(a: string, s: string, k: nat)
    requires k < |a| && k < |s| && a[k] != s[k]
    ensures !(a <= s)
  {
  }

  lemma NoMatch(s: string, pattern: string)
    requires !(pattern <= s)
    ensures MatchHere(s, pattern) == None
  {
  }

  // ---------------------------------------------------------------- a quoted value

  /** Quotes inside an escaped text stand behind a backslash. */
  predicate QuotesEscaped(w: string) {
    forall j :: 0 < j < |w| && w[j] == '"' ==> w[j - 1] == '\\'
  }

  lemma {:induction false} EscapeQuotes(t: string)
    ensures QuotesEscaped(Escape(t)) && (t != "" ==> Escape(t)[0] != '"')
  {
    if t != "" {
      hide EscapeChar;
      EscapeQuotes(t[1..]);
      EscapeCharQuotes(t[0]);
      assert t[1..] == "" ==> Escape(t[1..]) == "";
      QuotesAppend(EscapeChar(t[0]), Escape(t[1..]));
    }
  }

  lemma EscapeCharQuotes(c: char)
    ensures QuotesEscaped(EscapeChar(c)) && EscapeChar(c)[0] != '"'
  {
    HexNoQuote();
  }

  lemma QuotesAppend(e: string, more: string)
    requires QuotesEscaped(e) && QuotesEscaped(more) && (more != "" ==> more[0] != '"')
    ensures QuotesEscaped(e + more)
  {
    forall j | 0 < j < |e + more| && (e + more)[j] == '"' ensures (e + more)[j - 1] == '\\' {
      assert j > |e| ==> more[j - |e|] == '"';
    }
  }

  lemma HexNoQuote()
    ensures '"' !in HEX
  {
  }

  /** Somewhere at a word boundary the text goes on with the pattern and then only white space. */
  predicate Hides(boundary: bool, w: string, pattern: string)
    decreases |w|
  {
    w != "" && ((boundary && pattern <= w && Blank(w[|pattern|..], JsSpace)) || Hides(!Word(w[0]), w[1..], pattern))
  }

  /** White space up to a character that is none. */
  lemma {:induction false} TrimStartTo(a: string, b: string)
    requires Blank(a, JsSpace) && (b == "" || !JsSpace(b[0]))
    ensures TrimStart(a + b, JsSpace) == b
  {
    hide JsSpace;
    if a == "" {
      assert a + b == b;
    } else {
      assert (a + b)[1..] == a[1..] + b && (a + b)[0] == a[0];
      TrimStartTo(a[1..], b);
    }
  }

  /** The first character that is not white space. */
  lemma {:induction false} FirstDark(w: string) returns (j: nat)
    requires !Blank(w, JsSpace)
    ensures j < |w| && !JsSpace(w[j]) && Blank(w[..j], JsSpace)
  {
    hide JsSpace;
    if JsSpace(w[0]) {
      assert !Blank(w[1..], JsSpace) by {
        var k :| 0 <= k < |w| && !JsSpace(w[k]);
        assert w[1..][k - 1] == w[k];
      }
      var i := FirstDark(w[1..]);
      j := i + 1;
      assert w[..j] == [w[0]] + w[1..][..i];
    } else {
      j := 0;
    }
  }

  /** The part between the quotes that `[^"]+` takes, when there is one. */
  function UpToQuote(rest: string): Option<string> {
    var q := IndexOf(rest, '"');
    if q <= 0 then None else Some(rest[..q])
  }

  /** At the start of a stretch of escaped text the pattern matches only by way of the closing quote. */
  lemma MatchInValue(w: string, rest: string, pattern: string)
    requires IsPattern(pattern) && QuotesEscaped(w)
    ensures
      MatchHere(w + "\"" + rest, pattern)
      == if pattern <= w && Blank(w[|pattern|..], JsSpace) then UpToQuote(rest) else None
  {
    hide JsSpace, Blank, MatchHere, IsPattern, QuotesEscaped, UpToQuote;
    var s := w + "\"" + rest;
    PatternChars(pattern);
    if pattern <= w {
      assert w == pattern + w[|pattern|..];
      var v := w[|pattern|..];
      assert s == pattern + (v + ("\"" + rest));
      if Blank(v, JsSpace) {
        QuoteDark();
        TrimStartTo(v, "\"" + rest);
        MatchAtQuote(pattern, v + ("\"" + rest), rest);
      } else {
        var j := FirstDark(v);
        DarkIsNoQuote(w, pattern, j);
        assert v[..j] + (v[j..] + ("\"" + rest)) == v + ("\"" + rest);
        TrimStartTo(v[..j], v[j..] + ("\"" + rest));
        MatchNotAtQuote(pattern, v + ("\"" + rest));
      }
    } else {
      if pattern <= s { FitsBeforeQuote(w, rest, pattern); }
      NoMatch(s, pattern);
    }
  }

  lemma MatchAtQuote(pattern: string, x: string, rest: string)
    requires TrimStart(x, JsSpace) == "\"" + rest
    ensures MatchHere(pattern + x, pattern) == UpToQuote(rest)
  {
    hide TrimStart, JsSpace, IndexOf;
    assert (pattern + x)[|pattern|..] == x;
    assert ("\"" + rest)[1..] == rest;
  }

  lemma MatchNotAtQuote(pattern: string, x: string)
    requires var t := TrimStart(x, JsSpace); t != "" && t[0] != '"'
    ensures MatchHere(pattern + x, pattern) == None
  {
    hide TrimStart, JsSpace, IndexOf;
    assert (pattern + x)[|pattern|..] == x;
  }

  lemma QuoteDark()
    ensures !JsSpace('"') && !JsSpace('\\')
  {
  }

  lemma PrefixAt(a: string, s: string)
    requires a <= s
    ensures forall k :: 0 <= k < |a| ==> a[k] == s[k]
  {
  }

  lemma FitsBeforeQuote(w: string, rest: string, pattern: string)
    requires pattern <= w + "\"" + rest && '"' !in pattern
    ensures pattern <= w
  {
    var s := w + "\"" + rest;
    PrefixAt(pattern, s);
    assert s[|w|] == '"';
    assert s[..|w|] == w;
  }

  lemma DarkIsNoQuote(w: string, pattern: string, j: nat)
    requires IsPattern(pattern) && QuotesEscaped(w) && pattern <= w && j < |w| - |pattern|
    requires Blank(w[|pattern|..][..j], JsSpace)
    ensures w[|pattern|..][j] != '"'
  {
    hide JsSpace;
    QuoteDark();
    PatternChars(pattern);
    var p := |pattern| + j;
    assert w[|pattern|..][j] == w[p];
    if j > 0 {
      assert w[|pattern|..][..j][j - 1] == w[p - 1];
    } else {
      assert w[p - 1] == pattern[|pattern| - 1];
    }
  }

  /**
   * The search over an escaped text, its closing quote and the rest: it stops in the text only when that
   * hides the pattern, and then takes what lies between the closing quote and the next quote.
   */
  lemma {:induction false} SearchValue(boundary: bool, w: string, rest: string, pattern: string)
    requires IsPattern(pattern) && QuotesEscaped(w)
    ensures
      Search(boundary, w + "\"" + rest, pattern)
      == if Hides(boundary, w, pattern) && UpToQuote(rest).Some? then UpToQuote(rest) else Search(true, rest, pattern)
    decreases |w|
  {
    hide MatchHere, UpToQuote, Blank;
    var s := w + "\"" + rest;
    if w == "" {
      assert s[0] == '"' && s[1..] == rest;
      PatternChars(pattern);
      NotPrefix(pattern, s, 0);
      NoMatch(s, pattern);
    } else {
      assert s[0] == w[0] && s[1..] == w[1..] + "\"" + rest;
      assert QuotesEscaped(w[1..]) by { assert forall j :: 0 < j < |w[1..]| ==> w[1..][j] == w[j + 1] && w[1..][j - 1] == w[j]; }
      MatchInValue(w, rest, pattern);
      SearchValue(!Word(w[0]), w[1..], rest, pattern);
    }
  }

  // ---------------------------------------------------------------- lines

  /** A printed line: fixed text, or a name and a quoted value. */
  datatype Line = Plain(text: string) | Value(text: string, v: string)

  function LineText(l: Line): string {
    if l.Plain? then l.text else l.text + Quote(l.v)
  }

  function LineTexts(ls: seq<Line>): seq<string> {
    seq(|ls|, i requires 0 <= i < |ls| => LineText(ls[i]))
  }

  predicate LineHides(l: Line, pattern: string) {
    l.Value? && Hides(true, Escape(l.v), pattern)
  }

  predicate SomeHides(ls: seq<Line>, pattern: string) {
    exists i :: 0 <= i < |ls| && LineHides(ls[i], pattern)
  }

  predicate AllForeign(ls: seq<Line>, pattern: string) {
    forall i :: 0 <= i < |ls| ==> Foreign(ls[i].text, pattern)
  }

  lemma SearchQuoted(name: string, v: string, rest: string, pattern: string)
    requires IsPattern(pattern) && Foreign(name, pattern)
    ensures
      Search(true, name + Quote(v) + rest, pattern)
      == if Hides(true, Escape(v), pattern) && UpToQuote(rest).Some? then UpToQuote(rest) else Search(true, rest, pattern)
  {
    hide Search, Hides, UpToQuote, Foreign, IsPattern, Escape;
    PatternChars(pattern);
    assert name + Quote(v) + rest == name + ['"'] + (Escape(v) + "\"" + rest);
    SkipForeign(true, name, '"', Escape(v) + "\"" + rest, pattern);
    EscapeQuotes(v);
    SearchValue(true, Escape(v), rest, pattern);
  }

  lemma SearchLine(l: Line, rest: string, pattern: string)
    requires IsPattern(pattern) && Foreign(l.text, pattern)
    ensures
      Search(true, LineText(l) + "\n" + rest, pattern)
      == if LineHides(l, pattern) && UpToQuote("\n" + rest).Some? then UpToQuote("\n" + rest) else Search(true, rest, pattern)
  {
    hide Search, Hides, UpToQuote, Quote, IsPattern;
    PatternChars(pattern);
    if l.Plain? {
      assert LineText(l) + "\n" + rest == l.text + ['\n'] + rest;
      SkipForeign(true, l.text, '\n', rest, pattern);
    } else {
      assert LineText(l) + "\n" + rest == l.text + Quote(l.v) + ("\n" + rest);
      SearchQuoted(l.text, l.v, "\n" + rest, pattern);
      var k :| 0 <= k < |pattern| && pattern[k] !in l.text;
      assert pattern[k] !in "";
      assert "" + ['\n'] + rest == "\n" + rest;
      SkipForeign(true, "", '\n', rest, pattern);
    }
  }

  /** What is taken when a value hides the pattern: everything from the end of its line to the next quote. */
  predicate Junk(r: Option<string>) {
    r.Some? && r.value != "" && r.value[0] == '\n'
  }

  lemma UpToQuoteJunk(rest: string)
    ensures UpToQuote("\n" + rest).Some? <==> '"' in rest
    ensures UpToQuote("\n" + rest).Some? ==> Junk(UpToQuote("\n" + rest))
  {
    var s := "\n" + rest;
    assert s[0] == '\n' && s[1..] == rest;
    assert '"' in s <==> '"' in rest by { assert s == ['\n'] + rest; }
  }

  /** The search over whole lines goes on behind them, or stops at one that hides the pattern. */
  lemma {:induction false} SearchLines(ls: seq<Line>, rest: string, pattern: string)
    requires IsPattern(pattern) && AllForeign(ls, pattern)
    ensures
      var r, onward := Search(true, Unlines(LineTexts(ls)) + rest, pattern), Search(true, rest, pattern);
      && (r == onward || Junk(r))
      && (!SomeHides(ls, pattern) ==> r == onward)
      && (SomeHides(ls, pattern) && '"' in rest ==> Junk(r))
  {
    hide Search, UpToQuote, LineHides, LineText, IsPattern, Foreign;
    if ls == [] {
      assert Unlines(LineTexts(ls)) + rest == rest;
    } else {
      var more := Unlines(LineTexts(ls[1..])) + rest;
      assert LineTexts(ls)[1..] == LineTexts(ls[1..]);
      assert Unlines(LineTexts(ls)) + rest == LineText(ls[0]) + "\n" + more;
      SearchLines(ls[1..], rest, pattern);
      SearchLine(ls[0], more, pattern);
      UpToQuoteJunk(more);
      assert SomeHides(ls, pattern) <==> LineHides(ls[0], pattern) || SomeHides(ls[1..], pattern) by {
        if i :| 0 <= i < |ls| && LineHides(ls[i], pattern) { assert i > 0 ==> ls[1..][i - 1] == ls[i]; }
        if i :| 0 <= i < |ls[1..]| && LineHides(ls[1..][i], pattern) { assert ls[i + 1] == ls[1..][i]; }
      }
    }
  }

  /** A last line without a newline behind it gives nothing. */
  lemma SearchLast(l: Line, pattern: string)
    requires IsPattern(pattern) && Foreign(l.text, pattern)
    ensures Search(true, LineText(l), pattern) == None
  {
    hide Hides, Quote, IsPattern;
    PatternChars(pattern);
    if l.Plain? {
      SearchForeign(true, l.text, pattern);
    } else {
      SearchQuoted(l.text, l.v, "", pattern);
      assert LineText(l) + "" == LineText(l);
    }
  }

  lemma {:induction false} SearchForeign(boundary: bool, u: string, pattern: string)
    requires Foreign(u, pattern)
    ensures Search(boundary, u, pattern) == None
    decreases |u|
  {
    if u != "" {
      var k :| 0 <= k < |pattern| && pattern[k] !in u;
      PrefixLacks(u, pattern, k);
      NoMatch(u, pattern);
      assert pattern[k] !in u[1..];
      SearchForeign(!Word(u[0]), u[1..], pattern);
    }
  }

  lemma PrefixLacks(u: string, pattern: string, k: nat)
    requires k < |pattern| && pattern[k] !in u
    ensures !(pattern <= u)
  {
    assert k < |u| ==> u[k] in u;
  }

  /** The line that is looked for. */
  lemma SearchHit(v: string, rest: string, pattern: string)
    requires IsPattern(pattern) && v != "" && '"' !in v
    ensures Search(true, "  " + (pattern + " \"" + v + "\"" + rest), pattern) == Some(v)
  {
    hide IsPattern, MatchHere;
    var t := pattern + " \"" + v + "\"" + rest;
    SkipSpace(t, pattern);
    SkipSpace(" " + t, pattern);
    assert "  " + t == " " + (" " + t);
    assert t != "" by { assert t[|pattern|] == ' '; }
    MatchesHere(v, rest, pattern);
  }

  lemma SkipSpace(t: string, pattern: string)
    requires IsPattern(pattern)
    ensures Search(true, " " + t, pattern) == Search(true, t, pattern)
  {
    hide MatchHere;
    NotPrefix(pattern, " " + t, 0);
    NoMatch(" " + t, pattern);
    assert (" " + t)[1..] == t;
  }

  lemma MatchesHere(v: string, rest: string, pattern: string)
    requires v != "" && '"' !in v
    ensures MatchHere(pattern + " \"" + v + "\"" + rest, pattern) == Some(v)
  {
    hide JsSpace, IndexOf;
    var q := v + "\"" + rest;
    var s := pattern + " \"" + v + "\"" + rest;
    assert s == pattern + (" " + ("\"" + q));
    assert s[|pattern|..] == " " + ("\"" + q);
    QuoteNoSpace();
    TrimStartTo(" ", "\"" + q);
    assert ("\"" + q)[1..] == q && q[..|v|] == v;
    FirstAt(q, '"', |v|);
  }

  // ---------------------------------------------------------------- printed notes

  /** `MEDIA_ID_PATTERN`. */
  predicate IsMediaId(s: string) {
    8 <= |s| <= 128 && forall i :: 0 <= i < |s| ==> Word(s[i]) || s[i] == '-'
  }

  /** A lower-case hexadecimal SHA-256. */
  predicate IsSha256(s: string) {
    |s| == 64 && forall i :: 0 <= i < 64 ==> '0' <= s[i] <= '9' || 'a' <= s[i] <= 'f'
  }

  /** A media block as the intake writes it. */
  predicate IntakeMedia(m: Media) {
    IsMediaId(m.mediaId) && IsSha256(m.transcriptSha256) && m.mediaRefFp.Some? && IsSha256(m.mediaRefFp.value)
  }

  /** What the intake reads from a note it was given. */
  datatype MediaRead = MediaRead(mediaId: Option<string>, sha: Option<string>, fp: Option<string>)

  function ReadMedia(stdout: string): MediaRead {
    var fm := IngestFrontmatter(stdout);
    MediaRead(Exec(fm, MEDIA_ID), Exec(fm, TRANSCRIPT_SHA), Exec(fm, REF_FP))
  }

  /** The printed lines up to the media block or the tags. */
  function Before(n: RawNote): seq<Line> {
    [Plain("id: " + n.id), Plain("type: raw"), Plain("layer: 0")]
    + (if n.title.Some? then [Value("title: ", n.title.value)] else [])
    + [Value("created: ", n.createdAt), Plain("source:"), Value("  kind: ", n.source)]
    + (if n.ref.Some? then [Value("  ref: ", n.ref.value)] else [])
  }

  function TagValues(tags: seq<string>): seq<Line> {
    if tags == [] then [] else [Plain("tags:")] + seq(|tags|, i requires 0 <= i < |tags| => Value("  - ", tags[i]))
  }

  /** A string printed before the media block ends, as printed, in the key, its colon and white space. */
  predicate Masks(n: RawNote, pattern: string) {
    || (n.title.Some? && Hides(true, Escape(n.title.value), pattern))
    || Hides(true, Escape(n.createdAt), pattern)
    || Hides(true, Escape(n.source), pattern)
    || (n.ref.Some? && Hides(true, Escape(n.ref.value), pattern))
  }

  lemma MasksMeans(n: RawNote, pattern: string)
    ensures SomeHides(Before(n), pattern) <==> Masks(n, pattern)
  {
    hide Hides, Escape;
    var ls := Before(n);
    var k := if n.title.Some? then 4 else 3;
    assert n.title.Some? ==> ls[3] == Value("title: ", n.title.value);
    assert ls[k] == Value("created: ", n.createdAt) && ls[k + 2] == Value("  kind: ", n.source);
    assert n.ref.Some? ==> ls[k + 3] == Value("  ref: ", n.ref.value);
    assert LineHides(ls[k], pattern) <==> Hides(true, Escape(n.createdAt), pattern);
  }

  /** All of the lines before the media block lack the underscore that every pattern has. */
  lemma BeforeForeign(n: RawNote, pattern: string)
    requires IsUlid(n.id) && '_' in pattern
    ensures AllForeign(Before(n), pattern)
  {
    hide Foreign;
    IdNoUnderscore(n.id);
    LacksUnderscore("id: " + n.id, pattern);
    LacksUnderscore("type: raw", pattern);
    LacksUnderscore("layer: 0", pattern);
    LacksUnderscore("title: ", pattern);
    LacksUnderscore("created: ", pattern);
    LacksUnderscore("source:", pattern);
    LacksUnderscore("  kind: ", pattern);
    LacksUnderscore("  ref: ", pattern);
  }

  lemma IdNoUnderscore(id: string)
    requires IsUlid(id)
    ensures '_' !in "id: " + id
  {
    assert forall i :: 0 <= i < 26 ==> IsCrockford(id[i]);
  }

  lemma LacksUnderscore(text: string, pattern: string)
    requires '_' in pattern && '_' !in text
    ensures Foreign(text, pattern)
  {
    var k :| 0 <= k < |pattern| && pattern[k] == '_';
    assert pattern[k] !in text;
  }

  /** The lines of the media block behind the three that are read. */
  function RefLines(m: Media): seq<string> {
    ["  ref_class: " + Quote(m.refClass)] + OptLine("  ref: ", m.ref) + OptLine("  secref: ", m.secref)
  }

  function TagBlock(tags: seq<string>): seq<string> {
    if tags == [] then [] else ["tags:"] + TagLines(tags)
  }

  /** The lines that are read, and those behind them. */
  function MediaBlock(m: Media, rest: seq<string>): seq<string>
    requires m.mediaRefFp.Some?
  {
    ["  media_id: " + Quote(m.mediaId)]
    + (["  transcript_sha256: " + Quote(m.transcriptSha256)] + (["  media_ref_fp: " + Quote(m.mediaRefFp.value)] + rest))
  }

  lemma MediaLinesShape(m: Media)
    requires m.mediaRefFp.Some?
    ensures MediaLines(m) == ["media:"] + MediaBlock(m, RefLines(m))
  {
    hide Quote;
  }

  lemma InnerWithMedia(n: RawNote)
    requires n.media.Some? && n.media.value.mediaRefFp.Some?
    ensures
      Inner(n) == LineTexts(Before(n) + [Plain("media:")]) + MediaBlock(n.media.value, RefLines(n.media.value) + TagBlock(n.tags))
  {
    hide Quote, TagLines, MediaLines, OptLine, HeadLines, Before;
    var m := n.media.value;
    BeforeTexts(n);
    LineTextsAppend(Before(n), [Plain("media:")]);
    MediaLinesShape(m);
    var start := ["created: " + Quote(n.createdAt), "source:", "  kind: " + Quote(n.source)];
    Regroup(HeadLines(n), start + OptLine("  ref: ", n.ref), ["media:"], MediaBlock(m, RefLines(m)), TagBlock(n.tags));
    ConcatAssoc(HeadLines(n), start, OptLine("  ref: ", n.ref));
    MediaBlockAppend(m, RefLines(m), TagBlock(n.tags));
    assert LineTexts([Plain("media:")]) == ["media:"];
  }

  lemma MediaBlockAppend(m: Media, a: seq<string>, b: seq<string>)
    requires m.mediaRefFp.Some?
    ensures MediaBlock(m, a) + b == MediaBlock(m, a + b)
  {
    hide Quote;
  }

  lemma Regroup(a: seq<string>, b: seq<string>, c: seq<string>, d: seq<string>, e: seq<string>)
    ensures a + (b + (c + d) + e) == (a + b + c) + (d + e)
  {
  }

  lemma InnerWithoutMedia(n: RawNote)
    requires n.media.None?
    ensures Inner(n) == LineTexts(Before(n) + TagValues(n.tags))
  {
    hide Quote;
    assert n.tags != [] ==> LineTexts(TagValues(n.tags)) == ["tags:"] + TagLines(n.tags);
    LineTextsAppend(Before(n), TagValues(n.tags));
    BeforeTexts(n);
  }

  lemma LineTextsAppend(a: seq<Line>, b: seq<Line>)
    ensures LineTexts(a + b) == LineTexts(a) + LineTexts(b)
  {
  }

  lemma BeforeTexts(n: RawNote)
    ensures LineTexts(Before(n))
            == HeadLines(n) + ["created: " + Quote(n.createdAt), "source:", "  kind: " + Quote(n.source)] + OptLine("  ref: ", n.ref)
  {
    hide Quote;
  }

  // ---------------------------------------------------------------- what is read back

  lemma {:induction false} JoinUnlines(a: seq<string>, b: seq<string>)
    requires b != []
    ensures Join(a + b, "\n") == Unlines(a) + Join(b, "\n")
  {
    if a == [] {
      assert a + b == b;
    } else {
      JoinUnlines(a[1..], b);
      assert a + b == [a[0]] + (a[1..] + b);
      JoinCons(a[0], a[1..] + b);
      ConcatAssoc(a[0] + "\n", Unlines(a[1..]), Join(b, "\n"));
    }
  }

  lemma MoreLines(ls: seq<Line>, l: Line, rest: string)
    ensures Unlines(LineTexts(ls)) + (LineText(l) + "\n" + rest) == Unlines(LineTexts(ls + [l])) + rest
  {
    hide LineText;
    LineTextsAppend(ls, [l]);
    UnlinesAppend(LineTexts(ls), LineTexts([l]));
    assert LineTexts([l]) == [LineText(l)];
    assert Unlines([LineText(l)]) == LineText(l) + "\n";
    ConcatAssoc(Unlines(LineTexts(ls)), LineText(l) + "\n", rest);
  }

  /** The three lines that are read, each behind the lines before it. */
  lemma BlockWithMedia(n: RawNote, rest: string)
    requires n.media.Some? && n.media.value.mediaRefFp.Some?
    requires rest == Join(RefLines(n.media.value) + TagBlock(n.tags), "\n")
    ensures
      var m, head := n.media.value, Before(n) + [Plain("media:")];
      var fp := "  media_ref_fp: " + Quote(m.mediaRefFp.value) + "\n" + rest;
      Block(n) == Unlines(LineTexts(head))
        + ("  media_id: " + Quote(m.mediaId) + "\n" + ("  transcript_sha256: " + Quote(m.transcriptSha256) + "\n" + fp))
  {
    hide Quote, Before, TagBlock, Inner, LineTexts, Join, OptLine;
    var m, head := n.media.value, Before(n) + [Plain("media:")];
    var last := RefLines(m) + TagBlock(n.tags);
    InnerWithMedia(n);
    JoinUnlines(LineTexts(head), MediaBlock(m, last));
    var c := "  media_ref_fp: " + Quote(m.mediaRefFp.value);
    var b := "  transcript_sha256: " + Quote(m.transcriptSha256);
    JoinCons(c, last);
    JoinCons(b, [c] + last);
    JoinCons("  media_id: " + Quote(m.mediaId), [b] + ([c] + last));
  }

  /** A value behind lines of which none hides the key is found; otherwise something else is. */
  lemma ReadKey(ls: seq<Line>, name: string, v: string, rest: string, pattern: string)
    requires IsPattern(pattern) && AllForeign(ls, pattern) && name == "  " + pattern + " "
    requires v != "" && '"' !in v && Escape(v) == v
    ensures
      var r := Search(true, Unlines(LineTexts(ls)) + (name + Quote(v) + "\n" + rest), pattern);
      if SomeHides(ls, pattern) then Junk(r) else r == Some(v)
  {
    hide *;
    KeyText(name, v, rest, pattern);
    SearchLines(ls, name + Quote(v) + "\n" + rest, pattern);
    SearchHit(v, "\n" + rest, pattern);
  }

  lemma KeyText(name: string, v: string, rest: string, pattern: string)
    requires name == "  " + pattern + " " && Escape(v) == v
    ensures
      var x := name + Quote(v) + "\n" + rest;
      x == "  " + (pattern + " \"" + v + "\"" + ("\n" + rest)) && '"' in x
  {
    hide Escape;
    var x := name + Quote(v) + "\n" + rest;
    assert x[|name|] == '"';
  }

  predicate PlainChar(c: char) {
    c >= ' ' && c != '"' && c != '\\'
  }

  lemma {:induction false} EscapeSame(v: string)
    requires forall i :: 0 <= i < |v| ==> PlainChar(v[i])
    ensures Escape(v) == v && '"' !in v
  {
    if v != "" {
      EscapeSame(v[1..]);
      assert PlainChar(v[0]) && v == [v[0]] + v[1..];
    }
  }

  lemma IdsPlain(v: string)
    requires IsMediaId(v) || IsSha256(v)
    ensures v != "" && Escape(v) == v && '"' !in v && ':' !in v && v[0] != '\n'
  {
    assert forall i :: 0 <= i < |v| ==> PlainChar(v[i]) && v[i] != ':';
    EscapeSame(v);
  }

  lemma {:induction false} HidesNeedsColon(boundary: bool, w: string, pattern: string)
    requires ':' in pattern && ':' !in w
    ensures !Hides(boundary, w, pattern)
    decreases |w|
  {
    if w != "" {
      HidesNeedsColon(!Word(w[0]), w[1..], pattern);
      var k :| 0 <= k < |pattern| && pattern[k] == ':';
      PrefixLacks(w, pattern, k);
    }
  }

  /** One more line that does not hide the key. */
  lemma SomeHidesMore(ls: seq<Line>, l: Line, pattern: string)
    requires !LineHides(l, pattern)
    ensures SomeHides(ls + [l], pattern) <==> SomeHides(ls, pattern)
  {
    hide LineHides;
    var more := ls + [l];
    if i :| 0 <= i < |ls| && LineHides(ls[i], pattern) { assert more[i] == ls[i]; }
    if i :| 0 <= i < |more| && LineHides(more[i], pattern) { assert i < |ls| ==> more[i] == ls[i]; }
  }

  predicate IsKey(pattern: string) {
    pattern == MEDIA_ID || pattern == TRANSCRIPT_SHA || pattern == REF_FP
  }

  lemma KeyFacts(pattern: string)
    requires IsKey(pattern)
    ensures IsPattern(pattern) && '_' in pattern && ':' in pattern
  {
    assert MEDIA_ID[5] == TRANSCRIPT_SHA[10] == REF_FP[5] == '_';
    assert MEDIA_ID[8] == TRANSCRIPT_SHA[17] == REF_FP[12] == ':';
  }

  lemma LacksChar(text: string, pattern: string, k: nat)
    requires k < |pattern| && pattern[k] !in text
    ensures Foreign(text, pattern)
  {
  }

  lemma ForeignNames()
    ensures Foreign("  media_id: ", TRANSCRIPT_SHA) && Foreign("  media_id: ", REF_FP)
  {
    LacksChar("  media_id: ", TRANSCRIPT_SHA, 0);
    LacksChar("  media_id: ", REF_FP, 6);
  }

  lemma ForeignShaName()
    ensures Foreign("  transcript_sha256: ", REF_FP)
  {
    LacksChar("  transcript_sha256: ", REF_FP, 0);
  }

  /** The labels of the three lines, cut from their keys. */
  lemma Names()
    ensures "  media_id: " == "  " + MEDIA_ID + " "
    ensures "  transcript_sha256: " == "  " + TRANSCRIPT_SHA + " "
    ensures "  media_ref_fp: " == "  " + REF_FP + " "
  {
  }

  /** The lines before the media block, as they bear on one key. */
  lemma HeadReads(n: RawNote, pattern: string)
    requires IsUlid(n.id) && IsKey(pattern)
    ensures
      var head := Before(n) + [Plain("media:")];
      IsPattern(pattern) && AllForeign(head, pattern) && (SomeHides(head, pattern) <==> Masks(n, pattern))
  {
    hide Masks, SomeHides, Foreign, IsPattern, Before, IsKey;
    KeyFacts(pattern);
    LacksUnderscore("media:", pattern);
    BeforeForeign(n, pattern);
    MasksMeans(n, pattern);
    SomeHidesMore(Before(n), Plain("media:"), pattern);
  }

  lemma OneMoreLine(ls: seq<Line>, name: string, v: string, pattern: string)
    requires AllForeign(ls, pattern) && Foreign(name, pattern)
    requires ':' in pattern && ':' !in v && Escape(v) == v
    ensures AllForeign(ls + [Value(name, v)], pattern)
    ensures SomeHides(ls + [Value(name, v)], pattern) <==> SomeHides(ls, pattern)
  {
    hide Hides, Foreign, Escape, SomeHides;
    HidesNeedsColon(true, v, pattern);
    SomeHidesMore(ls, Value(name, v), pattern);
  }

  /** The lines before the second and the third key, as they bear on it. */
  lemma ShaLines(n: RawNote)
    requires IsUlid(n.id) && n.media.Some? && IsMediaId(n.media.value.mediaId)
    ensures
      var ls := Before(n) + [Plain("media:")] + [Value("  media_id: ", n.media.value.mediaId)];
      AllForeign(ls, TRANSCRIPT_SHA) && (SomeHides(ls, TRANSCRIPT_SHA) <==> Masks(n, TRANSCRIPT_SHA))
  {
    hide Before, Masks, SomeHides, Escape, IsPattern, AllForeign, IsMediaId, Foreign;
    IdsPlain(n.media.value.mediaId);
    KeyFacts(TRANSCRIPT_SHA);
    ForeignNames();
    HeadReads(n, TRANSCRIPT_SHA);
    OneMoreLine(Before(n) + [Plain("media:")], "  media_id: ", n.media.value.mediaId, TRANSCRIPT_SHA);
  }

  lemma FpLines(n: RawNote)
    requires IsUlid(n.id) && n.media.Some? && IsMediaId(n.media.value.mediaId) && IsSha256(n.media.value.transcriptSha256)
    ensures
      var m := n.media.value;
      var ls := Before(n) + [Plain("media:")] + [Value("  media_id: ", m.mediaId)] + [Value("  transcript_sha256: ", m.transcriptSha256)];
      AllForeign(ls, REF_FP) && (SomeHides(ls, REF_FP) <==> Masks(n, REF_FP))
  {
    hide Before, Masks, SomeHides, Escape, IsPattern, AllForeign, IsMediaId, IsSha256, Foreign;
    var m, head := n.media.value, Before(n) + [Plain("media:")];
    IdsPlain(m.mediaId);
    IdsPlain(m.transcriptSha256);
    KeyFacts(REF_FP);
    ForeignNames();
    ForeignShaName();
    HeadReads(n, REF_FP);
    OneMoreLine(head, "  media_id: ", m.mediaId, REF_FP);
    OneMoreLine(head + [Value("  media_id: ", m.mediaId)], "  transcript_sha256: ", m.transcriptSha256, REF_FP);
  }

  /** Reading back the three keys of a printed media block: each one if and only if nothing before it masks it. */
  lemma BlockReadsBack(n: RawNote)
    requires IsUlid(n.id) && n.media.Some? && IntakeMedia(n.media.value)
    ensures
      var m := n.media.value;
      && (if Masks(n, MEDIA_ID) then Junk(Exec(Block(n), MEDIA_ID)) else Exec(Block(n), MEDIA_ID) == Some(m.mediaId))
      && (if Masks(n, TRANSCRIPT_SHA) then Junk(Exec(Block(n), TRANSCRIPT_SHA))
          else Exec(Block(n), TRANSCRIPT_SHA) == Some(m.transcriptSha256))
      && (if Masks(n, REF_FP) then Junk(Exec(Block(n), REF_FP)) else Exec(Block(n), REF_FP) == m.mediaRefFp)
  {
    hide Quote, Before, Search, Masks, SomeHides, Block, Escape, Unlines, LineTexts, Hides, Foreign, IsPattern, AllForeign;
    var m, head := n.media.value, Before(n) + [Plain("media:")];
    var idLine, shaLine := Value("  media_id: ", m.mediaId), Value("  transcript_sha256: ", m.transcriptSha256);
    var last := Join(RefLines(m) + TagBlock(n.tags), "\n");
    var fp := "  media_ref_fp: " + Quote(m.mediaRefFp.value) + "\n" + last;
    var sha := "  transcript_sha256: " + Quote(m.transcriptSha256) + "\n" + fp;
    IdsPlain(m.mediaId);
    IdsPlain(m.transcriptSha256);
    IdsPlain(m.mediaRefFp.value);
    Names();
    BlockWithMedia(n, last);
    MoreLines(head, idLine, sha);
    MoreLines(head + [idLine], shaLine, fp);
    KeyFacts(MEDIA_ID);
    KeyFacts(TRANSCRIPT_SHA);
    KeyFacts(REF_FP);
    HeadReads(n, MEDIA_ID);
    ShaLines(n);
    FpLines(n);
    ReadKey(head, "  media_id: ", m.mediaId, sha, MEDIA_ID);
    ReadKey(head + [idLine], "  transcript_sha256: ", m.transcriptSha256, fp, TRANSCRIPT_SHA);
    ReadKey(head + [idLine] + [shaLine], "  media_ref_fp: ", m.mediaRefFp.value, last, REF_FP);
  }

  /** A note without a media block: what the search takes for a media id, if anything, starts with a newline. */
  lemma NoMediaNotRead(n: RawNote, pattern: string)
    requires IsUlid(n.id) && n.media.None? && IsKey(pattern)
    ensures Exec(Block(n), pattern).None? || Junk(Exec(Block(n), pattern))
  {
    hide Before, Search, IsPattern, IsKey, Foreign, Inner, Join, LineText;
    var ls := Before(n) + TagValues(n.tags);
    KeyFacts(pattern);
    BeforeForeign(n, pattern);
    TagsForeign(n.tags, pattern);
    InnerWithoutMedia(n);
    BeforeNonEmpty(n);
    var k := |ls| - 1;
    assert ls == ls[..k] + [ls[k]];
    LineTextsAppend(ls[..k], [ls[k]]);
    assert LineTexts([ls[k]]) == [LineText(ls[k])];
    JoinUnlines(LineTexts(ls[..k]), [LineText(ls[k])]);
    assert Join([LineText(ls[k])], "\n") == LineText(ls[k]) by { JoinOne(LineText(ls[k])); }
    SearchLines(ls[..k], LineText(ls[k]), pattern);
    SearchLast(ls[k], pattern);
  }

  lemma JoinOne(s: string)
    ensures Join([s], "\n") == s
  {
  }

  lemma BeforeNonEmpty(n: RawNote)
    ensures Before(n) != []
  {
  }

  lemma TagsForeign(tags: seq<string>, pattern: string)
    requires '_' in pattern
    ensures AllForeign(TagValues(tags), pattern)
  {
    hide Foreign;
    LacksUnderscore("tags:", pattern);
    LacksUnderscore("  - ", pattern);
  }

  /** What `note get` prints is again a printed note; its block is cut out right. */
  lemma GetOutputPrints(n: RawNote)
    ensures exists content :: GetOutput(Print(n)) == Print(n.(content := content))
  {
    hide Join, Inner;
    var head := Join(["---"] + Inner(n) + ["---"], "\n") + "\n\n";
    var text := head + n.content;
    assert Inner(n.(content := n.content + "\n")) == Inner(n) by { SameInner(n, n.content + "\n"); }
    if text[|text| - 1] == '\n' {
      assert n.(content := n.content) == n;
      assert GetOutput(Print(n)) == Print(n.(content := n.content));
    } else {
      assert head + (n.content + "\n") == text + "\n";
      assert GetOutput(Print(n)) == Print(n.(content := n.content + "\n"));
    }
  }

  lemma SameInner(n: RawNote, content: string)
    ensures Inner(n.(content := content)) == Inner(n)
  {
  }

  lemma IntakeSeesBlock(n: RawNote)
    requires IsUlid(n.id)
    ensures IngestFrontmatter(GetOutput(Print(n))) == Block(n)
  {
    hide Print, Block, Inner, GetOutput, Find;
    GetOutputPrints(n);
    var content :| GetOutput(Print(n)) == Print(n.(content := content));
    SameInner(n, content);
    assert Block(n.(content := content)) == Block(n) by { BlockOfInner(n, content); }
    var p := n.(content := content);
    PrintedFence(p);
    var text := Print(p);
    BlockStarts(p);
    assert text[4] == text[4..4 + |Block(p)|][0];
    assert text[3] == "---\n"[3];
    assert text[3..] == ['\n'] + text[4..];
    FindShift('\n', text[4..]);
    FindBehind(text, FENCE, 3);
    FindBehind(text, FENCE, 4);
  }

  lemma BlockOfInner(n: RawNote, content: string)
    requires Inner(n.(content := content)) == Inner(n)
    ensures Block(n.(content := content)) == Block(n)
  {
  }

  lemma BlockStarts(n: RawNote)
    ensures Block(n) != "" && Block(n)[0] == 'i'
  {
    hide Join;
    var ls := Inner(n);
    assert ls[0] == "id: " + n.id;
    JoinStarts(ls);
    assert ls[0][0] == 'i';
  }

  /**
   * The intake reads its own media block back, key by key, if and only if no string printed before the
   * block ends in that key, a colon and white space; in that case it reads no media id at all.
   */
  lemma MediaReadBack(n: RawNote)
    requires IsUlid(n.id) && n.media.Some? && IntakeMedia(n.media.value)
    ensures
      var m, r := n.media.value, ReadMedia(GetOutput(Print(n)));
      && (r.mediaId == Some(m.mediaId) <==> !Masks(n, MEDIA_ID))
      && (Masks(n, MEDIA_ID) ==> r.mediaId.Some? && !IsMediaId(r.mediaId.value))
      && (r.sha == Some(m.transcriptSha256) <==> !Masks(n, TRANSCRIPT_SHA))
      && (r.fp == m.mediaRefFp <==> !Masks(n, REF_FP))
  {
    hide Masks, Print, Block, GetOutput, IngestFrontmatter, Exec;
    var m := n.media.value;
    IntakeSeesBlock(n);
    BlockReadsBack(n);
    assert m.mediaId[0] != '\n' && m.transcriptSha256[0] != '\n' && m.mediaRefFp.value[0] != '\n';
  }

  /** A note without a media block never passes for one with some media id. */
  lemma PlainNoteNotRead(n: RawNote)
    requires IsUlid(n.id) && n.media.None?
    ensures var r := ReadMedia(GetOutput(Print(n))); r.mediaId.None? || !IsMediaId(r.mediaId.value)
  {
    hide Print, Block, GetOutput, IngestFrontmatter, Exec;
    IntakeSeesBlock(n);
    NoMediaNotRead(n, MEDIA_ID);
  }
}
