/** Strings as sequences of characters: searching, newline framing, joining and white space. */
module Text {

  /** `indexOf(c)`: the first position of `c`, or -1. */
  function IndexOf(s: string, c: char): (r: int)
    ensures -1 <= r < |s|
    ensures r == -1 ==> c !in s
    ensures r >= 0 ==> s[r] == c && c !in s[..r]
  {
    if s == "" then -1
    else if s[0] == c then 0
    else
      var r := IndexOf(s[1..], c);
      assert r >= 0 ==> s[..r + 1] == [s[0]] + s[1..][..r];
      if r == -1 then -1 else r + 1
  }

  lemma {:induction false} FirstAt(s: string, c: char, k: nat)
    requires k < |s| && s[k] == c && c !in s[..k]
    ensures IndexOf(s, c) == k
  {
    if k > 0 {
      assert s[..k] == [s[0]] + s[1..][..k - 1];
      FirstAt(s[1..], c, k - 1);
    }
  }

  // ---------------------------------------------------------------- framing

  /** The complete (newline terminated) lines of a text, without their newlines. */
  function Lines(s: string): seq<string>
    decreases |s|
  {
    var i := IndexOf(s, '\n');
    if i == -1 then [] else [s[..i]] + Lines(s[i + 1..])
  }

  /** What follows the last newline: the partial line a framer keeps in its buffer. */
  function Rest(s: string): string
    decreases |s|
  {
    var i := IndexOf(s, '\n');
    if i == -1 then s else Rest(s[i + 1..])
  }

  /** Each line followed by a newline. */
  function Unlines(ls: seq<string>): string {
    if ls == [] then "" else ls[0] + "\n" + Unlines(ls[1..])
  }

  predicate NewlineFree(ls: seq<string>) {
    forall i :: 0 <= i < |ls| ==> '\n' !in ls[i]
  }

  lemma UnlinesCons(x: string, ls: seq<string>)
    ensures Unlines([x] + ls) == x + "\n" + Unlines(ls)
  {
    assert ([x] + ls)[1..] == ls;
  }

  /** Framing a text that starts with the line `x`. */
  lemma FramingStep(x: string, t: string)
    requires '\n' !in x
    ensures Lines(x + "\n" + t) == [x] + Lines(t)
    ensures Rest(x + "\n" + t) == Rest(t)
  {
    var s := x + "\n" + t;
    var i := IndexOf(s, '\n');
    assert s[|x|] == '\n';
    assert s[..|x|] == x;
    assert i == |x|;
    assert s[|x| + 1..] == t;
  }

  /** The first line of a text that has one. */
  lemma FirstLine(s: string, i: nat)
    requires i == IndexOf(s, '\n')
    ensures s == s[..i] + "\n" + s[i + 1..]
  {
  }

  /** A text without a newline has no complete line. */
  lemma NoLines(s: string)
    ensures IndexOf(s, '\n') == -1 ==> Lines(s) == [] && Rest(s) == s
  {
  }

  /** Framing loses nothing, and no line or remainder holds a newline. */
  lemma {:induction false} FramingSound(s: string)
    ensures Unlines(Lines(s)) + Rest(s) == s
    ensures NewlineFree(Lines(s)) && '\n' !in Rest(s)
    decreases |s|
  {
    var i := IndexOf(s, '\n');
    if i != -1 {
      FramingSound(s[i + 1..]);
      FirstLine(s, i);
      UnlinesCons(s[..i], Lines(s[i + 1..]));
      ConcatAssoc(s[..i] + "\n", Unlines(Lines(s[i + 1..])), Rest(s[i + 1..]));
    }
  }

  lemma ConcatAssoc<T>(a: seq<T>, b: seq<T>, c: seq<T>)
    ensures (a + b) + c == a + (b + c)
  {
  }

  /** Framing is the only such decomposition. */
  lemma {:induction false} FramingUnique(ls: seq<string>, r: string)
    requires NewlineFree(ls) && '\n' !in r
    ensures Lines(Unlines(ls) + r) == ls && Rest(Unlines(ls) + r) == r
    decreases |ls|
  {
    if ls == [] {
      assert Unlines(ls) + r == r;
    } else {
      FramingUnique(ls[1..], r);
      FramingStep(ls[0], Unlines(ls[1..]) + r);
      ConcatAssoc(ls[0] + "\n", Unlines(ls[1..]), r);
      assert ls == [ls[0]] + ls[1..];
    }
  }

  lemma {:induction false} UnlinesAppend(a: seq<string>, b: seq<string>)
    ensures Unlines(a + b) == Unlines(a) + Unlines(b)
  {
    if a == [] {
      assert a + b == b;
    } else {
      UnlinesAppend(a[1..], b);
      assert (a + b)[1..] == a[1..] + b;
      ConcatAssoc(a[0] + "\n", Unlines(a[1..]), Unlines(b));
    }
  }

  /** Framing a concatenation continues from the remainder of the first part. */
  lemma {:induction false} FramingAppend(a: string, b: string)
    ensures Lines(a + b) == Lines(a) + Lines(Rest(a) + b)
    ensures Rest(a + b) == Rest(Rest(a) + b)
    decreases |a|
  {
    hide Lines, Rest, IndexOf;
    var i := IndexOf(a, '\n');
    if i == -1 {
      NoLines(a);
    } else {
      FramingAppend(a[i + 1..], b);
      FirstLine(a, i);
      FramingStep(a[..i], a[i + 1..]);
      FramingStep(a[..i], a[i + 1..] + b);
      ConcatAssoc(a[..i] + "\n", a[i + 1..], b);
      ConcatAssoc([a[..i]], Lines(a[i + 1..]), Lines(Rest(a) + b));
    }
  }

  /** The complete lines of a prefix of a printed list are a prefix of that list. */
  lemma FramingPrefix(ls: seq<string>, k: nat)
    requires NewlineFree(ls) && k <= |Unlines(ls)|
    ensures Lines(Unlines(ls)[..k]) <= ls
  {
    hide Lines, Rest, Unlines;
    var s := Unlines(ls);
    assert s[..k] + s[k..] == s && s + "" == s;
    FramingAppend(s[..k], s[k..]);
    FramingUnique(ls, "");
  }

  /**
   * Reading on from `p` to `p + w`, a prefix of a printed list, completes exactly the next lines of
   * the list.
   */
  lemma FramingWindow(ls: seq<string>, p: string, w: string)
    requires NewlineFree(ls) && p + w <= Unlines(ls)
    ensures |Lines(p)| <= |Lines(p + w)| <= |ls|
    ensures Lines(Rest(p) + w) == ls[|Lines(p)|..|Lines(p + w)|]
    ensures Rest(Rest(p) + w) == Rest(p + w)
  {
    hide Lines, Rest, Unlines;
    var more := Lines(Rest(p) + w);
    FramingAppend(p, w);
    assert Unlines(ls)[..|p + w|] == p + w;
    FramingPrefix(ls, |p + w|);
    Suffix(Lines(p), more, ls);
  }

  lemma Suffix<T>(a: seq<T>, b: seq<T>, s: seq<T>)
    requires a + b <= s
    ensures b == s[|a|..|a + b|]
  {
    assert a + b == s[..|a + b|];
    assert b == (a + b)[|a|..];
  }

  // ---------------------------------------------------------------- joining

  /** `sep.join(parts)`. */
  function Join(parts: seq<string>, sep: string): string {
    if parts == [] then ""
    else if |parts| == 1 then parts[0]
    else parts[0] + sep + Join(parts[1..], sep)
  }

  lemma {:induction false} JoinAppendOne(parts: seq<string>, sep: string, p: string)
    ensures Join(parts + [p], sep) == if parts == [] then p else Join(parts, sep) + sep + p
  {
    if parts == [] {
      assert parts + [p] == [p];
    } else {
      assert (parts + [p])[1..] == parts[1..] + [p];
      JoinAppendOne(parts[1..], sep, p);
    }
  }

  /** Total number of characters in the parts. */
  function TotalLength(parts: seq<string>): nat {
    if parts == [] then 0 else |parts[0]| + TotalLength(parts[1..])
  }

  lemma {:induction false} TotalLengthAppend(a: seq<string>, b: seq<string>)
    ensures TotalLength(a + b) == TotalLength(a) + TotalLength(b)
  {
    if a == [] {
      assert a + b == b;
    } else {
      TotalLengthAppend(a[1..], b);
      assert (a + b)[1..] == a[1..] + b;
    }
  }

  lemma {:induction false} JoinLength(parts: seq<string>, sep: string)
    requires parts != []
    ensures |Join(parts, sep)| == TotalLength(parts) + |sep| * (|parts| - 1)
  {
    if |parts| == 1 {
      assert parts[1..] == [];
    } else {
      JoinLength(parts[1..], sep);
      assert |sep| + |sep| * (|parts| - 2) == |sep| * (|parts| - 1);
    }
  }

  // ---------------------------------------------------------------- white space

  /** Python's `str.isspace` for one character, the set `str.strip` removes. */
  predicate PySpace(c: char) {
    c in "\t\n\U{b}\U{c}\r\U{1c}\U{1d}\U{1e}\U{1f} \U{85}\U{a0}\U{1680}\U{2028}\U{2029}\U{202f}\U{205f}\U{3000}"
    || '\U{2000}' <= c <= '\U{200a}'
  }

  /** ECMAScript white space and line terminators, the set `String.prototype.trim` and `\s` use. */
  predicate JsSpace(c: char) {
    c in "\t\n\U{b}\U{c}\r \U{a0}\U{1680}\U{2028}\U{2029}\U{202f}\U{205f}\U{3000}\U{feff}"
    || '\U{2000}' <= c <= '\U{200a}'
  }

  function TrimStart(s: string, space: char -> bool): (r: string)
    ensures |r| <= |s| && r == s[|s| - |r|..]
    ensures r != "" ==> !space(r[0])
    ensures forall i :: 0 <= i < |s| - |r| ==> space(s[i])
  {
    if s != "" && space(s[0]) then
      var r := TrimStart(s[1..], space);
      assert s[1..][|s| - 1 - |r|..] == s[|s| - |r|..];
      assert forall i :: 1 <= i < |s| ==> s[i] == s[1..][i - 1];
      r
    else s
  }

  function TrimEnd(s: string, space: char -> bool): (r: string)
    ensures r <= s
    ensures r != "" ==> !space(r[|r| - 1])
    ensures forall i :: |r| <= i < |s| ==> space(s[i])
  {
    if s != "" && space(s[|s| - 1]) then TrimEnd(s[..|s| - 1], space) else s
  }

  function Trim(s: string, space: char -> bool): string {
    TrimEnd(TrimStart(s, space), space)
  }

  /** Nothing but white space. */
  predicate Blank(s: string, space: char -> bool) {
    forall i :: 0 <= i < |s| ==> space(s[i])
  }

  /** A text that neither starts nor ends with white space is left alone. */
  lemma TrimTight(s: string, space: char -> bool)
    requires s != "" ==> !space(s[0]) && !space(s[|s| - 1])
    ensures Trim(s, space) == s
  {
  }

  // ---------------------------------------------------------------- decimal numerals

  const DIGITS := "0123456789"

  /** `String(n)` for a natural number. */
  function Decimal(n: nat): (r: string)
    ensures r != ""
  {
    if n < 10 then [DIGITS[n]] else Decimal(n / 10) + [DIGITS[n % 10]]
  }

  lemma {:induction false} DecimalInjective(a: nat, b: nat)
    requires Decimal(a) == Decimal(b)
    ensures a == b
  {
    var x, y := Decimal(a), Decimal(b);
    assert x[|x| - 1] == DIGITS[a % 10] && y[|y| - 1] == DIGITS[b % 10];
    assert |x| == 1 <==> a < 10;
    assert |y| == 1 <==> b < 10;
    if a >= 10 {
      assert x[..|x| - 1] == Decimal(a / 10) && y[..|y| - 1] == Decimal(b / 10);
      DecimalInjective(a / 10, b / 10);
    }
  }
}
