/**
 * One JSON printer, after RFC 8259, whose text determines the value. With the reader that inverts it, it is a
 * codec of the kind the protocol and the event log ask for.
 */
module JsonText {
  import opened Wrappers
  import opened Text
  import opened Order
  import opened Json
  import opened JsonString

  // ---------------------------------------------------------------- numerals

  function Pow5(n: nat): (r: nat)
    ensures r >= 1
  {
    if n == 0 then 1 else 5 * Pow5(n - 1)
  }

  function Magnitude(n: Double): nat {
    if n.mantissa < 0 then -n.mantissa else n.mantissa
  }

  /** The number in full: a binary fraction over 2^k is a decimal one over 10^k, with 5^k times the numerator. */
  function Unsigned(n: Double): string {
    if n.exponent >= 0 then Decimal(Magnitude(n) * Pow2(n.exponent))
    else Decimal(Magnitude(n) * Pow5(-n.exponent)) + "e-" + Decimal(-n.exponent)
  }

  function Numeral(n: Double): string {
    if n.mantissa < 0 then "-" + Unsigned(n) else Unsigned(n)
  }

  function Pow10(k: nat): (r: nat)
    ensures r >= 1
  {
    if k == 0 then 1 else 10 * Pow10(k - 1)
  }

  lemma {:induction false} Pow10Splits(k: nat)
    ensures Pow10(k) == Pow2(k) * Pow5(k)
  {
    if k > 0 {
      Pow10Splits(k - 1);
      assert 10 * (Pow2(k - 1) * Pow5(k - 1)) == 2 * Pow2(k - 1) * (5 * Pow5(k - 1));
    }
  }

  /** The digits printed, over the power of ten behind the `e` if there is one, are the number itself, with its sign. */
  lemma NumeralDenotes(n: Double) returns (digits: nat, k: nat)
    ensures Numeral(n) == (if n.mantissa < 0 then "-" else "") + Decimal(digits) + (if n.exponent < 0 then "e-" + Decimal(k) else "")
    ensures n.exponent >= 0 ==> k == 0
    ensures ValueOf(n) * Pow10(k) as real == if n.mantissa < 0 then -(digits as real) else digits as real
  {
    hide Decimal, Pow2, Pow5, Pow10, IsDouble;
    k := if n.exponent < 0 then -n.exponent else 0;
    digits := Magnitude(n) * (if n.exponent < 0 then Pow5(k) else Pow2(n.exponent));
    Pow10Splits(k);
    if n.exponent < 0 {
      FractionTimes(n.mantissa, Pow2(k), Pow5(k));
    } else {
      assert Pow10(0) == 1 by { OneIsPow10(); }
    }
  }

  lemma OneIsPow10()
    ensures Pow10(0) == 1
  {
  }

  lemma FractionTimes(m: int, a: nat, b: nat)
    requires a >= 1
    ensures m as real / a as real * (a * b) as real == (m * b) as real
  {
    var q := m as real / a as real;
    assert q * a as real == m as real;
    assert q * (a * b) as real == (q * a as real) * b as real;
  }

  predicate IsDigit(c: char) {
    '0' <= c <= '9'
  }

  predicate NumeralChar(c: char) {
    IsDigit(c) || c == '-' || c == 'e'
  }

  predicate AllDigits(s: string) {
    forall i :: 0 <= i < |s| ==> IsDigit(s[i])
  }

  lemma {:induction false} DecimalDigits(n: nat)
    ensures AllDigits(Decimal(n))
  {
    DigitIsDigit(n % 10);
    if n >= 10 {
      DecimalDigits(n / 10);
    } else {
      DigitIsDigit(n);
    }
  }

  lemma DigitIsDigit(d: nat)
    requires d < 10
    ensures IsDigit(DIGITS[d])
  {
  }

  lemma UnsignedShape(n: Double)
    ensures Unsigned(n) != "" && IsDigit(Unsigned(n)[0])
    ensures forall i :: 0 <= i < |Unsigned(n)| ==> NumeralChar(Unsigned(n)[i])
    ensures 'e' in Unsigned(n) <==> n.exponent < 0
  {
    hide Decimal;
    if n.exponent >= 0 {
      DecimalDigits(Magnitude(n) * Pow2(n.exponent));
    } else {
      var a, b := Decimal(Magnitude(n) * Pow5(-n.exponent)), Decimal(-n.exponent);
      DecimalDigits(Magnitude(n) * Pow5(-n.exponent));
      DecimalDigits(-n.exponent);
      assert Unsigned(n)[|a|] == 'e';
    }
  }

  /** Where the only `e` stands is decided by the text. */
  lemma SplitUnique(a: string, b: string, c: string, d: string)
    requires AllDigits(a) && AllDigits(c) && a + "e-" + b == c + "e-" + d
    ensures a == c && b == d
  {
    var s, t := a + "e-" + b, c + "e-" + d;
    assert s[..|a|] == a && t[..|c|] == c && s[|a|] == 'e' && t[|c|] == 'e';
    assert 'e' !in a && 'e' !in c;
    FirstAt(s, 'e', |a|);
    FirstAt(t, 'e', |c|);
    assert b == s[|a| + 2..] && d == t[|c| + 2..];
  }

  lemma Cancel(a: nat, b: nat, k: nat)
    requires k >= 1 && a * k == b * k
    ensures a == b
  {
    assert (a - b) * k == 0;
  }

  lemma {:induction false} Pow2Mono(a: nat, b: nat)
    requires a < b
    ensures 2 * Pow2(a) <= Pow2(b)
    decreases b
  {
    if a + 1 < b { Pow2Mono(a, b - 1); }
  }

  /** With a full mantissa the exponent is decided by the value. */
  lemma ScaledApart(m: nat, e: nat, m': nat, e': nat)
    requires m < 2 * HALF_RANGE && HALF_RANGE <= m' && e < e'
    ensures m * Pow2(e) < m' * Pow2(e')
  {
    Pow2Mono(e, e');
    TimesLess(m, m', Pow2(e), Pow2(e'), HALF_RANGE);
  }

  lemma TimesLess(m: nat, m': nat, p: nat, q: nat, half: nat)
    requires m < 2 * half && half <= m' && p >= 1 && 2 * p <= q
    ensures m * p < m' * q
  {
    TimesMono(m + 1, 2 * half, p);
    TimesMono(half, m', q);
    TimesMono(2 * p, q, half);
  }

  lemma TimesMono(a: nat, b: nat, k: nat)
    requires a <= b
    ensures a * k <= b * k && k * a <= k * b
  {
    assert (b - a) * k >= 0;
  }

  lemma MagnitudeRange(n: Double)
    requires n.exponent >= 0
    ensures HALF_RANGE <= Magnitude(n) < 2 * HALF_RANGE
  {
  }

  lemma UnsignedUnique(a: Double, b: Double)
    requires Unsigned(a) == Unsigned(b)
    ensures Magnitude(a) == Magnitude(b) && a.exponent == b.exponent
  {
    hide Decimal, Pow2, Pow5, Magnitude, IsDouble, Unsigned;
    UnsignedShape(a);
    UnsignedShape(b);
    if a.exponent >= 0 {
      WholeUnique(a, b);
    } else {
      FractionUnique(a, b);
    }
  }

  lemma WholeUnique(a: Double, b: Double)
    requires a.exponent >= 0 && b.exponent >= 0 && Unsigned(a) == Unsigned(b)
    ensures Magnitude(a) == Magnitude(b) && a.exponent == b.exponent
  {
    hide Decimal, Pow2, Magnitude, IsDouble;
    MagnitudeRange(a);
    MagnitudeRange(b);
    DecimalInjective(Magnitude(a) * Pow2(a.exponent), Magnitude(b) * Pow2(b.exponent));
    if a.exponent < b.exponent { ScaledApart(Magnitude(a), a.exponent, Magnitude(b), b.exponent); }
    if b.exponent < a.exponent { ScaledApart(Magnitude(b), b.exponent, Magnitude(a), a.exponent); }
    Cancel(Magnitude(a), Magnitude(b), Pow2(a.exponent));
  }

  lemma FractionUnique(a: Double, b: Double)
    requires a.exponent < 0 && b.exponent < 0 && Unsigned(a) == Unsigned(b)
    ensures Magnitude(a) == Magnitude(b) && a.exponent == b.exponent
  {
    hide Decimal, Pow5, Magnitude, IsDouble;
    var x, y := Magnitude(a) * Pow5(-a.exponent), Magnitude(b) * Pow5(-b.exponent);
    DecimalDigits(x);
    DecimalDigits(y);
    SplitUnique(Decimal(x), Decimal(-a.exponent), Decimal(y), Decimal(-b.exponent));
    DecimalInjective(-a.exponent, -b.exponent);
    DecimalInjective(x, y);
    Cancel(Magnitude(a), Magnitude(b), Pow5(-a.exponent));
  }

  lemma NumeralShape(n: Double)
    ensures Numeral(n) != "" && (IsDigit(Numeral(n)[0]) || Numeral(n)[0] == '-')
    ensures forall i :: 0 <= i < |Numeral(n)| ==> NumeralChar(Numeral(n)[i])
    ensures Numeral(n)[0] == '-' <==> n.mantissa < 0
  {
    hide Unsigned;
    UnsignedShape(n);
  }

  lemma NumeralUnique(a: Double, b: Double)
    requires Numeral(a) == Numeral(b)
    ensures a == b
  {
    hide Unsigned;
    NumeralShape(a);
    NumeralShape(b);
    assert ("-" + Unsigned(a))[1..] == Unsigned(a) && ("-" + Unsigned(b))[1..] == Unsigned(b);
    UnsignedUnique(a, b);
  }

  // ---------------------------------------------------------------- strings

  /** Reading one character of an escaped text: it and how long its escape is. */
  function Unescaped(s: string): (char, nat)
    requires s != ""
  {
    if s[0] != '\\' || |s| < 2 then (s[0], 1)
    else if s[1] == 'u' then (if |s| >= 6 then HexChar(s[2..6]).GetOr('u') else 'u', 6)
    else (SimpleEscape(s[1]).GetOr(s[1]), 2)
  }

  lemma EscapeCharReads(c: char, u: string)
    ensures Unescaped(EscapeChar(c) + u) == (c, |EscapeChar(c)|)
  {
    var s := EscapeChar(c) + u;
    if IsControl(c) {
      assert s[2..6] == ['0', '0', HEX[c as nat / 16], HEX[c as nat % 16]];
      HexRoundTrip(c);
    }
  }

  lemma EscapeCharStart(c: char)
    ensures EscapeChar(c)[0] != '"'
  {
  }

  lemma QuotedStart(s: string, x: string)
    ensures var a := Escape(s) + "\"" + x; (a[0] == '"' <==> s == "") && (s == "" ==> a[1..] == x)
  {
    hide EscapeChar;
    if s != "" { EscapeCharStart(s[0]); }
  }

  /** A quoted string ends where it ends, whatever follows. */
  lemma {:induction false} QuotedUnique(s: string, t: string, x: string, y: string)
    requires Escape(s) + "\"" + x == Escape(t) + "\"" + y
    ensures s == t && x == y
  {
    hide EscapeChar, Unescaped;
    var a, b := Escape(s) + "\"" + x, Escape(t) + "\"" + y;
    QuotedStart(s, x);
    QuotedStart(t, y);
    if s != "" && t != "" {
      var u, v := Escape(s[1..]) + "\"" + x, Escape(t[1..]) + "\"" + y;
      assert a == EscapeChar(s[0]) + u && b == EscapeChar(t[0]) + v;
      EscapeCharReads(s[0], u);
      EscapeCharReads(t[0], v);
      assert s[0] == t[0] && u == a[|EscapeChar(s[0])|..] && v == b[|EscapeChar(s[0])|..];
      QuotedUnique(s[1..], t[1..], x, y);
      assert s == [s[0]] + s[1..] && t == [t[0]] + t[1..];
    }
  }

  lemma QuoteUnique(s: string, t: string, x: string, y: string)
    requires Quote(s) + x == Quote(t) + y
    ensures s == t && x == y
  {
    hide Escape;
    assert (Quote(s) + x)[1..] == Escape(s) + "\"" + x && (Quote(t) + y)[1..] == Escape(t) + "\"" + y;
    QuotedUnique(s, t, x, y);
  }

  // ---------------------------------------------------------------- values

  /** Keys ascending, no white space. */
  function Print(j: Json): string {
    match j
    case JNull => "null"
    case JBool(b) => if b then "true" else "false"
    case JNumber(n) => Numeral(n)
    case JString(s) => Quote(s)
    case JArray(items) => "[" + Join(seq(|items|, i requires 0 <= i < |items| => Print(items[i])), ",") + "]"
    case JObject(fields) =>
      var keys := SortIds(fields.Keys);
      assert forall i :: 0 <= i < |keys| ==> keys[i] in keys;
      "{" + Join(seq(|keys|, i requires 0 <= i < |keys| => Quote(keys[i]) + ":" + Print(fields[keys[i]])), ",") + "}"
  }

  function Items(items: seq<Json>): seq<string> {
    seq(|items|, i requires 0 <= i < |items| => Print(items[i]))
  }

  function Members(keys: seq<string>, fields: Object): seq<string>
    requires forall i :: 0 <= i < |keys| ==> keys[i] in fields
  {
    seq(|keys|, i requires 0 <= i < |keys| => Quote(keys[i]) + ":" + Print(fields[keys[i]]))
  }

  function Keys(fields: Object): (keys: seq<string>)
    ensures forall i :: 0 <= i < |keys| ==> keys[i] in fields
    ensures forall k :: k in fields ==> k in keys
  {
    var keys := SortIds(fields.Keys);
    assert forall i :: 0 <= i < |keys| ==> keys[i] in keys;
    keys
  }

  /** What may follow a value inside a text. */
  predicate Ends(x: string) {
    x == "" || x[0] == ',' || x[0] == ']' || x[0] == '}'
  }

  /** The first character of a value's text tells what kind of value it is. */
  predicate StartsAs(j: Json, c: char) {
    match j
    case JNull => c == 'n'
    case JBool(b) => c == if b then 't' else 'f'
    case JNumber(_) => IsDigit(c) || c == '-'
    case JString(_) => c == '"'
    case JArray(_) => c == '['
    case JObject(_) => c == '{'
  }

  lemma PrintStarts(j: Json)
    ensures Print(j) != "" && StartsAs(j, Print(j)[0])
  {
    hide Numeral, Escape, Join;
    if j.JNumber? { NumeralShape(j.n); }
  }

  lemma SameKind(a: Json, b: Json, c: char)
    requires StartsAs(a, c) && StartsAs(b, c)
    ensures (a.JNull? <==> b.JNull?) && (a.JBool? <==> b.JBool?) && (a.JNumber? <==> b.JNumber?)
    ensures (a.JString? <==> b.JString?) && (a.JArray? <==> b.JArray?) && (a.JObject? <==> b.JObject?)
    ensures a.JBool? ==> a == b
  {
  }

  // ---------------------------------------------------------------- the text determines the value

  /** Where a numeral ends is decided by the character behind it. */
  lemma NumeralsApart(a: Double, b: Double, x: string, y: string)
    requires Ends(x) && Ends(y) && Numeral(a) + x == Numeral(b) + y
    ensures a == b && x == y
  {
    hide Numeral;
    NumeralShape(a);
    NumeralShape(b);
    SameLength(Numeral(a), Numeral(b), x, y);
    SameLength(Numeral(b), Numeral(a), y, x);
    assert Numeral(a) == (Numeral(a) + x)[..|Numeral(a)|] && Numeral(b) == (Numeral(b) + y)[..|Numeral(b)|];
    assert x == (Numeral(a) + x)[|Numeral(a)|..] && y == (Numeral(b) + y)[|Numeral(b)|..];
    NumeralUnique(a, b);
  }

  lemma SameLength(m: string, n: string, x: string, y: string)
    requires forall i :: 0 <= i < |n| ==> NumeralChar(n[i])
    requires Ends(x) && m + x == n + y
    ensures |m| >= |n|
  {
    var s := m + x;
    assert forall i :: 0 <= i < |n| ==> s[i] == n[i];
    assert x != "" ==> s[|m|] == x[0];
    assert |s| == |m| + |x|;
  }

  /** Two lists of texts of which neither of a pair can be cut short: as long as one of them goes on, so does the other. */
  ghost predicate Apart(ps: seq<string>, qs: seq<string>) {
    && (forall i :: 0 <= i < |ps| ==> ps[i] != "" && !Ends(ps[i]))
    && (forall i :: 0 <= i < |qs| ==> qs[i] != "" && !Ends(qs[i]))
    && forall i, x, y :: 0 <= i < |ps| && i < |qs| && Ends(x) && Ends(y) && ps[i] + x == qs[i] + y ==> ps[i] == qs[i] && x == y
  }

  /** What stands behind the first of a comma-separated list. */
  function Behind(ts: seq<string>, close: char, x: string): string
    requires ts != []
  {
    if |ts| == 1 then [close] + x else "," + (Join(ts[1..], ",") + [close] + x)
  }

  lemma JoinSplits(ts: seq<string>, close: char, x: string)
    requires ts != []
    ensures Join(ts, ",") + [close] + x == ts[0] + Behind(ts, close, x)
  {
    hide Join;
    if |ts| == 1 {
      JoinSingle(ts);
      ConcatAssoc(ts[0], [close], x);
    } else {
      JoinMore(ts);
      Regroup(ts[0], Join(ts[1..], ","), [close], x);
    }
  }

  lemma Regroup(t: string, r: string, c: string, x: string)
    ensures t + "," + r + c + x == t + ("," + (r + c + x))
  {
  }

  lemma JoinSingle(ts: seq<string>)
    requires |ts| == 1
    ensures Join(ts, ",") == ts[0]
  {
  }

  lemma JoinMore(ts: seq<string>)
    requires |ts| > 1
    ensures Join(ts, ",") == ts[0] + "," + Join(ts[1..], ",")
  {
  }

  /** A bracketed list determines its texts and what stands behind it. */
  lemma {:induction false} ListUnique(ps: seq<string>, qs: seq<string>, close: char, x: string, y: string)
    requires Apart(ps, qs) && (close == ']' || close == '}')
    requires Join(ps, ",") + [close] + x == Join(qs, ",") + [close] + y
    ensures ps == qs && x == y
  {
    hide Join, Apart, Ends, Behind;
    ApartClean(ps, qs);
    ListStart(ps, close, x);
    ListStart(qs, close, y);
    if ps != [] && qs != [] {
      JoinSplits(ps, close, x);
      JoinSplits(qs, close, y);
      BehindEnds(ps, close, x);
      BehindEnds(qs, close, y);
      ApartFirst(ps, qs, Behind(ps, close, x), Behind(qs, close, y));
      BehindUnique(ps, qs, close, x, y);
      if |ps| > 1 {
        ApartRest(ps, qs);
        ListUnique(ps[1..], qs[1..], close, x, y);
      }
      assert ps == [ps[0]] + ps[1..] && qs == [qs[0]] + qs[1..];
    }
  }

  lemma ApartClean(ps: seq<string>, qs: seq<string>)
    requires Apart(ps, qs)
    ensures forall i :: 0 <= i < |ps| ==> ps[i] != "" && !Ends(ps[i])
    ensures forall i :: 0 <= i < |qs| ==> qs[i] != "" && !Ends(qs[i])
  {
  }

  lemma ApartFirst(ps: seq<string>, qs: seq<string>, x: string, y: string)
    requires Apart(ps, qs) && ps != [] && qs != [] && Ends(x) && Ends(y) && ps[0] + x == qs[0] + y
    ensures ps[0] == qs[0] && x == y
  {
  }

  lemma BehindEnds(ts: seq<string>, close: char, x: string)
    requires ts != [] && (close == ']' || close == '}')
    ensures Ends(Behind(ts, close, x))
  {
  }

  lemma ListStart(ts: seq<string>, close: char, x: string)
    requires forall i :: 0 <= i < |ts| ==> ts[i] != "" && !Ends(ts[i])
    requires close == ']' || close == '}'
    ensures
      var s := Join(ts, ",") + [close] + x;
      (s[0] == close <==> ts == []) && (ts == [] ==> s[1..] == x)
  {
    hide Join;
    if ts == [] {
      assert Join(ts, ",") == "" by { JoinNone(ts); }
    } else {
      JoinSplits(ts, close, x);
    }
  }

  lemma JoinNone(ts: seq<string>)
    requires ts == []
    ensures Join(ts, ",") == ""
  {
  }

  lemma BehindUnique(ps: seq<string>, qs: seq<string>, close: char, x: string, y: string)
    requires ps != [] && qs != [] && (close == ']' || close == '}') && Behind(ps, close, x) == Behind(qs, close, y)
    ensures |ps| == 1 <==> |qs| == 1
    ensures |ps| == 1 ==> x == y
    ensures |ps| > 1 ==> Join(ps[1..], ",") + [close] + x == Join(qs[1..], ",") + [close] + y
  {
    hide Join;
    var s, t := Behind(ps, close, x), Behind(qs, close, y);
    assert s[0] == if |ps| == 1 then close else ',';
    assert t[0] == if |qs| == 1 then close else ',';
    assert s[1..] == if |ps| == 1 then x else Join(ps[1..], ",") + [close] + x;
    assert t[1..] == if |qs| == 1 then y else Join(qs[1..], ",") + [close] + y;
  }

  lemma ApartRest(ps: seq<string>, qs: seq<string>)
    requires Apart(ps, qs) && ps != [] && qs != []
    ensures Apart(ps[1..], qs[1..])
  {
    var p, q := ps[1..], qs[1..];
    forall i, x, y | 0 <= i < |p| && i < |q| && Ends(x) && Ends(y) && p[i] + x == q[i] + y ensures p[i] == q[i] && x == y {
      assert ps[i + 1] + x == qs[i + 1] + y;
    }
  }

  /** Two values with the same text, up to what may follow, are the same value. */
  lemma {:induction false} PrintUnique(a: Json, b: Json, x: string, y: string)
    requires Ends(x) && Ends(y) && Print(a) + x == Print(b) + y
    ensures a == b && x == y
    decreases a
  {
    hide Numeral, Quote, Join, StartsAs, SortIds;
    PrintStarts(a);
    PrintStarts(b);
    assert Print(a)[0] == (Print(a) + x)[0] == (Print(b) + y)[0] == Print(b)[0];
    SameKind(a, b, Print(a)[0]);
    match a
    case JNumber(n) => NumeralsApart(n, b.n, x, y);
    case JString(s) => QuoteUnique(s, b.s, x, y);
    case JArray(items) =>
      ItemsApart(a, b);
      assert (Print(a) + x)[1..] == Join(Items(items), ",") + "]" + x;
      assert (Print(b) + y)[1..] == Join(Items(b.items), ",") + "]" + y;
      ListUnique(Items(items), Items(b.items), ']', x, y);
      forall i | 0 <= i < |items| ensures items[i] == b.items[i] {
        assert Items(items)[i] == Items(b.items)[i];
        assert Print(items[i]) + "" == Print(b.items[i]) + "";
        PrintUnique(items[i], b.items[i], "", "");
      }
    case JObject(fields) =>
      MembersApart(a, b);
      assert (Print(a) + x)[1..] == Join(Members(Keys(fields), fields), ",") + "}" + x;
      assert (Print(b) + y)[1..] == Join(Members(Keys(b.fields), b.fields), ",") + "}" + y;
      ListUnique(Members(Keys(fields), fields), Members(Keys(b.fields), b.fields), '}', x, y);
      ObjectsEqual(a, b);
    case _ =>
      assert |Print(a)| == |Print(b)|;
      assert x == (Print(a) + x)[|Print(a)|..] && y == (Print(b) + y)[|Print(a)|..];
  }

  lemma ItemsApart(a: Json, b: Json)
    requires a.JArray? && b.JArray?
    ensures Apart(Items(a.items), Items(b.items))
    decreases a, 0
  {
    hide Print;
    var ps, qs := Items(a.items), Items(b.items);
    forall i | 0 <= i < |ps| ensures ps[i] != "" && !Ends(ps[i]) { PrintStarts(a.items[i]); }
    forall i | 0 <= i < |qs| ensures qs[i] != "" && !Ends(qs[i]) { PrintStarts(b.items[i]); }
    forall i, x, y | 0 <= i < |ps| && i < |qs| && Ends(x) && Ends(y) && ps[i] + x == qs[i] + y ensures ps[i] == qs[i] && x == y {
      PrintUnique(a.items[i], b.items[i], x, y);
    }
  }

  lemma MembersApart(a: Json, b: Json)
    requires a.JObject? && b.JObject?
    ensures Apart(Members(Keys(a.fields), a.fields), Members(Keys(b.fields), b.fields))
    decreases a, 0
  {
    hide Print, Escape, Keys;
    var ka, kb := Keys(a.fields), Keys(b.fields);
    var ps, qs := Members(ka, a.fields), Members(kb, b.fields);
    forall i, x, y | 0 <= i < |ps| && i < |qs| && Ends(x) && Ends(y) && ps[i] + x == qs[i] + y ensures ps[i] == qs[i] && x == y {
      var u, v := a.fields[ka[i]], b.fields[kb[i]];
      assert ps[i] + x == Quote(ka[i]) + (":" + Print(u) + x);
      assert qs[i] + y == Quote(kb[i]) + (":" + Print(v) + y);
      QuoteUnique(ka[i], kb[i], ":" + Print(u) + x, ":" + Print(v) + y);
      assert (":" + Print(u) + x)[1..] == Print(u) + x && (":" + Print(v) + y)[1..] == Print(v) + y;
      PrintUnique(u, v, x, y);
    }
  }

  /** Objects with the same member texts have the same keys and the same values. */
  lemma ObjectsEqual(a: Json, b: Json)
    requires a.JObject? && b.JObject? && Members(Keys(a.fields), a.fields) == Members(Keys(b.fields), b.fields)
    ensures a == b
    decreases a, 0
  {
    hide Print, Escape, Keys;
    var ka, kb := Keys(a.fields), Keys(b.fields);
    var ps, qs := Members(ka, a.fields), Members(kb, b.fields);
    forall i | 0 <= i < |ka| ensures ka[i] == kb[i] && a.fields[ka[i]] == b.fields[kb[i]] {
      var u, v := a.fields[ka[i]], b.fields[kb[i]];
      assert ps[i] == qs[i];
      assert ps[i] == Quote(ka[i]) + (":" + Print(u)) && qs[i] == Quote(kb[i]) + (":" + Print(v));
      QuoteUnique(ka[i], kb[i], ":" + Print(u), ":" + Print(v));
      assert (":" + Print(u))[1..] == Print(u) && (":" + Print(v))[1..] == Print(v);
      assert Print(u) + "" == Print(v) + "";
      PrintUnique(u, v, "", "");
    }
    assert |ps| == |ka| && |qs| == |kb|;
    assert ka == kb;
    forall k ensures k in a.fields <==> k in b.fields {
      assert k in a.fields <==> k in ka;
      assert k in b.fields <==> k in kb;
    }
    assert a.fields == b.fields;
  }

  // ---------------------------------------------------------------- a lawful codec

  /** The value a text was printed for. */
  ghost function Read(s: string): Option<Json> {
    if exists j :: Print(j) == s then
      var j :| Print(j) == s;
      Some(j)
    else None
  }

  ghost function Rfc8259(): Codec {
    Codec(j => Print(j), s => Read(s), j => Print(j), s => Read(s))
  }

  lemma ReadPrint(j: Json)
    ensures Read(Print(j)) == Some(j)
  {
    hide Print;
    var k := Read(Print(j)).value;
    assert Print(j) + "" == Print(k) + "";
    PrintUnique(j, k, "", "");
  }

  // ---------------------------------------------------------------- one line each

  lemma NumeralOneLine(n: Double)
    ensures '\n' !in Numeral(n)
  {
    hide Numeral;
    NumeralShape(n);
  }

  lemma {:induction false} EscapeOneLine(s: string)
    ensures '\n' !in Escape(s)
  {
    hide EscapeChar;
    if s != "" {
      EscapeOneLine(s[1..]);
      EscapeCharOneLine(s[0]);
    }
  }

  lemma EscapeCharOneLine(c: char)
    ensures '\n' !in EscapeChar(c)
  {
    assert '\n' !in HEX;
  }

  lemma {:induction false} JoinOneLine(ts: seq<string>)
    requires forall i :: 0 <= i < |ts| ==> '\n' !in ts[i]
    ensures '\n' !in Join(ts, ",")
  {
    if |ts| > 1 { JoinOneLine(ts[1..]); }
  }

  lemma {:induction false} PrintNoNewline(j: Json)
    ensures '\n' !in Print(j)
    decreases j
  {
    hide Numeral, Escape, Join, Keys;
    match j
    case JNumber(n) => NumeralOneLine(n);
    case JString(s) => EscapeOneLine(s);
    case JArray(items) =>
      var ts := Items(items);
      forall i | 0 <= i < |ts| ensures '\n' !in ts[i] { PrintNoNewline(items[i]); }
      JoinOneLine(ts);
      assert Print(j) == "[" + Join(ts, ",") + "]";
    case JObject(fields) =>
      var keys := Keys(fields);
      var ts := Members(keys, fields);
      forall i | 0 <= i < |ts| ensures '\n' !in ts[i] {
        EscapeOneLine(keys[i]);
        PrintNoNewline(fields[keys[i]]);
      }
      JoinOneLine(ts);
      assert Print(j) == "{" + Join(ts, ",") + "}" by { PrintsMembers(j); }
    case _ =>
  }

  lemma PrintsMembers(j: Json)
    requires j.JObject?
    ensures Print(j) == "{" + Join(Members(Keys(j.fields), j.fields), ",") + "}"
  {
    hide Join, Quote;
  }

  lemma PrintOneLine(j: Json)
    ensures OneLine(Print(j))
  {
    hide Print, JsSpace, PySpace;
    PrintNoNewline(j);
    PrintStarts(j);
    StartsDark(j, Print(j)[0]);
  }

  lemma StartsDark(j: Json, c: char)
    requires StartsAs(j, c)
    ensures !JsSpace(c) && !PySpace(c)
  {
  }

  /** The assumption about the JSON libraries can be met: this codec meets it in both of its forms. */
  lemma LawfulCodec()
    ensures Rfc8259().Lawful() && Rfc8259().LawfulAlone()
  {
    hide Print, Read, OneLine;
    forall j ensures Read(Print(j)) == Some(j) && OneLine(Print(j)) {
      ReadPrint(j);
      PrintOneLine(j);
    }
  }
}
