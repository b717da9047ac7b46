/** ULIDs: 10 characters of time and 16 of randomness in Crockford base 32. */
module Ulid {
  import opened Order

  const ENCODING := "0123456789ABCDEFGHJKMNPQRSTVWXYZ"

  /** 2^50, the range of ten base-32 digits, and 2^48, the range of a ULID timestamp. */
  const TIME_RANGE := 0x4_0000_0000_0000
  const ULID_TIME_RANGE := 0x1_0000_0000_0000

  /** The character class of the ULID pattern. */
  predicate IsCrockford(c: char) {
    '0' <= c <= '9' || 'A' <= c <= 'H' || c in "JKMN" || 'P' <= c <= 'T' || 'V' <= c <= 'Z'
  }

  /** The whole pattern: 26 such characters, the first of them a digit up to 7. */
  predicate IsUlid(s: string) {
    |s| == 26 && '0' <= s[0] <= '7' && forall i :: 0 <= i < 26 ==> IsCrockford(s[i])
  }

  /** The k last base-32 digits of n, most significant first. */
  function Digits(n: nat, k: nat): (r: string)
    ensures |r| == k
  {
    if k == 0 then "" else Digits(n / 32, k - 1) + [ENCODING[n % 32]]
  }

  lemma DigitsStep(n: nat, k: nat, out: string)
    requires k > 0
    ensures Digits(n, k) + out == Digits(n / 32, k - 1) + ([ENCODING[n % 32]] + out)
  {
  }

  method EncodeTime(now: nat) returns (out: string)
    ensures out == Digits(now, 10)
  {
    out := "";
    var n := now;
    assert Digits(now, 10) + "" == Digits(now, 10);
    hide Digits;
    for i := 0 to 10
      invariant Digits(n, 10 - i) + out == Digits(now, 10)
    {
      var mod := n % 32;
      DigitsStep(n, 10 - i, out);
      out := [ENCODING[mod]] + out;
      n := (n - mod) / 32;
    }
  }

  /** Sixteen random bytes, one character each. */
  function RandomChars(bytes: seq<nat>): string {
    seq(|bytes|, i requires 0 <= i < |bytes| => ENCODING[bytes[i] % 32])
  }

  method EncodeRandom(bytes: seq<nat>) returns (out: string)
    ensures out == RandomChars(bytes)
  {
    out := "";
    for i := 0 to |bytes|
      invariant out == RandomChars(bytes[..i])
    {
      assert bytes[..i + 1][..i] == bytes[..i];
      out := out + [ENCODING[bytes[i] % 32]];
    }
    assert bytes[..|bytes|] == bytes;
  }

  /** `ulid(now)` for the given random bytes. */
  function New(now: nat, bytes: seq<nat>): string {
    Digits(now, 10) + RandomChars(bytes)
  }

  // ---------------------------------------------------------------- decoding

  /** The value of one digit; characters outside the alphabet count as 0. */
  function Value(c: char): (v: nat)
    ensures v < 32
  {
    if '0' <= c <= '9' then c as nat - '0' as nat
    else if 'A' <= c <= 'H' then c as nat - 'A' as nat + 10
    else if c == 'J' then 18 else if c == 'K' then 19 else if c == 'M' then 20 else if c == 'N' then 21
    else if 'P' <= c <= 'T' then c as nat - 'P' as nat + 22
    else if 'V' <= c <= 'Z' then c as nat - 'V' as nat + 27
    else 0
  }

  function Decode(s: string): nat {
    if s == "" then 0 else Decode(s[..|s| - 1]) * 32 + Value(s[|s| - 1])
  }

  function Pow32(k: nat): nat {
    if k == 0 then 1 else 32 * Pow32(k - 1)
  }

  /** The alphabet lists the pattern's characters in ascending order, by value. */
  lemma Alphabet(v: nat)
    requires v < 32
    ensures IsCrockford(ENCODING[v]) && Value(ENCODING[v]) == v
    ensures ENCODING[v] <= '7' <==> v < 8
  {
  }

  lemma ValueOrder(a: char, b: char)
    requires IsCrockford(a) && IsCrockford(b)
    ensures a < b <==> Value(a) < Value(b)
    ensures a == b <==> Value(a) == Value(b)
  {
  }

  lemma MulMono(x: nat, y: nat, p: nat)
    requires x < y
    ensures x * p + p <= y * p
  {
    var d := y - x - 1;
    assert d * p >= 0;
    assert y * p == (x + 1 + d) * p == x * p + p + d * p;
  }

  lemma DivModUnique(n: nat, d: nat, q: nat, r: nat)
    requires d > 0 && r < d && n == q * d + r
    ensures n % d == r
  {
    var q' := n / d;
    assert n == q' * d + n % d;
    if q' < q { MulMono(q', q, d); }
    if q < q' { MulMono(q, q', d); }
  }

  lemma ModStep(n: nat, p: nat)
    requires p > 0
    ensures (n / 32 % p) * 32 + n % 32 == n % (32 * p)
  {
    var m, r := n / 32, n % 32;
    var h, l := m / p, m % p;
    assert m == h * p + l;
    assert h * p * 32 == h * (32 * p);
    DivModUnique(n, 32 * p, h, 32 * l + r);
  }

  lemma {:induction false} DigitsDecode(n: nat, k: nat)
    ensures Pow32(k) > 0 && Decode(Digits(n, k)) == n % Pow32(k)
    ensures forall i :: 0 <= i < k ==> IsCrockford(Digits(n, k)[i])
  {
    if k != 0 {
      DigitsDecode(n / 32, k - 1);
      Alphabet(n % 32);
      ModStep(n, Pow32(k - 1));
      assert Digits(n, k)[..k - 1] == Digits(n / 32, k - 1);
    }
  }

  /** Reading the most significant digit first. */
  lemma {:induction false} DecodeHead(c: char, s: string)
    ensures Decode([c] + s) == Value(c) * Pow32(|s|) + Decode(s)
    ensures Decode(s) < Pow32(|s|)
    decreases |s|
  {
    if s == "" {
      assert [c] + s == [c] && [c][..0] == "";
    } else {
      var t, last := s[..|s| - 1], Value(s[|s| - 1]);
      DecodeHead(c, t);
      assert ([c] + s)[..|s|] == [c] + t;
      Distribute(Value(c), Pow32(|t|), Decode(t));
    }
  }

  lemma Distribute(v: nat, p: nat, d: nat)
    ensures (v * p + d) * 32 == v * (32 * p) + d * 32
  {
  }

  /** On equally long texts of the alphabet, string order is numeric order. */
  lemma {:induction false} OrderIsNumeric(a: string, b: string)
    requires |a| == |b|
    requires forall i :: 0 <= i < |a| ==> IsCrockford(a[i]) && IsCrockford(b[i])
    ensures Less(a, b) <==> Decode(a) < Decode(b)
    ensures a == b <==> Decode(a) == Decode(b)
  {
    if a != "" {
      var s, t := a[1..], b[1..];
      assert a == [a[0]] + s && b == [b[0]] + t;
      OrderIsNumeric(s, t);
      DecodeHead(a[0], s);
      DecodeHead(b[0], t);
      ValueOrder(a[0], b[0]);
      HeadDecides(Value(a[0]), Value(b[0]), Pow32(|s|), Decode(s), Decode(t));
    }
  }

  lemma HeadDecides(x: nat, y: nat, p: nat, s: nat, t: nat)
    requires s < p && t < p
    ensures x < y ==> x * p + s < y * p + t
    ensures x > y ==> x * p + s > y * p + t
  {
    if x < y { MulMono(x, y, p); }
    if x > y { MulMono(y, x, p); }
  }

  lemma Pow32Of10()
    ensures Pow32(10) == TIME_RANGE && Pow32(9) == TIME_RANGE / 32
  {
    assert Pow32(2) == 1024 && Pow32(4) == 1048576 && Pow32(6) == 1073741824;
    assert Pow32(8) == 1099511627776;
  }

  // ---------------------------------------------------------------- the theorems

  /** Times are kept modulo 2^50: below that the encoding can be decoded. */
  lemma TimeRoundTrip(t: nat)
    ensures |Digits(t, 10)| == 10
    ensures Decode(Digits(t, 10)) == t % TIME_RANGE
    ensures t < TIME_RANGE ==> Decode(Digits(t, 10)) == t
  {
    hide Digits, Decode, Pow32;
    DigitsDecode(t, 10);
    Pow32Of10();
  }

  /** Below 2^50 the encoding is strictly order preserving, in both directions. */
  lemma TimeOrder(t: nat, u: nat)
    requires t < TIME_RANGE && u < TIME_RANGE
    ensures Less(Digits(t, 10), Digits(u, 10)) <==> t < u
  {
    DigitsDecode(t, 10);
    DigitsDecode(u, 10);
    OrderIsNumeric(Digits(t, 10), Digits(u, 10));
    TimeRoundTrip(t);
    TimeRoundTrip(u);
  }

  /** The leading character is 0-7 exactly for times whose low 50 bits are below 2^48. */
  lemma LeadingDigit(t: nat)
    ensures '0' <= Digits(t, 10)[0] <= '7' <==> t % TIME_RANGE < ULID_TIME_RANGE
  {
    hide Digits, Decode, Pow32, Value;
    var s := Digits(t, 10);
    DigitsDecode(t, 10);
    assert Value('7') == 7 by { Alphabet(7); }
    assert s == [s[0]] + s[1..];
    DecodeHead(s[0], s[1..]);
    Pow32Of10();
    assert IsCrockford(s[0]);
    ValueOrder(s[0], '7');
    var v := Value(s[0]);
    HeadDecides(v, 8, Pow32(9), Decode(s[1..]), 0);
    if v > 8 { MulMono(8, v, Pow32(9)); }
  }

  /** A generated id matches the ULID pattern exactly when its time fits 48 bits (modulo 2^50). */
  lemma NewMatchesPattern(t: nat, bytes: seq<nat>)
    requires |bytes| == 16
    ensures IsUlid(New(t, bytes)) <==> t % TIME_RANGE < ULID_TIME_RANGE
  {
    var s := New(t, bytes);
    LeadingDigit(t);
    DigitsDecode(t, 10);
    forall i | 0 <= i < 26 ensures IsCrockford(s[i]) {
      if i >= 10 { Alphabet(bytes[i - 10] % 32); }
    }
  }

  /** Ids of different milliseconds sort by time, whatever their random parts. */
  lemma NewSortsByTime(t: nat, u: nat, bytes: seq<nat>, more: seq<nat>)
    requires t < u < TIME_RANGE
    ensures Less(New(t, bytes), New(u, more))
  {
    TimeOrder(t, u);
    LessPrefix(Digits(t, 10), Digits(u, 10), RandomChars(bytes), RandomChars(more));
  }

  /** The random part carries the low five bits of every byte, in order. */
  lemma RandomPartDecodes(t: nat, bytes: seq<nat>, i: nat)
    requires i < |bytes|
    ensures |New(t, bytes)| == 10 + |bytes| && Value(New(t, bytes)[10 + i]) == bytes[i] % 32
  {
    Alphabet(bytes[i] % 32);
  }
}
