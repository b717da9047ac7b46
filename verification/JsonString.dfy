/** Strings as JSON prints and reads them (RFC 8259, section 7). */
module JsonString {
  import opened Wrappers

  const HEX := "0123456789abcdef"

  /** One character inside a JSON string, as `JSON.stringify` writes it. */
  function EscapeChar(c: char): (r: string)
    ensures r != ""
  {
    if c == '"' then "\\\""
    else if c == '\\' then "\\\\"
    else if c == '\U{8}' then "\\b"
    else if c == '\U{c}' then "\\f"
    else if c == '\n' then "\\n"
    else if c == '\r' then "\\r"
    else if c == '\t' then "\\t"
    else if c < ' ' then ['\\', 'u', '0', '0', HEX[c as nat / 16], HEX[c as nat % 16]]
    else [c]
  }

  function Escape(s: string): string {
    if s == "" then "" else EscapeChar(s[0]) + Escape(s[1..])
  }

  /** The scalar every string value of the frontmatter is printed as. */
  function Quote(s: string): string {
    "\"" + Escape(s) + "\""
  }

  function HexValue(c: char): Option<nat> {
    if '0' <= c <= '9' then Some(c as nat - '0' as nat)
    else if 'a' <= c <= 'f' then Some(c as nat - 'a' as nat + 10)
    else if 'A' <= c <= 'F' then Some(c as nat - 'A' as nat + 10)
    else None
  }

  /** Four hexadecimal digits; surrogates are not characters here and count as errors. */
  function HexChar(s: string): Option<char>
    requires |s| == 4
  {
    var a, b, c, d := HexValue(s[0]), HexValue(s[1]), HexValue(s[2]), HexValue(s[3]);
    if a.None? || b.None? || c.None? || d.None? then None
    else
      var n := ((a.value * 16 + b.value) * 16 + c.value) * 16 + d.value;
      if 0xD800 <= n < 0xE000 then None else Some(n as char)
  }

  function SimpleEscape(c: char): Option<char> {
    if c == '"' || c == '\\' || c == '/' then Some(c)
    else if c == 'b' then Some('\U{8}')
    else if c == 'f' then Some('\U{c}')
    else if c == 'n' then Some('\n')
    else if c == 'r' then Some('\r')
    else if c == 't' then Some('\t')
    else None
  }

  /** The rest of a JSON string after its opening quote: the closing quote must be the last character. */
  function ParseBody(s: string): Option<string>
    decreases |s|
  {
    if s == "" then None
    else if s[0] == '"' then (if |s| == 1 then Some("") else None)
    else if s[0] < ' ' then None
    else if s[0] != '\\' then Prepend(s[0], ParseBody(s[1..]))
    else if |s| < 2 then None
    else if s[1] == 'u' then
      if |s| < 6 || HexChar(s[2..6]).None? then None else Prepend(HexChar(s[2..6]).value, ParseBody(s[6..]))
    else if SimpleEscape(s[1]).None? then None
    else Prepend(SimpleEscape(s[1]).value, ParseBody(s[2..]))
  }

  function Prepend(c: char, r: Option<string>): Option<string> {
    if r.None? then None else Some([c] + r.value)
  }

  // ---------------------------------------------------------------- what was printed is read

  lemma EscapeCharParses(c: char, rest: string)
    ensures ParseBody(EscapeChar(c) + rest) == Prepend(c, ParseBody(rest))
  {
    hide Prepend, HexChar;
    var e := EscapeChar(c);
    var s := e + rest;
    assert s[|e|..] == rest;
    if IsControl(c) { ControlParses(c, rest); }
  }

  /** A character that is written with its code. */
  predicate IsControl(c: char) {
    c < ' ' && c != '\U{8}' && c != '\U{c}' && c != '\n' && c != '\r' && c != '\t'
  }

  lemma ControlParses(c: char, rest: string)
    requires IsControl(c)
    ensures ParseBody(EscapeChar(c) + rest) == Prepend(c, ParseBody(rest))
  {
    hide Prepend, HexChar;
    var s := EscapeChar(c) + rest;
    assert s[2..6] == ['0', '0', HEX[c as nat / 16], HEX[c as nat % 16]] && s[6..] == rest;
    HexRoundTrip(c);
  }

  lemma HexRoundTrip(c: char)
    requires c < ' '
    ensures HexChar(['0', '0', HEX[c as nat / 16], HEX[c as nat % 16]]) == Some(c)
  {
    HexDigit(c as nat / 16);
    HexDigit(c as nat % 16);
    assert c as nat / 16 * 16 + c as nat % 16 == c as nat;
  }

  lemma HexDigit(n: nat)
    requires n < 16
    ensures HexValue(HEX[n]) == Some(n)
  {
  }

  lemma {:induction false} EscapeParses(s: string)
    ensures ParseBody(Escape(s) + "\"") == Some(s)
  {
    hide EscapeChar;
    if s != "" {
      EscapeParses(s[1..]);
      EscapeCharParses(s[0], Escape(s[1..]) + "\"");
      assert Escape(s) + "\"" == EscapeChar(s[0]) + (Escape(s[1..]) + "\"");
      assert s == [s[0]] + s[1..];
    } else {
      assert Escape(s) + "\"" == "\"";
    }
  }
}
