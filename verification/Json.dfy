/** JSON values, and the two JSON libraries at either end of the sidecar pipe. */
module Json {
  import opened Wrappers
  import opened Text

  // ---------------------------------------------------------------- numbers

  function Pow2(n: nat): (r: nat)
    ensures r >= 1
  {
    if n == 0 then 1 else 2 * Pow2(n - 1)
  }

  const MIN_EXPONENT := -1074
  const MAX_EXPONENT := 971
  const HALF_RANGE := 0x10_0000_0000_0000

  datatype Number = Number(mantissa: int, exponent: int)

  /** The finite binary64 numbers, each in its one representation; the negative zero is the zero. */
  predicate IsDouble(n: Number) {
    && MIN_EXPONENT <= n.exponent <= MAX_EXPONENT
    && -2 * HALF_RANGE < n.mantissa < 2 * HALF_RANGE
    && (n.exponent > MIN_EXPONENT ==> n.mantissa <= -HALF_RANGE || HALF_RANGE <= n.mantissa)
  }

  type Double = n: Number | IsDouble(n) witness Number(0, MIN_EXPONENT)

  const ZERO: Double := Number(0, MIN_EXPONENT)

  /** The number that is meant. */
  function ValueOf(n: Double): real {
    if n.exponent >= 0 then (n.mantissa * Pow2(n.exponent)) as real
    else n.mantissa as real / Pow2(-n.exponent) as real
  }

  // ---------------------------------------------------------------- values

  datatype Json =
    | JNull
    | JBool(b: bool)
    | JNumber(n: Double)
    | JString(s: string)
    | JArray(items: seq<Json>)
    | JObject(fields: map<string, Json>)

  type Object = map<string, Json>

  /** A text field read without checks. */
  function TextOr(o: Object, field: string): string {
    if field in o && o[field].JString? then o[field].s else ""
  }

  // ---------------------------------------------------------------- libraries

  /** `JSON.stringify` / `JSON.parse` on the client side, `json.dumps` / `json.loads` on the server side. */
  datatype Codec = Codec(
    stringify: Json -> string, parse: string -> Option<Json>,
    dumps: Json -> string, loads: string -> Option<Json>)
  {
    /** Each side reads what the other printed, on one non-blank line. JsonText has a codec that is lawful. */
    ghost predicate Lawful() {
      && (forall j: Json :: loads(stringify(j)) == Some(j) && OneLine(stringify(j)))
      && (forall j: Json :: parse(dumps(j)) == Some(j) && OneLine(dumps(j)))
    }

    /** The client side reads what it printed itself. */
    ghost predicate LawfulAlone() {
      forall j: Json :: parse(stringify(j)) == Some(j) && OneLine(stringify(j))
    }
  }

  predicate OneLine(s: string) {
    '\n' !in s && !Blank(s, JsSpace) && !Blank(s, PySpace)
  }
}
