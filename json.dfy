/**
 * The JSON values the per-book storage holds, and their text form
 * (`to_string`). Floating-point numbers are kept as the literal they print
 * as; their arithmetic is not modelled.
 */
module Json {

  /** The printed form of a floating-point number: never empty. */
  type FloatLiteral = s: string | |s| > 0 witness "0.0"

  datatype Json =
    | Null
    | Bool(b: bool)
    | Int(i: int)
    | Float(literal: FloatLiteral)
    | Str(s: string)
    | Array(items: seq<Json>)
    | Object(props: seq<Property>)

  datatype Property = Property(key: string, value: Json)

  function DigitChar(d: nat): (c: char)
    requires d < 10
    ensures '0' <= c <= '9'
  {
    "0123456789"[d]
  }

  function DigitValue(c: char): nat
    requires '0' <= c <= '9'
  {
    c as int - '0' as int
  }

  /** Decimal digits of `n`, most significant first, with no leading zero. */
  function NatToString(n: nat): (s: string)
    ensures |s| > 0 && (forall i :: 0 <= i < |s| ==> '0' <= s[i] <= '9')
    ensures |s| > 1 ==> s[0] != '0'
  {
    if n < 10 then [DigitChar(n)]
    else NatToString(n / 10) + [DigitChar(n % 10)]
  }

  /** How Rust's `Display` prints an integer: a '-' before negative values. */
  function IntToString(i: int): (s: string)
    ensures |s| > 0
  {
    if i < 0 then "-" + NatToString(-i) else NatToString(i)
  }

  predicate AllDigits(s: string) {
    forall i :: 0 <= i < |s| ==> '0' <= s[i] <= '9'
  }

  function ParseNat(s: string): nat
    requires AllDigits(s)
  {
    if s == [] then 0
    else ParseNat(s[..|s| - 1]) * 10 + DigitValue(s[|s| - 1])
  }

  function ParseInt(s: string): int
    requires |s| > 0 && (if s[0] == '-' then AllDigits(s[1..]) else AllDigits(s))
  {
    if s[0] == '-' then -(ParseNat(s[1..]) as int) else ParseNat(s)
  }

  lemma {:induction false} ParseNatToString(n: nat)
    ensures AllDigits(NatToString(n)) && ParseNat(NatToString(n)) == n
  {
    if n >= 10 {
      ParseNatToString(n / 10);
      var s := NatToString(n);
      assert s[..|s| - 1] == NatToString(n / 10);
    }
  }

  /** A '-' before digits reads as the negated number. */
  lemma ParseMinus(digits: string)
    requires |digits| > 0 && AllDigits(digits)
    ensures var s := "-" + digits;
              s[0] == '-' && s[1..] == digits && ParseInt(s) == -(ParseNat(digits) as int)
  {
    var s := "-" + digits;
    assert s[1..] == digits;
  }

  /** The printed integer reads back as the same integer. */
  lemma ParseIntToString(i: int)
    ensures var s := IntToString(i);
              |s| > 0 && (if s[0] == '-' then AllDigits(s[1..]) else AllDigits(s)) && ParseInt(s) == i
  {
    if i < 0 {
      ParseNatToString(-i);
      ParseMinus(NatToString(-i));
    } else {
      ParseNatToString(i);
    }
  }

  function HexDigit(d: nat): char
    requires d < 16
  {
    "0123456789abcdef"[d]
  }

  /** How a string character is written inside quotes: quote, backslash and control characters escaped. */
  function EscapeChar(c: char): (r: string)
    ensures |r| > 0
  {
    if c == '"' then "\\\""
    else if c == '\\' then "\\\\"
    else if c == '\n' then "\\n"
    else if c == '\r' then "\\r"
    else if c == '\t' then "\\t"
    else if c == '\U{8}' then "\\b"
    else if c == '\U{C}' then "\\f"
    else if c < ' ' then "\\u00" + [HexDigit(c as int / 16), HexDigit(c as int % 16)]
    else [c]
  }

  function Escape(s: string): string {
    if s == [] then "" else EscapeChar(s[0]) + Escape(s[1..])
  }

  /** The JSON text of a value: never empty, so an empty string can stand for "no value". */
  function Text(j: Json): (t: string)
    ensures |t| > 0
    decreases j, 1
  {
    match j
    case Null => "null"
    case Bool(b) => if b then "true" else "false"
    case Int(i) => IntToString(i)
    case Float(literal) => literal
    case Str(s) => "\"" + Escape(s) + "\""
    case Array(items) => "[" + ItemsText(items) + "]"
    case Object(props) => "{" + PropsText(props) + "}"
  }

  function ItemsText(items: seq<Json>): string
    decreases items, 0
  {
    if items == [] then ""
    else if |items| == 1 then Text(items[0])
    else Text(items[0]) + "," + ItemsText(items[1..])
  }

  function PropsText(props: seq<Property>): string
    decreases props, 0
  {
    if props == [] then ""
    else
      var first := "\"" + Escape(props[0].key) + "\":" + Text(props[0].value);
      if |props| == 1 then first else first + "," + PropsText(props[1..])
  }
}
