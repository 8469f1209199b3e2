/**
  The text the node writes: the compact form `serde_json::to_string` produces
  (members in order, no insignificant whitespace, serde_json's string escapes),
  followed by the newline the node pushes onto each reply.
  Only writing is modelled; reading text is left to the JSON-value level.
 */
module Wire {
  import opened Json

  function HexDigit(d: nat): (c: char)
    requires d < 16
  {
    "0123456789abcdef"[d]
  }

  /** One character of a string body, escaped the way serde_json escapes it. */
  function EscapeChar(c: char): (r: string)
    ensures '\n' !in r
    ensures |r| >= 1
  {
    if c == '\"' then "\\\""
    else if c == '\\' then "\\\\"
    else if c == '\n' then "\\n"
    else if c == '\r' then "\\r"
    else if c == '\t' then "\\t"
    else if c == 8 as char then "\\b"
    else if c == 12 as char then "\\f"
    else if (c as int) < 0x20 then "\\u00" + [HexDigit(c as int / 16), HexDigit(c as int % 16)]
    else [c]
  }

  /** The escaped body of a string literal; a raw newline never survives escaping. */
  function EscapeChars(s: string): (r: string)
    ensures '\n' !in r
    ensures |r| >= |s|
  {
    if |s| == 0 then "" else EscapeChar(s[0]) + EscapeChars(s[1..])
  }

  function Quote(s: string): (r: string)
    ensures '\n' !in r
  {
    "\"" + EscapeChars(s) + "\""
  }

  /** Decimal digits of a natural number, most significant first. */
  function Digits(n: nat): (r: string)
    ensures forall i :: 0 <= i < |r| ==> '0' <= r[i] <= '9'
    ensures |r| >= 1
  {
    if n < 10 then [HexDigit(n)] else Digits(n / 10) + [HexDigit(n % 10)]
  }

  function RenderNumber(n: int): (r: string)
    ensures '\n' !in r
  {
    if n < 0 then "-" + Digits(-n) else Digits(n)
  }

  /** The compact text of a JSON value. */
  function Render(j: Json): (r: string)
    ensures '\n' !in r
    decreases j
  {
    match j
    case JNull => "null"
    case JBool(b) => if b then "true" else "false"
    case JNumber(n) => RenderNumber(n)
    case JString(s) => Quote(s)
    case JArray(items) => "[" + RenderItems(items) + "]"
    case JObject(members) => "{" + RenderMembers(members) + "}"
  }

  function RenderItems(items: seq<Json>): (r: string)
    ensures '\n' !in r
    decreases items
  {
    if |items| == 0 then ""
    else if |items| == 1 then Render(items[0])
    else Render(items[0]) + "," + RenderItems(items[1..])
  }

  function RenderMembers(members: seq<(string, Json)>): (r: string)
    ensures '\n' !in r
    decreases members
  {
    if |members| == 0 then ""
    else
      var m := members[0];
      assert m.1 < m;
      var first := Quote(m.0) + ":" + Render(m.1);
      if |members| == 1 then first else first + "," + RenderMembers(members[1..])
  }

  /** One reply as written to standard output: its text and the newline pushed after it. */
  function Line(j: Json): (l: string)
    ensures |l| >= 1 && l[|l| - 1] == '\n'
    ensures forall i :: 0 <= i < |l| - 1 ==> l[i] != '\n'
  {
    var text := Render(j);
    assert forall i :: 0 <= i < |text| ==> text[i] in text;
    text + "\n"
  }
}
