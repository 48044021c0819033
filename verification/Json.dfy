/** JSON texts (RFC 8259, sections 2 to 7) as the launcher's decoder reads them:
    a value followed by anything, object members with the last one winning, and
    number literals kept as written. */
module Json {
  import T = Text

  datatype Value =
    | Null
    | Bool(b: bool)
    | Num(lit: string)
    | Str(s: string)
    | Arr(items: seq<Value>)
    | Obj(fields: map<string, Value>)

  datatype Parsed<+T> = Bad | Good(value: T, rest: string)

  // ----- white space -----

  predicate IsBlank(c: char) { c == ' ' || c == '\t' || c == '\n' || c == '\r' }

  predicate Blank(s: string) { forall c <- s :: IsBlank(c) }

  function Skip(t: string): (s: string)
    ensures |s| <= |t|
  {
    if t != "" && IsBlank(t[0]) then Skip(t[1..]) else t
  }

  // ----- numbers -----

  function CountDigits(t: string): (n: nat)
    ensures n <= |t|
  {
    if t != "" && T.IsDigit(t[0]) then 1 + CountDigits(t[1..]) else 0
  }

  datatype Span = NoSpan | Span(length: nat)

  function IntSpan(t: string): (r: Span)
    ensures r.Span? ==> 0 < r.length <= |t|
  {
    if t == "" || !T.IsDigit(t[0]) then NoSpan
    else if t[0] == '0' then Span(1)
    else Span(CountDigits(t))
  }

  function FractionSpan(t: string): (r: Span)
    ensures r.Span? ==> r.length <= |t|
  {
    if t == "" || t[0] != '.' then Span(0)
    else if CountDigits(t[1..]) == 0 then NoSpan
    else Span(1 + CountDigits(t[1..]))
  }

  function ExponentSpan(t: string): (r: Span)
    ensures r.Span? ==> r.length <= |t|
  {
    if t == "" || (t[0] != 'e' && t[0] != 'E') then Span(0)
    else
      var sign := if |t| > 1 && (t[1] == '+' || t[1] == '-') then 2 else 1;
      if CountDigits(t[sign..]) == 0 then NoSpan else Span(sign + CountDigits(t[sign..]))
  }

  function DecimalSpan(t: string): (r: Span)
    ensures r.Span? ==> r.length <= |t|
  {
    match FractionSpan(t)
    case NoSpan => NoSpan
    case Span(fraction) =>
      match ExponentSpan(t[fraction..])
      case NoSpan => NoSpan
      case Span(exponent) => Span(fraction + exponent)
  }

  function UnsignedSpan(t: string): (r: Span)
    ensures r.Span? ==> 0 < r.length <= |t|
  {
    match IntSpan(t)
    case NoSpan => NoSpan
    case Span(whole) =>
      match DecimalSpan(t[whole..])
      case NoSpan => NoSpan
      case Span(decimal) => Span(whole + decimal)
  }

  /** The number literal at the start of `t`. */
  function NumberSpan(t: string): (r: Span)
    ensures r.Span? ==> 0 < r.length <= |t|
  {
    if t != "" && t[0] == '-' then
      match UnsignedSpan(t[1..])
      case NoSpan => NoSpan
      case Span(n) => Span(1 + n)
    else UnsignedSpan(t)
  }

  predicate IsNumber(lit: string) { NumberSpan(lit) == Span(|lit|) }

  // ----- strings -----

  function HexDigit(c: char): int {
    if '0' <= c <= '9' then c as int - '0' as int
    else if 'a' <= c <= 'f' then c as int - 'a' as int + 10
    else if 'A' <= c <= 'F' then c as int - 'A' as int + 10
    else -1
  }

  predicate IsHex4(h: string) {
    |h| == 4 && forall c <- h :: HexDigit(c) >= 0
  }

  function Hex4(h: string): (n: nat)
    requires IsHex4(h)
    ensures n < 0x10000
  {
    assert h[0] in h && h[1] in h && h[2] in h && h[3] in h;
    HexDigit(h[0]) * 0x1000 + HexDigit(h[1]) * 0x100 + HexDigit(h[2]) * 0x10 + HexDigit(h[3])
  }

  predicate IsSurrogate(n: nat) { 0xD800 <= n < 0xE000 }
  predicate IsHigh(n: nat) { 0xD800 <= n < 0xDC00 }
  predicate IsLow(n: nat) { 0xDC00 <= n < 0xE000 }

  const REPLACEMENT: char := '\U{FFFD}'

  function Combine(hi: nat, lo: nat): char
    requires IsHigh(hi) && IsLow(lo)
  {
    (0x10000 + (hi - 0xD800) * 0x400 + (lo - 0xDC00)) as char
  }

  /** The character a one-letter escape stands for. */
  function Unescape(letter: char): (c: char)
    requires IsEscape(letter)
  {
    if letter == 'b' then '\U{8}'
    else if letter == 'f' then '\U{C}'
    else if letter == 'n' then '\n'
    else if letter == 'r' then '\r'
    else if letter == 't' then '\t'
    else letter
  }

  predicate IsEscape(letter: char) { letter in "bfnrt\\/\"" }

  function Push(c: char, p: Parsed<string>): Parsed<string> {
    match p
    case Bad => Bad
    case Good(s, rest) => Good([c] + s, rest)
  }

  /** The rest of a string literal, after its opening quote. */
  function ParseChars(t: string): (r: Parsed<string>)
    ensures r.Good? ==> |r.rest| < |t|
    decreases |t|
  {
    if t == "" then Bad
    else if t[0] == '"' then Good("", t[1..])
    else if t[0] == '\\' then
      if |t| < 2 then Bad
      else if IsEscape(t[1]) then Push(Unescape(t[1]), ParseChars(t[2..]))
      else if t[1] != 'u' || |t| < 6 || !IsHex4(t[2..6]) then Bad
      else
        var unit := Hex4(t[2..6]);
        if !IsSurrogate(unit) then Push(unit as char, ParseChars(t[6..]))
        else if IsHigh(unit) && |t| >= 12 && t[6..8] == "\\u" && IsHex4(t[8..12]) && IsLow(Hex4(t[8..12])) then
          Push(Combine(unit, Hex4(t[8..12])), ParseChars(t[12..]))
        else Push(REPLACEMENT, ParseChars(t[6..]))
    else if t[0] < ' ' then Bad
    else Push(t[0], ParseChars(t[1..]))
  }

  // ----- values -----

  function ParseWord(s: string, word: string, v: Value): (r: Parsed<Value>)
    requires word != ""
    ensures r.Good? ==> |r.rest| < |s|
  {
    if |word| <= |s| && s[..|word|] == word then Good(v, s[|word|..]) else Bad
  }

  function ParseNumber(s: string): (r: Parsed<Value>)
    ensures r.Good? ==> |r.rest| < |s|
  {
    match NumberSpan(s)
    case NoSpan => Bad
    case Span(n) => Good(Num(s[..n]), s[n..])
  }

  function ParseString(s: string): (r: Parsed<Value>)
    requires s != ""
    ensures r.Good? ==> |r.rest| < |s|
  {
    match ParseChars(s[1..])
    case Bad => Bad
    case Good(chars, rest) => Good(Str(chars), rest)
  }

  /** A value after optional white space, and the text after it. */
  function ParseValue(t: string): (r: Parsed<Value>)
    ensures r.Good? ==> |r.rest| < |t|
    decreases |t|, 1
  {
    if Skip(t) == "" then Bad else ParseAt(Skip(t))
  }

  function ParseAt(s: string): (r: Parsed<Value>)
    requires s != ""
    ensures r.Good? ==> |r.rest| < |s|
    decreases |s|, 0
  {
    if s[0] == 'n' then ParseWord(s, "null", Null)
    else if s[0] == 't' then ParseWord(s, "true", Bool(true))
    else if s[0] == 'f' then ParseWord(s, "false", Bool(false))
    else if s[0] == '"' then ParseString(s)
    else if s[0] == '[' then ParseArray(s[1..])
    else if s[0] == '{' then ParseObject(s[1..])
    else ParseNumber(s)
  }

  function ParseArray(t: string): (r: Parsed<Value>)
    ensures r.Good? ==> |r.rest| < |t|
    decreases |t|, 3
  {
    var u := Skip(t);
    if u != "" && u[0] == ']' then Good(Arr([]), u[1..])
    else match ParseItems(t)
      case Bad => Bad
      case Good(items, rest) => Good(Arr(items), rest)
  }

  function ParseObject(t: string): (r: Parsed<Value>)
    ensures r.Good? ==> |r.rest| < |t|
    decreases |t|, 3
  {
    var u := Skip(t);
    if u != "" && u[0] == '}' then Good(Obj(map[]), u[1..])
    else match ParseMembers(t)
      case Bad => Bad
      case Good(fields, rest) => Good(Obj(fields), rest)
  }

  /** One array element and everything up to the closing bracket. */
  function ParseItems(t: string): (r: Parsed<seq<Value>>)
    ensures r.Good? ==> |r.rest| < |t|
    decreases |t|, 2
  {
    match ParseValue(t)
    case Bad => Bad
    case Good(v, rest) =>
      var s := Skip(rest);
      if s == "" then Bad
      else if s[0] == ']' then Good([v], s[1..])
      else if s[0] != ',' then Bad
      else match ParseItems(s[1..])
        case Bad => Bad
        case Good(items, end) => Good([v] + items, end)
  }

  /** One object member and everything up to the closing brace. */
  function ParseMembers(t: string): (r: Parsed<map<string, Value>>)
    ensures r.Good? ==> |r.rest| < |t|
    decreases |t|, 2
  {
    var s := Skip(t);
    if s == "" || s[0] != '"' then Bad
    else match ParseChars(s[1..])
      case Bad => Bad
      case Good(key, afterKey) =>
        var u := Skip(afterKey);
        if u == "" || u[0] != ':' then Bad
        else match ParseValue(u[1..])
          case Bad => Bad
          case Good(v, rest) =>
            var e := Skip(rest);
            if e == "" then Bad
            else if e[0] == '}' then Good(map[key := v], e[1..])
            else if e[0] != ',' then Bad
            else match ParseMembers(e[1..])
              case Bad => Bad
              case Good(fields, end) => Good(map[key := v] + fields, end)
  }
}
