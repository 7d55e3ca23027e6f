/** What the JSON parser reads from a text, as functions of the text behind the read position. */
module JsonSyntax {
  import opened Bytes
  import opened CText
  import opened Hex
  import opened JsonTree
  import Decimal
  import Utf8

  /** `Beyond` marks a number that is not an integer with plain digits. */
  datatype Read<+T> = Done(value: T, rest: string) | Failed | Beyond

  const NESTING_LIMIT := 1000

  function SkipWhite(s: string): (r: string)
    ensures |r| <= |s| && (r != "" ==> r[0] as nat > 32)
  {
    if s != "" && s[0] as nat <= 32 then SkipWhite(s[1..]) else s
  }

  predicate StartsWith(s: string, c: char) {
    s != "" && s[0] == c
  }

  // Numbers.

  predicate IsNumberChar(c: char) {
    Decimal.IsDigit(c) || c == '+' || c == '-' || c == 'e' || c == 'E' || c == '.'
  }

  /** At most `max` characters that can belong to a number. */
  function NumberText(s: string, max: nat): (r: string)
    ensures |r| <= |s| && |r| <= max
    decreases max, s
  {
    if max == 0 || s == "" || !IsNumberChar(s[0]) then "" else [s[0]] + NumberText(s[1..], max - 1)
  }

  function DigitRun(s: string): (r: string)
    ensures |r| <= |s| && Decimal.AllDigits(r)
  {
    if s == "" || !Decimal.IsDigit(s[0]) then "" else [s[0]] + DigitRun(s[1..])
  }

  datatype Conversion = NotANumber | Integer(value: Num, length: nat) | Other

  /** `strtod` on texts that spell integers below the limit; everything else it might accept is `Other`. */
  function StrToD(t: string): (r: Conversion)
    ensures r.Integer? ==> 0 < r.length <= |t|
  {
    var sign := if StartsWith(t, '-') || StartsWith(t, '+') then 1 else 0;
    var digits := DigitRun(t[sign..]);
    var rest := t[sign + |digits|..];
    var n: int := Decimal.ValueOf(digits);
    if StartsWith(rest, '.') then Other
    else if digits == "" then NotANumber
    else if StartsWith(rest, 'e') || StartsWith(rest, 'E') || n >= NUMBER_LIMIT then Other
    else if StartsWith(t, '-') then if n == 0 then Other else Integer(-n, 1 + |digits|)
    else Integer(n, sign + |digits|)
  }

  function ParsedNumber(s: string): (r: Read<Json>)
    ensures r.Done? ==> |r.rest| < |s|
  {
    match StrToD(NumberText(s, 63))
    case NotANumber => Failed
    case Other => Beyond
    case Integer(n, length) => Done(Number(n), s[length..])
  }

  // Strings.

  /** The position of the quotation mark that ends a literal; a backslash hides the character behind it. */
  function ClosingQuote(b: string): (r: Option<nat>)
    ensures r.Some? ==> r.value < |b| && b[r.value] == '\"'
    decreases |b|
  {
    if b == "" then None
    else if b[0] == '\"' then Some(0)
    else
      var step := if b[0] == '\\' then 2 else 1;
      if |b| < step then None
      else match ClosingQuote(b[step..])
        case None => None
        case Some(i) => Some(i + step)
  }

  function Shifted(r: Option<nat>, steps: nat): Option<nat> {
    if r.Some? then Some(r.value + steps) else None
  }

  /** Four hexadecimal digits; anything else reads as zero. */
  function Hex4(h: string): (n: nat)
    requires |h| == 4
    ensures n < 0x1_0000
  {
    if AllHex(h) then HexValue(h[0]) * 0x1000 + HexValue(h[1]) * 0x100 + HexValue(h[2]) * 0x10 + HexValue(h[3]) else 0
  }

  predicate IsHighSurrogate(n: nat) {
    0xD800 <= n <= 0xDBFF
  }

  predicate IsLowSurrogate(n: nat) {
    0xDC00 <= n <= 0xDFFF
  }

  /** The code point of a surrogate pair. */
  function Paired(high: nat, low: nat): (cp: nat)
    requires IsHighSurrogate(high) && IsLowSurrogate(low)
    ensures 0x1_0000 <= cp < 0x11_0000
  {
    0x1_0000 + (high - 0xD800) * 0x400 + (low - 0xDC00)
  }

  /** The code point of the literal at the start of `b` and the length of the literal. */
  function Utf16Literal(b: string): (r: Option<(nat, nat)>)
    ensures r.Some? ==> r.value.0 < 0x11_0000 && (r.value.1 == 6 || r.value.1 == 12) && r.value.1 <= |b|
  {
    if |b| < 6 then None
    else
      var first := Hex4(b[2..6]);
      if IsLowSurrogate(first) then None
      else if !IsHighSurrogate(first) then Some((first, 6))
      else if |b| < 12 || b[6] != '\\' || b[7] != 'u' then None
      else
        var second := Hex4(b[8..12]);
        if IsLowSurrogate(second) then Some((Paired(first, second), 12)) else None
  }

  /** The character written by a backslash and `c`. */
  function SimpleEscape(c: char): Option<char> {
    if c == 'b' then Some(8 as char)
    else if c == 'f' then Some(12 as char)
    else if c == 'n' then Some('\n')
    else if c == 'r' then Some('\r')
    else if c == 't' then Some('\t')
    else if c == '\"' || c == '\\' || c == '/' then Some(c)
    else None
  }

  function Before(a: string, b: Option<string>): Option<string> {
    match b
    case None => None
    case Some(s) => Some(a + s)
  }

  /** What the start of a literal's contents stands for, and how many characters say so. A backslash left at the
      end takes the closing quotation mark with it. */
  function Unit(b: string): (r: Option<(string, nat)>)
    requires b != ""
    ensures r.Some? ==> 1 <= r.value.1 <= |b|
  {
    if b[0] != '\\' then Some(([b[0]], 1))
    else if |b| == 1 then Some(("\"", 1))
    else if b[1] == 'u' then
      match Utf16Literal(b)
      case None => None
      case Some((cp, n)) => Some((Utf8.Encoded(cp), n))
    else
      match SimpleEscape(b[1])
      case None => None
      case Some(c) => Some(([c], 2))
  }

  /** The contents of a literal. */
  function Unescaped(b: string): Option<string>
    decreases |b|
  {
    if b == "" then Some("")
    else match Unit(b)
      case None => None
      case Some((o, n)) => Before(o, Unescaped(b[n..]))
  }

  function ParsedString(s: string): (r: Read<Text>)
    ensures r.Done? ==> |r.rest| < |s|
  {
    if !StartsWith(s, '\"') then Failed
    else match ClosingQuote(s[1..])
      case None => Failed
      case Some(end) =>
        match Unescaped(s[1..1 + end])
        case None => Failed
        case Some(text) => Done(UpToNul(text), s[end + 2..])
  }

  // Values.

  function AsJson(r: Read<Text>): Read<Json> {
    match r
    case Done(text, rest) => Done(Str(text), rest)
    case Failed => Failed
    case Beyond => Beyond
  }

  function AsArray(r: Read<Items>): Read<Json> {
    match r
    case Done(items, rest) => Done(Array(items), rest)
    case Failed => Failed
    case Beyond => Beyond
  }

  function AsObject(r: Read<Items>): Read<Json> {
    match r
    case Done(items, rest) => Done(Object(items), rest)
    case Failed => Failed
    case Beyond => Beyond
  }

  function ConsRead(key: Option<Text>, v: Json, r: Read<Items>): Read<Items> {
    match r
    case Done(items, rest) => Done(Cons(key, v, items), rest)
    case Failed => Failed
    case Beyond => Beyond
  }

  /** The value at the start of `s`, inside `depth` containers. */
  function ParsedValue(s: string, depth: nat): (r: Read<Json>)
    ensures r.Done? ==> |r.rest| < |s|
    decreases |s|, 1
  {
    if "null" <= s then Done(Null, s[4..])
    else if "false" <= s then Done(False, s[5..])
    else if "true" <= s then Done(True, s[4..])
    else if StartsWith(s, '\"') then AsJson(ParsedString(s))
    else if s != "" && (s[0] == '-' || Decimal.IsDigit(s[0])) then ParsedNumber(s)
    else if StartsWith(s, '[') then AsArray(ParsedArray(s, depth))
    else if StartsWith(s, '{') then AsObject(ParsedObject(s, depth))
    else Failed
  }

  function ParsedArray(s: string, depth: nat): (r: Read<Items>)
    requires StartsWith(s, '[')
    ensures r.Done? ==> |r.rest| < |s|
    decreases |s|, 0
  {
    if depth >= NESTING_LIMIT then Failed
    else if StartsWith(SkipWhite(s[1..]), ']') then Done(Nil, SkipWhite(s[1..])[1..])
    else ParsedElements(s[1..], depth + 1)
  }

  function ParsedObject(s: string, depth: nat): (r: Read<Items>)
    requires StartsWith(s, '{')
    ensures r.Done? ==> |r.rest| < |s|
    decreases |s|, 0
  {
    if depth >= NESTING_LIMIT then Failed
    else if StartsWith(SkipWhite(s[1..]), '}') then Done(Nil, SkipWhite(s[1..])[1..])
    else ParsedMembers(s[1..], depth + 1)
  }

  /** What follows an element or member: a comma and more, or the end. */
  function ParsedElements(s: string, depth: nat): (r: Read<Items>)
    ensures r.Done? ==> |r.rest| < |s|
    decreases |s|, 2
  {
    match ParsedValue(SkipWhite(s), depth)
    case Failed => Failed
    case Beyond => Beyond
    case Done(v, rest) =>
      var u := SkipWhite(rest);
      if StartsWith(u, ',') then ConsRead(None, v, ParsedElements(u[1..], depth))
      else if StartsWith(u, ']') then Done(Cons(None, v, Nil), u[1..])
      else Failed
  }

  /** The name of a member and the text behind its colon. */
  function ParsedName(s: string): (r: Read<Text>)
    ensures r.Done? ==> |r.rest| < |s|
  {
    match ParsedString(SkipWhite(s))
    case Failed => Failed
    case Beyond => Beyond
    case Done(key, rest) =>
      var u := SkipWhite(rest);
      if StartsWith(u, ':') then Done(key, u[1..]) else Failed
  }

  function ParsedMembers(s: string, depth: nat): (r: Read<Items>)
    ensures r.Done? ==> |r.rest| < |s|
    decreases |s|, 2
  {
    match ParsedName(s)
    case Failed => Failed
    case Beyond => Beyond
    case Done(key, behind) =>
      match ParsedValue(SkipWhite(behind), depth)
      case Failed => Failed
      case Beyond => Beyond
      case Done(v, rest) =>
        var u := SkipWhite(rest);
        if StartsWith(u, ',') then ConsRead(Some(key), v, ParsedMembers(u[1..], depth))
        else if StartsWith(u, '}') then Done(Cons(Some(key), v, Nil), u[1..])
        else Failed
  }

  /** The byte order mark is skipped when at least one more character follows it. */
  function WithoutBom(s: string): string {
    if |s| >= 4 && s[..3] == [0xEF as char, 0xBB as char, 0xBF as char] then s[3..] else s
  }

  /** A whole document, with or without anything allowed behind the value. */
  function ParsedDocument(s: string, requireEnd: bool): Read<Json> {
    match ParsedValue(SkipWhite(WithoutBom(s)), 0)
    case Failed => Failed
    case Beyond => Beyond
    case Done(v, rest) =>
      if !requireEnd then Done(v, rest)
      else if SkipWhite(rest) == "" then Done(v, "")
      else Failed
  }
}
