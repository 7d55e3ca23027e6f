/** The text of a JSON tree, formatted or not, as a function of the tree. */
module JsonText {
  import opened Bytes
  import opened CText
  import opened Hex
  import opened JsonTree
  import Decimal

  /** Section 7 of RFC 8259: quotation mark, reverse solidus and the control characters are escaped. */
  function Escape(c: char): (r: string)
    ensures 1 <= |r| <= 6 && (c != '\0' ==> Without(r, '\0'))
  {
    if c == '\"' then "\\\""
    else if c == '\\' then "\\\\"
    else if c as nat == 8 then "\\b"
    else if c as nat == 12 then "\\f"
    else if c == '\n' then "\\n"
    else if c == '\r' then "\\r"
    else if c == '\t' then "\\t"
    else if c as nat < 32 then ['\\', 'u', '0', '0', HexLower(c as nat / 16), HexLower(c as nat % 16)]
    else [c]
  }

  function Escaped(s: string): (r: string)
    ensures |r| >= |s|
  {
    if s == [] then [] else Escape(s[0]) + Escaped(s[1..])
  }

  lemma {:induction false} EscapedAppend(a: string, b: string)
    ensures Escaped(a + b) == Escaped(a) + Escaped(b)
  {
    if a == [] {
      assert a + b == b;
    } else {
      assert (a + b)[0] == a[0] && (a + b)[1..] == a[1..] + b;
      EscapedAppend(a[1..], b);
    }
  }

  function Quoted(s: string): string {
    "\"" + Escaped(s) + "\""
  }

  /** A missing name is printed as an empty string. */
  function NameOf(key: Option<Text>): Text {
    if key.Some? then key.value else ""
  }

  function Tabs(n: nat): (r: string)
    ensures |r| == n
  {
    seq(n, _ => '\t')
  }

  function Indent(format: bool, depth: nat): string {
    if format then Tabs(depth) else ""
  }

  function Newline(format: bool): string {
    if format then "\n" else ""
  }

  function Colon(format: bool): string {
    if format then ":\t" else ":"
  }

  /** Between two elements of an array. */
  function Comma(format: bool, next: Items): string {
    if next == Nil then "" else if format then ", " else ","
  }

  /** Behind a member of an object. */
  function MemberEnd(format: bool, next: Items): string {
    (if next == Nil then "" else ",") + Newline(format)
  }

  function Value(j: Json, format: bool, depth: nat): (r: string)
    ensures r != ""
    decreases j, format, depth
  {
    match j
    case Null => "null"
    case False => "false"
    case True => "true"
    case Number(n) => Decimal.Text(n)
    case Str(s) => Quoted(s)
    case Array(child) => "[" + Elements(child, format, depth + 1) + "]"
    case Object(child) => "{" + Newline(format) + Members(child, format, depth + 1) + Indent(format, depth) + "}"
  }

  function Elements(items: Items, format: bool, depth: nat): string
    decreases items, format, depth
  {
    match items
    case Nil => ""
    case Cons(_, v, next) => Value(v, format, depth) + Comma(format, next) + Elements(next, format, depth)
  }

  /** Indentation, name and colon of a member. */
  function MemberStart(key: Option<Text>, format: bool, depth: nat): string {
    Indent(format, depth) + Quoted(NameOf(key)) + Colon(format)
  }

  function Members(items: Items, format: bool, depth: nat): string
    decreases items, format, depth
  {
    match items
    case Nil => ""
    case Cons(k, v, next) =>
      MemberStart(k, format, depth) + Value(v, format, depth) + MemberEnd(format, next)
      + Members(next, format, depth)
  }

  // No text contains a NUL.

  lemma {:induction false} EscapedText(s: Text)
    ensures Without(Escaped(s), '\0')
  {
    if s != [] {
      EscapedText(s[1..]);
    }
  }

  lemma DecimalText(n: int)
    ensures Without(Decimal.Text(n), '\0')
  {
  }

  lemma Four(a: string, b: string, c: string, d: string)
    requires Without(a, '\0') && Without(b, '\0') && Without(c, '\0') && Without(d, '\0')
    ensures Without(a + b + c + d, '\0') && Without(a + b + c, '\0')
  {
  }

  lemma {:induction false} ValueIsText(j: Json, format: bool, depth: nat)
    ensures Without(Value(j, format, depth), '\0')
    decreases j
  {
    match j
    case Number(n) => DecimalText(n);
    case Str(s) => EscapedText(s);
    case Array(child) =>
      ElementsText(child, format, depth + 1);
      Four("[", Elements(child, format, depth + 1), "]", "");
    case Object(child) =>
      MembersText(child, format, depth + 1);
      Four("{", Newline(format), Members(child, format, depth + 1), Indent(format, depth));
    case _ =>
  }

  lemma {:induction false} ElementsText(items: Items, format: bool, depth: nat)
    ensures Without(Elements(items, format, depth), '\0')
    decreases items
  {
    match items
    case Nil =>
    case Cons(_, v, next) =>
      ValueIsText(v, format, depth);
      ElementsText(next, format, depth);
  }

  lemma MemberStartText(key: Option<Text>, format: bool, depth: nat)
    ensures Without(MemberStart(key, format, depth), '\0')
  {
    EscapedText(NameOf(key));
  }

  lemma {:induction false} MembersText(items: Items, format: bool, depth: nat)
    ensures Without(Members(items, format, depth), '\0')
    decreases items
  {
    match items
    case Nil =>
    case Cons(k, v, next) =>
      MemberStartText(k, format, depth);
      ValueIsText(v, format, depth);
      MembersText(next, format, depth);
      Four(MemberStart(k, format, depth), Value(v, format, depth), MemberEnd(format, next),
        Members(next, format, depth));
  }
}
