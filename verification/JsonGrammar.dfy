/** The texts the JSON parser accepts, as a grammar: every spelling of a value is read as that value, and nothing else
    is read. */
module JsonGrammar {
  import opened Bytes
  import opened CText
  import opened JsonReading
  import opened JsonSyntax
  import opened JsonTree
  import Decimal

  /** One way to spell a value: the words, the digits, the characters between quotation marks, and the white space. */
  datatype Doc =
    | Word(value: Json)
    | Figure(sign: string, digits: string)
    | Literal(raw: string)
    | List(blank: string, rows: Rows)
    | Record(blank: string, rows: Rows)

  /** Elements or members, each with the white space around it. */
  datatype Rows = Last | Row(before: string, name: Option<Name>, doc: Doc, after: string, next: Rows)

  datatype Name = Name(raw: string, gap: string, behind: string)

  function Spelled(d: Doc): string {
    match d
    case Word(v) => if v == Null then "null" else if v == False then "false" else "true"
    case Figure(sign, digits) => sign + digits
    case Literal(raw) => InQuotes(raw)
    case List(blank, rows) => "[" + (blank + (SpelledRows(rows) + "]"))
    case Record(blank, rows) => "{" + (blank + (SpelledRows(rows) + "}"))
  }

  function InQuotes(raw: string): string {
    "\"" + (raw + "\"")
  }

  function SpelledName(name: Option<Name>): string {
    match name
    case None => ""
    case Some(n) => InQuotes(n.raw) + (n.gap + (":" + n.behind))
  }

  function SpelledRows(rows: Rows): string {
    match rows
    case Last => ""
    case Row(before, name, doc, after, next) =>
      before + (SpelledName(name) + (Spelled(doc) + (after + ((if next == Last then "" else ",") + SpelledRows(next)))))
  }

  /** The characters between two quotation marks, where a backslash hides the character behind it. */
  predicate IsLiteral(raw: string) {
    ClosingQuote(raw + "\"") == Some(|raw|) && Unescaped(raw).Some?
  }

  /** Integers of at most fifteen significant digits; leading zeros are accepted, and a negative zero is none. */
  predicate IsFigure(sign: string, digits: string) {
    && (sign == "" || sign == "-") && digits != "" && Decimal.AllDigits(digits) && |sign| + |digits| <= 63
    && Decimal.ValueOf(digits) < 1_000_000_000_000_000 && (sign == "-" ==> Decimal.ValueOf(digits) != 0)
  }

  predicate Valid(d: Doc) {
    match d
    case Word(v) => v == Null || v == False || v == True
    case Figure(sign, digits) => IsFigure(sign, digits)
    case Literal(raw) => IsLiteral(raw)
    case List(blank, rows) => AllWhite(blank) && ValidRows(rows, false)
    case Record(blank, rows) => AllWhite(blank) && ValidRows(rows, true)
  }

  predicate ValidRows(rows: Rows, named: bool) {
    match rows
    case Last => true
    case Row(before, name, doc, after, next) =>
      && AllWhite(before) && AllWhite(after) && Valid(doc) && ValidRows(next, named)
      && name.Some? == named && (named ==> ValidName(name.value))
  }

  predicate ValidName(n: Name) {
    IsLiteral(n.raw) && AllWhite(n.gap) && AllWhite(n.behind)
  }

  function TextOf(raw: string): Text {
    match Unescaped(raw)
    case None => ""
    case Some(text) => UpToNul(text)
  }

  function FigureOf(sign: string, digits: string): Num {
    var n: int := if IsFigure(sign, digits) then Decimal.ValueOf(digits) else 0;
    if sign == "-" then -n else n
  }

  /** The value that is spelled. */
  function Meant(d: Doc): Json {
    match d
    case Word(v) => v
    case Figure(sign, digits) => Number(FigureOf(sign, digits))
    case Literal(raw) => Str(TextOf(raw))
    case List(_, rows) => Array(MeantRows(rows))
    case Record(_, rows) => Object(MeantRows(rows))
  }

  function MeantRows(rows: Rows): Items {
    match rows
    case Last => Nil
    case Row(_, name, doc, _, next) =>
      Cons(if name.Some? then Some(TextOf(name.value.raw)) else None, Meant(doc), MeantRows(next))
  }

  // Every spelling is read.

  /** What stands behind the closing quotation mark does not matter. */
  lemma {:induction false} QuoteStays(b: string, more: string)
    ensures var n := ClosingQuote(b); n.Some? ==> ClosingQuote(b + more) == n
    decreases |b|
  {
    if b != "" && b[0] != '\"' {
      var step := if b[0] == '\\' then 2 else 1;
      if step <= |b| {
        assert (b + more)[step..] == b[step..] + more;
        QuoteStays(b[step..], more);
      }
    }
  }

  lemma LiteralRead(raw: string, rest: string)
    requires IsLiteral(raw)
    ensures ParsedString(InQuotes(raw) + rest) == Done(TextOf(raw), rest)
  {
    hide ClosingQuote, Unescaped;
    var s := InQuotes(raw) + rest;
    QuoteStays(raw + "\"", rest);
    assert s[1..] == raw + "\"" + rest;
    assert s[1..1 + |raw|] == raw && s[|raw| + 2..] == rest;
  }

  lemma FigureRead(sign: string, digits: string, rest: string)
    requires IsFigure(sign, digits) && Stops(rest)
    ensures ParsedNumber(sign + digits + rest) == Done(Number(FigureOf(sign, digits)), rest)
  {
    hide StrToD, NumberText, Decimal.ValueOf;
    var t := sign + digits;
    FigureCharacters(sign, digits);
    NumberTextOf(t, rest, 63);
    FigureConverted(sign, digits);
    assert (t + rest)[|t|..] == rest;
  }

  lemma FigureCharacters(sign: string, digits: string)
    requires IsFigure(sign, digits)
    ensures AllNumber(sign + digits)
  {
    hide Decimal.ValueOf;
  }

  lemma FigureConverted(sign: string, digits: string)
    requires IsFigure(sign, digits)
    ensures StrToD(sign + digits) == Integer(FigureOf(sign, digits), |sign + digits|)
  {
    hide StrToD, Decimal.ValueOf;
    var t := sign + digits;
    if sign == "-" {
      assert t[1..] == digits && t[1 + |digits|..] == "";
      NegativeConverted(t, digits, Decimal.ValueOf(digits));
    } else {
      assert t == digits;
      PositiveConverted(digits, Decimal.ValueOf(digits));
    }
  }

  lemma FigureStarts(sign: string, digits: string, rest: string)
    requires IsFigure(sign, digits)
    ensures var s := sign + digits + rest; s != "" && (s[0] == '-' || Decimal.IsDigit(s[0]))
  {
    if sign == "" {
      assert (sign + digits + rest)[0] == digits[0];
    } else {
      assert (sign + digits + rest)[0] == sign[0];
    }
  }

  lemma DocStarts(d: Doc)
    requires Valid(d)
    ensures var s := Spelled(d); StartsBlack(s) && s[0] != ']' && s[0] != '}'
  {
    if d.Figure? {
      FigureStarts(d.sign, d.digits, "");
      assert d.sign + d.digits + "" == d.sign + d.digits;
    }
  }

  lemma WordRead(v: Json, rest: string, depth: nat)
    requires v == Null || v == False || v == True
    ensures ParsedValue(Spelled(Word(v)) + rest, depth) == Done(v, rest)
  {
    hide ParsedString, ParsedNumber, ParsedArray, ParsedObject;
    var s := Spelled(Word(v)) + rest;
    assert v == Null ==> "null" <= s && s[4..] == rest;
    assert v == False ==> "false" <= s && s[5..] == rest && s[0] == 'f';
    assert v == True ==> "true" <= s && s[4..] == rest && s[0] == 't';
  }

  /** Strings and numbers are told by their first character. */
  lemma ByFirst(s: string, depth: nat)
    requires s != ""
    ensures s[0] == '\"' ==> ParsedValue(s, depth) == AsJson(ParsedString(s))
    ensures s[0] == '-' || Decimal.IsDigit(s[0]) ==> ParsedValue(s, depth) == ParsedNumber(s)
  {
    hide ParsedString, ParsedNumber, ParsedArray, ParsedObject;
  }

  /** A spelled value is read and what follows it is left, unless that would continue a number, exactly when the nesting
      stays within the limit. */
  lemma {:induction false} DocRead(d: Doc, rest: string, depth: nat)
    requires Valid(d) && depth <= NESTING_LIMIT && Stops(rest)
    ensures ParsedValue(Spelled(d) + rest, depth) == Back(Depth(Meant(d)) + depth, Meant(d), rest)
    decreases d, 0
  {
    hide ParsedValue, IsLiteral, IsFigure, FigureOf, TextOf, SpelledRows, ValidRows, MeantRows, DepthOfItems, InQuotes,
      Stops;
    match d
    case Word(v) => WordRead(v, rest, depth);
    case Figure(sign, digits) => FigureDocRead(sign, digits, rest, depth);
    case Literal(raw) => LiteralDocRead(raw, rest, depth);
    case List(blank, rows) => ListRead(blank, rows, rest, depth, Spelled(d) + rest);
    case Record(blank, rows) => RecordRead(blank, rows, rest, depth, Spelled(d) + rest);
  }

  lemma FigureDocRead(sign: string, digits: string, rest: string, depth: nat)
    requires IsFigure(sign, digits) && Stops(rest)
    ensures ParsedValue(sign + digits + rest, depth) == Done(Number(FigureOf(sign, digits)), rest)
  {
    hide ParsedValue, ParsedNumber, IsFigure, FigureOf;
    FigureRead(sign, digits, rest);
    FigureStarts(sign, digits, rest);
    ByFirst(sign + digits + rest, depth);
  }

  lemma LiteralDocRead(raw: string, rest: string, depth: nat)
    requires IsLiteral(raw)
    ensures ParsedValue(InQuotes(raw) + rest, depth) == Done(Str(TextOf(raw)), rest)
  {
    hide ParsedValue, ParsedString, IsLiteral, TextOf;
    LiteralRead(raw, rest);
    ByFirst(InQuotes(raw) + rest, depth);
  }

  lemma Around(open: string, blank: string, middle: string, close: string, rest: string)
    requires |open| == 1
    ensures var s := open + (blank + (middle + close)) + rest;
      s[0] == open[0] && s[1..] == blank + (middle + (close + rest))
  {
    assert (open + (blank + (middle + close)) + rest)[1..] == blank + (middle + close) + rest;
  }

  lemma {:induction false} ListRead(blank: string, rows: Rows, rest: string, depth: nat, s: string)
    requires Valid(List(blank, rows)) && depth <= NESTING_LIMIT && s == Spelled(List(blank, rows)) + rest
    ensures var j := Meant(List(blank, rows)); ParsedValue(s, depth) == Back(Depth(j) + depth, j, rest)
    decreases rows, 1
  {
    hide ParsedValue, ParsedElements, SkipWhite, SpelledRows, MeantRows, ValidRows;
    Around("[", blank, SpelledRows(rows), "]", rest);
    if depth == NESTING_LIMIT {
      TooDeep(s, depth);
    } else {
      var inner := SpelledRows(rows) + ("]" + rest);
      WhiteSkipped(blank, inner);
      RowsStart(rows, false, inner, "]" + rest);
      if rows == Last {
        EmptyRows(false, "]" + rest);
        EmptyArray(s, depth);
      } else {
        ElementsSpelled(rows, blank, rest, depth + 1, s[1..]);
        ArrayFrom(s, depth, ParsedElements(s[1..], depth + 1));
      }
    }
  }

  lemma EmptyRows(named: bool, close: string)
    requires StartsBlack(close)
    ensures SpelledRows(Last) + close == close && MeantRows(Last) == Nil && SkipWhite(close) == close
  {
  }

  /** The first thing behind the white space is a value or a name. */
  lemma RowsStart(rows: Rows, named: bool, s: string, close: string)
    requires ValidRows(rows, named) && s == SpelledRows(rows) + close
    ensures rows != Last ==> var t := SkipWhite(s); StartsBlack(t) && t[0] != ']' && t[0] != '}'
  {
    hide SkipWhite, Spelled, Valid, ValidName;
    if rows != Last {
      var value, name := Spelled(rows.doc), SpelledName(rows.name);
      var tail := Behind(rows);
      DocStarts(rows.doc);
      RowTogether(rows.before, name, value, tail, close);
      if named {
        NameStarts(rows.name.value, value + (tail + close));
      } else {
        assert "" + (value + (tail + close)) == value + (tail + close);
        BlackKept(value, tail + close);
      }
      WhiteSkipped(rows.before, name + (value + (tail + close)));
      BlackStays(name + (value + (tail + close)));
    }
  }

  lemma NameStarts(n: Name, more: string)
    ensures var s := SpelledName(Some(n)) + more; StartsBlack(s) && s[0] == '\"'
  {
  }

  lemma BlackStays(s: string)
    requires StartsBlack(s)
    ensures SkipWhite(s) == s
  {
  }

  /** What follows the value of a row. */
  function Behind(rows: Rows): string
    requires rows != Last
  {
    rows.after + ((if rows.next == Last then "" else ",") + SpelledRows(rows.next))
  }

  /** White space and the closing bracket, or a comma and the next row. */
  lemma BehindRow(rows: Rows, close: string)
    requires rows != Last && AllWhite(rows.after) && (StartsWith(close, ']') || StartsWith(close, '}'))
    ensures var tail := Behind(rows) + close;
      && Stops(tail)
      && (rows.next == Last ==> SkipWhite(tail) == close)
      && (rows.next != Last ==> SkipWhite(tail) == "," + (SpelledRows(rows.next) + close))
  {
    hide SkipWhite;
    var more := SpelledRows(rows.next);
    if rows.next == Last {
      assert rows.after + ("" + "") + close == rows.after + close;
      WhiteThen(rows.after, close);
    } else {
      assert rows.after + ("," + more) + close == rows.after + ("," + (more + close)) by {
        ThreeAround(rows.after, ",", more, close);
      }
      WhiteThen(rows.after, "," + (more + close));
    }
  }

  lemma ThreeAround(a: string, b: string, c: string, d: string)
    ensures a + (b + c) + d == a + (b + (c + d))
  {
    assert a + (b + c) + d == a + ((b + c) + d);
  }

  lemma WhiteThen(ws: string, s: string)
    requires AllWhite(ws) && StartsBlack(s) && !IsNumberChar(s[0])
    ensures SkipWhite(ws + s) == s && Stops(ws + s)
  {
    WhiteSkipped(ws, s);
    assert (ws + s)[0] == if ws == "" then s[0] else ws[0];
  }

  lemma RowTogether(before: string, name: string, value: string, tail: string, close: string)
    ensures before + (name + (value + tail)) + close == before + (name + (value + (tail + close)))
  {
    assert before + (name + (value + tail)) + close == before + ((name + (value + tail)) + close);
    assert name + (value + tail) + close == name + ((value + tail) + close);
    assert value + tail + close == value + (tail + close);
  }

  lemma RowSpelled(rows: Rows, close: string)
    requires rows != Last
    ensures SpelledRows(rows) + close ==
      rows.before + (SpelledName(rows.name) + (Spelled(rows.doc) + (Behind(rows) + close)))
    ensures rows.name == None ==> SpelledName(rows.name) == ""
  {
    hide Spelled;
    RowTogether(rows.before, SpelledName(rows.name), Spelled(rows.doc), Behind(rows), close);
  }

  lemma {:induction false} ElementsSpelled(rows: Rows, ws: string, rest: string, depth: nat, s: string)
    requires rows != Last && ValidRows(rows, false) && depth <= NESTING_LIMIT && AllWhite(ws)
    requires s == ws + (SpelledRows(rows) + ("]" + rest))
    ensures var items := MeantRows(rows);
      ParsedElements(s, depth) == Back(DepthOfItems(items) + depth, items, rest)
    decreases rows, 0
  {
    hide ParsedValue, ParsedElements, Spelled, SkipWhite, Back, Meant, Valid, Behind;
    var close, value, next := "]" + rest, Spelled(rows.doc), rows.next;
    var behind := Behind(rows);
    var tail := behind + close;
    BehindRow(rows, close);
    if next != Last {
      assert "" + (SpelledRows(next) + close) == SpelledRows(next) + close;
      ElementsSpelled(next, "", rest, depth, SkipWhite(tail)[1..]);
    }
    DocRead(rows.doc, tail, depth);
    DocStarts(rows.doc);
    RowSpelled(rows, close);
    WhiteFirst(ws, rows.before, value, tail, s);
    ElementTaken(MeantRows(rows), tail, rest, depth, s);
  }

  lemma WhiteFirst(ws: string, before: string, value: string, tail: string, s: string)
    requires AllWhite(ws) && AllWhite(before) && StartsBlack(value)
    requires s == ws + (before + ("" + (value + tail)))
    ensures SkipWhite(s) == value + tail
  {
    hide SkipWhite;
    WhiteSkipped(ws, before + ("" + (value + tail)));
    assert "" + (value + tail) == value + tail;
    WhiteSkipped(before, value + tail);
    BlackKept(value, tail);
  }

  /** One element, and what follows it. */
  lemma ElementTaken(items: Items, tail: string, rest: string, depth: nat, s: string)
    requires items != Nil && items.key == None && depth <= NESTING_LIMIT
    requires ParsedValue(SkipWhite(s), depth) == Back(Depth(items.value) + depth, items.value, tail)
    requires items.next == Nil ==> SkipWhite(tail) == "]" + rest
    requires items.next != Nil ==> StartsWith(SkipWhite(tail), ',')
    requires items.next != Nil ==>
      ParsedElements(SkipWhite(tail)[1..], depth) == Back(DepthOfItems(items.next) + depth, items.next, rest)
    ensures ParsedElements(s, depth) == Back(DepthOfItems(items) + depth, items, rest)
  {
    hide ParsedValue, ParsedElements, SkipWhite, Depth;
    if Depth(items.value) + depth <= NESTING_LIMIT {
      ElementsStep(s, depth, items.value, tail);
      assert items.next == Nil ==> SkipWhite(tail)[1..] == rest;
    } else {
      ElementsFail(s, depth);
    }
  }

  lemma {:induction false} RecordRead(blank: string, rows: Rows, rest: string, depth: nat, s: string)
    requires Valid(Record(blank, rows)) && depth <= NESTING_LIMIT && s == Spelled(Record(blank, rows)) + rest
    ensures var j := Meant(Record(blank, rows)); ParsedValue(s, depth) == Back(Depth(j) + depth, j, rest)
    decreases rows, 1
  {
    hide ParsedValue, ParsedMembers, SkipWhite, SpelledRows, MeantRows, ValidRows;
    Around("{", blank, SpelledRows(rows), "}", rest);
    if depth == NESTING_LIMIT {
      TooDeep(s, depth);
    } else {
      var inner := SpelledRows(rows) + ("}" + rest);
      WhiteSkipped(blank, inner);
      RowsStart(rows, true, inner, "}" + rest);
      if rows == Last {
        EmptyRows(true, "}" + rest);
        EmptyObject(s, depth);
      } else {
        MembersSpelled(rows, blank, rest, depth + 1, s[1..]);
        ObjectFrom(s, depth, ParsedMembers(s[1..], depth + 1));
      }
    }
  }

  lemma NameBehind(q: string, gap: string, behind: string, more: string)
    ensures q + (gap + (":" + behind)) + more == q + (gap + (":" + (behind + more)))
  {
    ThreeAround(gap, ":", behind, more);
    assert q + (gap + (":" + behind)) + more == q + (gap + (":" + behind) + more);
  }

  lemma QuoteBlack(raw: string)
    ensures StartsBlack(InQuotes(raw))
  {
  }

  lemma NameSpelled(n: Name, ws: string, before: string, value: string, tail: string, s: string)
    requires ValidName(n) && AllWhite(ws) && AllWhite(before)
    requires s == ws + (before + (SpelledName(Some(n)) + (value + tail)))
    ensures ParsedName(s) == Done(TextOf(n.raw), n.behind + (value + tail))
  {
    hide ParsedString, SkipWhite, IsLiteral, TextOf, InQuotes, ParsedName;
    var q, colon := InQuotes(n.raw), ":" + (n.behind + (value + tail));
    NameBehind(q, n.gap, n.behind, value + tail);
    QuoteBlack(n.raw);
    WhiteSkipped(ws, before + (q + (n.gap + colon)));
    WhiteSkipped(before, q + (n.gap + colon));
    BlackKept(q, n.gap + colon);
    LiteralRead(n.raw, n.gap + colon);
    WhiteSkipped(n.gap, colon);
    BlackKept(colon, "");
    assert colon + "" == colon && colon[1..] == n.behind + (value + tail);
    NameFrom(s, TextOf(n.raw), n.gap + colon);
  }

  /** One member, and what follows it. */
  lemma MemberTaken(items: Items, behind: string, tail: string, rest: string, depth: nat, s: string)
    requires items != Nil && items.key.Some? && depth <= NESTING_LIMIT
    requires ParsedName(s) == Done(items.key.value, behind)
    requires ParsedValue(SkipWhite(behind), depth) == Back(Depth(items.value) + depth, items.value, tail)
    requires items.next == Nil ==> SkipWhite(tail) == "}" + rest
    requires items.next != Nil ==> StartsWith(SkipWhite(tail), ',')
    requires items.next != Nil ==>
      ParsedMembers(SkipWhite(tail)[1..], depth) == Back(DepthOfItems(items.next) + depth, items.next, rest)
    ensures ParsedMembers(s, depth) == Back(DepthOfItems(items) + depth, items, rest)
  {
    hide ParsedValue, ParsedMembers, ParsedName, SkipWhite, Depth;
    if Depth(items.value) + depth <= NESTING_LIMIT {
      MembersStep(s, depth, items.key.value, behind, items.value, tail);
      assert items.next == Nil ==> SkipWhite(tail)[1..] == rest;
    } else {
      MembersFail(s, depth, items.key.value, behind);
    }
  }

  lemma {:induction false} MembersSpelled(rows: Rows, ws: string, rest: string, depth: nat, s: string)
    requires rows != Last && ValidRows(rows, true) && depth <= NESTING_LIMIT && AllWhite(ws)
    requires s == ws + (SpelledRows(rows) + ("}" + rest))
    ensures var items := MeantRows(rows);
      ParsedMembers(s, depth) == Back(DepthOfItems(items) + depth, items, rest)
    decreases rows, 0
  {
    hide ParsedValue, ParsedMembers, ParsedName, Spelled, SpelledName, SkipWhite, Back, Meant, Valid, Behind,
         TextOf, IsLiteral;
    var close, value, next, n := "}" + rest, Spelled(rows.doc), rows.next, rows.name.value;
    var behind := Behind(rows);
    var tail := behind + close;
    BehindRow(rows, close);
    if next != Last {
      assert "" + (SpelledRows(next) + close) == SpelledRows(next) + close;
      MembersSpelled(next, "", rest, depth, SkipWhite(tail)[1..]);
    }
    DocRead(rows.doc, tail, depth);
    DocStarts(rows.doc);
    RowSpelled(rows, close);
    NameSpelled(n, ws, rows.before, value, tail, s);
    WhiteSkipped(n.behind, value + tail);
    BlackKept(value, tail);
    MemberTaken(MeantRows(rows), n.behind + (value + tail), tail, rest, depth, s);
  }

  // Nothing else is read.

  lemma {:induction false} WhiteTaken(s: string) returns (w: string)
    ensures AllWhite(w) && s == w + SkipWhite(s)
  {
    if s != "" && s[0] as nat <= 32 {
      w := WhiteTaken(s[1..]);
      w := [s[0]] + w;
    } else {
      w := "";
    }
  }

  lemma {:induction false} QuoteCut(b: string)
    ensures var n := ClosingQuote(b); n.Some? ==> ClosingQuote(b[..n.value + 1]) == n
    decreases |b|
  {
    var n := ClosingQuote(b);
    if n.Some? && b[0] != '\"' {
      var step := if b[0] == '\\' then 2 else 1;
      QuoteCut(b[step..]);
      assert b[..n.value + 1][step..] == b[step..][..n.value + 1 - step];
    }
  }

  lemma {:induction false} LiteralTaken(s: string) returns (raw: string)
    requires ParsedString(s).Done?
    ensures IsLiteral(raw) && s == InQuotes(raw) + ParsedString(s).rest && ParsedString(s).value == TextOf(raw)
  {
    hide ClosingQuote, Unescaped;
    var n := ClosingQuote(s[1..]).value;
    raw := s[1..1 + n];
    QuoteCut(s[1..]);
    assert s[1..][..n + 1] == raw + "\"";
    assert s == InQuotes(raw) + s[n + 2..];
  }

  lemma {:induction false} FigureTaken(s: string) returns (sign: string, digits: string)
    requires ParsedNumber(s).Done? && s != "" && (s[0] == '-' || Decimal.IsDigit(s[0]))
    ensures IsFigure(sign, digits) && s == sign + digits + ParsedNumber(s).rest
    ensures ParsedNumber(s).value == Number(FigureOf(sign, digits))
  {
    hide NumberText, DigitRun, Decimal.ValueOf;
    var t := NumberText(s, 63);
    NumberTextIsPrefix(s, 63);
    var n := if StartsWith(t, '-') || StartsWith(t, '+') then 1 else 0;
    sign, digits := t[..n], DigitRun(t[n..]);
    DigitRunIsPrefix(t[n..]);
    assert t[..n + |digits|] == sign + digits;
    assert s[..n + |digits|] == t[..n + |digits|];
    assert t != "" ==> t[0] == s[0];
  }

  lemma {:induction false} NumberTextIsPrefix(s: string, max: nat)
    ensures NumberText(s, max) <= s
    decreases max, s
  {
    if max != 0 && s != "" && IsNumberChar(s[0]) {
      NumberTextIsPrefix(s[1..], max - 1);
    }
  }

  lemma {:induction false} DigitRunIsPrefix(s: string)
    ensures DigitRun(s) <= s
  {
    if s != "" && Decimal.IsDigit(s[0]) {
      DigitRunIsPrefix(s[1..]);
    }
  }

  /** What is read is the value of some spelling, and what is left stands behind it. */
  lemma {:induction false} DocTaken(s: string, depth: nat) returns (d: Doc)
    requires ParsedValue(s, depth).Done? && depth <= NESTING_LIMIT
    ensures var r := ParsedValue(s, depth);
      Valid(d) && s == Spelled(d) + r.rest && r.value == Meant(d) && Depth(r.value) + depth <= NESTING_LIMIT
    decreases |s|, 1
  {
    hide ParsedString, ParsedNumber, ParsedArray, ParsedObject, IsLiteral, IsFigure, SpelledRows, ValidRows, MeantRows;
    if "null" <= s {
      d := Word(Null);
    } else if "false" <= s {
      d := Word(False);
    } else if "true" <= s {
      d := Word(True);
    } else if StartsWith(s, '\"') {
      var raw := LiteralTaken(s);
      d := Literal(raw);
    } else if s[0] == '-' || Decimal.IsDigit(s[0]) {
      var sign, digits := FigureTaken(s);
      d := Figure(sign, digits);
    } else if StartsWith(s, '[') {
      d := ListTaken(s, depth);
    } else {
      d := RecordTaken(s, depth);
    }
  }

  lemma {:induction false} ListTaken(s: string, depth: nat) returns (d: Doc)
    requires StartsWith(s, '[') && ParsedArray(s, depth).Done? && depth <= NESTING_LIMIT
    ensures var r := ParsedArray(s, depth);
      && Valid(d) && s == Spelled(d) + r.rest && Meant(d) == Array(r.value)
      && Depth(Array(r.value)) + depth <= NESTING_LIMIT
    decreases |s|, 0
  {
    hide ParsedElements, SkipWhite, ValidRows, MeantRows, SpelledRows;
    var w := WhiteTaken(s[1..]);
    if StartsWith(SkipWhite(s[1..]), ']') {
      d := List(w, Last);
      NoRows(s, "[", w, "]", SkipWhite(s[1..]));
    } else {
      var rows := ElementsTaken(s[1..], depth + 1);
      d := List("", rows);
      SomeRows(s, "[", SpelledRows(rows), "]", ParsedArray(s, depth).rest);
    }
  }

  lemma NoRows(s: string, open: string, w: string, close: string, u: string)
    requires |open| == 1 && |close| == 1 && s != "" && s[0] == open[0] && s[1..] == w + u && u != "" && u[0] == close[0]
    ensures s == open + (w + (SpelledRows(Last) + close)) + u[1..]
    ensures ValidRows(Last, true) && ValidRows(Last, false) && MeantRows(Last) == Nil
  {
    assert u == close + u[1..];
    assert s == [s[0]] + s[1..];
  }

  lemma SomeRows(s: string, open: string, rows: string, close: string, rest: string)
    requires |open| == 1 && s != "" && s[0] == open[0] && s[1..] == rows + (close + rest)
    ensures s == open + ("" + (rows + close)) + rest
  {
    assert s == [s[0]] + s[1..];
    assert "" + (rows + close) == rows + close;
    assert open + (rows + close) + rest == open + (rows + (close + rest));
  }

  lemma {:induction false} ElementsTaken(s: string, depth: nat) returns (rows: Rows)
    requires ParsedElements(s, depth).Done? && depth <= NESTING_LIMIT
    ensures var r := ParsedElements(s, depth);
      && rows != Last && ValidRows(rows, false) && s == SpelledRows(rows) + ("]" + r.rest)
      && r.value == MeantRows(rows) && DepthOfItems(r.value) + depth <= NESTING_LIMIT
    decreases |s|, 2
  {
    hide ParsedValue, SkipWhite, Valid, Meant, Spelled;
    var before := WhiteTaken(s);
    var t := SkipWhite(s);
    var d := DocTaken(t, depth);
    var tail := ParsedValue(t, depth).rest;
    var after := WhiteTaken(tail);
    var u := SkipWhite(tail);
    if StartsWith(u, ',') {
      var next := ElementsTaken(u[1..], depth);
      rows := Row(before, None, d, after, next);
      RowTaken(before, "", Spelled(d), after, ",", SpelledRows(next), "]" + ParsedElements(s, depth).rest, s, u);
    } else {
      rows := Row(before, None, d, after, Last);
      RowTaken(before, "", Spelled(d), after, "", "", "]" + u[1..], s, u);
    }
  }

  lemma RowTaken(before: string, name: string, value: string, after: string, comma: string, more: string,
                 close: string, s: string, u: string)
    requires s == before + (name + (value + (after + u))) && u == comma + (more + close)
    ensures s == before + (name + (value + (after + (comma + more)))) + close
  {
    ThreeAround(after, comma, more, close);
    RowTogether(before, name, value, after + (comma + more), close);
  }

  lemma {:induction false} RecordTaken(s: string, depth: nat) returns (d: Doc)
    requires StartsWith(s, '{') && ParsedObject(s, depth).Done? && depth <= NESTING_LIMIT
    ensures var r := ParsedObject(s, depth);
      && Valid(d) && s == Spelled(d) + r.rest && Meant(d) == Object(r.value)
      && Depth(Object(r.value)) + depth <= NESTING_LIMIT
    decreases |s|, 0
  {
    hide ParsedMembers, SkipWhite, ValidRows, MeantRows, SpelledRows;
    var w := WhiteTaken(s[1..]);
    if StartsWith(SkipWhite(s[1..]), '}') {
      d := Record(w, Last);
      NoRows(s, "{", w, "}", SkipWhite(s[1..]));
    } else {
      var rows := MembersTaken(s[1..], depth + 1);
      d := Record("", rows);
      SomeRows(s, "{", SpelledRows(rows), "}", ParsedObject(s, depth).rest);
    }
  }

  /** A name with the white space around it and its colon. */
  lemma {:induction false} NameTaken(s: string, depth: nat) returns (before: string, n: Name)
    requires ParsedName(s).Done?
    ensures var r := ParsedName(s);
      && AllWhite(before) && ValidName(n) && TextOf(n.raw) == r.value
      && s == before + (SpelledName(Some(n)) + SkipWhite(r.rest))
  {
    hide ParsedString, SkipWhite, IsLiteral, TextOf, InQuotes, AllWhite;
    before := WhiteTaken(s);
    var t := SkipWhite(s);
    var raw := LiteralTaken(t);
    var gap := WhiteTaken(ParsedString(t).rest);
    var u := SkipWhite(ParsedString(t).rest);
    var behind := WhiteTaken(u[1..]);
    n := Name(raw, gap, behind);
    NameTogether(t, InQuotes(raw), gap, u, behind, SkipWhite(u[1..]));
  }

  lemma NameTogether(t: string, q: string, gap: string, u: string, behind: string, more: string)
    requires t == q + (gap + u) && StartsWith(u, ':') && u[1..] == behind + more
    ensures t == q + (gap + (":" + behind)) + more
  {
    assert u == ":" + (behind + more);
    ThreeAround(gap, ":", behind, more);
    assert q + (gap + (":" + behind)) + more == q + (gap + (":" + behind) + more);
  }

  lemma {:induction false} MembersTaken(s: string, depth: nat) returns (rows: Rows)
    requires ParsedMembers(s, depth).Done? && depth <= NESTING_LIMIT
    ensures var r := ParsedMembers(s, depth);
      && rows != Last && ValidRows(rows, true) && s == SpelledRows(rows) + ("}" + r.rest)
      && r.value == MeantRows(rows) && DepthOfItems(r.value) + depth <= NESTING_LIMIT
    decreases |s|, 2
  {
    hide ParsedValue, ParsedName, SkipWhite, Valid, Meant, Spelled, SpelledName, IsLiteral, TextOf;
    var before, n := NameTaken(s, depth);
    var t := SkipWhite(ParsedName(s).rest);
    var d := DocTaken(t, depth);
    var tail := ParsedValue(t, depth).rest;
    var after := WhiteTaken(tail);
    var u := SkipWhite(tail);
    if StartsWith(u, ',') {
      var next := MembersTaken(u[1..], depth);
      rows := Row(before, Some(n), d, after, next);
      RowTaken(before, SpelledName(Some(n)), Spelled(d), after, ",", SpelledRows(next),
        "}" + ParsedMembers(s, depth).rest, s, u);
    } else {
      rows := Row(before, Some(n), d, after, Last);
      RowTaken(before, SpelledName(Some(n)), Spelled(d), after, "", "", "}" + u[1..], s, u);
    }
  }

  // Whole documents.

  /** A document is accepted with value `v` exactly when it is some spelling of `v`, nested at most 1000 deep, with
      nothing but white space around it, behind an optional byte order mark. */
  lemma {:induction false} DocumentAccepted(s: string, v: Json)
    ensures ParsedDocument(s, true) == Done(v, "") <==>
      Depth(v) <= 1000 && exists mark, before, d, after :: IsDocument(s, mark, before, d, after, v)
  {
    hide ParsedValue, SkipWhite, WithoutBom, Valid, Spelled, Meant, Depth;
    var t := WithoutBom(s);
    if ParsedDocument(s, true) == Done(v, "") {
      var mark := MarkTaken(s);
      var before := WhiteTaken(t);
      var d := DocTaken(SkipWhite(t), 0);
      var after := WhiteTaken(ParsedValue(SkipWhite(t), 0).rest);
      assert after + "" == after;
      assert IsDocument(s, mark, before, d, after, v);
    }
    if Depth(v) <= 1000 && exists mark, before, d, after :: IsDocument(s, mark, before, d, after, v) {
      var mark, before, d, after :| IsDocument(s, mark, before, d, after, v);
      MarkSkipped(mark, before, d, after);
      DocStarts(d);
      WhiteSkipped(before, Spelled(d) + after);
      BlackKept(Spelled(d), after);
      assert Stops(after);
      DocRead(d, after, 0);
      assert after + "" == after;
      WhiteSkipped(after, "");
      NothingSkipped();
    }
  }

  /** When something may stand behind the value, a spelling at the beginning is read and the rest is left. */
  lemma {:induction false} BeginningRead(mark: string, before: string, d: Doc, rest: string)
    requires IsOrderMark(mark) && AllWhite(before) && Valid(d) && Depth(Meant(d)) <= 1000 && Stops(rest)
    ensures ParsedDocument(mark + (before + (Spelled(d) + rest)), false) == Done(Meant(d), rest)
  {
    hide ParsedValue, SkipWhite, WithoutBom, Valid, Spelled, Meant, Depth;
    MarkSkipped(mark, before, d, rest);
    DocStarts(d);
    WhiteSkipped(before, Spelled(d) + rest);
    BlackKept(Spelled(d), rest);
    DocRead(d, rest, 0);
  }

  lemma NothingSkipped()
    ensures SkipWhite("") == ""
  {
  }

  /** Nothing, or the UTF-8 form of the byte order mark. */
  predicate IsOrderMark(mark: string) {
    mark == "" || mark == [0xEF as char, 0xBB as char, 0xBF as char]
  }

  ghost predicate IsDocument(s: string, mark: string, before: string, d: Doc, after: string, v: Json) {
    && IsOrderMark(mark) && AllWhite(before) && AllWhite(after) && Valid(d) && Meant(d) == v
    && s == mark + (before + (Spelled(d) + after))
  }

  lemma MarkTaken(s: string) returns (mark: string)
    ensures IsOrderMark(mark) && s == mark + WithoutBom(s)
  {
    mark := s[..|s| - |WithoutBom(s)|];
  }

  lemma MarkSkipped(mark: string, before: string, d: Doc, after: string)
    requires IsOrderMark(mark) && AllWhite(before) && Valid(d)
    ensures WithoutBom(mark + (before + (Spelled(d) + after))) == before + (Spelled(d) + after)
  {
    hide Valid, Spelled;
    FirstOfDoc(d);
    var t := before + (Spelled(d) + after);
    assert t != "" && t[0] as nat < 0x80 by {
      if before == "" {
        assert t[0] == Spelled(d)[0];
      } else {
        assert t[0] == before[0];
      }
    }
    var s := mark + t;
    if mark == "" {
      assert s == t;
      assert |s| >= 4 ==> s[..3][0] == s[0];
    } else {
      assert s[..3] == mark && s[3..] == t;
    }
  }

  lemma FirstOfDoc(d: Doc)
    requires Valid(d)
    ensures Spelled(d) != "" && Spelled(d)[0] as nat < 0x80
  {
    hide SpelledRows, Decimal.ValueOf;
    if d.Figure? {
      FigureStarts(d.sign, d.digits, "");
      assert d.sign + d.digits + "" == d.sign + d.digits;
    }
  }
}
