/** Parsing what the printer wrote gives back the same tree. */
module JsonRoundTrip {
  import opened Bytes
  import opened CText
  import opened JsonGrammar
  import opened JsonReading
  import opened JsonSpelling
  import opened JsonSyntax
  import opened JsonText
  import opened JsonTree
  import Decimal

  // Strings.

  /** Escaped characters are standard marks for the string. */
  lemma {:induction false} EscapedMarks(s: string) returns (ms: seq<Mark>)
    ensures AreStandard(ms) && AreMarks(ms) && DrawnAll(ms) == Escaped(s) && SenseOf(ms) == s
  {
    hide Escape, Drawn, Sense, IsStandard, IsMark;
    ms := [];
    if s != "" {
      var m := EscapeIsShortest(s[0], Half);
      var rest := EscapedMarks(s[1..]);
      ms := [m] + rest;
      assert ms[1..] == rest && [s[0]] + s[1..] == s;
      StandardNext(m, rest);
    }
  }

  lemma StandardNext(m: Mark, rest: seq<Mark>)
    requires IsStandard(m) && AreStandard(rest)
    ensures AreStandard([m] + rest) && AreMarks([m] + rest)
  {
    hide IsStandard;
    StandardAreMarks([m] + rest);
  }

  lemma EscapedIsLiteral(s: Text)
    ensures IsLiteral(Escaped(s)) && TextOf(Escaped(s)) == s && Quoted(s) == InQuotes(Escaped(s))
  {
    hide Unescaped, Escaped, IsLiteral, UpToNul, DrawnAll;
    var ms := EscapedMarks(s);
    LiteralSpelled(ms, "");
    MarksRead(ms);
    UpToNulSame(s);
  }

  lemma {:induction false} StringRead(s: Text, rest: string)
    ensures ParsedString(Quoted(s) + rest) == Done(s, rest)
  {
    hide IsLiteral, TextOf, ParsedString;
    EscapedIsLiteral(s);
    LiteralRead(Escaped(s), rest);
  }

  // A printed tree is one spelling of it.

  function DocOf(j: Json, format: bool, d: nat): Doc {
    match j
    case Number(n) => if n < 0 then Figure("-", Decimal.Digits(-n)) else Figure("", Decimal.Digits(n))
    case Str(s) => Literal(Escaped(s))
    case Array(child) => List("", RowsOf(child, false, format, d + 1, "", if format then " " else "", ""))
    case Object(child) =>
      var first, close := Newline(format), Newline(format) + Indent(format, d);
      if child == Nil then Record(close, Last)
      else
        Record(first, RowsOf(child, true, format, d + 1, Indent(format, d + 1), Newline(format) + Indent(format, d + 1),
          close))
    case _ => Word(j)
  }

  /** The rows of a container, with the white space before the first one, before each further one, and behind the last
      one. */
  function RowsOf(items: Items, named: bool, format: bool, d: nat, before: string, between: string,
                  close: string): Rows {
    match items
    case Nil => Last
    case Cons(k, v, next) =>
      var name := if named then Some(KeyName(k, format)) else None;
      Row(before, name, DocOf(v, format, d), if next == Nil then close else "",
        RowsOf(next, named, format, d, between, between, close))
  }

  function KeyName(key: Option<Text>, format: bool): Name {
    Name(Escaped(NameOf(key)), "", if format then "\t" else "")
  }

  lemma WhiteParts(format: bool, d: nat)
    ensures AllWhite("") && AllWhite(" ") && AllWhite("\t") && AllWhite(Newline(format)) && AllWhite(Indent(format, d))
    ensures AllWhite(Newline(format) + Indent(format, d))
  {
  }

  lemma NumberFigure(n: Num)
    ensures var d := DocOf(Number(n), false, 0); Valid(d) && Meant(d) == Number(n) && Spelled(d) == Decimal.Text(n)
  {
    hide Decimal.Power10, Decimal.ValueOf, Decimal.Digits;
    var m := if n < 0 then -n else n;
    Decimal.DigitsValue(m);
    FifteenDigits();
    Decimal.DigitsLength(m, 15);
  }

  lemma {:induction false} DocOfValid(j: Json, format: bool, d: nat)
    ensures Valid(DocOf(j, format, d)) && (Proper(j) ==> Meant(DocOf(j, format, d)) == j)
    decreases j
  {
    hide Escaped, IsLiteral, TextOf, AllWhite, Newline, Indent, IsFigure;
    match j
    case Number(n) => NumberFigure(n);
    case Str(s) => EscapedIsLiteral(s);
    case Array(child) =>
      WhiteParts(format, d);
      RowsOfValid(child, format, d + 1, "", if format then " " else "", "", false);
    case Object(child) =>
      WhiteParts(format, d);
      WhiteParts(format, d + 1);
      RowsOfValid(child, format, d + 1, Indent(format, d + 1), Newline(format) + Indent(format, d + 1),
        Newline(format) + Indent(format, d), true);
    case _ =>
  }

  lemma {:induction false} RowsOfValid(items: Items, format: bool, d: nat, before: string, between: string,
                                       close: string, named: bool)
    requires AllWhite(before) && AllWhite(between) && AllWhite(close)
    ensures var rows := RowsOf(items, named, format, d, before, between, close);
      ValidRows(rows, named) && (ProperItems(items, named) ==> MeantRows(rows) == items)
    decreases items
  {
    hide Escaped, IsLiteral, TextOf, AllWhite;
    WhiteParts(format, d);
    match items
    case Nil =>
    case Cons(k, v, next) =>
      DocOfValid(v, format, d);
      RowsOfValid(next, format, d, between, between, close, named);
      EscapedIsLiteral(NameOf(k));
  }

  /** The spelling is the printed text. */
  lemma {:induction false} DocOfSpelled(j: Json, format: bool, d: nat)
    ensures Spelled(DocOf(j, format, d)) == Value(j, format, d)
    decreases j, 0
  {
    hide Escaped, Elements, Members, SpelledRows, Newline, Indent;
    match j
    case Number(n) => NumberFigure(n);
    case Str(s) => EscapedIsLiteral(s);
    case Array(child) =>
      ElementsOfSpelled(child, format, d + 1, "");
      ListTogether(Elements(child, format, d + 1));
    case Object(child) =>
      if child == Nil {
        NoMembers(format, d + 1);
        RecordTogether(Newline(format), "", Indent(format, d));
      } else {
        MembersOfSpelled(child, format, d + 1, "", d);
        EmptyLead(Indent(format, d + 1), Members(child, format, d + 1) + Indent(format, d));
        RecordTogether(Newline(format), Members(child, format, d + 1), Indent(format, d));
      }
    case _ =>
  }

  lemma NoMembers(format: bool, d: nat)
    ensures SpelledRows(Last) == "" && Members(Nil, format, d) == ""
  {
  }

  lemma EmptyLead(i: string, m: string)
    ensures "" + i == i && "" + m == m
  {
  }

  lemma ListTogether(e: string)
    ensures "[" + ("" + (e + "]")) == "[" + e + "]" && "" + e == e
  {
  }

  lemma RecordTogether(n: string, m: string, i: string)
    ensures "{" + (n + (m + i + "}")) == "{" + n + m + i + "}"
    ensures "{" + (n + i + ("" + "}")) == "{" + n + "" + i + "}"
  {
    assert "{" + (n + (m + i + "}")) == "{" + (n + (m + (i + "}")));
  }

  lemma RowText(before: string, name: Option<Name>, doc: Doc, after: string, next: Rows)
    ensures SpelledRows(Row(before, name, doc, after, next)) ==
      before + (SpelledName(name) + (Spelled(doc) + (after + ((if next == Last then "" else ",") + SpelledRows(next)))))
  {
  }

  lemma {:induction false} ElementsOfSpelled(items: Items, format: bool, d: nat, before: string)
    ensures SpelledRows(RowsOf(items, false, format, d, before, if format then " " else "", "")) ==
      (if items == Nil then "" else before) + Elements(items, format, d)
    decreases items, 0
  {
    hide Spelled, DocOf, Value, SpelledRows;
    var space := if format then " " else "";
    if items == Nil {
      NoElements(format, d);
    } else {
      var next := items.next;
      DocOfSpelled(items.value, format, d);
      ElementsOfSpelled(next, format, d, space);
      var rows := RowsOf(next, false, format, d, space, space, "");
      RowText(before, None, DocOf(items.value, format, d), "", rows);
      OneElement(before, Value(items.value, format, d), space, Elements(next, format, d));
    }
  }

  lemma NoElements(format: bool, d: nat)
    ensures SpelledRows(Last) == "" && Elements(Nil, format, d) == ""
  {
  }

  lemma OneElement(before: string, v: string, space: string, more: string)
    ensures before + ("" + (v + ("" + ("," + (space + more))))) == before + (v + ("," + space) + more)
    ensures before + ("" + (v + ("" + ("" + ("" + more))))) == before + (v + "" + more)
  {
    assert v + ("," + (space + more)) == v + ("," + space) + more;
  }

  lemma MemberUnfolded(items: Items, format: bool, d: nat, before: string, between: string, close: string)
    requires items != Nil
    ensures SpelledName(Some(KeyName(items.key, format))) ==
      Quoted(NameOf(items.key)) + ("" + (":" + (if format then "\t" else "")))
    ensures Members(items, format, d) ==
      Indent(format, d) + Quoted(NameOf(items.key)) + (":" + (if format then "\t" else ""))
      + Value(items.value, format, d)
      + ((if items.next == Nil then "" else ",") + Newline(format)) + Members(items.next, format, d)
    ensures RowsOf(items, true, format, d, before, between, close) ==
      Row(before, Some(KeyName(items.key, format)), DocOf(items.value, format, d),
        if items.next == Nil then close else "", RowsOf(items.next, true, format, d, between, between, close))
    ensures RowsOf(items.next, true, format, d, between, between, close) == Last <==> items.next == Nil
  {
    hide Indent, Newline, Value, DocOf, Escaped, Quoted, InQuotes, IsLiteral, TextOf;
    EscapedIsLiteral(NameOf(items.key));
    assert Indent(format, d) + Quoted(NameOf(items.key)) + Colon(format) == MemberStart(items.key, format, d);
  }

  lemma {:induction false} MembersOfSpelled(items: Items, format: bool, d: nat, lead: string, c: nat)
    requires items != Nil
    ensures SpelledRows(RowsOf(items, true, format, d, lead + Indent(format, d), Newline(format) + Indent(format, d),
      Newline(format) + Indent(format, c))) == lead + (Members(items, format, d) + Indent(format, c))
    decreases items, 0
  {
    hide Spelled, DocOf, Value, Quoted, Escaped, Indent, Newline, SpelledRows, SpelledName, RowsOf, Members, KeyName;
    var i, n, next, k := Indent(format, d), Newline(format), items.next, NameOf(items.key);
    var q, gap, v := Quoted(k), if format then "\t" else "", Value(items.value, format, d);
    DocOfSpelled(items.value, format, d);
    MemberUnfolded(items, format, d, lead + i, n + i, n + Indent(format, c));
    var rows := RowsOf(next, true, format, d, n + i, n + i, n + Indent(format, c));
    RowText(lead + i, Some(KeyName(items.key, format)), DocOf(items.value, format, d),
      if next == Nil then n + Indent(format, c) else "", rows);
    if next == Nil {
      NoMembers(format, d);
      LastMember(lead, i, q, gap, v, n, Indent(format, c));
    } else {
      MembersOfSpelled(next, format, d, n, c);
      OneMember(lead, i, q, gap, v, n, Members(next, format, d), Indent(format, c));
    }
  }

  lemma LastMember(lead: string, i: string, q: string, gap: string, v: string, n: string, close: string)
    ensures lead + i + (q + ("" + (":" + gap)) + (v + (n + close + ("" + "")))) ==
      lead + (i + q + (":" + gap) + v + ("" + n) + "" + close)
  {
    assert "" + (":" + gap) == ":" + gap && n + close + ("" + "") == n + close && "" + n == n;
    Flattened(lead, i, q, ":" + gap, v, n, "", close);
    assert n + close == n + ("" + close);
  }

  lemma OneMember(lead: string, i: string, q: string, gap: string, v: string, n: string, more: string, close: string)
    ensures lead + i + (q + ("" + (":" + gap)) + (v + ("" + ("," + (n + (more + close)))))) ==
      lead + (i + q + (":" + gap) + v + ("," + n) + more + close)
  {
    assert "" + (":" + gap) == ":" + gap && "" + ("," + (n + (more + close))) == "," + n + (more + close);
    Flattened(lead, i, q, ":" + gap, v, "," + n, more, close);
  }

  lemma Flattened(a: string, b: string, c: string, d: string, e: string, f: string, g: string, h: string)
    ensures a + b + (c + d + (e + (f + (g + h)))) == a + (b + c + d + e + f + g + h)
  {
    assert c + d + (e + (f + (g + h))) == c + d + e + f + g + h;
    assert b + (c + d + e + f + g + h) == b + c + d + e + f + g + h;
  }

  // Reading it back.

  /** Reading a printed value gives the value back and leaves what follows, exactly when its nesting, on top of
      the containers around it, stays within the limit. */
  lemma {:induction false} ValueRead(j: Json, format: bool, d: nat, rest: string, depth: nat)
    requires Proper(j) && depth <= NESTING_LIMIT && Stops(rest)
    ensures ParsedValue(Value(j, format, d) + rest, depth) == Back(Depth(j) + depth, j, rest)
  {
    hide *;
    DocOfValid(j, format, d);
    DocOfSpelled(j, format, d);
    DocRead(DocOf(j, format, d), rest, depth);
  }

  /** A printed tree is read back as the same tree, formatted or not, and nothing is left over, exactly when its
      nesting stays within the limit; otherwise it is refused. */
  lemma {:induction false} ParsedPrint(j: Json, format: bool, requireEnd: bool)
    requires Proper(j)
    ensures ParsedDocument(Value(j, format, 0), requireEnd) == if Depth(j) <= 1000 then Done(j, "") else Failed
  {
    hide ParsedValue, Value, Spelled, Valid, DocOf, WithoutBom, SkipWhite, Depth;
    var s := Value(j, format, 0);
    DocOfValid(j, format, 0);
    DocOfSpelled(j, format, 0);
    DocStarts(DocOf(j, format, 0));
    NoBom(j, format);
    BlackKept(s, "");
    assert s + "" == s;
    ValueRead(j, format, 0, "", 0);
    NothingSkipped();
  }

  lemma ValueFirst(j: Json, format: bool)
    ensures Value(j, format, 0)[0] as nat < 0x80
  {
    match j
    case Number(n) => assert Decimal.AllDigits(Decimal.Digits(if n < 0 then -n else n));
    case _ =>
  }

  lemma NoBom(j: Json, format: bool)
    ensures WithoutBom(Value(j, format, 0)) == Value(j, format, 0)
  {
    var s := Value(j, format, 0);
    ValueFirst(j, format);
    assert |s| >= 4 ==> s[..3][0] == s[0];
  }
}
