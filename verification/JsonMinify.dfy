/** The minifier: the text with its white space and comments squeezed out, in place. */
module JsonMinify {
  import opened Bytes
  import opened CText
  import opened JsonGrammar
  import opened JsonReading
  import opened JsonRoundTrip
  import opened JsonSyntax
  import opened JsonText
  import opened JsonTree
  import Decimal

  // The minified text.

  /** The text behind a line comment: its line feed is not skipped. */
  function BehindLine(s: string): (r: string)
    ensures |r| <= |s|
  {
    if s == "" || s[0] == '\n' then s else BehindLine(s[1..])
  }

  /** The text behind a block comment; none when the comment does not end. */
  function BehindBlock(s: string): (r: Option<string>)
    ensures r.Some? ==> |r.value| + 2 <= |s|
  {
    if s == "" then None
    else if "*/" <= s then Some(s[2..])
    else BehindBlock(s[1..])
  }

  predicate IsBlank(c: char) {
    c == ' ' || c == '\t' || c == '\r' || c == '\n'
  }

  /** One round of the minifier: what it keeps, and the text behind what it has read. None when it would run past
      the end, out of an unfinished literal or comment. */
  function Round(s: string): (r: Option<(string, string)>)
    requires s != ""
    ensures r.Some? ==> |r.value.1| < |s|
  {
    if IsBlank(s[0]) then Some(("", s[1..]))
    else if "//" <= s then Some(("", BehindLine(s)))
    else if "/*" <= s then
      match BehindBlock(s)
      case None => None
      case Some(rest) => Some(("", rest))
    else if s[0] == '\"' then
      match ClosingQuote(s[1..])
      case None => None
      case Some(i) => Some((s[..i + 2], s[i + 2..]))
    else Some(([s[0]], s[1..]))
  }

  /** The minified text. */
  function Minified(s: string): Option<string>
    decreases |s|
  {
    if s == "" then Some("")
    else match Round(s)
      case None => None
      case Some((kept, rest)) => Before(kept, Minified(rest))
  }

  // Parts of a text.

  /** The text `a`, in front of `rest`, is minified to `b`. */
  predicate Squeezed(a: string, b: string, rest: string) {
    Minified(a + rest) == Before(b, Minified(rest))
  }

  lemma BothSqueezed(a1: string, b1: string, a2: string, b2: string, rest: string)
    requires Squeezed(a1, b1, a2 + rest) && Squeezed(a2, b2, rest)
    ensures Squeezed(a1 + a2, b1 + b2, rest)
  {
    hide Minified;
    assert a1 + a2 + rest == a1 + (a2 + rest);
    if Minified(rest).Some? {
      assert b1 + (b2 + Minified(rest).value) == b1 + b2 + Minified(rest).value;
    }
  }

  lemma NothingSqueezed(rest: string)
    ensures Squeezed("", "", rest)
  {
    hide Minified;
    assert "" + rest == rest;
    if Minified(rest).Some? {
      assert "" + Minified(rest).value == Minified(rest).value;
    }
  }

  lemma BlankSqueezed(c: char, rest: string)
    requires IsBlank(c)
    ensures Squeezed([c], "", rest)
  {
    assert ([c] + rest)[1..] == rest;
    NothingSqueezed(rest);
    assert "" + rest == rest;
  }

  predicate IsSolid(c: char) {
    !IsBlank(c) && c != '/' && c != '\"'
  }

  lemma SolidSqueezed(c: char, rest: string)
    requires IsSolid(c)
    ensures Squeezed([c], [c], rest)
  {
    var s := [c] + rest;
    assert s[0] == c && s[1..] == rest;
  }

  lemma {:induction false} AllSolidSqueezed(t: string, rest: string)
    requires forall i :: 0 <= i < |t| ==> IsSolid(t[i])
    ensures Squeezed(t, t, rest)
  {
    hide Minified, IsSolid;
    if t == "" {
      NothingSqueezed(rest);
    } else {
      AllSolidSqueezed(t[1..], rest);
      SolidSqueezed(t[0], t[1..] + rest);
      BothSqueezed([t[0]], [t[0]], t[1..], t[1..], rest);
      assert [t[0]] + t[1..] == t;
    }
  }

  // White space and comments.

  /** What may stand between two tokens: a blank, a line comment with its line feed, or a block comment. */
  datatype Piece = Blank(c: char) | Line(text: string) | Block(text: string)

  /** A block comment ends at the first asterisk and slash, and the asterisk may be the one it starts with. */
  predicate IsPiece(p: Piece) {
    match p
    case Blank(c) => c in {' ', '\t', '\r', '\n'}
    case Line(text) => Without(text, '\n')
    case Block(text) => forall i :: 0 <= i < |text| ==> !(("*" + text)[i] == '*' && text[i] == '/')
  }

  function PieceText(p: Piece): string {
    match p
    case Blank(c) => [c]
    case Line(text) => "//" + text + "\n"
    case Block(text) => "/*" + text + "*/"
  }

  function GapText(ps: seq<Piece>): string {
    if ps == [] then "" else PieceText(ps[0]) + GapText(ps[1..])
  }

  ghost predicate IsGap(w: string) {
    exists ps: seq<Piece> :: GapText(ps) == w && forall p :: p in ps ==> IsPiece(p)
  }

  lemma {:induction false} LineBehind(text: string, rest: string)
    requires Without(text, '\n')
    ensures BehindLine(text + ("\n" + rest)) == "\n" + rest
  {
    if text == "" {
      assert "" + ("\n" + rest) == "\n" + rest;
    } else {
      assert (text + ("\n" + rest))[1..] == text[1..] + ("\n" + rest);
      LineBehind(text[1..], rest);
    }
  }

  /** Behind a start that contains no end of a comment, the end is found. */
  lemma {:induction false} BlockBehind(start: string, rest: string)
    requires forall i :: 0 <= i < |start| - 1 ==> !(start[i] == '*' && start[i + 1] == '/')
    ensures BehindBlock(start + ("*/" + rest)) == Some(rest)
  {
    var s := start + ("*/" + rest);
    if start == "" {
      assert s == "*/" + rest && s[..2] == "*/" && s[2..] == rest;
    } else {
      assert s[1..] == start[1..] + ("*/" + rest);
      assert s[0] == start[0] && s[1] == if |start| == 1 then '*' else start[1];
      BlockBehind(start[1..], rest);
    }
  }

  lemma PieceSqueezed(p: Piece, rest: string)
    requires IsPiece(p)
    ensures Squeezed(PieceText(p), "", rest)
  {
    hide Squeezed;
    match p
    case Blank(c) => BlankSqueezed(c, rest);
    case Line(text) =>
      LineSqueezed(text, rest);
      BlankSqueezed('\n', rest);
      BothSqueezed("//" + text, "", "\n", "", rest);
      assert "" + "" == "";
    case Block(text) => BlockSqueezed(text, rest);
  }

  lemma LineSqueezed(text: string, rest: string)
    requires Without(text, '\n')
    ensures Squeezed("//" + text, "", "\n" + rest)
  {
    hide Minified;
    var s := "//" + text + ("\n" + rest);
    LineBehind("//" + text, rest);
    assert s[..2] == "//" && s[0] == '/';
    Kept(s, "", "\n" + rest);
  }

  lemma BlockSqueezed(text: string, rest: string)
    requires IsPiece(Block(text))
    ensures Squeezed("/*" + text + "*/", "", rest)
  {
    hide Minified, BehindBlock, IsPiece;
    var s := "/*" + text + "*/" + rest;
    NoEndInside(text);
    BlockBehind("/*" + text, rest);
    assert s == "/*" + text + ("*/" + rest);
    assert s[..2] == "/*" && s[0] == '/' && s[1] == '*';
    Kept(s, "", rest);
  }

  lemma NoEndInside(text: string)
    requires IsPiece(Block(text))
    ensures var start := "/*" + text; forall i :: 0 <= i < |start| - 1 ==> !(start[i] == '*' && start[i + 1] == '/')
  {
    var start := "/*" + text;
    forall i | 0 <= i < |start| - 1
      ensures !(start[i] == '*' && start[i + 1] == '/')
    {
      if i > 0 {
        assert start[i] == ("*" + text)[i - 1] && start[i + 1] == text[i - 1];
      }
    }
  }

  lemma Kept(s: string, kept: string, rest: string)
    requires s != "" && Round(s) == Some((kept, rest))
    ensures Minified(s) == Before(kept, Minified(rest))
  {
  }

  lemma {:induction false} GapSqueezed(ps: seq<Piece>, rest: string)
    requires forall p :: p in ps ==> IsPiece(p)
    ensures Squeezed(GapText(ps), "", rest)
  {
    hide Squeezed, IsPiece, PieceText;
    if ps == [] {
      NothingSqueezed(rest);
    } else {
      GapSqueezed(ps[1..], rest);
      PieceSqueezed(ps[0], GapText(ps[1..]) + rest);
      BothSqueezed(PieceText(ps[0]), "", GapText(ps[1..]), "", rest);
      assert "" + "" == "";
    }
  }

  lemma WhiteSqueezed(w: string, rest: string)
    requires IsGap(w)
    ensures Squeezed(w, "", rest)
  {
    var ps: seq<Piece> :| GapText(ps) == w && forall p :: p in ps ==> IsPiece(p);
    GapSqueezed(ps, rest);
  }

  // Documents with comments.

  /** A document whose values are spelled as the parser reads them, with white space and comments in between. */
  ghost predicate Commented(d: Doc) {
    match d
    case List(blank, rows) => IsGap(blank) && CommentedRows(rows, false)
    case Record(blank, rows) => IsGap(blank) && CommentedRows(rows, true)
    case _ => Valid(d)
  }

  ghost predicate CommentedRows(rows: Rows, named: bool) {
    match rows
    case Last => true
    case Row(before, name, doc, after, next) =>
      && IsGap(before) && IsGap(after) && Commented(doc) && CommentedRows(next, named)
      && name.Some? == named
      && (named ==> IsLiteral(name.value.raw) && IsGap(name.value.gap) && IsGap(name.value.behind))
  }

  /** The same document with nothing in between. */
  function Bare(d: Doc): Doc {
    match d
    case List(_, rows) => List("", BareRows(rows))
    case Record(_, rows) => Record("", BareRows(rows))
    case _ => d
  }

  function BareRows(rows: Rows): Rows {
    match rows
    case Last => Last
    case Row(_, name, doc, _, next) => Row("", BareName(name), Bare(doc), "", BareRows(next))
  }

  function BareName(name: Option<Name>): Option<Name> {
    match name
    case None => None
    case Some(n) => Some(Name(n.raw, "", ""))
  }

  /** It is spelled as the parser reads it, and means the same. */
  lemma {:induction false} BareMeans(d: Doc)
    requires Commented(d)
    ensures Valid(Bare(d)) && Meant(Bare(d)) == Meant(d)
    decreases d
  {
    hide IsLiteral, IsFigure, TextOf, IsGap;
    match d
    case List(_, rows) => BareRowsMean(rows, false);
    case Record(_, rows) => BareRowsMean(rows, true);
    case _ =>
  }

  lemma {:induction false} BareRowsMean(rows: Rows, named: bool)
    requires CommentedRows(rows, named)
    ensures ValidRows(BareRows(rows), named) && MeantRows(BareRows(rows)) == MeantRows(rows)
    decreases rows
  {
    hide IsLiteral, IsFigure, TextOf, IsGap;
    if rows != Last {
      BareMeans(rows.doc);
      BareRowsMean(rows.next, named);
    }
  }

  lemma LiteralSqueezed(raw: string, rest: string)
    requires IsLiteral(raw)
    ensures Squeezed(InQuotes(raw), InQuotes(raw), rest)
  {
    hide ClosingQuote, Minified;
    var s := InQuotes(raw) + rest;
    QuoteStays(raw + "\"", rest);
    assert s[1..] == raw + "\"" + rest && s[0] == '\"';
    assert s[..|raw| + 2] == InQuotes(raw) && s[|raw| + 2..] == rest;
    Kept(s, InQuotes(raw), rest);
  }

  lemma PlainSqueezed(d: Doc, rest: string)
    requires Valid(d) && (d.Word? || d.Figure?)
    ensures Squeezed(Spelled(d), Spelled(d), rest)
  {
    hide Squeezed, Decimal.ValueOf;
    if d.Word? {
      AllSolidSqueezed("null", rest);
      AllSolidSqueezed("false", rest);
      AllSolidSqueezed("true", rest);
    } else {
      var t := d.sign + d.digits;
      forall i | 0 <= i < |t|
        ensures IsSolid(t[i])
      {
        assert i >= |d.sign| ==> t[i] == d.digits[i - |d.sign|];
      }
      AllSolidSqueezed(t, rest);
    }
  }

  /** A bracket, a gap, the rows, and the other bracket. */
  lemma BracketsSqueezed(open: char, blank: string, a: string, b: string, close: char, rest: string)
    requires IsSolid(open) && IsSolid(close) && IsGap(blank) && Squeezed(a, b, [close] + rest)
    ensures Squeezed([open] + (blank + (a + [close])), [open] + ("" + (b + [close])), rest)
  {
    hide Squeezed, IsGap;
    SolidSqueezed(close, rest);
    BothSqueezed(a, b, [close], [close], rest);
    WhiteSqueezed(blank, a + [close] + rest);
    BothSqueezed(blank, "", a + [close], b + [close], rest);
    SolidSqueezed(open, blank + (a + [close]) + rest);
    BothSqueezed([open], [open], blank + (a + [close]), "" + (b + [close]), rest);
  }

  /** White space and comments are squeezed out of every document, and nothing else is. */
  lemma {:induction false} DocSqueezed(d: Doc, rest: string)
    requires Commented(d)
    ensures Squeezed(Spelled(d), Spelled(Bare(d)), rest)
    decreases d
  {
    hide Squeezed, IsLiteral, IsFigure, SpelledRows, InQuotes, IsGap;
    match d
    case Literal(raw) => LiteralSqueezed(raw, rest);
    case List(blank, rows) =>
      RowsSqueezed(rows, false, "]" + rest);
      BracketsSqueezed('[', blank, SpelledRows(rows), SpelledRows(BareRows(rows)), ']', rest);
    case Record(blank, rows) =>
      RowsSqueezed(rows, true, "}" + rest);
      BracketsSqueezed('{', blank, SpelledRows(rows), SpelledRows(BareRows(rows)), '}', rest);
    case _ => PlainSqueezed(d, rest);
  }

  lemma NameSqueezed(n: Name, rest: string)
    requires IsLiteral(n.raw) && IsGap(n.gap) && IsGap(n.behind)
    ensures Squeezed(SpelledName(Some(n)), SpelledName(BareName(Some(n))), rest)
  {
    hide Squeezed, IsLiteral, InQuotes, IsGap;
    WhiteSqueezed(n.behind, rest);
    SolidSqueezed(':', n.behind + rest);
    BothSqueezed(":", ":", n.behind, "", rest);
    WhiteSqueezed(n.gap, ":" + n.behind + rest);
    BothSqueezed(n.gap, "", ":" + n.behind, ":" + "", rest);
    LiteralSqueezed(n.raw, n.gap + (":" + n.behind) + rest);
    BothSqueezed(InQuotes(n.raw), InQuotes(n.raw), n.gap + (":" + n.behind), "" + (":" + ""), rest);
  }

  lemma CommaSqueezed(next: Rows, rest: string)
    ensures Squeezed(if next == Last then "" else ",", if BareRows(next) == Last then "" else ",", rest)
  {
    hide Squeezed;
    NothingSqueezed(rest);
    SolidSqueezed(',', rest);
  }

  lemma {:induction false} RowsSqueezed(rows: Rows, named: bool, rest: string)
    requires CommentedRows(rows, named)
    ensures Squeezed(SpelledRows(rows), SpelledRows(BareRows(rows)), rest)
    decreases rows
  {
    hide Squeezed, IsLiteral, Spelled, SpelledName, IsGap;
    if rows == Last {
      NothingSqueezed(rest);
    } else {
      var next := rows.next;
      var comma, bare := if next == Last then "" else ",", if BareRows(next) == Last then "" else ",";
      var more, less := SpelledRows(next), SpelledRows(BareRows(next));
      var name, short := SpelledName(rows.name), SpelledName(BareName(rows.name));
      var value, tight := Spelled(rows.doc), Spelled(Bare(rows.doc));
      RowsSqueezed(next, named, rest);
      CommaSqueezed(next, more + rest);
      BothSqueezed(comma, bare, more, less, rest);
      WhiteSqueezed(rows.after, comma + more + rest);
      BothSqueezed(rows.after, "", comma + more, bare + less, rest);
      var tail, end := rows.after + (comma + more), "" + (bare + less);
      DocSqueezed(rows.doc, tail + rest);
      BothSqueezed(value, tight, tail, end, rest);
      if named {
        NameSqueezed(rows.name.value, value + tail + rest);
      } else {
        NoName();
        NothingSqueezed(value + tail + rest);
      }
      BothSqueezed(name, short, value + tail, tight + end, rest);
      WhiteSqueezed(rows.before, name + (value + tail) + rest);
      BothSqueezed(rows.before, "", name + (value + tail), short + (tight + end), rest);
    }
  }

  lemma NoName()
    ensures SpelledName(None) == ""
  {
  }

  /** Minifying a document leaves its tokens with nothing in between; parsing what is left gives the value the document
      means. */
  lemma {:induction false} MinifiedDocument(before: string, d: Doc, after: string)
    requires IsGap(before) && Commented(d) && IsGap(after)
    ensures Minified(before + (Spelled(d) + after)) == Some(Spelled(Bare(d)))
    ensures Depth(Meant(d)) <= 1000 ==> ParsedDocument(Spelled(Bare(d)), true) == Done(Meant(d), "")
  {
    hide Squeezed, IsGap, ParsedDocument, WithoutBom, Valid, Spelled;
    WhiteSqueezed(after, "");
    DocSqueezed(d, after + "");
    BothSqueezed(Spelled(d), Spelled(Bare(d)), after, "", "");
    WhiteSqueezed(before, Spelled(d) + after + "");
    BothSqueezed(before, "", Spelled(d) + after, Spelled(Bare(d)) + "", "");
    AllSqueezed(before + (Spelled(d) + after), Spelled(Bare(d)));
    BareMeans(d);
    BareDocument(Bare(d));
  }

  lemma AllSqueezed(a: string, b: string)
    requires Squeezed(a, "" + (b + ""), "")
    ensures Minified(a) == Some(b)
  {
    assert a + "" == a && "" + (b + "") == b && b + "" == b;
  }

  lemma BareDocument(d: Doc)
    requires Valid(d)
    ensures Depth(Meant(d)) <= 1000 ==> ParsedDocument(Spelled(d), true) == Done(Meant(d), "")
  {
    hide ParsedDocument, Valid, Spelled;
    assert "" + ("" + (Spelled(d) + "")) == Spelled(d);
    assert IsDocument(Spelled(d), "", "", d, "", Meant(d));
    DocumentAccepted(Spelled(d), Meant(d));
  }

  // Formatted output.

  lemma GapOf(w: string)
    requires forall i :: 0 <= i < |w| ==> w[i] in {' ', '\t', '\r', '\n'}
    ensures IsGap(w)
  {
    var ps := Blanks(w);
    assert GapText(ps) == w;
  }

  lemma {:induction false} Blanks(w: string) returns (ps: seq<Piece>)
    requires forall i :: 0 <= i < |w| ==> w[i] in {' ', '\t', '\r', '\n'}
    ensures GapText(ps) == w && forall p :: p in ps ==> IsPiece(p)
  {
    ps := [];
    if w != "" {
      var rest := Blanks(w[1..]);
      ps := [Blank(w[0])] + rest;
      assert ps[1..] == rest && [w[0]] + w[1..] == w;
    }
  }

  lemma FormatGaps(format: bool, d: nat)
    ensures IsGap("") && IsGap(" ") && IsGap("\t") && IsGap(Newline(format)) && IsGap(Indent(format, d))
    ensures IsGap(Newline(format) + Indent(format, d))
  {
    hide IsGap;
    GapOf("");
    GapOf(" ");
    GapOf("\t");
    GapOf(Newline(format));
    GapOf(Indent(format, d));
    GapOf(Newline(format) + Indent(format, d));
  }

  lemma {:induction false} PrintCommented(j: Json, d: nat, e: nat)
    ensures Commented(DocOf(j, true, d)) && Bare(DocOf(j, true, d)) == DocOf(j, false, e)
    decreases j
  {
    hide IsGap, Escaped, IsLiteral, IsFigure, Newline, Indent, Valid;
    DocOfValid(j, true, d);
    FormatGaps(true, d);
    Unformatted(d);
    match j
    case Array(child) => RowsCommented(child, d + 1, e + 1, "", " ", "", false);
    case Object(child) =>
      FormatGaps(true, d + 1);
      Unformatted(e);
      Unformatted(e + 1);
      RowsCommented(child, d + 1, e + 1, Indent(true, d + 1), Newline(true) + Indent(true, d + 1),
        Newline(true) + Indent(true, d), true);
    case _ =>
  }

  lemma Unformatted(e: nat)
    ensures Newline(false) == "" && Indent(false, e) == "" && Newline(false) + Indent(false, e) == ""
  {
  }

  lemma {:induction false} RowsCommented(items: Items, d: nat, e: nat, before: string, between: string, close: string,
                                         named: bool)
    requires IsGap(before) && IsGap(between) && IsGap(close)
    ensures var rows := RowsOf(items, named, true, d, before, between, close);
      CommentedRows(rows, named) && BareRows(rows) == RowsOf(items, named, false, e, "", "", "")
    decreases items
  {
    hide IsGap, Escaped, IsLiteral;
    FormatGaps(true, d);
    match items
    case Nil =>
    case Cons(k, v, next) =>
      PrintCommented(v, d, e);
      RowsCommented(next, d, e, between, between, close, named);
      if named {
        EscapedIsLiteral(NameOf(k));
      }
  }

  /** Minifying the formatted print of a tree gives its unformatted print. */
  lemma {:induction false} MinifiedPrint(j: Json)
    ensures Minified(Value(j, true, 0)) == Some(Value(j, false, 0))
  {
    hide Minified, Value, Spelled, Commented, Bare, DocOf, Squeezed;
    PrintCommented(j, 0, 0);
    DocOfSpelled(j, true, 0);
    DocOfSpelled(j, false, 0);
    DocSqueezed(DocOf(j, true, 0), "");
    assert Value(j, false, 0) == "" + (Value(j, false, 0) + "");
    AllSqueezed(Value(j, true, 0), Value(j, false, 0));
  }

  // The minifier itself. `json` is the read cursor, `into` the write cursor.

  /** The part of the text that has not been read, and its terminator, are still in place. */
  ghost predicate Unread(text: array<char>, s: string, json: nat)
    reads text
  {
    && json <= |s| < text.Length
    && (forall i :: json <= i < |s| ==> text[i] == s[i])
    && text[|s|] == '\0'
  }

  /** Behind a line comment. */
  method SkipLine(text: array<char>, json: nat, ghost s: string) returns (next: nat)
    requires Unread(text, s, json) && Without(s, '\0')
    ensures json <= next <= |s| && s[next..] == BehindLine(s[json..])
  {
    hide BehindLine;
    next := json;
    while text[next] != '\0' && text[next] != '\n'
      invariant json <= next <= |s| && BehindLine(s[json..]) == BehindLine(s[next..])
      decreases |s| - next
    {
      LineStep(s, next);
      next := next + 1;
    }
    LineEnd(s, next);
  }

  lemma LineStep(s: string, i: nat)
    requires i < |s| && s[i] != '\n'
    ensures BehindLine(s[i..]) == BehindLine(s[i + 1..])
  {
    assert s[i..][1..] == s[i + 1..];
  }

  lemma LineEnd(s: string, i: nat)
    requires i == |s| || (i < |s| && s[i] == '\n')
    ensures BehindLine(s[i..]) == s[i..]
  {
  }

  /** Behind a block comment; not found when the cursor would pass the terminator. */
  method SkipBlock(text: array<char>, json: nat, ghost s: string) returns (found: bool, next: nat)
    requires Unread(text, s, json) && Without(s, '\0')
    ensures found <==> BehindBlock(s[json..]).Some?
    ensures found ==> json <= next <= |s| && s[next..] == BehindBlock(s[json..]).value
  {
    hide BehindBlock;
    next := json;
    while text[next] != '\0' && !(text[next] == '*' && text[next + 1] == '/')
      invariant json <= next <= |s| && BehindBlock(s[json..]) == BehindBlock(s[next..])
      decreases |s| - next
    {
      BlockStep(s, next);
      next := next + 1;
    }
    BlockEnd(s, next);
    if text[next] == '\0' {
      return false, next;
    }
    found, next := true, next + 2;
  }

  lemma BlockStep(s: string, i: nat)
    requires i < |s| && !(s[i] == '*' && i + 1 < |s| && s[i + 1] == '/')
    ensures BehindBlock(s[i..]) == BehindBlock(s[i + 1..])
  {
    assert s[i..][1..] == s[i + 1..];
    assert i + 1 < |s| ==> s[i..][1] == s[i + 1];
  }

  lemma BlockEnd(s: string, i: nat)
    requires i <= |s|
    ensures i == |s| ==> BehindBlock(s[i..]) == None
    ensures i + 1 < |s| && s[i] == '*' && s[i + 1] == '/' ==> BehindBlock(s[i..]) == Some(s[i + 2..])
  {
    if i + 1 < |s| && s[i] == '*' && s[i + 1] == '/' {
      assert s[i..][..2] == "*/";
      assert s[i..][2..] == s[i + 2..];
    }
  }

  /** One character is moved from the read cursor to the write cursor. */
  method Move(text: array<char>, into: nat, json: nat, ghost s: string)
    requires Unread(text, s, json) && into <= json < |s|
    modifies text
    ensures Unread(text, s, json + 1)
    ensures text[..into + 1] == old(text[..into]) + [s[json]]
    ensures forall i :: json < i < text.Length ==> text[i] == old(text[i])
  {
    text[into] := text[json];
  }

  /** One character inside a literal, or a backslash and the character it hides. */
  method CopyUnit(text: array<char>, into: nat, json: nat, ghost s: string) returns (inside: bool, next: nat)
    requires Unread(text, s, json) && Without(s, '\0') && into <= json < |s| && s[json] != '\"'
    modifies text
    ensures inside <==> s[json] != '\\' || json + 1 < |s|
    ensures inside ==> next == json + (if s[json] == '\\' then 2 else 1) && Unread(text, s, next)
    ensures inside ==> text[..into + (next - json)] == old(text[..into]) + s[json..next]
    ensures forall i :: |s| <= i < text.Length ==> text[i] == old(text[i])
  {
    inside, next := true, json;
    if text[json] == '\\' {
      Move(text, into, json, s);
      next := json + 1;
      if text[next] == '\0' {
        return false, next;
      }
      Move(text, into + 1, next, s);
    } else {
      Move(text, into, json, s);
    }
    next := next + 1;
  }

  /** Copies up to the closing quotation mark; not found when the cursor would pass the terminator. */
  method CopyInside(text: array<char>, into: nat, json: nat, ghost s: string) returns (found: bool, to: nat, next: nat)
    requires Unread(text, s, json) && Without(s, '\0') && into <= json <= |s|
    modifies text
    ensures found <==> ClosingQuote(s[json..]).Some?
    ensures found ==> next == json + ClosingQuote(s[json..]).value < |s| && s[next] == '\"' && Unread(text, s, next)
    ensures found ==> to == into + (next - json) && text[..to] == old(text[..into]) + s[json..next]
    ensures forall i :: |s| <= i < text.Length ==> text[i] == old(text[i])
  {
    hide ClosingQuote, Unread, Without, Shifted;
    AtCursor(text, s, json);
    ghost var w := text[..into];
    to, next := into, json;
    assert text[..to] == w + s[json..json];
    Step0(s, json);
    while text[next] != '\0' && text[next] != '\"'
      invariant json <= next <= |s| < text.Length && to == into + (next - json) && Unread(text, s, next)
      invariant (text[next] == '\0' <==> next == |s|) && (next < |s| ==> text[next] == s[next])
      invariant text[..to] == w + s[json..next]
      invariant ClosingQuote(s[json..]) == Shifted(ClosingQuote(s[next..]), next - json)
      invariant forall i :: |s| <= i < text.Length ==> text[i] == old(text[i])
      decreases |s| - next
    {
      var at := next;
      Step(s, json, at);
      var inside;
      inside, next := CopyUnit(text, to, next, s);
      if !inside {
        return false, to, next;
      }
      Extended(s, json, at, next, w);
      to := to + (next - at);
      AtCursor(text, s, next);
    }
    StepEnd(s, json, next);
    found := text[next] != '\0';
  }

  /** Copies the literal at the read cursor; not ended when the cursor would pass the terminator. */
  method CopyLiteral(text: array<char>, into: nat, json: nat, ghost s: string) returns (ended: bool, next: nat)
    requires Unread(text, s, json) && Without(s, '\0') && into <= json < |s| && s[json] == '\"'
    modifies text
    ensures ended <==> ClosingQuote(s[json + 1..]).Some?
    ensures ended ==> next == json + ClosingQuote(s[json + 1..]).value + 2 <= |s| && Unread(text, s, next)
    ensures ended ==> text[..into + (next - json)] == old(text[..into]) + s[json..next]
    ensures forall i :: |s| <= i < text.Length ==> text[i] == old(text[i])
  {
    hide ClosingQuote, Unread, Without;
    AtCursor(text, s, json);
    ghost var w := text[..into];
    Move(text, into, json, s);
    var to;
    ended, to, next := CopyInside(text, into + 1, json + 1, s);
    if ended {
      Around(s, json, next, w);
      Move(text, to, next, s);
      next := next + 1;
    }
  }

  lemma Around(s: string, json: nat, next: nat, w: string)
    requires json < next < |s|
    ensures w + [s[json]] + s[json + 1..next] + [s[next]] == w + s[json..next + 1]
  {
  }

  lemma AtCursor(text: array<char>, s: string, json: nat)
    requires Unread(text, s, json) && Without(s, '\0')
    ensures json <= |s| < text.Length
    ensures (text[json] == '\0' <==> json == |s|) && (json < |s| ==> text[json] == s[json])
  {
  }

  lemma Extended(s: string, from: nat, i: nat, j: nat, w: string)
    requires from <= i <= j <= |s|
    ensures w + s[from..i] + s[i..j] == w + s[from..j]
  {
  }

  lemma Step0(s: string, json: nat)
    requires json <= |s|
    ensures ClosingQuote(s[json..]) == Shifted(ClosingQuote(s[json..]), 0)
  {
  }

  lemma OneStep(s: string, i: nat)
    requires i < |s| && s[i] != '\"'
    ensures s[i] != '\\' ==> ClosingQuote(s[i..]) == Shifted(ClosingQuote(s[i + 1..]), 1)
    ensures s[i] == '\\' && i + 1 == |s| ==> ClosingQuote(s[i..]) == None
    ensures s[i] == '\\' && i + 1 < |s| ==> ClosingQuote(s[i..]) == Shifted(ClosingQuote(s[i + 2..]), 2)
  {
    assert s[i..][1..] == s[i + 1..];
    assert i + 1 < |s| ==> s[i..][2..] == s[i + 2..];
  }

  /** The search for the closing quotation mark that started at `from`, one unit further. */
  lemma Step(s: string, from: nat, i: nat)
    requires from <= i < |s| && s[i] != '\"'
    requires ClosingQuote(s[from..]) == Shifted(ClosingQuote(s[i..]), i - from)
    ensures var found := ClosingQuote(s[from..]);
      && (s[i] != '\\' ==> found == Shifted(ClosingQuote(s[i + 1..]), i + 1 - from))
      && (s[i] == '\\' && i + 1 == |s| ==> found == None)
      && (s[i] == '\\' && i + 1 < |s| ==> found == Shifted(ClosingQuote(s[i + 2..]), i + 2 - from))
  {
    hide ClosingQuote;
    OneStep(s, i);
  }

  lemma StepEnd(s: string, from: nat, i: nat)
    requires from <= i <= |s|
    requires ClosingQuote(s[from..]) == Shifted(ClosingQuote(s[i..]), i - from)
    ensures i == |s| ==> ClosingQuote(s[from..]) == None
    ensures i < |s| && s[i] == '\"' ==> ClosingQuote(s[from..]) == Some(i - from)
  {
  }

  /** One round of the loop, for the text at the read cursor. */
  method MinifyStep(text: array<char>, into: nat, json: nat, ghost s: string) returns (ok: bool, w: nat, r: nat)
    requires Unread(text, s, json) && Without(s, '\0') && into <= json < |s|
    modifies text
    ensures ok <==> Round(s[json..]).Some?
    ensures ok ==> json < r <= |s| && into <= w <= r && Unread(text, s, r)
    ensures ok ==> text[..w] == old(text[..into]) + Round(s[json..]).value.0
    ensures ok ==> s[r..] == Round(s[json..]).value.1
    ensures forall i :: |s| <= i < text.Length ==> text[i] == old(text[i])
  {
    hide BehindLine, BehindBlock, ClosingQuote;
    ok, w, r := true, into, json;
    Slices(s, json);
    assert text[..into] == text[..into] + "";
    if IsBlank(text[json]) {
      r := json + 1;
    } else if text[json] == '/' && text[json + 1] == '/' {
      r := SkipLine(text, json, s);
    } else if text[json] == '/' && text[json + 1] == '*' {
      ok, r := SkipBlock(text, json, s);
    } else if text[json] == '\"' {
      ok, r := CopyLiteral(text, into, json, s);
      if ok {
        w := into + (r - json);
        assert s[json..r] == s[json..][..r - json];
      }
    } else {
      Move(text, into, json, s);
      w, r := into + 1, json + 1;
    }
  }

  lemma Slices(s: string, i: nat)
    requires i < |s|
    ensures s[i..][0] == s[i] && s[i..][1..] == s[i + 1..]
    ensures i + 1 < |s| ==> s[i..][1] == s[i + 1]
    ensures "//" <= s[i..] <==> i + 1 < |s| && s[i] == '/' && s[i + 1] == '/'
    ensures "/*" <= s[i..] <==> i + 1 < |s| && s[i] == '/' && s[i + 1] == '*'
    ensures forall k, m :: i <= k <= |s| && m == k - i ==> s[i..][m..] == s[k..]
  {
  }

  /** Minifies a zero-terminated text in place. `complete` is false when the read cursor would pass the
      terminator; otherwise the write cursor never overtakes the read cursor, and nothing behind the terminator
      changes. */
  method Minify(text: array<char>, ghost s: string) returns (complete: bool)
    requires Unread(text, s, 0) && Without(s, '\0')
    modifies text
    ensures complete <==> Minified(s).Some?
    ensures complete ==> |Minified(s).value| <= |s|
    ensures complete ==> text[..|Minified(s).value|] == Minified(s).value && text[|Minified(s).value|] == '\0'
    ensures forall i :: |s| < i < text.Length ==> text[i] == old(text[i])
  {
    hide Minified, Round;
    var into, json := 0, 0;
    assert text[..0] == "" && s[0..] == s;
    MinifiedStart(s);
    while text[json] != '\0'
      invariant 0 <= into <= json <= |s| && Unread(text, s, json)
      invariant Minified(s) == Before(text[..into], Minified(s[json..]))
      invariant forall i :: |s| <= i < text.Length ==> text[i] == old(text[i])
      decreases |s| - json
    {
      MinifiedStep(s[json..], text[..into]);
      var ok, w, r := MinifyStep(text, into, json, s);
      if !ok {
        return false;
      }
      into, json := w, r;
    }
    MinifiedEnd(s, json, text[..into]);
    text[into] := '\0';
    complete := true;
  }

  lemma MinifiedStart(s: string)
    ensures Before("", Minified(s)) == Minified(s)
  {
    hide Minified;
    if Minified(s).Some? {
      assert "" + Minified(s).value == Minified(s).value;
    }
  }

  lemma MinifiedStep(t: string, done: string)
    requires t != ""
    ensures Round(t).None? ==> Minified(t) == None
    ensures Round(t).Some? ==>
      Before(done, Minified(t)) == Before(done + Round(t).value.0, Minified(Round(t).value.1))
  {
    hide Round;
    if Round(t).Some? && Minified(Round(t).value.1).Some? {
      var (kept, rest) := Round(t).value;
      assert done + (kept + Minified(rest).value) == done + kept + Minified(rest).value;
    }
  }

  lemma MinifiedEnd(s: string, i: nat, done: string)
    requires i == |s|
    ensures Before(done, Minified(s[i..])) == Some(done)
  {
    assert s[i..] == "" && done + "" == done;
  }
}
