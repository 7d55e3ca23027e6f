/** How the characters of a string literal are spelled: section 7 of RFC 8259, and what the parser accepts beyond it. */
module JsonSpelling {
  import opened Bytes
  import opened CText
  import opened Hex
  import opened JsonGrammar
  import opened JsonReading
  import opened JsonStrings
  import opened JsonSyntax
  import JsonText
  import Utf8

  /** The character behind a backslash, and the code of the character it stands for. */
  const SHORT: seq<(char, nat)> := [('\"', 0x22), ('\\', 0x5C), ('/', 0x2F), ('b', 0x08), ('f', 0x0C), ('n', 0x0A),
                                    ('r', 0x0D), ('t', 0x09)]

  /** One spelled character: itself, one of the eight short escapes, four hexadecimal digits, or a surrogate pair. The
      last two are in no standard: `\u` in front of four characters that are no hexadecimal digits, and a backslash at
      the end of the contents, which such an escape can leave there. */
  datatype Mark =
    | Plain(c: char)
    | Short(k: nat)
    | Scalar(h: string)
    | Pair(high: string, low: string)
    | Broken(h: string)
    | Half

  predicate IsMark(m: Mark) {
    match m
    case Plain(c) => c != '\\'
    case Short(k) => k < |SHORT|
    case Scalar(h) => |h| == 4 && AllHex(h) && !(0xD800 <= Hex4(h) < 0xE000)
    case Pair(high, low) =>
      && |high| == 4 && AllHex(high) && 0xD800 <= Hex4(high) < 0xDC00
      && |low| == 4 && AllHex(low) && 0xDC00 <= Hex4(low) < 0xE000
    case Broken(h) => |h| == 4 && !AllHex(h)
    case Half => true
  }

  /** The marks of RFC 8259: control characters and quotation marks do not stand for themselves. */
  predicate IsStandard(m: Mark) {
    IsMark(m) && !m.Broken? && !m.Half? && (m.Plain? ==> m.c as nat >= 0x20 && m.c != '\"')
  }

  function Drawn(m: Mark): string
    requires IsMark(m)
  {
    match m
    case Plain(c) => [c]
    case Short(k) => ['\\', SHORT[k].0]
    case Scalar(h) => "\\u" + h
    case Pair(high, low) => "\\u" + high + "\\u" + low
    case Broken(h) => "\\u" + h
    case Half => "\\"
  }

  function Sense(m: Mark): string
    requires IsMark(m)
  {
    match m
    case Plain(c) => [c]
    case Short(k) => [SHORT[k].1 as char]
    case Scalar(h) => Utf8.Encoded(Hex4(h))
    case Pair(high, low) => Utf8.Encoded(0x1_0000 + (Hex4(high) - 0xD800) * 0x400 + (Hex4(low) - 0xDC00))
    case Broken(_) => "\0"
    case Half => "\""
  }

  predicate AreMarks(ms: seq<Mark>) {
    forall i :: 0 <= i < |ms| ==> IsMark(ms[i]) && (ms[i].Half? ==> i == |ms| - 1)
  }

  function DrawnAll(ms: seq<Mark>): string
    requires AreMarks(ms)
  {
    if ms == [] then "" else Drawn(ms[0]) + DrawnAll(ms[1..])
  }

  function SenseOf(ms: seq<Mark>): string
    requires AreMarks(ms)
  {
    if ms == [] then "" else Sense(ms[0]) + SenseOf(ms[1..])
  }

  lemma ShortRead(k: nat, more: string)
    requires k < |SHORT|
    ensures Unescaped(['\\', SHORT[k].0] + more) == Before([SHORT[k].1 as char], Unescaped(more))
  {
    var b := ['\\', SHORT[k].0] + more;
    assert b[0] == '\\' && b[1] == SHORT[k].0 && b[2..] == more;
    assert SimpleEscape(SHORT[k].0) == Some(SHORT[k].1 as char);
  }

  lemma BrokenRead(h: string, more: string)
    requires |h| == 4 && !AllHex(h)
    ensures Unescaped("\\u" + h + more) == Before("\0", Unescaped(more))
  {
    var b := "\\u" + h + more;
    assert b[0] == '\\' && b[1] == 'u' && b[2..6] == h && b[6..] == more;
    assert Utf8.Encoded(0) == "\0";
  }

  lemma MarkRead(m: Mark, more: string)
    requires IsMark(m) && (m.Half? ==> more == "")
    ensures Unescaped(Drawn(m) + more) == Before(Sense(m), Unescaped(more))
  {
    hide Utf8.Encoded, Hex4;
    match m
    case Plain(c) => assert ([c] + more)[1..] == more;
    case Short(k) => ShortRead(k, more);
    case Scalar(h) => OneLiteralUnescaped(h, more);
    case Pair(high, low) => PairUnescaped(high, low, more);
    case Broken(h) => BrokenRead(h, more);
    case Half => assert "\\" + more == "\\" && "\\"[1..] == "";
  }

  /** Every sequence of marks is read as what it stands for. */
  lemma {:induction false} MarksRead(ms: seq<Mark>)
    requires AreMarks(ms)
    ensures Unescaped(DrawnAll(ms)) == Some(SenseOf(ms))
  {
    hide Unescaped, Drawn, Sense, IsMark;
    if ms == [] {
      NothingEscaped();
    } else {
      MarksRead(ms[1..]);
      MarkRead(ms[0], DrawnAll(ms[1..]));
    }
  }

  lemma NothingEscaped()
    ensures Unescaped("") == Some("")
  {
  }

  /** Whatever is read is some sequence of marks, and stands for what they stand for. */
  lemma {:induction false} MarksTaken(b: string) returns (ms: seq<Mark>)
    requires Unescaped(b).Some?
    ensures AreMarks(ms) && DrawnAll(ms) == b && SenseOf(ms) == Unescaped(b).value && (b == "" ==> ms == [])
    decreases |b|
  {
    hide Utf8.Encoded, Hex4, Drawn, Sense, IsMark;
    ms := [];
    if b != "" {
      var (o, n) := Unit(b).value;
      var m := MarkTaken(b);
      var rest := MarksTaken(b[n..]);
      ms := [m] + rest;
      assert ms[0] == m && ms[1..] == rest && b == b[..n] + b[n..];
      MarksFirst(m, rest);
    }
  }

  lemma MarksFirst(m: Mark, rest: seq<Mark>)
    requires IsMark(m) && AreMarks(rest) && (m.Half? ==> rest == [])
    ensures AreMarks([m] + rest)
  {
    hide IsMark;
  }

  lemma MarkTaken(b: string) returns (m: Mark)
    requires b != "" && Unit(b).Some?
    ensures IsMark(m) && Drawn(m) == b[..Unit(b).value.1] && Sense(m) == Unit(b).value.0
    ensures m.Half? ==> b[Unit(b).value.1..] == ""
  {
    hide Utf8.Encoded;
    if b[0] != '\\' {
      m := Plain(b[0]);
    } else if |b| == 1 {
      m := Half;
    } else if b[1] == 'u' {
      m := ScalarTaken(b);
    } else {
      m := ShortTaken(b);
    }
  }

  lemma ShortTaken(b: string) returns (m: Mark)
    requires |b| >= 2 && b[0] == '\\' && b[1] != 'u' && SimpleEscape(b[1]).Some?
    ensures m.Short? && IsMark(m) && Drawn(m) == b[..2] && Sense(m) == [SimpleEscape(b[1]).value]
  {
    var c := b[1];
    m := Short(if c == '\"' then 0 else if c == '\\' then 1 else if c == '/' then 2 else if c == 'b' then 3
               else if c == 'f' then 4 else if c == 'n' then 5 else if c == 'r' then 6 else 7);
    assert SHORT[m.k].0 == c;
  }

  lemma ScalarTaken(b: string) returns (m: Mark)
    requires |b| >= 2 && b[0] == '\\' && b[1] == 'u' && Utf16Literal(b).Some?
    ensures var (cp, n) := Utf16Literal(b).value;
      && IsMark(m) && Drawn(m) == b[..n] && Sense(m) == Utf8.Encoded(cp) && !m.Half?
  {
    var h := b[2..6];
    if !AllHex(h) {
      m := Broken(h);
      assert Utf8.Encoded(0) == "\0";
    } else if IsHighSurrogate(Hex4(h)) {
      m := Pair(h, b[8..12]);
      assert b[..12] == "\\u" + h + "\\u" + b[8..12];
    } else {
      m := Scalar(h);
      assert b[..6] == "\\u" + h;
    }
  }

  // Literals.

  ghost predicate AreStandard(ms: seq<Mark>) {
    forall i :: 0 <= i < |ms| ==> IsStandard(ms[i])
  }

  lemma PlainRun(s: string, more: string)
    requires forall i :: 0 <= i < |s| ==> IsPlain(s[i])
    ensures Passes(ClosingQuote, s, more)
  {
    if s == "" {
      assert "" + more == more;
    } else {
      PlainRun(s[1..], more);
      PlainPasses(s[0], s[1..] + more);
      BothPass(ClosingQuote, [s[0]], s[1..], more);
      assert [s[0]] + s[1..] == s;
    }
  }

  lemma DigitsPass(h: string, more: string)
    requires |h| == 4 && AllHex(h)
    ensures Passes(ClosingQuote, "\\u" + h, more)
  {
    PlainRun(h, more);
    PairPasses('u', h + more);
    BothPass(ClosingQuote, ['\\', 'u'], h, more);
  }

  /** A standard mark never ends the literal. */
  lemma MarkPasses(m: Mark, more: string)
    requires IsStandard(m)
    ensures Passes(ClosingQuote, Drawn(m), more)
  {
    hide ClosingQuote, Hex4;
    match m
    case Plain(c) => PlainPasses(c, more);
    case Short(k) => PairPasses(SHORT[k].0, more);
    case Scalar(h) => DigitsPass(h, more);
    case Pair(high, low) =>
      DigitsPass(low, more);
      DigitsPass(high, "\\u" + low + more);
      BothPass(ClosingQuote, "\\u" + high, "\\u" + low, more);
      assert "\\u" + high + ("\\u" + low) == "\\u" + high + "\\u" + low;
  }

  lemma {:induction false} MarksPass(ms: seq<Mark>, more: string)
    requires AreStandard(ms) && AreMarks(ms)
    ensures Passes(ClosingQuote, DrawnAll(ms), more)
  {
    hide Drawn, IsStandard;
    if ms == [] {
      assert "" + more == more;
    } else {
      MarksPass(ms[1..], more);
      MarkPasses(ms[0], DrawnAll(ms[1..]) + more);
      BothPass(ClosingQuote, Drawn(ms[0]), DrawnAll(ms[1..]), more);
    }
  }

  lemma StandardAreMarks(ms: seq<Mark>)
    requires AreStandard(ms)
    ensures AreMarks(ms)
  {
  }

  /** Every standard spelling of a string is read as the string, up to a NUL it may contain. */
  lemma {:induction false} LiteralSpelled(ms: seq<Mark>, rest: string)
    requires AreStandard(ms)
    ensures AreMarks(ms) && IsLiteral(DrawnAll(ms))
    ensures ParsedString(InQuotes(DrawnAll(ms)) + rest) == Done(UpToNul(SenseOf(ms)), rest)
  {
    hide ClosingQuote, Unescaped, UpToNul;
    StandardAreMarks(ms);
    MarksRead(ms);
    MarksPass(ms, "\"");
    QuoteAtOnce();
    LiteralRead(DrawnAll(ms), rest);
  }

  lemma QuoteAtOnce()
    ensures ClosingQuote("\"") == Some(0)
  {
  }

  /** Another character behind a backslash than the eight and `u` is refused, and so is half a surrogate pair. */
  lemma {:induction false} OthersRefused(c: char, h: string, more: string)
    requires |h| == 4 && AllHex(h)
    ensures c != 'u' && (forall k :: 0 <= k < |SHORT| ==> SHORT[k].0 != c) ==> Unescaped(['\\', c] + more) == None
    ensures 0xDC00 <= Hex4(h) < 0xE000 ==> Unescaped("\\u" + h + more) == None
    ensures 0xD800 <= Hex4(h) < 0xDC00 && !("\\u" <= more) ==> Unescaped("\\u" + h + more) == None
  {
    var b, t := ['\\', c] + more, "\\u" + h + more;
    assert b[0] == '\\' && b[1] == c;
    assert t[0] == '\\' && t[1] == 'u' && t[2..6] == h && t[6..] == more;
    if c != 'u' && SimpleEscape(c).Some? {
      var m := ShortTaken(b);
      assert SHORT[m.k].0 == c;
    }
    if |t| >= 8 && t[6] == '\\' && t[7] == 'u' {
      assert more[..2] == "\\u";
    }
  }

  // What the printer writes.

  /** The printer spells every character with a standard mark, and no standard mark for it is shorter. */
  lemma {:induction false} EscapeIsShortest(c: char, other: Mark) returns (m: Mark)
    ensures IsStandard(m) && Drawn(m) == JsonText.Escape(c) && Sense(m) == [c]
    ensures IsStandard(other) && Sense(other) == [c] ==> |Drawn(m)| <= |Drawn(other)|
  {
    hide Utf8.Encoded, Hex4;
    if c as nat >= 0x20 && c != '\"' && c != '\\' {
      m := Plain(c);
    } else if c == '\"' || c == '\\' || c == '\n' || c == '\r' || c == '\t' || c as nat == 8 || c as nat == 12 {
      m := Short(if c == '\"' then 0 else if c == '\\' then 1 else if c as nat == 8 then 3 else if c as nat == 12 then 4
                 else if c == '\n' then 5 else if c == '\r' then 6 else 7);
    } else {
      m := ControlMark(c);
      NoShortMark(c, other);
    }
  }

  lemma ControlMark(c: char) returns (m: Mark)
    requires c as nat < 0x20
    ensures m == Scalar(['0', '0', HexLower(c as nat / 16), HexLower(c as nat % 16)])
    ensures IsStandard(m) && Sense(m) == [c]
  {
    var h := ['0', '0', HexLower(c as nat / 16), HexLower(c as nat % 16)];
    m := Scalar(h);
    assert Hex4(h) == c as nat;
  }

  lemma NoShortMark(c: char, other: Mark)
    requires c as nat < 0x20 && c as nat !in {0x08, 0x09, 0x0A, 0x0C, 0x0D}
    ensures IsStandard(other) && Sense(other) == [c] ==> |Drawn(other)| >= 6
  {
    hide Utf8.Encoded, Hex4;
    if IsStandard(other) && other.Short? {
      var k := other.k;
      assert k == 0 || k == 1 || k == 2 || k == 3 || k == 4 || k == 5 || k == 6 || k == 7;
      assert Sense(other)[0] as nat == SHORT[k].1;
    }
  }
}
