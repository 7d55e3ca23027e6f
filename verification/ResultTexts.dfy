/** The results the server sends: a small JSON object, printed, in one unmasked text frame. */
module ResultTexts {
  import opened Bytes
  import opened CText
  import opened Frame
  import opened HttpText
  import opened JsonList
  import opened JsonObjects
  import opened JsonText
  import opened JsonTree
  import opened ResultFrames
  import ClientFraming
  import Decimal
  import Hex
  import JsonItems
  import JsonPrinter
  import JsonRoundTrip
  import JsonSyntax

  type Uuid = s: Text | |s| == 36 && IsOctets(s)
    witness "000000000000000000" + "000000000000000000"

  const RESULT: Text := "Websocket"

  function ResultMembers(result: Text): Items {
    Cons(Some("result"), Str(result), Nil)
  }

  function UuidMembers(uuid: Text, result: Text): Items {
    Cons(Some("uuid"), Str(uuid), ResultMembers(result))
  }

  function StatusMembers(uuid: Text, result: Text): Items {
    Cons(Some("status"), Number(0), UuidMembers(uuid, result))
  }

  /** The object reported for an intermediate or, when `last`, for the final result. */
  function Reported(last: bool, uuid: Text, result: Text): Json {
    Object(Cons(Some("result_type"), Number(if last then 1 else 0), StatusMembers(uuid, result)))
  }

  function ReportedText(last: bool, uuid: Uuid): (r: string)
    ensures IsOctets(r) && |r| < 0x400
  {
    ReportedIsShort(last, uuid);
    Value(Reported(last, uuid, RESULT), true, 0)
  }

  /** The frame of one result. */
  function ResultBytes(last: bool, uuid: Uuid): seq<byte> {
    ResultWire(Octets(ReportedText(last, uuid)))
  }

  lemma {:induction false} EscapedOctets(s: string)
    requires IsOctets(s)
    ensures IsOctets(Escaped(s)) && |Escaped(s)| <= 6 * |s|
  {
    if s != [] {
      EscapedOctets(s[1..]);
      EscapeOctets(s[0]);
      Both(Escape(s[0]), Escaped(s[1..]));
    }
  }

  lemma EscapeOctets(c: char)
    requires c as nat < 0x100
    ensures IsOctets(Escape(c))
  {
  }

  lemma Both(a: string, b: string)
    requires IsOctets(a) && IsOctets(b)
    ensures IsOctets(a + b)
  {
  }

  lemma QuotedOctets(s: string)
    requires IsOctets(s)
    ensures IsOctets(Quoted(s)) && |Quoted(s)| <= 6 * |s| + 2
  {
    EscapedOctets(s);
  }

  lemma MemberOctets(key: Text, v: Json, next: Items)
    requires IsOctets(key) && IsOctets(Value(v, true, 1)) && IsOctets(Members(next, true, 1))
    ensures var m := Members(Cons(Some(key), v, next), true, 1);
      IsOctets(m) && |m| <= 6 * |key| + 7 + |Value(v, true, 1)| + |Members(next, true, 1)|
  {
    StartOctets(key);
    FourOctets(MemberStart(Some(key), true, 1), Value(v, true, 1), MemberEnd(true, next), Members(next, true, 1)) by {
      hide MemberStart, Value, Members;
    }
  }

  lemma StartOctets(key: Text)
    requires IsOctets(key)
    ensures var s := MemberStart(Some(key), true, 1); IsOctets(s) && |s| <= 6 * |key| + 5
  {
    hide Quoted, Escaped;
    QuotedOctets(key);
    FourOctets(Tabs(1), Quoted(key), ":\t", "");
  }

  lemma FourOctets(a: string, b: string, c: string, d: string)
    requires IsOctets(a) && IsOctets(b) && IsOctets(c) && IsOctets(d)
    ensures IsOctets(a + b + c + d) && IsOctets(a + b + c)
  {
  }

  lemma StringOctets(key: Text, s: Text, next: Items)
    requires IsOctets(key) && IsOctets(s) && IsOctets(Members(next, true, 1))
    ensures var m := Members(Cons(Some(key), Str(s), next), true, 1);
      IsOctets(m) && |m| <= 6 * |key| + 9 + 6 * |s| + |Members(next, true, 1)|
  {
    QuotedOctets(s);
    MemberOctets(key, Str(s), next);
  }

  lemma DigitOctets(key: Text, n: Num, next: Items)
    requires IsOctets(key) && 0 <= n < 10 && IsOctets(Members(next, true, 1))
    ensures var m := Members(Cons(Some(key), Number(n), next), true, 1);
      IsOctets(m) && |m| <= 6 * |key| + 8 + |Members(next, true, 1)|
  {
    assert Decimal.Text(n) == [Decimal.DigitOf(n)];
    MemberOctets(key, Number(n), next);
  }

  lemma NoMembers()
    ensures Members(Nil, true, 1) == ""
  {
  }

  /** The text of a result is short, so its frame never needs the long form. */
  lemma {:induction false} ReportedIsShort(last: bool, uuid: Uuid)
    ensures var text := Value(Reported(last, uuid, RESULT), true, 0);
      IsOctets(text) && |text| < 0x400
  {
    hide Members, MemberStart;
    NoMembers();
    StringOctets("result", RESULT, Nil);
    StringOctets("uuid", uuid, ResultMembers(RESULT));
    DigitOctets("status", 0, UuidMembers(uuid, RESULT));
    DigitOctets("result_type", if last then 1 else 0, StatusMembers(uuid, RESULT));
  }

  method FormatJson(last_result: bool, uuid: Uuid) returns (output: string)
    ensures output == ReportedText(last_result, uuid)
  {
    hide Value, JsonItems.Holds, Reported;
    ghost var v := Reported(last_result, uuid, RESULT);
    var root := BuildReport(last_result, uuid, RESULT);
    ReportedIsShort(last_result, uuid);
    var out := JsonPrinter.Print(root, true, None, v);
    ValueIsText(v, true, 0);
    UpToNulIs(Value(v, true, 0), out.value[..]);
    output := UpToNul(out.value[..]);
  }

  /** Adds the members one after the other. */
  method BuildReport(last_result: bool, uuid: Text, result: Text) returns (root: Item)
    ensures fresh(root) && JsonItems.Holds(root, None, Reported(last_result, uuid, result))
  {
    hide JsonItems.Holds, Append;
    var n := if last_result then 1 else 0;
    root := CreateObject();
    AddNumberToObject(root, "result_type", n, None, Nil);
    ghost var x1 := Append(Nil, Cons(Some("result_type"), Number(n), Nil));
    AddNumberToObject(root, "status", 0, None, x1);
    ghost var x2 := Append(x1, Cons(Some("status"), Number(0), Nil));
    AddStringToObject(root, "uuid", uuid, None, x2);
    ghost var x3 := Append(x2, Cons(Some("uuid"), Str(uuid), Nil));
    AddStringToObject(root, "result", result, None, x3);
    MembersInOrder(last_result, uuid, result);
  }

  lemma MembersInOrder(last: bool, uuid: Text, result: Text)
    ensures var x1 := Append(Nil, Cons(Some("result_type"), Number(if last then 1 else 0), Nil));
      var x2 := Append(x1, Cons(Some("status"), Number(0), Nil));
      var x3 := Append(x2, Cons(Some("uuid"), Str(uuid), Nil));
      Reported(last, uuid, result) == Object(Append(x3, Cons(Some("result"), Str(result), Nil)))
  {
    var c1, c2 := Cons(Some("result_type"), Number(if last then 1 else 0), Nil), Cons(Some("status"), Number(0), Nil);
    assert Append(c1, c2) == Cons(c1.key, c1.value, c2);
    var c3, c4 := Cons(Some("uuid"), Str(uuid), Nil), Cons(Some("result"), Str(result), Nil);
    assert Append(c2, c3) == Cons(c2.key, c2.value, c3);
    assert Append(c3, c4) == Cons(c3.key, c3.value, c4);
    AppendAssociative(c1, c2, c3);
    AppendAssociative(Append(c1, c2), c3, c4);
    AppendAssociative(c1, c2, Append(c3, c4));
    AppendAssociative(c1, Append(c2, c3), c4);
  }

  /** The text of a result, character by character but for the uuid. */
  lemma {:induction false} ReportedIs(last: bool, uuid: Uuid)
    ensures ReportedText(last, uuid) ==
      "{\n" + ("\t\"result_type\":\t" + (if last then "1" else "0") + ",\n" + ("\t\"status\":\t" + "0" + ",\n" +
        ("\t\"uuid\":\t" + Quoted(uuid) + ",\n" + ("\t\"result\":\t" + "\"Websocket\"" + "\n" + "")))) + "}"
  {
    hide Quoted, Escaped, Value, Members;
    var m3, m2, m1 := ResultMembers(RESULT), UuidMembers(uuid, RESULT), StatusMembers(uuid, RESULT);
    NoMembers();
    ValuesAre(last, uuid);
    MemberIs("result", Str(RESULT), Nil, "\t\"result\":\t") by { ResultKey(); }
    MemberIs("uuid", Str(uuid), m3, "\t\"uuid\":\t") by { UuidKey(); }
    MemberIs("status", Number(0), m2, "\t\"status\":\t") by { StatusKey(); }
    MemberIs("result_type", Number(if last then 1 else 0), m1, "\t\"result_type\":\t") by { TypeKey(); }
    ObjectIs(Reported(last, uuid, RESULT).child);
  }

  lemma ValuesAre(last: bool, uuid: Uuid)
    ensures Value(Str(RESULT), true, 1) == "\"Websocket\"" && Value(Str(uuid), true, 1) == Quoted(uuid)
    ensures Value(Number(0), true, 1) == "0" && Value(Number(1), true, 1) == "1"
  {
    hide Quoted, Escaped;
    PlainQuoted(RESULT);
    assert "\"" + RESULT + "\"" == "\"Websocket\"";
  }

  lemma MemberIs(key: Text, v: Json, next: Items, start: string)
    requires "\t" + Quoted(key) + ":\t" == start
    ensures Members(Cons(Some(key), v, next), true, 1) ==
      start + Value(v, true, 1) + (if next == Nil then "\n" else ",\n") + Members(next, true, 1)
  {
    hide Quoted, Value;
    assert Tabs(1) == "\t" + Tabs(0);
    assert MemberStart(Some(key), true, 1) == start;
  }

  lemma ObjectIs(child: Items)
    ensures Value(Object(child), true, 0) == "{\n" + Members(child, true, 1) + "}"
  {
    hide Members;
    assert Tabs(0) == "";
  }

  lemma TypeKey()
    ensures "\t" + Quoted("result_type") + ":\t" == "\t\"result_type\":\t"
  {
    hide Quoted, Escaped;
    PlainQuoted("result_type");
    assert "\t" + ("\"" + "result_type" + "\"") + ":\t" == "\t\"result_type\":\t";
  }

  lemma StatusKey()
    ensures "\t" + Quoted("status") + ":\t" == "\t\"status\":\t"
  {
    hide Quoted, Escaped;
    PlainQuoted("status");
    assert "\t" + ("\"" + "status" + "\"") + ":\t" == "\t\"status\":\t";
  }

  lemma UuidKey()
    ensures "\t" + Quoted("uuid") + ":\t" == "\t\"uuid\":\t"
  {
    hide Quoted, Escaped;
    PlainQuoted("uuid");
    assert "\t" + ("\"" + "uuid" + "\"") + ":\t" == "\t\"uuid\":\t";
  }

  lemma ResultKey()
    ensures "\t" + Quoted("result") + ":\t" == "\t\"result\":\t"
  {
    hide Quoted, Escaped;
    PlainQuoted("result");
    assert "\t" + ("\"" + "result" + "\"") + ":\t" == "\t\"result\":\t";
  }

  lemma {:induction false} PlainQuoted(s: Text)
    requires forall i :: 0 <= i < |s| ==> 'A' <= s[i] <= 'z' && s[i] != '\\'
    ensures Escaped(s) == s && Quoted(s) == "\"" + s + "\""
  {
    if s != "" {
      PlainQuoted(s[1..]);
      assert [s[0]] + s[1..] == s;
    }
  }

  lemma ReportedIsProper(last: bool, uuid: Uuid)
    ensures var j := Reported(last, uuid, RESULT); Proper(j) && Depth(j) == 1
  {
    var m0, m1, m2 := ResultMembers(RESULT), UuidMembers(uuid, RESULT), StatusMembers(uuid, RESULT);
    var j := Reported(last, uuid, RESULT);
    assert ProperItems(Nil, true) && ProperItems(m0, true) && ProperItems(m1, true) && ProperItems(m2, true);
    assert DepthOfItems(m0) == 0;
    assert DepthOfItems(m1) == 0;
    assert DepthOfItems(m2) == 0;
    assert DepthOfItems(j.child) == 0;
  }

  /** Whoever takes a result apart with the client's decoder and parses its payload is told which kind of
      result it is, by which connection it was sent and that all went well. */
  lemma {:induction false} ResultUnderstood(last: bool, uuid: Uuid, trailing: seq<byte>, packageMaxLen: nat)
    requires packageMaxLen >= 0x400
    ensures var (t, payload) := ClientFraming.Unpacked(ResultBytes(last, uuid) + trailing, packageMaxLen);
      t == ClientFraming.TxtData && payload == Octets(ReportedText(last, uuid))
    ensures JsonSyntax.ParsedDocument(ReportedText(last, uuid), true) ==
            JsonSyntax.Done(Reported(last, uuid, RESULT), "")
  {
    hide Proper, Depth, ClientFraming.Unpacked, JsonSyntax.ParsedDocument, Reported, ResultWire;
    ReportedIsProper(last, uuid);
    ResultUnpacked(Octets(ReportedText(last, uuid)), trailing, packageMaxLen);
    JsonRoundTrip.ParsedPrint(Reported(last, uuid, RESULT), true, true);
  }
}
