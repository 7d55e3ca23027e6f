/** What the server answers to a request head, byte for byte. */
module Replies {
  import opened Bytes
  import opened AcceptKey
  import opened CText
  import opened Handshake
  import opened HttpText
  import opened ResultTexts
  import opened JsonTree
  import AcceptExample
  import Base64Text
  import ClientFraming
  import Decimal
  import Frame
  import JsonCompare
  import JsonSyntax

  // The head as it arrives.

  function TextOf(bytes: seq<byte>): (s: string)
    ensures |s| == |bytes| && IsOctets(s)
  {
    seq(|bytes|, i requires 0 <= i < |bytes| => bytes[i] as char)
  }

  /** The headers of a head that arrived in one go. Its length has to fit an `int`. */
  function HeadersOf(bytes: seq<byte>): Option<Headers> {
    if |bytes| > Frame.MAX_INT then None else ParsedHead(TextOf(bytes), map[])
  }

  predicate Fits(s: string, n: nat) {
    IsOctets(s) && |s| <= n
  }

  ghost predicate AllFit(headers: Headers, n: nat) {
    forall k :: k in headers ==> Fits(headers[k], n)
  }

  ghost predicate LinesFit(lines: seq<string>, n: nat) {
    forall l :: l in lines ==> Fits(l, n)
  }

  lemma {:induction false} UpToFits(s: string, c: char, n: nat)
    requires Fits(s, n)
    ensures Fits(UpTo(s, c).0, n) && Fits(UpTo(s, c).1, n)
    decreases |s|
  {
    if s != [] && s[0] != c {
      UpToFits(s[1..], c, n);
    }
  }

  lemma {:induction false} TextLinesFit(s: string, n: nat)
    requires Fits(s, n)
    ensures LinesFit(Lines(s), n)
    decreases |s|
  {
    if s != [] {
      var (line, rest) := UpTo(s, '\n');
      UpToFits(s, '\n', n);
      TextLinesFit(rest, n);
    }
  }

  lemma {:induction false} HeadersFit(lines: seq<string>, headers: Headers, n: nat)
    requires LinesFit(lines, n) && AllFit(headers, n)
    ensures AllFit(ReadHeaders(lines, headers), n)
    decreases |lines|
  {
    if lines != [] && lines[0] != "\r" {
      var line := lines[0];
      assert Fits(line, n);
      if EndsIn(line, '\r') {
        var header := line[..|line| - 1];
        assert Fits(header, n);
        HeadersFit(lines[1..], Put(headers, header), n);
      } else {
        HeadersFit(lines[1..], headers, n);
      }
    }
  }

  /** The key found in a head is one the accept key can be computed for. */
  lemma {:induction false} KeyIsUsable(bytes: seq<byte>)
    ensures HeadersOf(bytes).Some? ==> IsKey(KeyOf(HeadersOf(bytes).value))
    ensures IsKey(KeyOf(map[]))
  {
    if HeadersOf(bytes).Some? {
      var head, n := TextOf(bytes), |bytes|;
      UpToFits(head, '\n', n);
      var rest := UpTo(head, '\n').1;
      TextLinesFit(rest, n);
      HeadersFit(Lines(rest), map[], n);
      assert AllFit(HeadersOf(bytes).value, n);
    }
  }

  lemma TextOfOctets(s: string)
    requires IsOctets(s)
    ensures TextOf(Octets(s)) == s
  {
    forall i | 0 <= i < |s|
      ensures TextOf(Octets(s))[i] == s[i]
    {
      ByteOfValue(s[i] as nat);
    }
  }

  // The reply to it.

  lemma QuadOctets(g: bv24)
    ensures IsOctets(Base64Text.Quad(g))
  {
  }

  lemma {:induction false} EncodedOctets(data: seq<byte>)
    ensures IsOctets(Base64Text.Encoded(data))
    decreases |data|
  {
    if |data| >= 3 {
      EncodedOctets(data[3..]);
      QuadOctets(Base64Text.Group(data[0], data[1], data[2]));
    } else if data != [] {
      QuadOctets(Base64Text.Group(data[0], if |data| == 2 then data[1] else 0, 0));
    }
  }

  lemma ReplyOctets(status: nat, accept: string)
    requires IsOctets(accept)
    ensures IsOctets(Reply(status, accept))
  {
    StartIsOctets(status);
    assert IsOctets(ACCEPT_FIELD);
    assert IsOctets(REPLY_END);
    FourOctets(ReplyStart(status), ACCEPT_FIELD, accept, REPLY_END);
  }

  lemma StartIsOctets(status: nat)
    ensures IsOctets(ReplyStart(status))
  {
    DigitsAreOctets(Decimal.Digits(status));
    FourOctets("HTTP/1.1 ", Decimal.Digits(status), " Switching Protocols\r\n", "Connection: upgrade\r\n");
  }

  lemma DigitsAreOctets(s: string)
    requires Decimal.AllDigits(s)
    ensures IsOctets(s)
  {
  }

  /** The reply with the accept key that belongs to `key`. */
  function ReplyText(status: nat, key: string): (r: string)
    requires IsKey(key)
    ensures IsOctets(r)
  {
    EncodedOctets(DigestBytes(AcceptDigest(key)));
    ReplyOctets(status, Accept(key));
    Reply(status, Accept(key))
  }

  /** The client's request, delivered in one go, is answered with a reply the client accepts. */
  lemma {:induction false} RequestAnswered(path: string, ip: string, port: int, key: string)
    requires Without(path, '\n') && Without(ip, '\n') && Without(key, '\n') && IsKey(key)
    requires var head := RequestHead(path, ip, port, key); IsOctets(head) && |head| <= Frame.MAX_INT
    ensures var headers := HeadersOf(Octets(RequestHead(path, ip, port, key)));
      && headers.Some? && KeyOf(headers.value) == key
      && Offered(ReplyText(101, KeyOf(headers.value))) == Some(Accept(key))
  {
    hide IsKey, Accept, KeyOf, Offered, ParsedHead, RequestHead, Reply;
    AcceptIsToken(key);
    TextOfOctets(RequestHead(path, ip, port, key));
    HandshakeCompletes(path, ip, port, key, map[], 101, Accept(key));
  }

  /** What a connection sends: one answer to the head, and results. */
  datatype Answer = Switching(key: string) | Refusal(key: string) | Result(last: bool)
  {
    ghost predicate Valid() {
      Result? || IsKey(key)
    }

    ghost function Wire(uuid: Uuid): seq<byte>
      requires Valid()
    {
      match this
      case Switching(key) => Octets(ReplyText(101, key))
      case Refusal(key) => Octets(ReplyText(400, key))
      case Result(last) => ResultBytes(last, uuid)
    }
  }

  // What the answers contain.

  const START_101 :=
    "HTTP/1.1 101 Switching Protocols\r\n" + "Connection: upgrade\r\n" + "Sec-WebSocket-Accept: "
  const START_400 :=
    "HTTP/1.1 400 Switching Protocols\r\n" + "Connection: upgrade\r\n" + "Sec-WebSocket-Accept: "

  lemma Statuses()
    ensures Decimal.Digits(101) == "101" && Decimal.Digits(400) == "400"
  {
    assert Decimal.Digits(1) == "1" && Decimal.Digits(10) == "10";
    assert Decimal.Digits(4) == "4" && Decimal.Digits(40) == "40";
  }

  lemma ReplyStarts()
    ensures ReplyStart(101) + ACCEPT_FIELD == START_101 && ReplyStart(400) + ACCEPT_FIELD == START_400
  {
    hide Decimal.Digits;
    Statuses();
    Line101();
    Line400();
  }

  lemma Line101()
    ensures "HTTP/1.1 " + "101" + " Switching Protocols\r\n" == "HTTP/1.1 101 Switching Protocols\r\n"
  {
  }

  lemma Line400()
    ensures "HTTP/1.1 " + "400" + " Switching Protocols\r\n" == "HTTP/1.1 400 Switching Protocols\r\n"
  {
  }

  lemma ReplyOf(status: nat, start: string, key: string)
    requires IsKey(key) && ReplyStart(status) + ACCEPT_FIELD == start
    ensures ReplyText(status, key) == start + Accept(key) + "\r\nUpgrade: websocket\r\n\r\n"
  {
    hide ReplyStart, Accept, IsKey;
  }

  /** A good head is answered with status 101 and the accept key of its key, which is the one the client reads. */
  lemma {:induction false} SwitchingSent(key: string, uuid: Uuid)
    requires IsKey(key)
    ensures var text := START_101 + Accept(key) + "\r\nUpgrade: websocket\r\n\r\n";
      && IsOctets(text) && Switching(key).Wire(uuid) == Octets(text) && TextOf(Octets(text)) == text
      && Offered(text) == Some(Accept(key))
  {
    hide Accept, IsKey, Offered, ReplyStart;
    ReplyStarts();
    ReplyOf(101, START_101, key);
    TextOfOctets(ReplyText(101, key));
    AcceptIsToken(key);
    UpToNulSame(Accept(key));
    OfferedIsAccept(101, Accept(key));
  }

  /** A bad head is answered with status 400. */
  lemma {:induction false} RefusalSent(key: string, uuid: Uuid)
    requires IsKey(key)
    ensures var text := START_400 + Accept(key) + "\r\nUpgrade: websocket\r\n\r\n";
      IsOctets(text) && Refusal(key).Wire(uuid) == Octets(text)
  {
    hide Accept, IsKey, ReplyStart;
    ReplyStarts();
    ReplyOf(400, START_400, key);
  }

  /** The answer to the request that RFC 6455 gives as its example. */
  lemma {:induction false} ExampleAnswered(uuid: Uuid)
    ensures IsKey(AcceptExample.KEY)
    ensures var text := START_101 + "s3pPLMBiTxaQ9kYGzzhZRbK+xOo=" + "\r\nUpgrade: websocket\r\n\r\n";
      IsOctets(text) && Switching(AcceptExample.KEY).Wire(uuid) == Octets(text)
  {
    hide Accept, IsKey;
    AcceptExample.ExampleAccepted();
    SwitchingSent(AcceptExample.KEY, uuid);
  }

  /** Whoever unpacks a result and parses it finds an object that says whether it is the last one, that all went well,
      and by which connection it was sent. */
  lemma {:induction false} ResultSent(last: bool, uuid: Uuid, trailing: seq<byte>, packageMaxLen: nat)
    requires packageMaxLen >= 0x400
    ensures var (t, payload) := ClientFraming.Unpacked(Result(last).Wire(uuid) + trailing, packageMaxLen);
      var r := JsonSyntax.ParsedDocument(TextOf(payload), true);
      && t == ClientFraming.TxtData && r.Done? && r.value.Object?
      && JsonCompare.Lookup(r.value.child, Some("result_type"), true) == Some(Number(if last then 1 else 0))
      && JsonCompare.Lookup(r.value.child, Some("status"), true) == Some(Number(0))
      && JsonCompare.Lookup(r.value.child, Some("uuid"), true) == Some(Str(uuid))
      && JsonCompare.Lookup(r.value.child, Some("result"), true) == Some(Str("Websocket"))
  {
    hide ClientFraming.Unpacked, JsonSyntax.ParsedDocument, ReportedText;
    ResultUnderstood(last, uuid, trailing, packageMaxLen);
    TextOfOctets(ReportedText(last, uuid));
    MembersFound(last, uuid);
  }

  lemma MembersFound(last: bool, uuid: Uuid)
    ensures var child := Reported(last, uuid, RESULT).child;
      && JsonCompare.Lookup(child, Some("result_type"), true) == Some(Number(if last then 1 else 0))
      && JsonCompare.Lookup(child, Some("status"), true) == Some(Number(0))
      && JsonCompare.Lookup(child, Some("uuid"), true) == Some(Str(uuid))
      && JsonCompare.Lookup(child, Some("result"), true) == Some(Str("Websocket"))
  {
    var m3 := ResultMembers(RESULT);
    var m2 := UuidMembers(uuid, RESULT);
    var m1 := StatusMembers(uuid, RESULT);
    assert "status" != "result_type" && "uuid" != "result_type" && "uuid" != "status";
    assert |"result"| == 6 && |"result_type"| == 11 && |"status"| == 6 && "result"[0] == 'r' && "status"[0] == 's';
    assert |"uuid"| == 4;
    assert JsonCompare.Lookup(m3, Some("result"), true) == Some(Str(RESULT));
    assert JsonCompare.Lookup(m2, Some("result"), true) == Some(Str(RESULT));
    assert JsonCompare.Lookup(m1, Some("result"), true) == Some(Str(RESULT));
    assert JsonCompare.Lookup(m2, Some("uuid"), true) == Some(Str(uuid));
    assert JsonCompare.Lookup(m1, Some("uuid"), true) == Some(Str(uuid));
  }
}
