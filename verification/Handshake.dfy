/** The opening handshake: the client's request, the server's reading of it, the reply, and the client's check. */
module Handshake {
  import opened Bytes
  import opened CText
  import opened HttpText
  import opened AcceptKey
  import Base64Text
  import Decimal

  type Headers = map<string, string>

  // The server's reading of a head.

  predicate EndsIn(s: string, c: char) {
    s != [] && s[|s| - 1] == c
  }

  predicate IsComplete(head: string) {
    |head| >= 4 && head[|head| - 4..] == "\r\n\r\n"
  }

  /** The header of one line without its carriage return; later lines win. */
  function Put(headers: Headers, line: string): Headers {
    match Find(line, ": ")
    case None => headers
    case Some(end) => headers[line[..end] := line[end + 2..]]
  }

  /** Lines are read up to the empty one; a line that does not end in a carriage return is skipped. */
  function ReadHeaders(lines: seq<string>, headers: Headers): Headers
    decreases |lines|
  {
    if lines == [] || lines[0] == "\r" then headers
    else if EndsIn(lines[0], '\r') then ReadHeaders(lines[1..], Put(headers, lines[0][..|lines[0]| - 1]))
    else ReadHeaders(lines[1..], headers)
  }

  function ParsedHead(head: string, headers: Headers): Option<Headers> {
    if !IsComplete(head) then None
    else
      var (request, rest) := UpTo(head, '\n');
      if EndsIn(request, '\r') then Some(ReadHeaders(Lines(rest), headers)) else None
  }

  method ParseHead(head: string, headers_: Headers) returns (ok: bool, headers: Headers)
    ensures ok <==> ParsedHead(head, headers_).Some?
    ensures headers == if ok then ParsedHead(head, headers_).value else headers_
  {
    headers := headers_;
    if !IsComplete(head) {
      return false, headers;
    }
    var (request, s) := UpTo(head, '\n');
    if !EndsIn(request, '\r') {
      return false, headers;
    }
    while s != []
      invariant ReadHeaders(Lines(s), headers) == ReadHeaders(Lines(UpTo(head, '\n').1), headers_)
      decreases |s|
    {
      var (header, rest) := UpTo(s, '\n');
      assert Lines(s) == [header] + Lines(rest);
      if header == "\r" {
        break;
      }
      if EndsIn(header, '\r') {
        header := header[..|header| - 1];
        var end := Find(header, ": ");
        if end.Some? {
          headers := headers[header[..end.value] := header[end.value + 2..]];
        }
      }
      s := rest;
    }
    ok := true;
  }

  const KEY_HEADER := "Sec-WebSocket-Key"

  /** The lookup of a missing header creates an empty one. */
  function KeyOf(headers: Headers): string {
    if KEY_HEADER in headers then headers[KEY_HEADER] else ""
  }

  // Heads built from header fields.

  datatype Field = Field(name: string, value: string)

  /** Header lines, each closed by carriage return and line feed, then an empty line. */
  function Lined(fields: seq<Field>): string {
    if fields == [] then "\r\n"
    else (fields[0].name + ": " + fields[0].value + "\r") + "\n" + Lined(fields[1..])
  }

  predicate IsLine(f: Field) {
    Without(f.name, ':') && Without(f.name, '\n') && Without(f.value, '\n')
  }

  predicate WellFormed(fields: seq<Field>) {
    forall i :: 0 <= i < |fields| ==> IsLine(fields[i])
  }

  /** The headers after setting every field in order. */
  function SetAll(fields: seq<Field>, headers: Headers): Headers {
    if fields == [] then headers else SetAll(fields[1..], headers[fields[0].name := fields[0].value])
  }

  lemma {:induction false} FindFirst(name: string, value: string)
    requires Without(name, ':')
    ensures Find(name + ": " + value, ": ") == Some(|name|)
    decreases |name|
  {
    var s := name + ": " + value;
    if name == [] {
      assert ": " <= s;
    } else {
      assert s[0] == name[0] && s[1..] == name[1..] + ": " + value;
      FindFirst(name[1..], value);
    }
  }

  /** A well-formed header line sets its header. */
  lemma PutHeader(headers: Headers, name: string, value: string)
    requires Without(name, ':')
    ensures Put(headers, name + ": " + value) == headers[name := value]
  {
    var s := name + ": " + value;
    FindFirst(name, value);
    assert s[..|name|] == name && s[|name| + 2..] == value;
  }

  lemma LineRead(headers: Headers, line: string, text: string)
    requires Without(line, '\n') && line != []
    ensures ReadHeaders(Lines((line + "\r") + "\n" + text), headers) == ReadHeaders(Lines(text), Put(headers, line))
  {
    var full := line + "\r";
    LinesNext(full, text);
    assert full[..|full| - 1] == line && full != "\r";
    assert ([full] + Lines(text))[1..] == Lines(text);
  }

  lemma LastLineRead(headers: Headers)
    ensures ReadHeaders(Lines("\r\n"), headers) == headers
  {
    LinesNext("\r", "");
    assert "\r" + "\n" + "" == "\r\n";
  }

  /** The server reads back every field of a head, whatever the values contain besides line feeds. */
  lemma {:induction false} FieldsRead(fields: seq<Field>, headers: Headers)
    requires WellFormed(fields)
    ensures ReadHeaders(Lines(Lined(fields)), headers) == SetAll(fields, headers)
    decreases |fields|
  {
    if fields == [] {
      LastLineRead(headers);
    } else {
      var f := fields[0];
      LineRead(headers, f.name + ": " + f.value, Lined(fields[1..]));
      PutHeader(headers, f.name, f.value);
      FieldsRead(fields[1..], headers[f.name := f.value]);
    }
  }

  lemma {:induction false} LinedEnd(fields: seq<Field>)
    requires fields != []
    ensures |Lined(fields)| >= 4 && Lined(fields)[|Lined(fields)| - 4..] == "\r\n\r\n"
    decreases |fields|
  {
    var s, rest := Lined(fields), Lined(fields[1..]);
    assert s[|s| - |rest|..] == rest && s[|s| - |rest| - 2..|s| - |rest|] == "\r" + "\n";
    if |fields| > 1 {
      LinedEnd(fields[1..]);
      assert s[|s| - 4..] == rest[|rest| - 4..];
    }
  }

  lemma HeadRead(request: string, fields: seq<Field>, headers: Headers)
    requires Without(request, '\n') && WellFormed(fields) && fields != []
    ensures ParsedHead(request + "\r" + "\n" + Lined(fields), headers) == Some(SetAll(fields, headers))
  {
    var head := request + "\r" + "\n" + Lined(fields);
    LinedEnd(fields);
    assert head[|head| - 4..] == Lined(fields)[|Lined(fields)| - 4..];
    UpToIs(request + "\r", '\n', Lined(fields));
    FieldsRead(fields, headers);
  }

  // The client's request.

  const VERSION_HEADER := "Sec-WebSocket-Version"

  function RequestFields(ip: string, port: int, key: string): seq<Field> {
    [Field("Connection", "Upgrade"), Field("Host", ip + ":" + Decimal.Text(port)), Field(KEY_HEADER, key),
     Field(VERSION_HEADER, "13"), Field("Upgrade", "websocket")]
  }

  function RequestLine(path: string): string {
    "GET " + path + " HTTP/1.1"
  }

  function RequestHead(path: string, ip: string, port: int, key: string): string {
    RequestLine(path) + "\r" + "\n" + Lined(RequestFields(ip, port, key))
  }

  lemma DigitsWithout(s: string, c: char)
    requires Decimal.AllDigits(s) && !Decimal.IsDigit(c)
    ensures Without(s, c)
  {
  }

  lemma PortWithoutNewline(port: int)
    ensures Without(Decimal.Text(port), '\n')
  {
    DigitsWithout(Decimal.Digits(if port < 0 then -port else port), '\n');
  }

  lemma RequestWellFormed(ip: string, port: int, key: string)
    requires Without(ip, '\n') && Without(key, '\n')
    ensures WellFormed(RequestFields(ip, port, key))
  {
    hide WellFormed, Decimal.Text;
    HostIsLine(ip, port);
    FixedLines(key);
    FiveLines(Field("Connection", "Upgrade"), Field("Host", ip + ":" + Decimal.Text(port)), Field(KEY_HEADER, key),
      Field(VERSION_HEADER, "13"), Field("Upgrade", "websocket"));
  }

  lemma FixedLines(key: string)
    requires Without(key, '\n')
    ensures IsLine(Field("Connection", "Upgrade")) && IsLine(Field("Upgrade", "websocket"))
    ensures IsLine(Field(KEY_HEADER, key)) && IsLine(Field(VERSION_HEADER, "13"))
  {
    Names();
  }

  lemma FiveLines(a: Field, b: Field, c: Field, d: Field, e: Field)
    requires IsLine(a) && IsLine(b) && IsLine(c) && IsLine(d) && IsLine(e)
    ensures WellFormed([a, b, c, d, e])
  {
  }

  lemma HostIsLine(ip: string, port: int)
    requires Without(ip, '\n')
    ensures IsLine(Field("Host", ip + ":" + Decimal.Text(port)))
  {
    PortWithoutNewline(port);
  }

  lemma Names()
    ensures Without(KEY_HEADER, ':') && Without(KEY_HEADER, '\n') 
    ensures Without(VERSION_HEADER, ':') && Without(VERSION_HEADER, '\n') && VERSION_HEADER != KEY_HEADER
    ensures KEY_HEADER != "Connection" && KEY_HEADER != "Host" && KEY_HEADER != "Upgrade"
  {
  }

  lemma SetAllTwo(fields: seq<Field>, headers: Headers)
    requires |fields| >= 2
    ensures SetAll(fields, headers) ==
      SetAll(fields[2..], headers[fields[0].name := fields[0].value][fields[1].name := fields[1].value])
  {
    assert fields[1..][0] == fields[1] && fields[1..][1..] == fields[2..];
  }

  lemma KeyIsSet(fields: seq<Field>, headers: Headers, key: string)
    requires |fields| == 5 && fields[2] == Field(KEY_HEADER, key)
    requires fields[3].name != KEY_HEADER && fields[4].name != KEY_HEADER
    ensures KeyOf(SetAll(fields, headers)) == key
  {
    var h1 := headers[fields[0].name := fields[0].value];
    var h2 := h1[fields[1].name := fields[1].value];
    SetAllTwo(fields, headers);
    assert fields[2..][0] == fields[2] && fields[2..][1] == fields[3] && fields[2..][2..] == [fields[4]];
    SetAllTwo(fields[2..], h2);
    assert [fields[4]][1..] == [];
  }

  /** The key the client put into its request is the key the server takes out of it, whatever headers it had. */
  lemma {:induction false} KeyReachesServer(path: string, ip: string, port: int, key: string, headers: Headers)
    requires Without(path, '\n') && Without(ip, '\n') && Without(key, '\n')
    ensures var parsed := ParsedHead(RequestHead(path, ip, port, key), headers);
      parsed.Some? && KeyOf(parsed.value) == key
  {
    var fields := RequestFields(ip, port, key);
    RequestWellFormed(ip, port, key);
    HeadRead(RequestLine(path), fields, headers);
    Names();
    KeyIsSet(fields, headers, key);
  }

  // The reply.

  const ACCEPT_FIELD := "Sec-WebSocket-Accept: "
  const REPLY_END := "\r\nUpgrade: websocket\r\n\r\n"

  function ReplyStart(status: nat): string {
    "HTTP/1.1 " + Decimal.Digits(status) + " Switching Protocols\r\n" + "Connection: upgrade\r\n"
  }

  /** The same text answers a handshake and reports an error; only the status differs. */
  function Reply(status: nat, accept: string): string {
    ReplyStart(status) + ACCEPT_FIELD + accept + REPLY_END
  }

  // The client's check.

  /** The white space that ends a `%s` token: tab, line feed, vertical tab, form feed, carriage return, space. */
  predicate IsSpace(c: char) {
    c == ' ' || 9 <= c as nat <= 13
  }

  function SkipSpace(s: string): (r: string)
    ensures |r| <= |s| && (r != [] ==> !IsSpace(r[0]))
  {
    if s != [] && IsSpace(s[0]) then SkipSpace(s[1..]) else s
  }

  function Token(s: string): (r: string)
    ensures |r| <= |s|
  {
    if s == [] || IsSpace(s[0]) then [] else [s[0]] + Token(s[1..])
  }

  /** A token is read over the text it stands in; when there is none the text stays. */
  function Scanned(s: string): string {
    var token := Token(SkipSpace(s));
    if token == [] then s else token
  }

  /** The client looks for the accept header anywhere in a reply that starts with "HTTP", up to the first NUL; the
      status is not read. */
  function Offered(reply: string): Option<string> {
    var received := UpToNul(reply);
    if !("HTTP" <= received) then None
    else match Find(received, ACCEPT_FIELD)
      case None => None
      case Some(at) => Some(Scanned(received[at + |ACCEPT_FIELD|..]))
  }

  /** The string functions see no more of what was received than the part before the first NUL. */
  method FindAccept(reply: string) returns (acceptKey: Option<string>)
    ensures acceptKey == Offered(reply)
  {
    var recBuf := UpToNul(reply);
    acceptKey := None;
    if "HTTP" <= recBuf {
      var p := Find(recBuf, ACCEPT_FIELD);
      if p.Some? {
        acceptKey := Some(Scanned(recBuf[p.value + |ACCEPT_FIELD|..]));
      }
    }
  }

  /** Compares the offered key with the one computed here, by length and then by contents. */
  method MatchShakeKey(myKey: string, acceptKey: string) returns (same: bool)
    requires IsKey(myKey)
    ensures same <==> acceptKey == Accept(myKey)
  {
    var tempKey := ClientAccept(myKey);
    same := if |tempKey| != |acceptKey| then false else tempKey == acceptKey;
  }

  method ClientChecks(reply: string, key: string) returns (accepted: bool)
    requires IsKey(key)
    ensures accepted <==> Offered(reply) == Some(Accept(key))
  {
    var p := FindAccept(reply);
    accepted := false;
    if p.Some? {
      accepted := MatchShakeKey(key, p.value);
    }
  }

  // Whether the client accepts depends on the accept key alone.

  predicate IsToken(s: string) {
    s != [] && forall i :: 0 <= i < |s| ==> !IsSpace(s[i])
  }

  /** A token ends where white space follows. */
  lemma {:induction false} TokenRead(s: string, rest: string)
    requires rest != [] && IsSpace(rest[0])
    ensures Token(s + rest) == Token(s)
  {
    if s == [] {
      assert s + rest == rest;
    } else {
      assert (s + rest)[1..] == s[1..] + rest;
      TokenRead(s[1..], rest);
    }
  }

  lemma {:induction false} SpaceSkipped(s: string, rest: string)
    ensures SkipSpace(s + rest) == if SkipSpace(s) == [] then SkipSpace(rest) else SkipSpace(s) + rest
  {
    if s == [] {
      assert s + rest == rest;
    } else {
      assert (s + rest)[1..] == s[1..] + rest;
      SpaceSkipped(s[1..], rest);
    }
  }

  lemma {:induction false} TokenIsItself(s: string)
    requires forall i :: 0 <= i < |s| ==> !IsSpace(s[i])
    ensures Token(SkipSpace(s)) == s
  {
    if s != [] {
      TokenIsItself(s[1..]);
      assert [s[0]] + s[1..] == s;
    }
  }

  lemma AvoidsPieces(a: string, b: string, c: string, d: string)
    requires Avoids(a, 'S', 'e') && Avoids(b, 'S', 'e') && Avoids(c, 'S', 'e') && Avoids(d, 'S', 'e')
    ensures Avoids(a + b + c + d, 'S', 'e')
  {
    AvoidsConcat(a, b, 'S', 'e');
    AvoidsConcat(a + b, c, 'S', 'e');
    AvoidsConcat(a + b + c, d, 'S', 'e');
  }

  lemma DigitsAvoid(s: string)
    requires Decimal.AllDigits(s)
    ensures Avoids(s, 'S', 'e')
  {
  }

  lemma ReplyStartAvoids(status: nat)
    ensures Avoids(ReplyStart(status), 'S', 'e') && Without(ReplyStart(status), '\0')
    ensures "HTTP/1.1 " <= ReplyStart(status)
  {
    hide Avoids, Decimal.Digits;
    var digits := Decimal.Digits(status);
    DigitsAvoid(digits);
    FixedStarts();
    AvoidsPieces("HTTP/1.1 ", digits, " Switching Protocols\r\n", "Connection: upgrade\r\n");
    DigitsWithout(digits, '\0');
  }

  lemma FixedStarts()
    ensures Avoids("HTTP/1.1 ", 'S', 'e') && Avoids(" Switching Protocols\r\n", 'S', 'e')
    ensures Avoids("Connection: upgrade\r\n", 'S', 'e')
  {
  }

  lemma OfferedBehind(before: string, name: string, accept: string, end: string)
    requires |name| >= 2 && Avoids(before, name[0], name[1])
    ensures Find(before + name + accept + end, name) == Some(|before|)
    ensures (before + name + accept + end)[|before| + |name|..] == accept + end
  {
    hide Find, Avoids;
    FindBehind(before, name + (accept + end), name);
    assert before + name + accept + end == before + (name + (accept + end));
  }

  lemma HttpFirst(before: string, reply: string)
    requires before <= reply && "HTTP/1.1 " <= before
    ensures "HTTP" <= reply
  {
    assert "HTTP" == "HTTP/1.1 "[..4];
  }

  /** Whatever a reply carries as its accept key, under whatever status, is what the client reads, up to a NUL. */
  lemma {:induction false} OfferedIsAccept(status: nat, accept: string)
    ensures Offered(Reply(status, accept)) == Some(Scanned(UpToNul(accept + REPLY_END)))
    ensures IsToken(accept) ==> Offered(Reply(status, accept)) == Some(UpToNul(accept))
  {
    hide Find, Avoids, Without, Scanned, ReplyStart, UpToNul, IsSpace, Token, SkipSpace;
    var before, u := ReplyStart(status), UpToNul(accept + REPLY_END);
    ReplyStartAvoids(status);
    FieldIsText(before);
    UpToNulConcat(before + ACCEPT_FIELD, accept + REPLY_END);
    assert Reply(status, accept) == before + ACCEPT_FIELD + (accept + REPLY_END);
    OfferedBehind(before, ACCEPT_FIELD, u, "");
    assert before + ACCEPT_FIELD + u + "" == before + ACCEPT_FIELD + u && u + "" == u;
    HttpFirst(before, before + ACCEPT_FIELD + u);
    if IsToken(accept) {
      TokenScanned(accept);
    }
  }

  lemma FieldIsText(before: string)
    requires Without(before, '\0')
    ensures Without(before + ACCEPT_FIELD, '\0')
  {
  }

  lemma EndIsText()
    ensures UpToNul(REPLY_END) == REPLY_END && |REPLY_END| < 28 && IsSpace(REPLY_END[0])
  {
    UpToNulSame(REPLY_END);
  }

  lemma TokenScanned(accept: string)
    requires IsToken(accept)
    ensures Scanned(UpToNul(accept + REPLY_END)) == UpToNul(accept)
  {
    var u := UpToNul(accept);
    UpToNulIsPrefix(accept);
    TokenIsItself(u);
    UpToNulConcat(accept, REPLY_END);
    EndIsText();
    if u == accept {
      SpaceSkipped(accept, REPLY_END);
      TokenRead(SkipSpace(accept), REPLY_END);
    }
  }

  /** The client reads the first token of what a reply carries, when there is one; otherwise no token, or a word of the
      text behind it. */
  lemma {:induction false} ScannedTokens(accept: string, end: string)
    requires UpToNul(end) == end && end != [] && IsSpace(end[0])
    ensures var token, scanned := Token(SkipSpace(UpToNul(accept))), Scanned(UpToNul(accept + end));
      if token != [] then scanned == token else !IsToken(scanned) || |scanned| <= |end|
  {
    hide UpToNul;
    UpToNulConcat(accept, end);
    if UpToNul(accept) == accept {
      SpaceSkipped(accept, end);
      if SkipSpace(accept) != [] {
        TokenRead(SkipSpace(accept), end);
      } else {
        assert (accept + end)[|accept|] == end[0];
      }
    }
  }

  /** The client accepts a reply exactly when the first token of the accept key it carries, read up to a NUL, is the
      right key; for a token that is the key up to its first NUL. */
  lemma {:induction false} AcceptedExactly(status: nat, accept: string, key: string)
    requires IsKey(key)
    ensures Offered(Reply(status, accept)) == Some(Accept(key)) <==> Token(SkipSpace(UpToNul(accept))) == Accept(key)
    ensures IsToken(accept) ==>
      (Offered(Reply(status, accept)) == Some(Accept(key)) <==> UpToNul(accept) == Accept(key))
  {
    hide Offered, Reply, Scanned, Token, SkipSpace, UpToNul;
    OfferedIsAccept(status, accept);
    EndIsText();
    ScannedTokens(accept, REPLY_END);
    AcceptIsToken(key);
    TokenIsItself(Accept(key));
  }

  lemma {:induction false} EncodedIsToken(data: seq<byte>)
    ensures forall i :: 0 <= i < |Base64Text.Encoded(data)| ==> !IsSpace(Base64Text.Encoded(data)[i])
    ensures Without(Base64Text.Encoded(data), '\0')
    ensures data != [] ==> Base64Text.Encoded(data) != []
    decreases |data|
  {
    if |data| >= 3 {
      EncodedIsToken(data[3..]);
      QuadIsToken(Base64Text.Group(data[0], data[1], data[2]));
    } else if data != [] {
      QuadIsToken(Base64Text.Group(data[0], if |data| == 2 then data[1] else 0, 0));
    }
  }

  lemma QuadIsToken(g: bv24)
    ensures forall i :: 0 <= i < 4 ==> !IsSpace(Base64Text.Quad(g)[i]) && Base64Text.Quad(g)[i] != '\0'
  {
    hide Base64Text.Sextet, Base64Text.Digit;
    forall i: nat | i < 4 {
      Base64Text.DigitIsDigit(Base64Text.Sextet(g, i) as nat);
    }
  }

  lemma AcceptIsToken(key: string)
    requires IsKey(key)
    ensures IsToken(Accept(key)) && |Accept(key)| == 28 && Without(Accept(key), '\0')
  {
    hide AcceptDigest, DigestBytes, Base64Text.Encoded, IsSpace;
    EncodedIsToken(DigestBytes(AcceptDigest(key)));
    var quanta := Base64Text.EncodedLength(DigestBytes(AcceptDigest(key)));
  }

  /** Bytes behind a NUL are not looked at: a reply that offers the right key, a NUL and anything else is accepted
      although it offers another key, and a reply with a NUL before the key is refused although it offers the key. */
  lemma {:induction false} NulHidesTheRest(key: string, status: nat, more: string)
    requires IsKey(key)
    ensures var accept := Accept(key) + "\0" + more;
      accept != Accept(key) && Offered(Reply(status, accept)) == Some(Accept(key))
    ensures Offered("HTTP\0" + Reply(status, Accept(key))) == None
  {
    hide Reply, Accept, Offered, Token, SkipSpace;
    AcceptIsToken(key);
    TokenIsItself(Accept(key));
    NulCuts(Accept(key), more);
    AcceptedExactly(status, Accept(key) + "\0" + more, key);
    NothingOffered(Reply(status, Accept(key)));
  }

  lemma NulCuts(s: string, more: string)
    requires Without(s, '\0')
    ensures UpToNul(s + "\0" + more) == s
  {
    UpToNulConcat(s, "\0" + more);
    assert s + "\0" + more == s + ("\0" + more);
  }

  lemma NothingOffered(reply: string)
    ensures Offered("HTTP\0" + reply) == None
  {
    assert "HTTP" + "\0" + reply == "HTTP\0" + reply;
    NulCuts("HTTP", reply);
  }

  /** The client accepts the reply to its own request, and another reply exactly when the accept key it carries is the
      right one up to a NUL. */
  lemma {:induction false} HandshakeCompletes(path: string, ip: string, port: int, key: string, headers: Headers,
                                              status: nat, accept: string)
    requires Without(path, '\n') && Without(ip, '\n') && Without(key, '\n') && IsKey(key)
    ensures var parsed := ParsedHead(RequestHead(path, ip, port, key), headers);
      parsed.Some? && KeyOf(parsed.value) == key &&
        Offered(Reply(101, Accept(KeyOf(parsed.value)))) == Some(Accept(key))
    ensures Offered(Reply(status, accept)) == Some(Accept(key)) <==> Token(SkipSpace(UpToNul(accept))) == Accept(key)
    ensures IsToken(accept) ==>
      (Offered(Reply(status, accept)) == Some(Accept(key)) <==> UpToNul(accept) == Accept(key))
  {
    hide *;
    KeyReachesServer(path, ip, port, key, headers);
    AcceptIsToken(key);
    UpToNulSame(Accept(key));
    AcceptedExactly(101, Accept(key), key);
    AcceptedExactly(status, accept, key);
  }

  /** The reply to a request leaves room for a terminator in the 512 bytes the client receives into. */
  lemma ReplyFits(key: string)
    requires IsKey(key)
    ensures |Reply(101, Accept(key))| < 512
  {
    AcceptIsToken(key);
    assert 101 < Decimal.Power10(3) by {
      assert Decimal.Power10(1) == 10 && Decimal.Power10(2) == 100;
    }
    Decimal.DigitsLength(101, 3);
  }
}
