/** What the texts of the opening handshake say, read independently of the way the two sides read them. */
module HeadTexts {
  import opened Bytes
  import opened CText
  import opened HttpText
  import opened Handshake
  import Decimal

  // The request.

  lemma FirstLine(f: Field, rest: seq<Field>)
    ensures Lined([f] + rest) == f.name + ": " + f.value + "\r\n" + Lined(rest)
  {
    assert ([f] + rest)[1..] == rest;
  }

  /** The request of the client, character by character. */
  lemma {:induction false} RequestText(path: string, ip: string, port: int, key: string)
    ensures RequestHead(path, ip, port, key) ==
      "GET " + path + " HTTP/1.1\r\n" + ("Connection: Upgrade\r\n" +
        ("Host: " + ip + ":" + Decimal.Text(port) + "\r\n" + ("Sec-WebSocket-Key: " + key + "\r\n" +
          ("Sec-WebSocket-Version: 13\r\n" + "Upgrade: websocket\r\n\r\n"))))
  {
    hide Lined, Decimal.Text;
    var host := ip + ":" + Decimal.Text(port);
    LastLine();
    VersionLine();
    KeyLine(key);
    HostLine(host, key);
    ConnectionLine(host, key);
    assert "Host: " + host + "\r\n" == "Host: " + ip + ":" + Decimal.Text(port) + "\r\n";
  }

  const UPGRADE := Field("Upgrade", "websocket")
  const VERSION := Field(VERSION_HEADER, "13")

  lemma LastLine()
    ensures Lined([UPGRADE]) == "Upgrade: websocket\r\n\r\n"
  {
    FirstLine(UPGRADE, []);
    assert Lined([]) == "\r\n" && [UPGRADE] + [] == [UPGRADE];
  }

  lemma VersionLine()
    ensures Lined([VERSION, UPGRADE]) == "Sec-WebSocket-Version: 13\r\n" + Lined([UPGRADE])
  {
    FirstLine(VERSION, [UPGRADE]);
    assert [VERSION] + [UPGRADE] == [VERSION, UPGRADE];
  }

  lemma KeyLine(key: string)
    ensures Lined([Field(KEY_HEADER, key), VERSION, UPGRADE]) ==
      "Sec-WebSocket-Key: " + key + "\r\n" + Lined([VERSION, UPGRADE])
  {
    FirstLine(Field(KEY_HEADER, key), [VERSION, UPGRADE]);
    assert [Field(KEY_HEADER, key)] + [VERSION, UPGRADE] == [Field(KEY_HEADER, key), VERSION, UPGRADE];
  }

  lemma HostLine(host: string, key: string)
    ensures Lined([Field("Host", host), Field(KEY_HEADER, key), VERSION, UPGRADE]) ==
      "Host: " + host + "\r\n" + Lined([Field(KEY_HEADER, key), VERSION, UPGRADE])
  {
    var rest := [Field(KEY_HEADER, key), VERSION, UPGRADE];
    FirstLine(Field("Host", host), rest);
    assert [Field("Host", host)] + rest == [Field("Host", host), Field(KEY_HEADER, key), VERSION, UPGRADE];
  }

  lemma ConnectionLine(host: string, key: string)
    ensures Lined([Field("Connection", "Upgrade"), Field("Host", host), Field(KEY_HEADER, key), VERSION, UPGRADE]) ==
      "Connection: Upgrade\r\n" + Lined([Field("Host", host), Field(KEY_HEADER, key), VERSION, UPGRADE])
  {
    var rest := [Field("Host", host), Field(KEY_HEADER, key), VERSION, UPGRADE];
    FirstLine(Field("Connection", "Upgrade"), rest);
    assert [Field("Connection", "Upgrade")] + rest ==
      [Field("Connection", "Upgrade"), Field("Host", host), Field(KEY_HEADER, key), VERSION, UPGRADE];
  }

  // Substrings.

  predicate Occurs(s: string, pattern: string, at: nat) {
    at <= |s| && pattern <= s[at..]
  }

  /** A search finds the first occurrence, and nothing exactly when there is none. */
  lemma {:induction false} FirstFound(s: string, pattern: string)
    ensures match Find(s, pattern)
      case Some(i) => Occurs(s, pattern, i) && forall j: nat :: j < i ==> !Occurs(s, pattern, j)
      case None => forall j: nat :: !Occurs(s, pattern, j)
  {
    if pattern <= s {
      assert s[0..] == s;
    } else if s != [] {
      FirstFound(s[1..], pattern);
      forall j: nat | 1 <= j <= |s| ensures s[1..][j - 1..] == s[j..] {
      }
      forall j: nat | j <= |s| && Occurs(s, pattern, j) ensures j > 0 && Occurs(s[1..], pattern, j - 1) {
        assert s[0..] == s;
      }
    }
  }

  // The headers.

  /** The text of some lines. */
  function Joined(lines: seq<string>): string {
    if lines == [] then "" else lines[0] + "\n" + Joined(lines[1..])
  }

  /** A line that gives a header a value: its name, a colon and a space come first and a carriage return last. */
  predicate Gives(line: string, name: string) {
    name + ": " <= line && EndsIn(line, '\r')
  }

  /** The value in the last line that gives the header one. */
  function LastGiven(lines: seq<string>, name: string): Option<string> {
    if lines == [] then None
    else
      var line := lines[|lines| - 1];
      if Gives(line, name) then Some(line[|name| + 2..|line| - 1]) else LastGiven(lines[..|lines| - 1], name)
  }

  function HeaderIn(headers: Headers, name: string): Option<string> {
    if name in headers then Some(headers[name]) else None
  }

  lemma {:induction false} FirstGiven(lines: seq<string>, name: string)
    requires lines != []
    ensures LastGiven(lines, name) ==
      if LastGiven(lines[1..], name).Some? then LastGiven(lines[1..], name) else LastGiven(lines[..1], name)
  {
    if |lines| > 1 {
      var init := lines[..|lines| - 1];
      assert lines[1..][..|lines| - 2] == init[1..] && init[..1] == lines[..1];
      assert lines[1..][|lines| - 2] == lines[|lines| - 1];
      if !Gives(lines[|lines| - 1], name) {
        FirstGiven(init, name);
      }
    } else {
      assert lines[..1] == lines && lines[1..] == [];
    }
  }

  lemma LineGives(headers: Headers, line: string, name: string)
    requires Without(name, ':') && EndsIn(line, '\r')
    ensures HeaderIn(Put(headers, line[..|line| - 1]), name) ==
      if Gives(line, name) then Some(line[|name| + 2..|line| - 1]) else HeaderIn(headers, name)
  {
    hide Find;
    var text := line[..|line| - 1];
    if Gives(line, name) {
      var value := line[|name| + 2..|line| - 1];
      assert text == name + ": " + value;
      PutHeader(headers, name, value);
    } else if Find(text, ": ").Some? {
      var end := Find(text, ": ").value;
      assert text[..end] + ": " <= line;
    }
  }

  /** A header has the value of the last line that gives it one; other lines do not matter. */
  lemma {:induction false} LastLineWins(lines: seq<string>, headers: Headers, name: string)
    requires Without(name, ':') && forall i :: 0 <= i < |lines| ==> lines[i] != "\r"
    ensures HeaderIn(ReadHeaders(lines, headers), name) ==
      if LastGiven(lines, name).Some? then LastGiven(lines, name) else HeaderIn(headers, name)
    decreases |lines|
  {
    if lines != [] {
      var line := lines[0];
      FirstGiven(lines, name);
      assert lines[..1][..0] == [];
      if EndsIn(line, '\r') {
        LineGives(headers, line, name);
        LastLineWins(lines[1..], Put(headers, line[..|line| - 1]), name);
      } else {
        LastLineWins(lines[1..], headers, name);
      }
    }
  }

  /** Nothing behind the first empty line is read. */
  lemma {:induction false} StopsAtEmptyLine(lines: seq<string>, more: seq<string>, headers: Headers)
    requires forall i :: 0 <= i < |lines| ==> lines[i] != "\r"
    ensures ReadHeaders(lines + (["\r"] + more), headers) == ReadHeaders(lines, headers)
    decreases |lines|
  {
    var all := lines + (["\r"] + more);
    if lines != [] {
      assert all[0] == lines[0] && all[1..] == lines[1..] + (["\r"] + more);
      if EndsIn(lines[0], '\r') {
        StopsAtEmptyLine(lines[1..], more, Put(headers, lines[0][..|lines[0]| - 1]));
      } else {
        StopsAtEmptyLine(lines[1..], more, headers);
      }
    } else {
      assert all[0] == "\r";
    }
  }

  lemma {:induction false} LinesOfJoined(lines: seq<string>, more: string)
    requires forall i :: 0 <= i < |lines| ==> Without(lines[i], '\n')
    ensures Lines(Joined(lines) + more) == lines + Lines(more)
    decreases |lines|
  {
    if lines == [] {
      assert "" + more == more && lines + Lines(more) == Lines(more);
    } else {
      var rest := Joined(lines[1..]) + more;
      assert Joined(lines) + more == lines[0] + "\n" + rest;
      LinesNext(lines[0], rest);
      LinesOfJoined(lines[1..], more);
      assert [lines[0]] + (lines[1..] + Lines(more)) == lines + Lines(more);
    }
  }

  /** What the server takes out of a head: a request line, lines of any kind, an empty line, and anything that makes all
      of it end in an empty line. */
  lemma {:induction false} HeadMeans(request: string, lines: seq<string>, more: string, headers: Headers, name: string)
    requires Without(request, '\n') && Without(name, ':')
    requires forall i :: 0 <= i < |lines| ==> Without(lines[i], '\n') && lines[i] != "\r"
    requires var head := request + "\r\n" + Joined(lines) + "\r\n" + more;
      |head| >= 4 && head[|head| - 4..] == "\r\n\r\n"
    ensures var parsed := ParsedHead(request + "\r\n" + Joined(lines) + "\r\n" + more, headers);
      && parsed.Some?
      && HeaderIn(parsed.value, name) ==
           if LastGiven(lines, name).Some? then LastGiven(lines, name) else HeaderIn(headers, name)
  {
    hide LastGiven, ReadHeaders, Lines, Joined;
    var rest := Joined(lines) + ("\r" + "\n" + more);
    assert request + "\r\n" + Joined(lines) + "\r\n" + more == (request + "\r") + "\n" + rest;
    UpToIs(request + "\r", '\n', rest);
    LinesOfJoined(lines, "\r" + "\n" + more);
    LinesNext("\r", more);
    StopsAtEmptyLine(lines, Lines(more), headers);
    LastLineWins(lines, headers, name);
  }

  /** A head is refused exactly when it does not end in an empty line or its first line does not end in a carriage
      return. */
  lemma {:induction false} HeadRefused(request: string, rest: string, headers: Headers)
    requires Without(request, '\n')
    ensures var head := request + "\n" + rest;
      ParsedHead(head, headers).None? <==>
        !(|head| >= 4 && head[|head| - 4..] == "\r\n\r\n") || request == "" || request[|request| - 1] != '\r'
    ensures ParsedHead(request, headers).None?
  {
    UpToIs(request, '\n', rest);
    if |request| >= 4 {
      assert request[|request| - 4..][1] == request[|request| - 3] != '\n';
    }
  }

  // The reply.

  /** Horizontal tab, line feed, vertical tab, form feed, carriage return and space. */
  const SPACES: set<char> := {'\t', '\n', 11 as char, 12 as char, '\r', ' '}

  predicate NoSpace(s: string) {
    forall i :: 0 <= i < |s| ==> s[i] !in SPACES
  }

  /** The token of a text is what stands between white space in front and white space behind. */
  lemma {:induction false} TokenMeans(white: string, token: string, after: string)
    requires (forall i :: 0 <= i < |white| ==> white[i] in SPACES) && NoSpace(token) && token != ""
    requires after == "" || after[0] in SPACES
    ensures Token(SkipSpace(white + token + after)) == token
    decreases |white|
  {
    var s := white + token + after;
    if white == "" {
      assert s == token + after;
      TokenOf(token, after);
    } else {
      assert s[0] == white[0] && s[1..] == white[1..] + token + after;
      TokenMeans(white[1..], token, after);
    }
  }

  lemma {:induction false} TokenOf(token: string, after: string)
    requires NoSpace(token) && (after == "" || after[0] in SPACES)
    ensures Token(token + after) == token
    decreases |token|
  {
    if token == "" {
      assert token + after == after;
    } else {
      assert (token + after)[1..] == token[1..] + after;
      TokenOf(token[1..], after);
      assert [token[0]] + token[1..] == token;
    }
  }

  /** A reply that starts with "HTTP" offers the token behind the first accept header, whatever else it says. */
  lemma {:induction false} TokenOffered(before: string, white: string, token: string, after: string)
    requires Without(before, '\0') && Without(white, '\0') && Without(token, '\0')
    requires (forall i :: 0 <= i < |white| ==> white[i] in SPACES) && NoSpace(token) && token != ""
    requires after == "" || after[0] == '\0' || after[0] in SPACES
    requires "HTTP" <= before
    requires forall j: nat :: j < |before| ==>
      !Occurs(before + "Sec-WebSocket-Accept: " + (white + token + after), "Sec-WebSocket-Accept: ", j)
    ensures Offered(before + "Sec-WebSocket-Accept: " + (white + token + after)) == Some(token)
  {
    hide Find, Token, SkipSpace, UpToNul, Without;
    var seen := white + token + UpToNul(after);
    Seen(before, white, token, after);
    UpToNulIsPrefix(after);
    assert seen <= white + token + after;
    FieldFound(before, seen, white + token + after);
    EndSeen(after);
    TokenMeans(white, token, UpToNul(after));
  }

  lemma EndSeen(after: string)
    requires after == "" || after[0] == '\0' || after[0] in SPACES
    ensures UpToNul(after) == "" || UpToNul(after)[0] in SPACES
  {
  }

  /** What is seen of a reply. */
  lemma Seen(before: string, white: string, token: string, after: string)
    requires Without(before, '\0') && Without(white, '\0') && Without(token, '\0')
    ensures UpToNul(before + ACCEPT_FIELD + (white + token + after)) ==
      before + ACCEPT_FIELD + (white + token + UpToNul(after))
  {
    hide UpToNul, Without;
    FrontIsText(before, white, token);
    UpToNulConcat(before + ACCEPT_FIELD + white + token, after);
    FiveParts(before, ACCEPT_FIELD, white, token, after);
    FiveParts(before, ACCEPT_FIELD, white, token, UpToNul(after));
  }

  lemma FiveParts(a: string, b: string, c: string, d: string, e: string)
    ensures a + b + (c + d + e) == a + b + c + d + e
  {
  }

  lemma FrontIsText(before: string, white: string, token: string)
    requires Without(before, '\0') && Without(white, '\0') && Without(token, '\0')
    ensures Without(before + ACCEPT_FIELD + white + token, '\0')
  {
  }

  lemma FieldFound(before: string, seen: string, all: string)
    requires seen <= all
    requires forall j: nat :: j < |before| ==> !Occurs(before + ACCEPT_FIELD + all, ACCEPT_FIELD, j)
    ensures Find(before + ACCEPT_FIELD + seen, ACCEPT_FIELD) == Some(|before|)
    ensures (before + ACCEPT_FIELD + seen)[|before| + |ACCEPT_FIELD|..] == seen
  {
    hide Find;
    var s := before + ACCEPT_FIELD + seen;
    FirstFound(s, ACCEPT_FIELD);
    assert s[|before|..] == ACCEPT_FIELD + seen;
    assert Occurs(s, ACCEPT_FIELD, |before|);
    forall j: nat | j < |before| ensures !Occurs(s, ACCEPT_FIELD, j) {
      if Occurs(s, ACCEPT_FIELD, j) {
        OccursIn(s, before + ACCEPT_FIELD + all, ACCEPT_FIELD, j);
      }
    }
  }

  lemma OccursIn(s: string, all: string, pattern: string, at: nat)
    requires s <= all && Occurs(s, pattern, at)
    ensures Occurs(all, pattern, at)
  {
    assert all[at..][..|s| - at] == s[at..];
  }

  /** A reply offers nothing exactly when its text, up to the first NUL, does not start with "HTTP" or holds no accept
      header. */
  lemma {:induction false} NothingToOffer(text: CText.Text, more: string)
    ensures Offered(text + "\0" + more).None? <==>
      !("HTTP" <= text) || forall j: nat :: !Occurs(text, "Sec-WebSocket-Accept: ", j)
    ensures Offered(text) == Offered(text + "\0" + more)
  {
    NulCuts(text, more);
    UpToNulSame(text);
    FirstFound(text, ACCEPT_FIELD);
  }
}
