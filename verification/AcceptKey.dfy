/** The accept key of section 4.2.2 of RFC 6455, as the server and the client compute it. */
module AcceptKey {
  import opened Bytes
  import opened CText
  import opened Hex
  import opened HttpText
  import opened Sha1Digest
  import Base64Text
  import ClientBase64
  import ServerBase64
  import Sha1

  const MAGIC_KEY := "258EAFA5-E914-47DA-95CA-C5AB0DC85B11"

  lemma MagicKeyIsOctets()
    ensures IsOctets(MAGIC_KEY) && |MAGIC_KEY| == 36
  {
  }

  lemma OctetsConcat(a: string, b: string)
    requires IsOctets(a) && IsOctets(b)
    ensures IsOctets(a + b)
  {
  }

  /** The twenty bytes of a digest, each word most significant byte first. */
  function DigestBytes(d: Five): (r: seq<byte>)
    ensures |r| == 20
  {
    BigEndian(d.a as nat, 4) + BigEndian(d.b as nat, 4) + BigEndian(d.c as nat, 4) + BigEndian(d.d as nat, 4)
    + BigEndian(d.e as nat, 4)
  }

  /** The keys whose hash input can be built with 32-bit sizes. */
  predicate IsKey(key: string) {
    IsOctets(key) && |key| + 47 < 0x1_0000_0000
  }

  function HashInput(key: string): (r: seq<byte>)
    requires IsKey(key)
    ensures |r| < MAX_BYTES
  {
    MagicKeyIsOctets();
    OctetsConcat(key, MAGIC_KEY);
    UpToNulIsPrefix(key + MAGIC_KEY);
    Octets(UpToNul(key + MAGIC_KEY))
  }

  function AcceptDigest(key: string): Five
    requires IsKey(key)
  {
    Digest(HashInput(key))
  }

  /** The accept key: base 64 of the digest of the key followed by the fixed identifier. */
  function Accept(key: string): string
    requires IsKey(key)
  {
    Base64Text.Encoded(DigestBytes(AcceptDigest(key)))
  }

  lemma AcceptOf(key: string, d: Five)
    requires IsKey(key) && d == AcceptDigest(key)
    ensures Base64Text.Encoded(DigestBytes(d)) == Accept(key)
  {
  }

  // The server.

  function Singles(s: seq<byte>): seq<seq<byte>> {
    if s == [] then [] else Singles(s[..|s| - 1]) + [[s[|s| - 1]]]
  }

  lemma {:induction false} JoinedSingles(s: seq<byte>)
    ensures Sha1.Joined(Singles(s)) == s
  {
    if s != [] {
      JoinedSingles(s[..|s| - 1]);
      assert Singles(s)[..|Singles(s)| - 1] == Singles(s[..|s| - 1]);
    }
  }

  /** The hash input goes to the digest one character at a time, up to its first NUL. */
  method ServerAccept(key: string) returns (accept: string)
    requires IsKey(key)
    ensures accept == Accept(key)
  {
    var server_key := HashInput(key);
    JoinedSingles(server_key);
    var ok, message_digest := Sha1.HashPieces(Singles(server_key));
    accept := ServerBase64.Encode(DigestBytes(message_digest));
    AcceptOf(key, message_digest);
  }

  // The client.

  function DigestHex(d: Five): (s: string)
    ensures |s| == 40
  {
    HexDigits(d.a as nat, 8) + HexDigits(d.b as nat, 8) + HexDigits(d.c as nat, 8) +
      HexDigits(d.d as nat, 8) + HexDigits(d.e as nat, 8)
  }

  /** At most `len` hexadecimal digits from position `i` on. */
  function HexRun(s: string, i: nat, len: nat): (r: string)
    requires i <= |s|
    ensures AllHex(r)
    decreases len, s
  {
    if len == 0 || i == |s| || !IsHex(s[i]) then [] else [s[i]] + HexRun(s, i + 1, len - 1)
  }

  lemma {:induction false} HexRunSplit(s: string, i: nat, j: nat, len: nat)
    requires i + j <= |s| && j <= len && forall k :: i <= k < i + j ==> IsHex(s[k])
    ensures HexRun(s, i, len) == s[i..i + j] + HexRun(s, i + j, len - j)
    decreases j
  {
    hide IsHex, HexRun;
    if j == 0 {
      assert [] + HexRun(s, i, len) == HexRun(s, i, len);
    } else {
      HexRunSplit(s, i + 1, j - 1, len - 1);
      HexRunNext(s, i, len);
      assert s[i..i + j] == [s[i]] + s[i + 1..i + 1 + (j - 1)];
      Associative([s[i]], s[i + 1..i + j], HexRun(s, i + j, len - j));
    }
  }

  lemma Associative(a: string, b: string, c: string)
    ensures a + (b + c) == (a + b) + c
  {
  }

  lemma HexRunNext(s: string, i: nat, len: nat)
    requires i < |s| && len > 0 && IsHex(s[i])
    ensures HexRun(s, i, len) == [s[i]] + HexRun(s, i + 1, len - 1)
  {
    hide IsHex;
  }

  lemma HexRunIs(s: string, i: nat, j: nat, len: nat)
    requires i + j <= |s| && j <= len && forall k :: i <= k < i + j ==> IsHex(s[k])
    requires j == len || i + j == |s| || !IsHex(s[i + j])
    ensures HexRun(s, i, len) == s[i..i + j]
  {
    hide IsHex;
    HexRunSplit(s, i, j, len);
  }

  /** Reads at most `len` hexadecimal digits from `start`, counted behind a leading "0x". */
  method Htoi(s: string, start: nat, len: nat) returns (n: nat)
    requires (if |s| >= 2 && s[0] == '0' && (s[1] == 'x' || s[1] == 'X') then 2 else 0) + start <= |s|
    ensures var from := (if |s| >= 2 && s[0] == '0' && (s[1] == 'x' || s[1] == 'X') then 2 else 0) + start;
      n == HexNumber(HexRun(s, from, len))
  {
    hide HexRun, HexNumber;
    n := 0;
    NoHexDigits(s);
    var i := if |s| >= 2 && s[0] == '0' && (s[1] == 'x' || s[1] == 'X') then 2 else 0;
    i := i + start;
    var j := 0;
    ghost var from := i;
    while i < |s| && IsHex(s[i])
      invariant i == from + j && i <= |s| && j <= len
      invariant forall k :: from <= k < i ==> IsHex(s[k])
      invariant n == HexNumber(s[from..i])
      decreases |s| - i
    {
      if j >= len {
        break;
      }
      HexNumberNext(s, from, i);
      if ToLower(s[i]) > '9' {
        n := 16 * n + (10 + (ToLower(s[i]) as nat - 'a' as nat));
      } else {
        n := 16 * n + (ToLower(s[i]) as nat - '0' as nat);
      }
      j := j + 1;
      i := i + 1;
    }
    HexRunIs(s, from, j, len);
  }

  lemma NoHexDigits(s: string)
    ensures forall i :: 0 <= i <= |s| ==> HexNumber(s[i..i]) == 0
  {
  }

  lemma HexNumberNext(s: string, from: nat, i: nat)
    requires from <= i < |s| && AllHex(s[from..i + 1])
    ensures AllHex(s[from..i]) && HexNumber(s[from..i + 1]) == 16 * HexNumber(s[from..i]) + HexValue(s[i])
  {
    assert s[from..i + 1][..i - from] == s[from..i];
  }

  /** The bytes written by pairs of hexadecimal digits. */
  function PairBytes(s: string): (r: seq<byte>)
    requires AllHex(s)
    decreases |s|
  {
    if |s| < 2 then [] else PairBytes(s[..|s| - 2]) + [PairByte(s[|s| - 2], s[|s| - 1])]
  }

  function PairByte(high: char, low: char): byte
    requires IsHex(high) && IsHex(low)
  {
    ByteOf(16 * HexValue(high) + HexValue(low))
  }

  lemma {:induction false} PairBytesOfHex(n: nat, count: nat)
    ensures PairBytes(HexDigits(n, 2 * count)) == BigEndian(n, count)
    decreases count
  {
    hide HexUpper, ByteOf;
    if count > 0 {
      var s, t := HexDigits(n, 2 * count), HexDigits(n / 16 / 16, 2 * count - 2);
      assert HexDigits(n / 16, 2 * count - 1) == t + [HexUpper(n / 16 % 16)];
      assert s == t + [HexUpper(n / 16 % 16)] + [HexUpper(n % 16)];
      assert s[..|s| - 2] == t;
      TwoHexDigits(n);
      PairBytesOfHex(n / 0x100, count - 1);
    }
  }

  lemma TwoHexDigits(n: nat)
    ensures n / 16 / 16 == n / 0x100 && 16 * (n / 16 % 16) + n % 16 == n % 0x100
  {
  }

  lemma {:induction false} PairBytesAppend(a: string, b: string, pairs: nat)
    requires AllHex(a)
    requires AllHex(b)
    requires |b| == 2 * pairs
    ensures PairBytes(a + b) == PairBytes(a) + PairBytes(b)
    decreases pairs
  {
    if pairs == 0 {
      assert a + b == a;
      assert PairBytes(a) + [] == PairBytes(a);
    } else {
      var s := a + b;
      assert s[..|s| - 2] == a + b[..|b| - 2];
      PairBytesAppend(a, b[..|b| - 2], pairs - 1);
    }
  }

  lemma {:induction false} DigestHexBytes(d: Five)
    ensures AllHex(DigestHex(d))
    ensures PairBytes(DigestHex(d)) == DigestBytes(d)
  {
    FiveHexWords(d.a as nat, d.b as nat, d.c as nat, d.d as nat, d.e as nat);
  }

  lemma FiveHexWords(a: nat, b: nat, c: nat, e: nat, f: nat)
    ensures AllHex(HexDigits(a, 8) + HexDigits(b, 8) + HexDigits(c, 8) + HexDigits(e, 8) + HexDigits(f, 8))
    ensures PairBytes(HexDigits(a, 8) + HexDigits(b, 8) + HexDigits(c, 8) + HexDigits(e, 8) + HexDigits(f, 8)) ==
      BigEndian(a, 4) + BigEndian(b, 4) + BigEndian(c, 4) + BigEndian(e, 4) + BigEndian(f, 4)
  {
    HexWords([], [], a);
    HexWords(HexDigits(a, 8), BigEndian(a, 4), b);
    HexWords(HexDigits(a, 8) + HexDigits(b, 8), BigEndian(a, 4) + BigEndian(b, 4), c);
    HexWords(HexDigits(a, 8) + HexDigits(b, 8) + HexDigits(c, 8),
      BigEndian(a, 4) + BigEndian(b, 4) + BigEndian(c, 4), e);
    HexWords(HexDigits(a, 8) + HexDigits(b, 8) + HexDigits(c, 8) + HexDigits(e, 8),
      BigEndian(a, 4) + BigEndian(b, 4) + BigEndian(c, 4) + BigEndian(e, 4), f);
  }

  lemma HexWords(s: string, r: seq<byte>, n: nat)
    requires AllHex(s)
    requires PairBytes(s) == r
    ensures AllHex(s + HexDigits(n, 8))
    ensures PairBytes(s + HexDigits(n, 8)) == r + BigEndian(n, 4)
    ensures s == [] ==> PairBytes(HexDigits(n, 8)) == BigEndian(n, 4)
  {
    PairBytesAppend(s, HexDigits(n, 8), 4);
    PairBytesOfHex(n, 4);
  }

  /** The hexadecimal text is turned back into bytes pair by pair. */
  lemma NoPairs(s: string)
    ensures PairBytes(s[..0]) == []
  {
  }

  method FromHex(sha1DataTemp: string) returns (sha1Data: seq<byte>)
    requires AllHex(sha1DataTemp)
    requires |sha1DataTemp| == 40
    ensures sha1Data == PairBytes(sha1DataTemp)
  {
    hide PairBytes, HexNumber, HexRun, ByteOf;
    sha1Data := [];
    var i := 0;
    NoPairs(sha1DataTemp);
    while i < 40
      invariant 0 <= i <= 40 && i == 2 * |sha1Data|
      invariant sha1Data == PairBytes(sha1DataTemp[..i])
    {
      var n := Htoi(sha1DataTemp, i, 2);
      PairRead(sha1DataTemp, i);
      sha1Data := sha1Data + [ByteOf(n % 0x100)];
      i := i + 2;
    }
    assert sha1DataTemp[..40] == sha1DataTemp;
  }

  lemma PairRead(s: string, i: nat)
    requires i + 2 <= |s| && AllHex(s)
    ensures HexNumber(HexRun(s, i, 2)) < 0x100
    ensures PairBytes(s[..i + 2]) == PairBytes(s[..i]) + [ByteOf(HexNumber(HexRun(s, i, 2)))]
  {
    HexRunSplit(s, i, 2, 2);
    assert HexRun(s, i, 2) == [s[i], s[i + 1]];
    TwoDigitNumber(s[i], s[i + 1]);
    assert s[..i + 2][..i] == s[..i];
  }

  lemma TwoDigitNumber(a: char, b: char)
    requires IsHex(a) && IsHex(b)
    ensures HexNumber([a, b]) == 16 * HexValue(a) + HexValue(b) < 0x100
  {
    assert [a, b][..1] == [a];
    assert HexNumber([a]) == 16 * HexNumber([a][..0]) + HexValue(a);
  }

  lemma JoinedOne(data: seq<byte>)
    ensures Sha1.Joined([data]) == data
  {
    assert [data][..0] == [];
    assert Sha1.Joined([data]) == Sha1.Joined([]) + data;
  }

  /** One `Input` of the whole text. */
  method HashWhole(data: seq<byte>) returns (digest: Five)
    requires |data| < MAX_BYTES
    ensures digest == Digest(data)
  {
    JoinedOne(data);
    var ok;
    ok, digest := Sha1.HashPieces([data]);
  }

  /** The digest as `sprintf` writes it. */
  method HexText(d: Five) returns (s: string)
    ensures |s| == 40 && AllHex(s) && PairBytes(s) == DigestBytes(d)
  {
    DigestHexBytes(d);
    s := DigestHex(d);
  }

  /** The client takes the detour over a hexadecimal text and its own base 64 code. */
  method ClientAccept(key: string) returns (accept: string)
    requires IsKey(key)
    ensures accept == Accept(key)
  {
    var clientKey := HashInput(key);
    var Message_Digest := HashWhole(clientKey);
    var sha1DataTemp := HexText(Message_Digest);
    var sha1Data := FromHex(sha1DataTemp);
    accept := ClientBase64.Encode(sha1Data);
    AcceptOf(key, Message_Digest);
  }
}
