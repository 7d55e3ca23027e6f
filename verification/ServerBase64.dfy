/** The server's base 64 codec, which works through three- and four-byte staging arrays. */
module ServerBase64 {
  import opened Bytes
  import opened Base64Text

  /** The four values computed from the staging array of three bytes. */
  function Split(a: byte, b: byte, c: byte): (r: seq<byte>)
    ensures |r| == 4
  {
    [(a & 0xFC) >> 2, ((a & 0x03) << 4) + ((b & 0xF0) >> 4), ((b & 0x0F) << 2) + ((c & 0xC0) >> 6), c & 0x3F]
  }

  lemma SplitIsSextets(a: byte, b: byte, c: byte)
    ensures var g := Group(a, b, c);
      Split(a, b, c) == [Sextet(g, 0), Sextet(g, 1), Sextet(g, 2), Sextet(g, 3)]
  {
    Split0(a, b, c);
    Split1(a, b, c);
    Split2(a, b, c);
    Split3(a, b, c);
  }

  lemma Split0(a: byte, b: byte, c: byte)
    ensures (a & 0xFC) >> 2 == Sextet(Group(a, b, c), 0)
  {
  }

  lemma Split1(a: byte, b: byte, c: byte)
    ensures ((a & 0x03) << 4) + ((b & 0xF0) >> 4) == Sextet(Group(a, b, c), 1)
  {
  }

  lemma Split2(a: byte, b: byte, c: byte)
    ensures ((b & 0x0F) << 2) + ((c & 0xC0) >> 6) == Sextet(Group(a, b, c), 2)
  {
  }

  lemma Split3(a: byte, b: byte, c: byte)
    ensures c & 0x3F == Sextet(Group(a, b, c), 3)
  {
  }

  /** Encodes `bytes`; the loop emits four characters whenever three bytes are staged. */
  method Encode(bytes: seq<byte>) returns (ret: string)
    ensures ret == Encoded(bytes)
  {
    ret := "";
    var char_array_3 := new byte[3];
    var i := 0;
    ghost var done, groups := 0, 0;
    for k := 0 to |bytes|
      invariant 0 <= i < 3 && k == done + i && done == 3 * groups
      invariant forall j :: 0 <= j < i ==> char_array_3[j] == bytes[done + j]
      invariant ret == Encoded(bytes[..done])
    {
      char_array_3[i] := bytes[k];
      i := i + 1;
      if i == 3 {
        var quad := EncodeFull(char_array_3, bytes, done, groups);
        ret := ret + quad;
        done, groups := done + 3, groups + 1;
        i := 0;
      }
    }
    RestDone(bytes, done, groups);
    if i != 0 {
      ret := EncodeTail(char_array_3, i, bytes[done..], ret);
    }
  }

  /** One full group. */
  method EncodeFull(char_array_3: array<byte>, ghost bytes: seq<byte>, ghost done: nat, ghost groups: nat)
    returns (quad: string)
    requires char_array_3.Length == 3 && done + 3 <= |bytes| && done == 3 * groups
    requires forall j :: 0 <= j < 3 ==> char_array_3[j] == bytes[done + j]
    ensures Encoded(bytes[..done + 3]) == Encoded(bytes[..done]) + quad
  {
    quad := EncodeQuad(char_array_3);
    GroupDone(bytes, done, groups);
    assert char_array_3[0] == bytes[done + 0] && char_array_3[1] == bytes[done + 1];
  }

  lemma RestDone(bytes: seq<byte>, done: nat, groups: nat)
    requires done <= |bytes| && done == 3 * groups
    ensures Encoded(bytes) == Encoded(bytes[..done]) + Encoded(bytes[done..])
    ensures done == |bytes| ==> Encoded(bytes) == Encoded(bytes[..done])
  {
    EncodedAppend(bytes[..done], bytes[done..], groups);
    assert bytes[..done] + bytes[done..] == bytes;
  }

  lemma GroupDone(bytes: seq<byte>, done: nat, groups: nat)
    requires done + 3 <= |bytes| && done == 3 * groups
    ensures Encoded(bytes[..done + 3]) ==
            Encoded(bytes[..done]) + Quad(Group(bytes[done], bytes[done + 1], bytes[done + 2]))
  {
    var group := bytes[done..done + 3];
    EncodedAppend(bytes[..done], group, groups);
    EncodedGroup(group);
    assert bytes[..done] + group == bytes[..done + 3];
  }

  /** One or two staged bytes: completed with zeros, then padded with equal signs. */
  method EncodeTail(char_array_3: array<byte>, n: nat, ghost rest: seq<byte>, before: string) returns (ret: string)
    requires char_array_3.Length == 3 && 0 < n < 3 && n == |rest|
    requires forall m :: 0 <= m < n ==> char_array_3[m] == rest[m]
    modifies char_array_3
    ensures ret == before + Encoded(rest)
  {
    hide Group, Quad, Digit, Encoded, Pad;
    FillZeros(char_array_3, n, rest);
    var quad := EncodeQuad(char_array_3);
    ret := before;
    for j := 0 to n + 1
      invariant ret == before + quad[..j]
    {
      ret := ret + [quad[j]];
    }
    ret := AppendPad(ret, n);
    TailEncoded(rest);
  }

  /** An equal sign for every byte that was missing. */
  method AppendPad(before: string, n: nat) returns (ret: string)
    requires n < 3
    ensures ret == before + Pad(3 - n)
  {
    hide Pad;
    ret := before;
    var i := n;
    PadNext(0);
    while i < 3
      invariant n <= i <= 3
      invariant ret == before + Pad(i - n)
    {
      PadNext(i - n);
      ret := ret + "=";
      i := i + 1;
    }
  }

  method FillZeros(char_array_3: array<byte>, n: nat, ghost rest: seq<byte>)
    requires char_array_3.Length == 3 && n < 3 && n == |rest|
    requires forall m :: 0 <= m < n ==> char_array_3[m] == rest[m]
    modifies char_array_3
    ensures char_array_3[..] == rest + seq(3 - n, _ => 0)
  {
    for j := n to 3
      invariant forall m :: 0 <= m < n ==> char_array_3[m] == rest[m]
      invariant forall m :: n <= m < j ==> char_array_3[m] == 0
    {
      char_array_3[j] := 0;
    }
  }

  lemma PadNext(n: nat)
    ensures Pad(0) == "" && Pad(n + 1) == Pad(n) + "="
  {
  }

  lemma TailEncoded(rest: seq<byte>)
    requires 0 < |rest| < 3
    ensures Encoded(rest) == Quad(Group(rest[0], if |rest| == 2 then rest[1] else 0, 0))[..|rest| + 1] + Pad(3 - |rest|)
  {
    hide Quad, Group;
    assert Pad(1) == Pad(0) + "=" == "=" && Pad(2) == Pad(1) + "=" == "==";
  }

  function Pad(n: nat): (r: string)
    ensures |r| == n
  {
    if n == 0 then "" else Pad(n - 1) + "="
  }

  lemma QuadAt(g: bv24, i: nat)
    requires i < 4
    ensures Sextet(g, i) as nat < 64 && Digit(Sextet(g, i) as nat) == Quad(g)[i]
  {
    hide Digit, Sextet;
  }

  /** The characters of one staged group. */
  method EncodeQuad(char_array_3: array<byte>) returns (quad: string)
    requires char_array_3.Length == 3
    ensures quad == Quad(Group(char_array_3[0], char_array_3[1], char_array_3[2]))
  {
    hide Split, Sextet, Digit, Group, Quad;
    var char_array_4 := Split(char_array_3[0], char_array_3[1], char_array_3[2]);
    ghost var g := Group(char_array_3[0], char_array_3[1], char_array_3[2]);
    SplitIsSextets(char_array_3[0], char_array_3[1], char_array_3[2]);
    quad := "";
    for i := 0 to 4
      invariant quad == Quad(g)[..i]
    {
      QuadAt(g, i);
      quad := quad + [Digit(char_array_4[i] as nat)];
    }
  }

  predicate AllDigits(s: string) {
    forall i :: 0 <= i < |s| ==> IsDigit(s[i])
  }

  /** The text up to the first character that is no digit. */
  function DigitPrefix(s: string): string {
    if s == [] || !IsDigit(s[0]) then [] else [s[0]] + DigitPrefix(s[1..])
  }

  /** Full quanta give three bytes; two or three digits left over give one or two. */
  function FromDigits(ds: string): (r: seq<byte>)
    decreases |ds|
  {
    if |ds| >= 4 then QuantumBytes(ds[..4]) + FromDigits(ds[4..]) else FromFewDigits(ds)
  }

  function FromFewDigits(ds: string): (r: seq<byte>) {
    if |ds| == 3 then [First(ValueByte(ds[0]), ValueByte(ds[1])), Second(ValueByte(ds[1]), ValueByte(ds[2]))]
    else if |ds| == 2 then [First(ValueByte(ds[0]), ValueByte(ds[1]))]
    else []
  }

  lemma {:induction false} FromDigitsAppend(a: string, b: string, quanta: nat)
    requires |a| == 4 * quanta
    ensures FromDigits(a + b) == FromDigits(a) + FromDigits(b)
    decreases |a|
  {
    if a == [] {
      assert a + b == b;
    } else {
      FromDigitsAppend(a[4..], b, quanta - 1);
      FromDigitsUnfold(a, b);
    }
  }

  lemma FromDigitsUnfold(a: string, b: string)
    requires |a| >= 4
    ensures FromDigits(a + b) == QuantumBytes(a[..4]) + FromDigits(a[4..] + b)
  {
    assert (a + b)[..4] == a[..4] && (a + b)[4..] == a[4..] + b;
  }

  lemma {:induction false} DigitPrefixAppend(a: string, b: string)
    requires AllDigits(a)
    ensures DigitPrefix(a + b) == a + DigitPrefix(b)
  {
    if a == [] {
      assert a + b == b;
    } else {
      assert (a + b)[1..] == a[1..] + b;
      DigitPrefixAppend(a[1..], b);
    }
  }

  /** Decoding inverts encoding for every byte string, padded tails included. */
  lemma {:induction false} DecodeInvertsEncode(data: seq<byte>)
    ensures FromDigits(DigitPrefix(Encoded(data))) == data
    decreases |data|
  {
    if data == [] {
    } else if |data| < 3 {
      DecodeTail(data);
    } else {
      var g := Group(data[0], data[1], data[2]);
      QuadDigits(g);
      DigitPrefixAppend(Quad(g), Encoded(data[3..]));
      FromDigitsAppend(Quad(g), DigitPrefix(Encoded(data[3..])), 1);
      QuantumOfGroup(data[0], data[1], data[2]);
      assert Quad(g)[..4] == Quad(g) && Quad(g)[4..] == [];
      assert FromDigits(Quad(g)) == data[..3];
      DecodeInvertsEncode(data[3..]);
    }
  }

  lemma DecodeTail(data: seq<byte>)
    requires 0 < |data| < 3
    ensures FromDigits(DigitPrefix(Encoded(data))) == data
  {
    var g := Group(data[0], if |data| == 2 then data[1] else 0, 0);
    var q := Quad(g)[..|data| + 1];
    var pad := if |data| == 2 then "=" else "==";
    QuadDigits(g);
    DigitPrefixAppend(q, pad);
    assert DigitPrefix(pad) == [];
    QuantumOfGroup(data[0], if |data| == 2 then data[1] else 0, 0);
  }

  /** The bytes computed from the staging array of four values. */
  function Merge(v0: byte, v1: byte, v2: byte, v3: byte): (r: seq<byte>)
    ensures |r| == 3
  {
    [(v0 << 2) + ((v1 & 0x30) >> 4), ((v1 & 0x0F) << 4) + ((v2 & 0x3C) >> 2), ((v2 & 0x03) << 6) + v3]
  }

  lemma MergeIsQuantum(v0: byte, v1: byte, v2: byte, v3: byte)
    requires v0 < 64 && v1 < 64
    ensures Merge(v0, v1, v2, v3)[0] == First(v0, v1)
    ensures v2 < 64 ==> Merge(v0, v1, v2, v3)[1] == Second(v1, v2)
    ensures v2 < 64 && v3 < 64 ==> Merge(v0, v1, v2, v3)[2] == Third(v2, v3)
  {
  }

  lemma ValueByteRange(c: char)
    requires IsDigit(c)
    ensures ValueByte(c) < 64
  {
    ByteOfValue(Value(c));
  }

  /** The values of four staged characters, merged into bytes. */
  method DecodeQuad(char_array_4: array<char>) returns (char_array_3: seq<byte>)
    requires char_array_4.Length == 4
    ensures var q := char_array_4[..];
      char_array_3 == Merge(ValueByte(q[0]), ValueByte(q[1]), ValueByte(q[2]), ValueByte(q[3]))
  {
    char_array_3 := Merge(ValueByte(char_array_4[0]), ValueByte(char_array_4[1]), ValueByte(char_array_4[2]),
                          ValueByte(char_array_4[3]));
  }

  lemma DecodedQuantum(q: string)
    requires |q| == 4 && IsDigit(q[0]) && IsDigit(q[1])
    ensures var r := Merge(ValueByte(q[0]), ValueByte(q[1]), ValueByte(q[2]), ValueByte(q[3]));
      && r[0] == First(ValueByte(q[0]), ValueByte(q[1]))
      && (IsDigit(q[2]) ==> r[1] == Second(ValueByte(q[1]), ValueByte(q[2])))
      && (IsDigit(q[2]) && IsDigit(q[3]) ==> r == QuantumBytes(q))
  {
    ValueByteRange(q[0]);
    ValueByteRange(q[1]);
    if IsDigit(q[2]) {
      ValueByteRange(q[2]);
    }
    if IsDigit(q[3]) {
      ValueByteRange(q[3]);
    }
    MergeIsQuantum(ValueByte(q[0]), ValueByte(q[1]), ValueByte(q[2]), ValueByte(q[3]));
  }

  /** Decodes up to the first character that is no digit. */
  method Decode(encoded: string) returns (ret: seq<byte>)
    ensures ret == FromDigits(DigitPrefix(encoded))
  {
    hide IsDigit, FromDigits, DigitPrefix;
    ret := [];
    var char_array_4 := new char[4];
    var i, in_ := 0, 0;
    NoDigits(encoded);
    ghost var done, quanta := 0, 0;
    while in_ < |encoded| && encoded[in_] != '=' && IsDigit(encoded[in_])
      invariant 0 <= i < 4 && in_ == done + i && in_ <= |encoded| && done == 4 * quanta
      invariant forall j :: 0 <= j < i ==> char_array_4[j] == encoded[done + j]
      invariant forall j :: 0 <= j < in_ ==> IsDigit(encoded[j])
      invariant ret == FromDigits(encoded[..done])
    {
      char_array_4[i] := encoded[in_];
      i := i + 1;
      in_ := in_ + 1;
      if i == 4 {
        var char_array_3 := DecodeFull(char_array_4, encoded, done, quanta);
        ret := ret + char_array_3;
        done, quanta := done + 4, quanta + 1;
        i := 0;
      }
    }
    ret := DecodeRest(char_array_4, i, encoded, done, quanta, ret);
  }

  /** One full quantum. */
  method DecodeFull(char_array_4: array<char>, ghost encoded: string, ghost done: nat, ghost quanta: nat)
    returns (r: seq<byte>)
    requires char_array_4.Length == 4 && done + 4 <= |encoded| && done == 4 * quanta
    requires forall j :: 0 <= j < 4 ==> char_array_4[j] == encoded[done + j] && IsDigit(encoded[done + j])
    ensures FromDigits(encoded[..done + 4]) == FromDigits(encoded[..done]) + r
  {
    r := DecodeQuad(char_array_4);
    DecodedQuantum(char_array_4[..]);
    QuantumDone(encoded, done, quanta);
    assert encoded[done..done + 4] == char_array_4[..];
  }

  /** The digits left over: the missing places are filled with NUL, whose value is never used. */
  method DecodeRest(char_array_4: array<char>, n: nat, ghost encoded: string, ghost done: nat, ghost quanta: nat,
                    before: seq<byte>)
    returns (ret: seq<byte>)
    requires char_array_4.Length == 4 && n < 4 && done + n <= |encoded| && done == 4 * quanta
    requires before == FromDigits(encoded[..done])
    requires forall j :: 0 <= j < n ==> char_array_4[j] == encoded[done + j]
    requires forall j :: 0 <= j < done + n ==> IsDigit(encoded[j])
    requires done + n < |encoded| ==> !IsDigit(encoded[done + n])
    modifies char_array_4
    ensures ret == FromDigits(DigitPrefix(encoded))
  {
    hide IsDigit, FromDigits, DigitPrefix;
    ghost var rest := encoded[done..done + n];
    PrefixDone(encoded, done, quanta, done + n);
    ret := before;
    if n != 0 {
      var tail := DecodeTailDigits(char_array_4, n, rest);
      ret := ret + tail;
    }
  }

  lemma NoDigits(encoded: string)
    ensures FromDigits(encoded[..0]) == [] && !IsDigit('=')
  {
  }

  method DecodeTailDigits(char_array_4: array<char>, n: nat, ghost rest: string) returns (ret: seq<byte>)
    requires char_array_4.Length == 4 && 0 < n < 4 && n == |rest| && AllDigits(rest)
    requires forall j :: 0 <= j < n ==> char_array_4[j] == rest[j]
    modifies char_array_4
    ensures ret == FromDigits(rest)
  {
    for j := n to 4
      invariant forall m :: 0 <= m < n ==> char_array_4[m] == rest[m]
    {
      char_array_4[j] := '\0';
    }
    var char_array_3 := DecodeQuad(char_array_4);
    if n >= 2 {
      DecodedQuantum(char_array_4[..]);
    }
    ret := [];
    for j := 0 to n - 1
      invariant ret == char_array_3[..j]
    {
      ret := ret + [char_array_3[j]];
    }
  }

  lemma QuantumDone(encoded: string, done: nat, quanta: nat)
    requires done + 4 <= |encoded| && done == 4 * quanta
    ensures FromDigits(encoded[..done + 4]) == FromDigits(encoded[..done]) + QuantumBytes(encoded[done..done + 4])
  {
    var q := encoded[done..done + 4];
    FromDigitsSplit(encoded[..done + 4], encoded[..done], q, quanta);
    OneQuantum(q);
  }

  lemma OneQuantum(q: string)
    requires |q| == 4
    ensures FromDigits(q) == QuantumBytes(q)
  {
    assert q[..4] == q && q[4..] == [];
  }

  lemma PrefixDone(encoded: string, done: nat, quanta: nat, n: nat)
    requires done <= n <= |encoded| && done == 4 * quanta
    requires forall j :: 0 <= j < n ==> IsDigit(encoded[j])
    requires n < |encoded| ==> !IsDigit(encoded[n])
    ensures FromDigits(DigitPrefix(encoded)) == FromDigits(encoded[..done]) + FromDigits(encoded[done..n])
    ensures done == n ==> FromDigits(DigitPrefix(encoded)) == FromDigits(encoded[..done])
  {
    DigitPrefixIs(encoded, n);
    FromDigitsSplit(encoded[..n], encoded[..done], encoded[done..n], quanta);
  }

  lemma DigitPrefixIs(encoded: string, n: nat)
    requires n <= |encoded| && AllDigits(encoded[..n])
    requires n < |encoded| ==> !IsDigit(encoded[n])
    ensures DigitPrefix(encoded) == encoded[..n]
  {
    DigitPrefixAppend(encoded[..n], encoded[n..]);
    assert encoded[..n] + encoded[n..] == encoded;
    assert DigitPrefix(encoded[n..]) == [];
  }

  lemma FromDigitsSplit(ds: string, a: string, b: string, quanta: nat)
    requires |a| == 4 * quanta && ds == a + b
    ensures FromDigits(ds) == FromDigits(a) + FromDigits(b)
  {
    FromDigitsAppend(a, b, quanta);
  }
}
