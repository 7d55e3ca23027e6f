/** The base 64 encoding of section 4 of RFC 4648. */
module Base64Text {
  import opened Bytes

  /** Table 1 of RFC 4648: A-Z, a-z, 0-9, + and /. */
  function Digit(v: nat): (c: char)
    requires v < 64
    ensures c != '='
  {
    if v < 26 then (v + 65) as char
    else if v < 52 then (v + 71) as char
    else if v < 62 then (v - 4) as char
    else if v == 62 then '+'
    else '/'
  }

  predicate IsDigit(c: char) {
    'A' <= c <= 'Z' || 'a' <= c <= 'z' || '0' <= c <= '9' || c == '+' || c == '/'
  }

  lemma DigitIsDigit(v: nat)
    requires v < 64
    ensures IsDigit(Digit(v))
  {
  }

  /** A 24-bit input group, most significant byte first. */
  function Group(b0: byte, b1: byte, b2: byte): bv24 {
    (b0 as bv24 << 16) | (b1 as bv24 << 8) | (b2 as bv24)
  }

  /** The four 6-bit values of a group. */
  function Sextet(g: bv24, i: nat): (v: byte)
    requires i < 4
    ensures v < 64
  {
    ((if i == 0 then g >> 18 else if i == 1 then g >> 12 else if i == 2 then g >> 6 else g) & 0x3F) as bv8
  }

  function SextetChar(g: bv24, i: nat): char
    requires i < 4
  {
    Digit(Sextet(g, i) as nat)
  }

  /** The four digits of a group. */
  function Quad(g: bv24): (q: string)
    ensures |q| == 4
  {
    [SextetChar(g, 0), SextetChar(g, 1), SextetChar(g, 2), SextetChar(g, 3)]
  }

  /** Section 4: full groups give four digits; one or two bytes left over are completed with zero bits and
      padded to four characters. */
  function Encoded(data: seq<byte>): (text: string)
    decreases |data|
  {
    if data == [] then []
    else if |data| == 1 then Quad(Group(data[0], 0, 0))[..2] + "=="
    else if |data| == 2 then Quad(Group(data[0], data[1], 0))[..3] + "="
    else Quad(Group(data[0], data[1], data[2])) + Encoded(data[3..])
  }

  /** Encoded text consists of whole quanta. */
  lemma {:induction false} EncodedLength(data: seq<byte>) returns (quanta: nat)
    ensures |Encoded(data)| == 4 * quanta && |data| <= 3 * quanta < |data| + 3
    decreases |data|
  {
    quanta := 0;
    if |data| >= 3 {
      quanta := EncodedLength(data[3..]);
      quanta := quanta + 1;
    } else if data != [] {
      quanta := 1;
    }
  }

  lemma EncodedGroup(data: seq<byte>)
    requires |data| == 3
    ensures Encoded(data) == Quad(Group(data[0], data[1], data[2]))
  {
    assert data[3..] == [];
  }

  /** Encoding can be cut behind any whole number of groups. */
  lemma {:induction false} EncodedAppend(a: seq<byte>, b: seq<byte>, groups: nat)
    requires |a| == 3 * groups
    ensures Encoded(a + b) == Encoded(a) + Encoded(b)
    decreases |a|
  {
    if a == [] {
      assert a + b == b;
    } else {
      assert (a + b)[3..] == a[3..] + b;
      assert (a + b)[0] == a[0] && (a + b)[1] == a[1] && (a + b)[2] == a[2];
      EncodedAppend(a[3..], b, groups - 1);
    }
  }

  /** The value of a digit, 255 for any other character. */
  function Value(c: char): (v: nat)
    ensures v == 255 || v < 64
    ensures v == 255 <==> !IsDigit(c)
  {
    if 'A' <= c <= 'Z' then c as nat - 65
    else if 'a' <= c <= 'z' then c as nat - 71
    else if '0' <= c <= '9' then c as nat + 4
    else if c == '+' then 62
    else if c == '/' then 63
    else 255
  }

  lemma ValueOfDigit(v: nat)
    requires v < 64
    ensures Value(Digit(v)) == v
  {
  }

  lemma DigitOfValue(c: char)
    requires IsDigit(c)
    ensures Digit(Value(c)) == c
  {
  }

  /** The value found for the character of a sextet is the sextet. */
  lemma ValueOfSextet(g: bv24, i: nat)
    requires i < 4
    ensures IsDigit(SextetChar(g, i)) && SextetChar(g, i) != '='
    ensures ByteOf(Value(SextetChar(g, i))) == Sextet(g, i)
  {
    SextetRange(g, i);
    DigitIsDigit(Sextet(g, i) as nat);
    ValueOfDigit(Sextet(g, i) as nat);
    ByteOfUnique(Sextet(g, i));
  }

  lemma SextetRange(g: bv24, i: nat)
    requires i < 4
    ensures Sextet(g, i) as nat < 64
  {
  }

  /** The three bytes that four 6-bit values stand for. */
  function First(v0: byte, v1: byte): byte {
    (v0 << 2) | (v1 >> 4)
  }

  function Second(v1: byte, v2: byte): byte {
    (v1 << 4) | (v2 >> 2)
  }

  function Third(v2: byte, v3: byte): byte {
    (v2 << 6) | v3
  }

  lemma {:induction false} GroupBytes(b0: byte, b1: byte, b2: byte)
    ensures var g := Group(b0, b1, b2);
      && First(Sextet(g, 0), Sextet(g, 1)) == b0
      && Second(Sextet(g, 1), Sextet(g, 2)) == b1
      && Third(Sextet(g, 2), Sextet(g, 3)) == b2
  {
  }

  /** The 6-bit value of a character as the byte both decoders store for it, 255 when it is no digit. */
  function ValueByte(c: char): byte {
    ByteOf(Value(c))
  }

  /** The bytes of one full quantum. */
  function QuantumBytes(q: string): (r: seq<byte>)
    requires |q| == 4
    ensures |r| == 3
  {
    [First(ValueByte(q[0]), ValueByte(q[1])), Second(ValueByte(q[1]), ValueByte(q[2])),
     Third(ValueByte(q[2]), ValueByte(q[3]))]
  }

  lemma QuantumOfGroup(b0: byte, b1: byte, b2: byte)
    ensures QuantumBytes(Quad(Group(b0, b1, b2))) == [b0, b1, b2]
  {
    var g := Group(b0, b1, b2);
    ValueOfSextet(g, 0);
    ValueOfSextet(g, 1);
    ValueOfSextet(g, 2);
    ValueOfSextet(g, 3);
    GroupBytes(b0, b1, b2);
  }

  lemma QuadDigits(g: bv24)
    ensures forall i :: 0 <= i < 4 ==> IsDigit(Quad(g)[i])
  {
    ValueOfSextet(g, 0);
    ValueOfSextet(g, 1);
    ValueOfSextet(g, 2);
    ValueOfSextet(g, 3);
  }
}
