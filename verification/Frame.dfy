/** Data frames as section 5.2 of RFC 6455 lays them out on the wire. */
module Frame {
  import opened Bytes

  /** Section 5.2: one frame; `key` is present exactly when the mask bit is set. */
  datatype Frame = Frame(fin: bool, opcode: nat, key: Option<MaskKey>, payload: seq<byte>)

  const MAX_INT := 0x7FFF_FFFF

  /** A frame whose opcode has four bits and whose payload length fits a C `int`. */
  ghost predicate Sendable(f: Frame) {
    f.opcode < 0x10 && |f.payload| <= MAX_INT
  }

  type DataFrame = f: Frame | Sendable(f)
    witness Frame(true, 1, None, [])

  /** The seven-bit length field of the second byte. */
  function ShortLength(n: nat): (b: byte)
    ensures b < 0x80
  {
    if n < 126 then
      ByteOfValue(n);
      ByteOf(n)
    else if n < 0x1_0000 then 126 else 127
  }

  /** The extended length: nothing, two bytes, or eight bytes whose upper half is zero. */
  function ExtendedLength(n: nat): (r: seq<byte>)
    requires n < 0x1_0000_0000
  {
    if n < 126 then []
    else if n < 0x1_0000 then BigEndian16(n)
    else [0, 0, 0, 0] + BigEndian32(n)
  }

  function FirstByte(fin: bool, opcode: nat): (b: byte)
    requires opcode < 0x10
  {
    (if fin then 0x80 else 0x00) | ByteOf(opcode)
  }

  function SecondByte(masked: bool, n: nat): (b: byte) {
    (if masked then 0x80 else 0x00) | ShortLength(n)
  }

  /** Everything before the mask key. */
  function Prefix(f: Frame): (r: seq<byte>)
    requires Sendable(f)
    ensures |r| == PrefixSize(|f.payload|)
  {
    [FirstByte(f.fin, f.opcode), SecondByte(f.key.Some?, |f.payload|)] + ExtendedLength(|f.payload|)
  }

  function PrefixSize(n: nat): (r: nat) {
    if n < 126 then 2 else if n < 0x1_0000 then 4 else 10
  }

  /** Prefix and mask key. */
  function Header(f: Frame): (r: seq<byte>)
    requires Sendable(f)
    ensures |r| == HeaderSize(f)
  {
    Prefix(f) + if f.key.Some? then f.key.value else []
  }

  function HeaderSize(f: Frame): (r: nat) {
    PrefixSize(|f.payload|) + if f.key.Some? then 4 else 0
  }

  /** The payload as it travels: masked when a key is present. */
  function Body(f: Frame): (r: seq<byte>)
    ensures |r| == |f.payload|
  {
    if f.key.Some? then Masked(f.payload, f.key.value, 0) else f.payload
  }

  function WireSize(f: Frame): nat {
    HeaderSize(f) + |f.payload|
  }

  /** The whole frame on the wire. */
  function Wire(f: Frame): (r: seq<byte>)
    requires Sendable(f)
    ensures |r| == WireSize(f)
  {
    Header(f) + Body(f)
  }

  /** Where the fields of a frame lie. */
  lemma {:induction false} WireFields(f: Frame)
    requires Sendable(f)
    ensures var w, n := Wire(f), |f.payload|;
      && w[0] == FirstByte(f.fin, f.opcode)
      && w[1] == SecondByte(f.key.Some?, n)
      && w[2..PrefixSize(n)] == ExtendedLength(n)
      && (f.key.Some? ==> w[PrefixSize(n)..HeaderSize(f)] == f.key.value)
      && w[HeaderSize(f)..] == Body(f)
  {
    var two := [FirstByte(f.fin, f.opcode), SecondByte(f.key.Some?, |f.payload|)];
    var key := if f.key.Some? then f.key.value else [];
    assert Wire(f) == two + ExtendedLength(|f.payload|) + key + Body(f);
    FourParts(two, ExtendedLength(|f.payload|), key, Body(f));
  }

  lemma FourParts(a: seq<byte>, b: seq<byte>, c: seq<byte>, d: seq<byte>)
    ensures var w := a + b + c + d;
      && w[..|a|] == a
      && w[|a|..|a + b|] == b
      && w[|a + b|..|a + b + c|] == c
      && w[|a + b + c|..] == d
  {
  }

  function TopBit(b: byte): nat {
    (b >> 7) as nat
  }

  function LowFour(b: byte): nat {
    (b & 0x0F) as nat
  }

  function LowSeven(b: byte): nat {
    (b & 0x7F) as nat
  }

  /** The bit fields of the first two bytes can be read back. */
  lemma FirstByteFields(fin: bool, opcode: nat)
    requires opcode < 0x10
    ensures var b := FirstByte(fin, opcode);
      && TopBit(b) == (if fin then 1 else 0)
      && LowFour(b) == opcode
      && (b & 0x80 == 0x80 <==> fin)
  {
    ByteOfValue(opcode);
  }

  lemma SecondByteFields(masked: bool, n: nat)
    ensures var b := SecondByte(masked, n);
      && TopBit(b) == (if masked then 1 else 0)
      && LowSeven(b) == (if n < 126 then n else if n < 0x1_0000 then 126 else 127)
      && (b & 0x80 == 0x80 <==> masked)
  {
    if n < 126 {
      ByteOfValue(n);
    }
  }

  /** The extended length field determines the length. */
  lemma {:induction false} ExtendedLengthRoundTrip(n: nat)
    requires 126 <= n <= MAX_INT
    ensures var e := ExtendedLength(n);
      FromBigEndian(if n < 0x1_0000 then e else e[4..]) == n
  {
    if n < 0x1_0000 {
      BigEndian16RoundTrip(n);
    } else {
      BigEndian32RoundTrip(n);
      assert ExtendedLength(n)[4..] == BigEndian32(n);
    }
  }
}
