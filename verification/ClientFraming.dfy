/** The client's whole-buffer frame encoder and decoder. */
module ClientFraming {
  import opened Bytes
  import opened Frame

  datatype DataType = MinData | TxtData | BinData | DisConn | Ping | Pong | Err | Null

  /** The six types a frame can be sent with. */
  predicate IsSendable(t: DataType) {
    t != Err && t != Null
  }

  /** The frame that RFC 6455 prescribes for one call of the encoder. */
  function FrameOf(t: DataType, key: Option<MaskKey>, payload: seq<byte>): (f: Frame)
    requires IsSendable(t)
    ensures |payload| <= MAX_INT ==> Sendable(f)
  {
    match t
    case MinData => Frame(false, 0x0, key, payload)
    case TxtData => Frame(true, 0x1, key, payload)
    case BinData => Frame(true, 0x2, key, payload)
    case DisConn => Frame(true, 0x8, key, payload)
    case Ping => Frame(true, 0x9, key, payload)
    case Pong => Frame(true, 0xA, key, payload)
  }

  /** The first byte the encoder stores for each type. */
  function TypeByte(t: DataType): (b: byte)
    requires IsSendable(t)
  {
    match t
    case MinData => 0x00
    case TxtData => 0x81
    case BinData => 0x82
    case DisConn => 0x88
    case Ping => 0x89
    case Pong => 0x8A
  }

  lemma {:induction false} TypeByteIsFirstByte(t: DataType, key: Option<MaskKey>, payload: seq<byte>)
    requires IsSendable(t)
    ensures var f := FrameOf(t, key, payload); TypeByte(t) == FirstByte(f.fin, f.opcode)
  {
    Nibbles();
  }

  lemma Nibbles()
    ensures ByteOf(0) == 0 && ByteOf(1) == 1 && ByteOf(2) == 2
    ensures ByteOf(8) == 8 && ByteOf(9) == 9 && ByteOf(10) == 10
  {
    assert ByteOf(0) == 0;
    assert ByteOf(2) == ByteOf(1) + 1;
    assert ByteOf(4) == ByteOf(3) + 1 == ByteOf(2) + 2;
    assert ByteOf(6) == ByteOf(5) + 1 == ByteOf(4) + 2;
    assert ByteOf(8) == ByteOf(7) + 1 == ByteOf(6) + 2;
    assert ByteOf(10) == ByteOf(9) + 1 == ByteOf(8) + 2;
  }

  /** The bytes before the mask key when byte 1 of the buffer held `stale` and no mask was asked for. */
  function PrefixOver(f: Frame, stale: byte): (r: seq<byte>)
    requires Sendable(f)
    ensures |r| == PrefixSize(|f.payload|)
  {
    [FirstByte(f.fin, f.opcode), (if f.key.Some? then 0x80 else stale) | ShortLength(|f.payload|)]
    + ExtendedLength(|f.payload|)
  }

  /** What an encoding leaves on the wire when byte 1 of the buffer held `stale`. */
  function WireOver(f: Frame, stale: byte): (r: seq<byte>)
    requires Sendable(f)
    ensures |r| == |Wire(f)|
  {
    PrefixOver(f, stale) + (if f.key.Some? then f.key.value else []) + Body(f)
  }

  /** Without a mask the encoder is right exactly when the stale byte adds no bit of its own;
      the zeroed buffer of the send routine is one such case. */
  lemma {:induction false} WireOverIsWire(f: Frame, stale: byte)
    requires Sendable(f)
    ensures WireOver(f, stale) == Wire(f) <==> f.key.Some? || stale & !ShortLength(|f.payload|) == 0
  {
    if f.key.Some? {
      assert WireOver(f, stale) == Wire(f);
    } else {
      UnmaskedWireOverIsWire(f, stale);
      OrAddsNothing(stale, ShortLength(|f.payload|));
    }
  }

  lemma UnmaskedWireOverIsWire(f: Frame, stale: byte)
    requires Sendable(f) && f.key.None?
    ensures WireOver(f, stale) == Wire(f) <==> stale | ShortLength(|f.payload|) == ShortLength(|f.payload|)
  {
    var first, s, ext := FirstByte(f.fin, f.opcode), ShortLength(|f.payload|), ExtendedLength(|f.payload|);
    UnmaskedWireOver(f, stale, first, s, ext);
    UnmaskedWire(f, first, s, ext);
    SecondByteDecides(first, stale | s, s, ext, Body(f));
  }

  lemma UnmaskedWireOver(f: Frame, stale: byte, first: byte, s: byte, ext: seq<byte>)
    requires Sendable(f) && f.key.None?
    requires first == FirstByte(f.fin, f.opcode) && s == ShortLength(|f.payload|) && ext == ExtendedLength(|f.payload|)
    ensures WireOver(f, stale) == [first, stale | s] + ext + [] + Body(f)
  {
  }

  lemma UnmaskedWire(f: Frame, first: byte, s: byte, ext: seq<byte>)
    requires Sendable(f) && f.key.None?
    requires first == FirstByte(f.fin, f.opcode) && s == ShortLength(|f.payload|) && ext == ExtendedLength(|f.payload|)
    ensures Wire(f) == [first, s] + ext + [] + Body(f)
  {
    OrAddsNothing(0, s);
  }

  lemma SecondByteDecides(b: byte, x: byte, y: byte, ext: seq<byte>, body: seq<byte>)
    ensures [b, x] + ext + [] + body == [b, y] + ext + [] + body <==> x == y
  {
    assert ([b, x] + ext + [] + body)[1] == x;
    assert ([b, y] + ext + [] + body)[1] == y;
  }

  lemma OrAddsNothing(a: byte, s: byte)
    ensures 0x00 | s == s
    ensures a | s == s <==> a & !s == 0
  {
  }

  /** Exclusive or spelled with and, or and complement. */
  function XorByParts(k: byte, d: byte): (r: byte)
    ensures r == d ^ k
  {
    ((!k) & d) | (k & (!d))
  }

  lemma ShortLengthMask(n: nat)
    requires n < 126
    ensures ByteOf(n) & 0x7F == ByteOf(n)
  {
    ByteOfValue(n);
  }

  /** Writes the length field over byte 1 and the extended length behind it;
      -1 when the capacity is too small for them. For the largest 32-bit length it does nothing. */
  method PutLength(package: array<byte>, packageMaxLen: nat, dataLen: nat) returns (len: int)
    requires dataLen < 0x1_0000_0000
    requires 2 <= packageMaxLen <= package.Length
    modifies package
    ensures len == 1 <==> dataLen == 0xFFFF_FFFF
    ensures len == 1 ==> package[..] == old(package[..])
    ensures len == -1 <==> dataLen < 0xFFFF_FFFF && packageMaxLen < PrefixSize(dataLen)
    ensures len != -1 && len != 1 ==>
      && len == PrefixSize(dataLen)
      && package[0] == old(package[0])
      && package[1] == old(package[1]) | ShortLength(dataLen)
      && (forall k :: 2 <= k < len ==> package[k] == ExtendedLength(dataLen)[k - 2])
      && (forall k :: len <= k < package.Length ==> package[k] == old(package[k]))
  {
    if dataLen < 126 {
      ShortLengthMask(dataLen);
      package[1] := package[1] | (ByteOf(dataLen) & 0x7F);
      len := 2;
    } else if dataLen < 0x1_0000 {
      if packageMaxLen < 4 {
        return -1;
      }
      package[1] := package[1] | 0x7E;
      package[2] := ByteOf(dataLen / 0x100);
      package[3] := ByteOf(dataLen % 0x100);
      len := 4;
    } else if dataLen < 0xFFFF_FFFF {
      if packageMaxLen < 10 {
        return -1;
      }
      package[1] := package[1] | 0x7F;
      package[2], package[3], package[4], package[5] := 0, 0, 0, 0;
      PutLowLength(package, dataLen);
      len := 10;
    } else {
      len := 1;
    }
  }

  /** The four low bytes of a 64-bit length. */
  method PutLowLength(package: array<byte>, dataLen: nat)
    requires dataLen < 0x1_0000_0000 && 10 <= package.Length
    modifies package
    ensures package[6..10] == BigEndian32(dataLen)
    ensures forall k :: 0 <= k < 6 || 10 <= k < package.Length ==> package[k] == old(package[k])
  {
    var high, low := dataLen / 0x1_0000, dataLen % 0x1_0000;
    package[6] := ByteOf(high / 0x100);
    package[7] := ByteOf(high % 0x100);
    package[8] := ByteOf(low / 0x100);
    package[9] := ByteOf(low % 0x100);
  }

  /** Stores `data`, masked from its first byte on, at `at`. */
  method PutMasked(data: seq<byte>, package: array<byte>, at: nat, maskKey: MaskKey)
    requires at + |data| <= package.Length
    modifies package
    ensures package[..at + |data|] == old(package[..at]) + Masked(data, maskKey, 0)
    ensures forall k :: at + |data| <= k < package.Length ==> package[k] == old(package[k])
  {
    var count := 0;
    for i := 0 to |data|
      invariant count == i % 4
      invariant forall k :: 0 <= k < i ==> package[at + k] == Masked(data, maskKey, 0)[k]
      invariant forall k :: 0 <= k < at || at + i <= k < package.Length ==> package[k] == old(package[k])
    {
      var temp1, temp2 := maskKey[count], data[i];
      package[at + i] := XorByParts(temp1, temp2);
      count := count + 1;
      if count >= 4 {
        count := 0;
      }
    }
    assert package[at..at + |data|] == Masked(data, maskKey, 0);
  }

  /** Stores `data` unchanged at `at`. */
  method PutPlain(data: seq<byte>, package: array<byte>, at: nat)
    requires at + |data| <= package.Length
    modifies package
    ensures package[..at + |data|] == old(package[..at]) + data
    ensures forall k :: at + |data| <= k < package.Length ==> package[k] == old(package[k])
  {
    forall i | 0 <= i < |data| {
      package[at + i] := data[i];
    }
  }

  /** Stores the payload and a terminator. */
  method PutBody(data: seq<byte>, package: array<byte>, at: nat, isMask: bool, maskKey: MaskKey)
    requires at + |data| < package.Length
    modifies package
    ensures package[..at + |data|] == old(package[..at]) + (if isMask then Masked(data, maskKey, 0) else data)
    ensures package[at + |data|] == 0
    ensures forall k :: at + |data| < k < package.Length ==> package[k] == old(package[k])
  {
    if isMask {
      PutMasked(data, package, at, maskKey);
    } else {
      PutPlain(data, package, at);
    }
    package[at + |data|] := 0;
  }

  lemma PrefixAssembled(first: byte, second: byte, n: nat, s: seq<byte>)
    requires n <= MAX_INT
    requires |s| >= PrefixSize(n) && s[0] == first && s[1] == second
    requires forall k :: 2 <= k < PrefixSize(n) ==> s[k] == ExtendedLength(n)[k - 2]
    ensures s[..PrefixSize(n)] == [first, second] + ExtendedLength(n)
  {
    forall k | 2 <= k < PrefixSize(n)
      ensures s[k] == ([first, second] + ExtendedLength(n))[k]
    {
    }
  }

  /** The prefix and, when masking, the key; -1 when the whole frame does not fit the capacity. */
  method PutHeader(package: array<byte>, packageMaxLen: nat, first: byte, isMask: bool, maskKey: MaskKey,
                   dataLen: nat) returns (len: int)
    requires dataLen <= MAX_INT
    requires 2 <= packageMaxLen <= package.Length
    modifies package
    ensures var size := PrefixSize(dataLen) + if isMask then 4 else 0;
      len == if packageMaxLen < size + dataLen then -1 else size
    ensures len != -1 ==>
      && package[..len] == [first, (if isMask then 0x80 else old(package[1])) | ShortLength(dataLen)]
                           + ExtendedLength(dataLen) + (if isMask then maskKey else [])
      && (forall k :: len <= k < package.Length ==> package[k] == old(package[k]))
  {
    hide ShortLength, ExtendedLength;
    package[0] := first;
    if isMask {
      package[1] := 0x80;
    }
    ghost var start := package[1];
    len := PutLength(package, packageMaxLen, dataLen);
    if len == -1 || packageMaxLen < len + dataLen + if isMask then 4 else 0 {
      return -1;
    }
    PrefixAssembled(first, start | ShortLength(dataLen), dataLen, package[..]);
    if isMask {
      PutPlain(maskKey, package, len);
      len := len + 4;
    }
  }

  lemma FrameParts(t: DataType, key: Option<MaskKey>, payload: seq<byte>)
    requires IsSendable(t) && |payload| <= MAX_INT
    ensures var f := FrameOf(t, key, payload);
      f.key == key && f.payload == payload && Body(f) == if key.Some? then Masked(payload, key.value, 0) else payload
  {
  }

  lemma WireOverParts(f: Frame, stale: byte)
    requires Sendable(f)
    ensures WireOver(f, stale) ==
      [FirstByte(f.fin, f.opcode), (if f.key.Some? then 0x80 else stale) | ShortLength(|f.payload|)]
      + ExtendedLength(|f.payload|) + (if f.key.Some? then f.key.value else []) + Body(f)
  {
  }

  /** Header, payload and terminator of a frame with the given first byte. */
  method PutFrame(data: seq<byte>, package: array<byte>, packageMaxLen: nat, isMask: bool, first: byte,
                  maskKey: MaskKey) returns (r: int)
    requires |data| <= MAX_INT && 2 <= packageMaxLen <= package.Length
    requires var size := PrefixSize(|data|) + (if isMask then 4 else 0) + |data|;
      size <= packageMaxLen ==> size < package.Length
    modifies package
    ensures var size := PrefixSize(|data|) + (if isMask then 4 else 0) + |data|;
      r == if packageMaxLen < size then -1 else size
    ensures r != -1 ==>
      && package[..r] == [first, (if isMask then 0x80 else old(package[1])) | ShortLength(|data|)]
                         + ExtendedLength(|data|) + (if isMask then maskKey else [])
                         + (if isMask then Masked(data, maskKey, 0) else data)
      && package[r] == 0
      && (forall k :: r < k < package.Length ==> package[k] == old(package[k]))
  {
    hide ShortLength, ExtendedLength, Masked;
    var len := PutHeader(package, packageMaxLen, first, isMask, maskKey, |data|);
    if len == -1 {
      return -1;
    }
    PutBody(data, package, len, isMask, maskKey);
    r := len + |data|;
  }

  /** Packs `data` into `package`; returns the packed length, or -1 when the type cannot be sent or
      the capacity is too small. The capacity check does not count the terminator behind the frame, so a frame that
      fills the buffer would put it outside. */
  method EnPackage(data: seq<byte>, package: array<byte>, packageMaxLen: nat, isMask: bool, t: DataType,
                   maskKey: MaskKey) returns (r: int)
    requires PrefixSize(|data|) + (if isMask then 4 else 0) + |data| <= MAX_INT
    requires packageMaxLen <= package.Length
    requires IsSendable(t) ==>
      var size := |Wire(FrameOf(t, if isMask then Some(maskKey) else None, data))|;
      size <= packageMaxLen ==> size < package.Length
    modifies package
    ensures r == -1 <==> !IsSendable(t) ||
                         packageMaxLen < |Wire(FrameOf(t, if isMask then Some(maskKey) else None, data))|
    ensures r != -1 ==>
      var f := FrameOf(t, if isMask then Some(maskKey) else None, data);
      && r == |Wire(f)|
      && package[..r] == WireOver(f, old(package[1]))
      && package[r] == 0
      && (forall k :: r < k < package.Length ==> package[k] == old(package[k]))
  {
    if packageMaxLen < 2 || !IsSendable(t) {
      return -1;
    }
    hide TypeByte, FirstByte, ShortLength, ExtendedLength, WireOver, Wire, FrameOf, Body, Masked;
    ghost var f := FrameOf(t, if isMask then Some(maskKey) else None, data);
    FrameParts(t, if isMask then Some(maskKey) else None, data);
    WireOverParts(f, package[1]);
    TypeByteIsFirstByte(t, f.key, data);
    r := PutFrame(data, package, packageMaxLen, isMask, TypeByte(t), maskKey);
  }

  /** The type announced by the first byte, `Err` when the client knows no such frame. */
  function TypeOf(first: byte): (t: DataType) {
    var code := first & 0x0F;
    if first & 0x80 == 0x80 then
      if code == 0x1 then TxtData
      else if code == 0x2 then BinData
      else if code == 0x8 then DisConn
      else if code == 0x9 then Ping
      else if code == 0xA then Pong
      else Err
    else if code == 0x0 then MinData
    else Err
  }

  predicate UpperHalfZero(data: seq<byte>)
    requires |data| >= 6
  {
    data[2] == 0 && data[3] == 0 && data[4] == 0 && data[5] == 0
  }

  /** Payload and header length announced by the bytes at hand, when there are enough of them. */
  function DeclaredSizes(data: seq<byte>): (r: Option<(nat, nat)>) {
    if |data| < 2 || TypeOf(data[0]) == Err then None
    else
      var mask := if data[1] & 0x80 == 0x80 then 4 else 0;
      var len := LowSeven(data[1]);
      if len == 126 then
        if |data| < 4 then None else Some((FromBigEndian(data[2..4]), 4 + mask))
      else if len == 127 then
        if |data| < 10 || !UpperHalfZero(data) then None
        else Some((FromBigEndian(data[6..10]), 10 + mask))
      else Some((len, 2 + mask))
  }

  /** What the whole-buffer decoder finds in `data` for an output area of `packageMaxLen` bytes. */
  function Unpacked(data: seq<byte>, packageMaxLen: nat): (r: (DataType, seq<byte>)) {
    match DeclaredSizes(data)
    case None => (Err, [])
    case Some((len, head)) =>
      if |data| < head + len || packageMaxLen < len + 1 then (Err, [])
      else if data[1] & 0x80 == 0x80 && head >= 4 then
        (TypeOf(data[0]), Masked(data[head..head + len], data[head - 4..head], 0))
      else (TypeOf(data[0]), data[head..head + len])
  }

  /** Every frame the encoder can build is recognised with its own type and lengths, from its prefix on:
      no fewer bytes are enough, and neither the key nor the payload need to have arrived. */
  lemma {:induction false} DeclaredSizesOfPrefix(t: DataType, key: Option<MaskKey>, payload: seq<byte>, data: seq<byte>)
    requires IsSendable(t) && |payload| <= MAX_INT
    requires var f := FrameOf(t, key, payload); data <= Wire(f) || Wire(f) <= data
    ensures var f := FrameOf(t, key, payload);
      DeclaredSizes(data) ==
      if |data| < PrefixSize(|payload|) then None else Some((|payload|, HeaderSize(f)))
  {
    var f := FrameOf(t, key, payload);
    if |data| >= 2 {
      FirstByteOfType(t, key, payload);
      WireFields(f);
      var n := PrefixSize(|payload|);
      SamePrefix(data, Wire(f), 2, n);
      DeclaredSizesFromFields(data, key.Some?, |payload|);
    }
  }

  lemma SamePrefix(a: seq<byte>, b: seq<byte>, from: nat, to: nat)
    requires a <= b || b <= a
    requires from <= to <= |b| && from <= |a|
    ensures forall i :: 0 <= i < from ==> a[i] == b[i]
    ensures to <= |a| ==> a[from..to] == b[from..to]
  {
  }

  lemma DeclaredSizesFromFields(data: seq<byte>, masked: bool, n: nat)
    requires n <= MAX_INT
    requires |data| >= 2 && TypeOf(data[0]) != Err && data[1] == SecondByte(masked, n)
    requires |data| >= PrefixSize(n) ==> data[2..PrefixSize(n)] == ExtendedLength(n)
    ensures DeclaredSizes(data) ==
            if |data| < PrefixSize(n) then None else Some((n, PrefixSize(n) + if masked then 4 else 0))
  {
    SecondByteFields(masked, n);
    if 126 <= n && |data| >= PrefixSize(n) {
      ExtendedLengthRoundTrip(n);
      var e := ExtendedLength(n);
      if n >= 0x1_0000 {
        assert data[2] == e[0] && data[3] == e[1] && data[4] == e[2] && data[5] == e[3];
        assert data[6..10] == data[2..10][4..];
      }
    }
  }

  /** What the length bytes announce: seven bits, or the number in two bytes, or the number in eight bytes when it fits
      32 bits; a larger one is refused. */
  lemma {:induction false} LengthsRead(data: seq<byte>)
    requires |data| >= 10 && TypeOf(data[0]) != Err
    ensures var short, mask := (data[1] & 0x7F) as nat, if data[1] >= 0x80 then 4 else 0;
      DeclaredSizes(data) ==
        if short < 126 then Some((short, 2 + mask))
        else if short == 126 then Some((data[2] as nat * 256 + data[3] as nat, 4 + mask))
        else if FromBigEndian(data[2..10]) < 0x1_0000_0000 then Some((FromBigEndian(data[2..10]), 10 + mask))
        else None
  {
    hide TypeOf, FromBigEndian;
    assert data[1] & 0x80 == 0x80 <==> data[1] >= 0x80;
    FromBigEndian2(data[2..4]);
    EightBytes(data[2..10]);
    assert data[2..10][4..] == data[6..10];
    BigEndianRange(data[6..10]);
  }

  /** The number in eight bytes is the one in the last four exactly when the first four are zero, and otherwise larger
      than any number in four. */
  lemma {:induction false} EightBytes(b: seq<byte>)
    requires |b| == 8
    ensures if b[0] == 0 && b[1] == 0 && b[2] == 0 && b[3] == 0 then FromBigEndian(b) == FromBigEndian(b[4..])
            else FromBigEndian(b) >= 0x1_0000_0000
  {
    hide FromBigEndian;
    UpperHalf(b[..4]);
    Halves(b);
  }

  lemma UpperHalf(b: seq<byte>)
    requires |b| == 4
    ensures FromBigEndian(b) == 0 <==> b[0] == 0 && b[1] == 0 && b[2] == 0 && b[3] == 0
  {
    hide FromBigEndian;
    FromBigEndian4(b);
    FromBigEndian2(b[..2]);
    FromBigEndian2(b[2..]);
  }

  lemma Halves(b: seq<byte>)
    requires |b| == 8
    ensures FromBigEndian(b) == FromBigEndian(b[..4]) * 0x1_0000_0000 + FromBigEndian(b[4..])
  {
    hide FromBigEndian;
    var t := b[4..];
    FromBigEndian4(t);
    FromBigEndian2(t[..2]);
    FromBigEndian2(t[2..]);
    LastByte(b, 8);
    LastByte(b, 7);
    LastByte(b, 6);
    LastByte(b, 5);
    assert b[..8] == b;
  }

  lemma LastByte(b: seq<byte>, n: nat)
    requires 0 < n <= |b|
    ensures FromBigEndian(b[..n]) == FromBigEndian(b[..n - 1]) * 0x100 + b[n - 1] as nat
  {
    assert b[..n][..n - 1] == b[..n - 1];
  }

  lemma FirstByteOfType(t: DataType, key: Option<MaskKey>, payload: seq<byte>)
    requires IsSendable(t)
    ensures var f := FrameOf(t, key, payload); TypeOf(FirstByte(f.fin, f.opcode)) == t
  {
    TypeByteIsFirstByte(t, key, payload);
  }

  /** The decoder inverts the encoder for all six types, masked or not, whatever follows the frame,
      as soon as the output area has room for the payload and its terminator. */
  lemma {:induction false} UnpackedInvertsWire(t: DataType, key: Option<MaskKey>, payload: seq<byte>,
                                               trailing: seq<byte>,
                            packageMaxLen: nat)
    requires IsSendable(t) && |payload| <= MAX_INT
    ensures Unpacked(Wire(FrameOf(t, key, payload)) + trailing, packageMaxLen) ==
            if packageMaxLen < |payload| + 1 then (Err, []) else (t, payload)
  {
    var f := FrameOf(t, key, payload);
    var w, head := Wire(f), HeaderSize(f);
    var data := w + trailing;
    DeclaredSizesOfPrefix(t, key, payload, data);
    FirstByteOfType(t, key, payload);
    SecondByteFields(key.Some?, |payload|);
    WireFields(f);
    SameSlice(w, trailing, head, |w|);
    if key.Some? {
      SameSlice(w, trailing, head - 4, head);
      MaskedTwice(payload, key.value, 0);
    }
  }

  lemma SameSlice(w: seq<byte>, trailing: seq<byte>, from: nat, to: nat)
    requires from <= to <= |w|
    ensures (w + trailing)[from..to] == w[from..to]
    ensures forall i :: 0 <= i < |w| ==> (w + trailing)[i] == w[i]
  {
  }

  /** A frame that has not fully arrived is never taken for a complete one. */
  lemma {:induction false} IncompleteFrameIsRefused(t: DataType, key: Option<MaskKey>, payload: seq<byte>,
                                                    data: seq<byte>,
                                 packageMaxLen: nat)
    requires IsSendable(t) && |payload| <= MAX_INT
    requires data < Wire(FrameOf(t, key, payload))
    ensures Unpacked(data, packageMaxLen) == (Err, [])
  {
    DeclaredSizesOfPrefix(t, key, payload, data);
  }

  method ReadShort(b: seq<byte>) returns (len: nat)
    requires |b| == 2
    ensures len == FromBigEndian(b)
  {
    len := b[0] as nat;
    len := len * 0x100 + b[1] as nat;
    FromBigEndian2(b);
  }

  method ReadLong(b: seq<byte>) returns (len: nat)
    requires |b| == 4
    ensures len == FromBigEndian(b)
  {
    len := b[0] as nat;
    len := len * 0x100 + b[1] as nat;
    len := len * 0x100 + b[2] as nat;
    len := len * 0x100 + b[3] as nat;
    FromBigEndian4(b);
    FromBigEndian2(b[..2]);
    FromBigEndian2(b[2..]);
  }

  /** Reads the type, the mask bit and the lengths. */
  method ReadSizes(data: seq<byte>) returns (t: DataType, count: nat, sizes: Option<(nat, nat)>)
    ensures sizes == DeclaredSizes(data)
    ensures sizes.Some? ==> t == TypeOf(data[0]) && count == if data[1] & 0x80 == 0x80 then 4 else 0
  {
    t, count, sizes := Err, 0, None;
    if |data| < 2 {
      return;
    }
    t := TypeOf(data[0]);
    if t == Err {
      return;
    }
    count := if data[1] & 0x80 == 0x80 then 4 else 0;
    var len7 := LowSeven(data[1]);
    if len7 == 126 {
      if |data| < 4 {
        return;
      }
      var len := ReadShort(data[2..4]);
      sizes := Some((len, 4 + count));
    } else if len7 == 127 {
      if |data| < 10 {
        return;
      }
      if data[2] != 0 || data[3] != 0 || data[4] != 0 || data[5] != 0 {
        return;
      }
      var len := ReadLong(data[6..10]);
      sizes := Some((len, 10 + count));
    } else {
      sizes := Some((len7, 2 + count));
    }
  }

  /** The sums of lengths are computed in 32 bits. */
  const WORD := 0x1_0000_0000

  /** The decoder leaves its buffers: the length announced is so close to 2^32 that the sum with the header length
      wraps around, the data at hand are enough for the wrapped sum, and then either the mask key lies behind
      them or the output area is large enough for the (possibly wrapped) length. */
  predicate Overruns(data: seq<byte>, packageMaxLen: nat) {
    match DeclaredSizes(data)
    case None => false
    case Some((len, head)) =>
      && len + head >= WORD && |data| >= len + head - WORD
      && (|data| < head || packageMaxLen >= (len + 1) % WORD)
  }

  /** A length of 2^32 - 1 leaves every output area. */
  lemma {:induction false} LongestLengthOverruns(data: seq<byte>, packageMaxLen: nat)
    requires |data| == 14 && TypeOf(data[0]) != Err && data[1] == 0xFF && UpperHalfZero(data)
    requires data[6] == 0xFF && data[7] == 0xFF && data[8] == 0xFF && data[9] == 0xFF
    ensures Overruns(data, packageMaxLen)
  {
    var b := data[6..10];
    FromBigEndian4(b);
    FromBigEndian2(b[..2]);
    FromBigEndian2(b[2..]);
    assert DeclaredSizes(data) == Some((0xFFFF_FFFF, 14));
  }

  /** No beginning of a frame that the encoder builds does that. */
  lemma {:induction false} EncodedStaysInside(t: DataType, key: Option<MaskKey>, payload: seq<byte>, data: seq<byte>,
                                              packageMaxLen: nat)
    requires IsSendable(t) && |payload| <= MAX_INT
    requires var f := FrameOf(t, key, payload); data <= Wire(f) || Wire(f) <= data
    ensures !Overruns(data, packageMaxLen)
  {
    hide DeclaredSizes, Wire;
    DeclaredSizesOfPrefix(t, key, payload, data);
  }

  /** Unpacks the frame at the start of `data` into `package`. `sizes` carries the two lengths as soon as
      they are known, even when the frame is not complete. `inside` is false when the source would read behind
      `data` or write behind `package`, and then nothing more is said. */
  method DePackage(data: seq<byte>, package: array<byte>, packageMaxLen: nat)
    returns (ret: DataType, sizes: Option<(nat, nat)>, inside: bool)
    requires |data| < WORD && packageMaxLen < WORD && packageMaxLen <= package.Length
    modifies package
    ensures sizes == DeclaredSizes(data)
    ensures inside <==> !Overruns(data, packageMaxLen)
    ensures inside ==> ret == Unpacked(data, packageMaxLen).0
    ensures inside && ret != Err ==>
      var payload := Unpacked(data, packageMaxLen).1;
      && |payload| < package.Length
      && package[..|payload|] == payload
      && package[|payload|] == 0
      && (forall k :: |payload| < k < package.Length ==> package[k] == old(package[k]))
    ensures inside && ret == Err ==> package[..] == old(package[..])
  {
    hide DeclaredSizes, Unpacked, TypeOf, Masked;
    var t, count;
    t, count, sizes := ReadSizes(data);
    ret, inside := Err, true;
    UnpackedParts(data, packageMaxLen);
    if sizes == None {
      return;
    }
    var (len, dataStart) := sizes.value;
    LengthIsWord(data);
    if |data| < (len + dataStart) % WORD {
      return;
    }
    // the mask key ends where the payload starts
    if |data| < dataStart {
      inside := false;
      return;
    }
    var maskKey := if count == 4 then data[dataStart - 4..dataStart] else [0, 0, 0, 0];
    if packageMaxLen < (len + 1) % WORD {
      return;
    }
    if |data| < dataStart + len || packageMaxLen < len + 1 {
      inside := false;
      return;
    }
    PutBody(data[dataStart..dataStart + len], package, 0, count == 4, maskKey);
    ret := t;
  }

  /** The first byte behind the header, and the key in front of it, decide the payload. */
  lemma UnpackedParts(data: seq<byte>, packageMaxLen: nat)
    ensures DeclaredSizes(data) == None ==> Unpacked(data, packageMaxLen) == (Err, [])
    ensures DeclaredSizes(data).Some? ==>
      var (len, head) := DeclaredSizes(data).value;
      && |data| >= 2 && TypeOf(data[0]) != Err && head >= (if data[1] & 0x80 == 0x80 then 6 else 2)
      && (|data| < head + len || packageMaxLen < len + 1 ==> Unpacked(data, packageMaxLen) == (Err, []))
      && (|data| >= head + len && packageMaxLen >= len + 1 ==>
          Unpacked(data, packageMaxLen) ==
          (TypeOf(data[0]),
           if data[1] & 0x80 == 0x80 then Masked(data[head..head + len], data[head - 4..head], 0)
           else data[head..head + len]))
  {
  }

  lemma LengthIsWord(data: seq<byte>)
    ensures var s := DeclaredSizes(data);
      s.Some? ==> s.value.0 < WORD && 2 <= s.value.1 <= 14 && (data[1] & 0x80 == 0x80 ==> s.value.1 >= 6)
  {
    if |data| >= 4 {
      BigEndianRange(data[2..4]);
    }
    if |data| >= 10 {
      BigEndianRange(data[6..10]);
    }
  }

  lemma {:induction false} BigEndianRange(b: seq<byte>)
    requires |b| == 2 || |b| == 4
    ensures FromBigEndian(b) < WORD
  {
    if |b| == 2 {
      FromBigEndian2(b);
    } else {
      FromBigEndian4(b);
      FromBigEndian2(b[..2]);
      FromBigEndian2(b[2..]);
    }
  }
}
