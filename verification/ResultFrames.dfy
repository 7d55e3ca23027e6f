/** The unmasked text frame in which the server sends a result. */
module ResultFrames {
  import opened Bytes
  import opened Frame
  import opened FrameDecoding
  import opened Packet
  import ClientFraming

  /** The length field as the server writes it: 65535 already takes the long form. */
  function LengthField(n: nat): (r: seq<byte>)
    requires n <= MAX_INT
    ensures |r| + 1 == HeadLength(n)
  {
    if n < 126 then [ByteOf(n)]
    else if n < 0xFFFF then [0x7E] + BigEndian16(n)
    else [0x7F, 0, 0, 0, 0] + BigEndian32(n)
  }

  function HeadLength(n: nat): nat {
    if n < 126 then 2 else if n < 0xFFFF then 4 else 10
  }

  /** What is reserved for a frame; the long form is given two bytes less than it needs. */
  function Reserved(n: nat): nat {
    n + if n < 126 then 2 else if n < 0xFFFF then 4 else 8
  }

  function ResultWire(payload: seq<byte>): (r: seq<byte>)
    requires |payload| <= MAX_INT
    ensures |r| == HeadLength(|payload|) + |payload|
  {
    [0x81] + LengthField(|payload|) + payload
  }

  method PutWord(data: array<byte>, at: nat, n: nat)
    requires n < 0x1_0000 && at + 2 <= data.Length
    modifies data
    ensures data[at..at + 2] == BigEndian16(n)
    ensures forall k :: 0 <= k < data.Length && k != at && k != at + 1 ==> data[k] == old(data[k])
  {
    data[at] := ByteOf(n / 0x100);
    data[at + 1] := ByteOf(n % 0x100);
  }

  /** Writes the first byte and the length field into the zeroed buffer. */
  method PutHead(data: array<byte>, length: nat) returns (head_length: nat)
    requires length <= MAX_INT && Reserved(length) <= data.Length
    modifies data
    ensures head_length == HeadLength(length) <= data.Length
    ensures data[..head_length] == [0x81] + LengthField(length)
  {
    hide ByteOf;
    data[0] := 0x81;
    if length < 126 {
      data[1] := ByteOf(length);
      head_length := 2;
    } else if length < 0xFFFF {
      data[1] := 0x7E;
      PutWord(data, 2, length);
      head_length := 4;
    } else {
      data[1], data[2], data[3], data[4], data[5] := 0x7F, 0, 0, 0, 0;
      PutWord(data, 6, length / 0x1_0000);
      PutWord(data, 8, length % 0x1_0000);
      head_length := 10;
      WordsJoined(data[..], length);
    }
    assert data[1..head_length] == LengthField(length);
  }

  /** The two halves of the long form, written one after the other behind five fixed bytes. */
  lemma WordsJoined(data: seq<byte>, length: nat)
    requires 0xFFFF <= length <= MAX_INT && |data| >= 10
    requires data[1] == 0x7F && data[2] == data[3] == data[4] == data[5] == 0
    requires data[6..8] == BigEndian16(length / 0x1_0000) && data[8..10] == BigEndian16(length % 0x1_0000)
    ensures data[1..10] == LengthField(length)
  {
    hide ByteOf, BigEndian16;
    assert data[6..10] == data[6..8] + data[8..10];
    assert data[1..10] == [0x7F, 0, 0, 0, 0] + data[6..10];
  }

  /** Empties the first `len` bytes. */
  method Clear(data: array<byte>, len: nat)
    requires len <= data.Length
    modifies data
  {
    forall i | 0 <= i < len {
      data[i] := 0;
    }
  }

  method PutResult(data: array<byte>, at: nat, result: seq<byte>)
    requires at + |result| <= data.Length
    modifies data
    ensures data[..at + |result|] == old(data[..at]) + result
  {
    forall i | 0 <= i < |result| {
      data[at + i] := result[i];
    }
  }

  /** Builds the frame in the write packet. Storing the payload stays inside the allocation exactly when the
      long form is not needed, or an earlier, larger result has left enough room. */
  method BuildResult(packet: Packet, result: seq<byte>) returns (fits: bool)
    requires packet.Valid() && packet.state_ == PACKET_INIT && |result| <= MAX_INT - 10
    modifies packet`data_, packet`size_, packet`len_, packet.data_
    ensures packet.Valid() && (packet.data_ == old(packet.data_) || (packet.data_ != null && fresh(packet.data_)))
    ensures var need := |result| + (if |result| < 126 then 2 else if |result| < 0xFFFF then 4 else 8);
      packet.size_ == if old(packet.size_) < need then need else old(packet.size_)
    ensures fits <==> |result| < 0xFFFF || |result| + 10 <= old(packet.size_)
    ensures fits ==> packet.len_ <= |packet.Buffer()| && packet.Buffer()[..packet.len_] == ResultWire(result)
  {
    var length := |result|;
    packet.Resize(Reserved(length));
    var data := packet.data_;
    Clear(data, Reserved(length));
    var head_length := PutHead(data, length);
    if head_length + length > packet.size_ {
      return false;
    }
    PutResult(data, head_length, result);
    packet.len_ := head_length + length;
    fits := true;
  }

  /** The result is the frame RFC 6455 prescribes, unless it is 65535 bytes long. */
  lemma {:induction false} ResultIsFrame(payload: seq<byte>)
    requires |payload| <= MAX_INT
    ensures ResultWire(payload) == Wire(Frame(true, 1, None, payload)) <==> |payload| != 0xFFFF
  {
    var f, n := Frame(true, 1, None, payload), |payload|;
    WireFields(f);
    FirstIsText();
    if n == 0xFFFF {
      assert ResultWire(payload)[1] == 0x7F && Wire(f)[1] == 0x7E;
    } else {
      HeadIsPrefix(f);
      assert Header(f) == Prefix(f) + [] == Prefix(f);
    }
  }

  lemma FirstIsText()
    ensures FirstByte(true, 1) == 0x81
  {
    ClientFraming.Nibbles();
  }

  lemma HeadIsPrefix(f: Frame)
    requires f.fin && f.opcode == 1 && f.key == None && |f.payload| <= MAX_INT && |f.payload| != 0xFFFF
    ensures [0x81] + LengthField(|f.payload|) == Prefix(f)
  {
    hide ByteOf;
    FirstIsText();
    var n := |f.payload|;
    assert 0x00 | ShortLength(n) == ShortLength(n);
    if n > 0xFFFF {
      assert [0x7F, 0, 0, 0, 0] + BigEndian32(n) == [0x7F as byte] + ExtendedLength(n);
    }
    Associative([0x81], [SecondByte(false, n)], ExtendedLength(n));
  }

  lemma Associative(a: seq<byte>, b: seq<byte>, c: seq<byte>)
    ensures a + (b + c) == (a + b) + c
  {
  }

  /** Whatever its length, the client's decoder takes the frame apart again. */
  lemma {:induction false} ResultUnpacked(payload: seq<byte>, trailing: seq<byte>, packageMaxLen: nat)
    requires |payload| <= MAX_INT
    ensures ClientFraming.Unpacked(ResultWire(payload) + trailing, packageMaxLen) ==
            if packageMaxLen < |payload| + 1 then (ClientFraming.Err, []) else (ClientFraming.TxtData, payload)
  {
    if |payload| != 0xFFFF {
      ResultIsFrame(payload);
      ClientFraming.UnpackedInvertsWire(ClientFraming.TxtData, None, payload, trailing, packageMaxLen);
    } else {
      LongestShortUnpacked(payload, trailing, packageMaxLen);
    }
  }

  lemma LongestShortUnpacked(payload: seq<byte>, trailing: seq<byte>, packageMaxLen: nat)
    requires |payload| == 0xFFFF
    ensures ClientFraming.Unpacked(ResultWire(payload) + trailing, packageMaxLen) ==
            if packageMaxLen < |payload| + 1 then (ClientFraming.Err, []) else (ClientFraming.TxtData, payload)
  {
    var w := ResultWire(payload);
    var data := w + trailing;
    assert w[1..10] == LengthField(0xFFFF);
    assert data[0] == 0x81 && data[1] == 0x7F;
    assert data[2] == 0 && data[3] == 0 && data[4] == 0 && data[5] == 0;
    assert data[6..10] == w[1..10][5..] == BigEndian32(0xFFFF);
    BigEndian32RoundTrip(0xFFFF);
    assert ClientFraming.DeclaredSizes(data) == Some((0xFFFF, 10));
    assert data[10..10 + 0xFFFF] == payload;
  }
}
