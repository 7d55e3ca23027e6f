/** What the standards print: every octet of a frame by its position (section 5.2 of RFC 6455), the example frames of
    section 5.7, the alphabet and the examples of RFC 4648, and the examples of section 7 of RFC 3629. */
module PublishedExamples {
  import opened Bytes
  import opened ClientFraming
  import opened Frame
  import Base64Text
  import Utf8

  // Frames.

  /** The number in the length field, as the wire carries it: 7 bits, or 126 and two octets, or 127 and eight. */
  predicate Announces(w: seq<byte>, n: nat)
    requires |w| >= 2
  {
    var short := (w[1] & 0x7F) as nat;
    if n <= 125 then short == n
    else if n <= 65535 then short == 126 && |w| >= 4 && n == w[2] as nat * 256 + w[3] as nat
    else
      && short == 127 && |w| >= 10 && w[2] == 0 && w[3] == 0 && w[4] == 0 && w[5] == 0
      && n == ((w[6] as nat * 256 + w[7] as nat) * 256 + w[8] as nat) * 256 + w[9] as nat
  }

  /** Where the key or, in a plain frame, the payload starts. */
  function FieldsEnd(n: nat): nat {
    if n <= 125 then 2 else if n <= 65535 then 4 else 10
  }

  lemma ByteValues(n: nat)
    requires n < 0x1_0000
    ensures BigEndian16(n)[0] as nat * 256 + BigEndian16(n)[1] as nat == n
  {
    BigEndian16RoundTrip(n);
    FromBigEndian2(BigEndian16(n));
  }

  lemma LongLength(n: nat)
    requires 65535 < n < 0x1_0000_0000
    ensures var e := ExtendedLength(n);
      && |e| == 8 && e[0] == 0 && e[1] == 0 && e[2] == 0 && e[3] == 0
      && ((e[4] as nat * 256 + e[5] as nat) * 256 + e[6] as nat) * 256 + e[7] as nat == n
  {
    hide BigEndian16;
    var hi, lo := n / 0x1_0000, n % 0x1_0000;
    ByteValues(hi);
    ByteValues(lo);
    assert ExtendedLength(n) == [0, 0, 0, 0] + (BigEndian16(hi) + BigEndian16(lo));
  }

  lemma LengthOctets(f: Frame)
    requires Sendable(f)
    ensures Announces(Wire(f), |f.payload|)
  {
    hide Wire, SecondByte, BigEndian16;
    var w, n := Wire(f), |f.payload|;
    WireFields(f);
    SecondByteFields(f.key.Some?, n);
    if 125 < n <= 65535 {
      ByteValues(n);
      assert w[2] == w[2..4][0] && w[3] == w[2..4][1];
    } else if n > 65535 {
      LongLength(n);
      Eight(w, ExtendedLength(n));
    }
  }

  lemma Eight(w: seq<byte>, e: seq<byte>)
    requires |w| >= 10 && |e| == 8 && w[2..10] == e
    ensures forall i :: 0 <= i < 8 ==> w[2 + i] == e[i]
  {
  }

  lemma FirstOctet(fin: bool, opcode: nat)
    requires opcode < 16
    ensures FirstByte(fin, opcode) as nat == (if fin then 128 else 0) + opcode
  {
    ByteOfValue(opcode);
    var b := ByteOf(opcode);
    assert b < 0x10;
    assert 0x80 | b == 0x80 + b;
  }

  lemma MaskBit(f: Frame)
    requires Sendable(f)
    ensures Wire(f)[1] >= 128 <==> f.key.Some?
  {
    hide Wire, SecondByte;
    WireFields(f);
    SecondByteFields(f.key.Some?, |f.payload|);
    var b := Wire(f)[1];
    assert b & 0x80 == 0x80 <==> b >= 128;
  }

  /** Every octet of a frame. */
  lemma {:induction false} WireOctets(f: Frame)
    requires Sendable(f)
    ensures var w, n, start := Wire(f), |f.payload|, FieldsEnd(|f.payload|);
      && w[0] as nat == (if f.fin then 128 else 0) + f.opcode
      && (w[1] >= 128 <==> f.key.Some?)
      && Announces(w, n)
      && (f.key == None ==> |w| == start + n && w[start..] == f.payload)
      && (f.key.Some? ==> |w| == start + 4 + n && w[start..start + 4] == f.key.value)
      && (f.key.Some? ==> forall i :: 0 <= i < n ==>
           w[start + 4 + i] == f.payload[i] ^ w[start + i % 4])
  {
    hide Wire, FirstByte, Announces, Masked;
    var w, n, start := Wire(f), |f.payload|, FieldsEnd(|f.payload|);
    WireFields(f);
    FirstOctet(f.fin, f.opcode);
    MaskBit(f);
    LengthOctets(f);
    if f.key.Some? {
      MaskedOctets(w, start, f.payload, f.key.value);
    }
  }

  lemma MaskedOctets(w: seq<byte>, start: nat, payload: seq<byte>, key: MaskKey)
    requires |w| == start + 4 + |payload| && w[start..start + 4] == key && w[start + 4..] == Masked(payload, key, 0)
    ensures forall i :: 0 <= i < |payload| ==> w[start + 4 + i] == payload[i] ^ w[start + i % 4]
  {
    forall i | 0 <= i < |payload| ensures w[start + 4 + i] == payload[i] ^ w[start + i % 4] {
      assert w[start + 4 + i] == w[start + 4..][i];
      assert w[start + i % 4] == w[start..start + 4][i % 4];
    }
  }

  /** "Hello" */
  const HELLO: seq<byte> := [0x48, 0x65, 0x6C, 0x6C, 0x6F]
  const EXAMPLE_KEY: MaskKey := [0x37, 0xFA, 0x21, 0x3D]

  lemma MaskedHello()
    ensures Masked(HELLO, EXAMPLE_KEY, 0) == [0x7F, 0x9F, 0x4D, 0x51, 0x58]
  {
  }

  lemma ShortFrame(f: Frame)
    requires Sendable(f) && |f.payload| == 5 && f.opcode < 11
    ensures var w := Wire(f);
      && |w| >= 2 && w[0] as nat == (if f.fin then 128 else 0) + f.opcode
      && w[1] == (if f.key.Some? then 0x85 else 0x05)
      && w[2..] == (if f.key.Some? then f.key.value + Masked(f.payload, f.key.value, 0) else f.payload)
  {
    hide FirstByte, Masked;
    FirstOctet(f.fin, f.opcode);
    var five := ByteOf(5);
    assert five == 5 by {
      assert ByteOf(1) == 1 && ByteOf(3) == 3;
    }
    assert Wire(f)[1] == (if f.key.Some? then 0x85 else 0x05);
  }

  lemma Octet0(w: seq<byte>, b: byte)
    requires w != [] && w[0] as nat == b as nat
    ensures w[0] == b
  {
  }

  /** The frames that section 5.7 of RFC 6455 prints, as the client's types send them: an unmasked and a masked text
      frame, an unmasked ping and a masked pong, all holding "Hello". */
  lemma {:induction false} HelloFrames()
    ensures Wire(FrameOf(TxtData, None, HELLO)) == [0x81, 0x05, 0x48, 0x65, 0x6C, 0x6C, 0x6F]
    ensures Wire(FrameOf(TxtData, Some(EXAMPLE_KEY), HELLO)) ==
      [0x81, 0x85, 0x37, 0xFA, 0x21, 0x3D, 0x7F, 0x9F, 0x4D, 0x51, 0x58]
    ensures Wire(FrameOf(Ping, None, HELLO)) == [0x89, 0x05, 0x48, 0x65, 0x6C, 0x6C, 0x6F]
    ensures Wire(FrameOf(Pong, Some(EXAMPLE_KEY), HELLO)) ==
      [0x8A, 0x85, 0x37, 0xFA, 0x21, 0x3D, 0x7F, 0x9F, 0x4D, 0x51, 0x58]
  {
    hide Wire, Masked;
    MaskedHello();
    HelloFrame(TxtData, None, 0x81);
    HelloFrame(TxtData, Some(EXAMPLE_KEY), 0x81);
    HelloFrame(Ping, None, 0x89);
    HelloFrame(Pong, Some(EXAMPLE_KEY), 0x8A);
    assert EXAMPLE_KEY + [0x7F, 0x9F, 0x4D, 0x51, 0x58] == [0x37, 0xFA, 0x21, 0x3D, 0x7F, 0x9F, 0x4D, 0x51, 0x58];
  }

  lemma HelloFrame(t: DataType, key: Option<MaskKey>, first: byte)
    requires IsSendable(t) && first as nat == 128 + FrameOf(t, key, HELLO).opcode && FrameOf(t, key, HELLO).fin
    requires FrameOf(t, key, HELLO).opcode < 11
    ensures Wire(FrameOf(t, key, HELLO)) ==
      [first, if key.Some? then 0x85 else 0x05] +
        if key.Some? then key.value + Masked(HELLO, key.value, 0) else HELLO
  {
    hide Wire, Masked;
    var w := Wire(FrameOf(t, key, HELLO));
    ShortFrame(FrameOf(t, key, HELLO));
    Octet0(w, first);
    assert w == [w[0], w[1]] + w[2..];
  }

  // Base 64.

  const ALPHABET := "ABCDEFGHIJKLMNOPQRSTUVWXYZ" + "abcdefghijklmnopqrstuvwxyz" + "0123456789" + "+/"

  lemma DigitsInOrder()
    ensures |ALPHABET| == 64 && forall k :: 0 <= k < 64 ==> ALPHABET[k] == Base64Text.Digit(k)
  {
  }

  /** The digits are those of Table 1 of RFC 4648, in its order, and no other character has a value. */
  lemma {:induction false} AlphabetIsTable(v: nat, c: char)
    requires v < 64
    ensures |ALPHABET| == 64 && Base64Text.Digit(v) == ALPHABET[v]
    ensures Base64Text.Value(c) == 255 <==> c !in ALPHABET
  {
    DigitsInOrder();
    hide Base64Text.Digit, Base64Text.Value;
    if Base64Text.Value(c) != 255 {
      Base64Text.DigitOfValue(c);
      assert ALPHABET[Base64Text.Value(c)] == c;
    } else if c in ALPHABET {
      var k :| 0 <= k < 64 && ALPHABET[k] == c;
      Base64Text.ValueOfDigit(k);
    }
  }

  /** The digits of a group, written with quotients and remainders of its bytes. */
  lemma {:induction false} SextetNumbers(b0: byte, b1: byte, b2: byte)
    ensures var g := Base64Text.Group(b0, b1, b2);
      && Base64Text.Sextet(g, 0) == b0 / 4
      && Base64Text.Sextet(g, 1) == b0 % 4 * 16 + b1 / 16
      && Base64Text.Sextet(g, 2) == b1 % 16 * 4 + b2 / 64
      && Base64Text.Sextet(g, 3) == b2 % 64
  {
  }

  /** The examples of section 10 of RFC 4648. */
  lemma {:induction false} FoobarEncoded()
    ensures Base64Text.Encoded([]) == "" && Base64Text.Encoded([0x66]) == "Zg=="
    ensures Base64Text.Encoded([0x66, 0x6F]) == "Zm8=" && Base64Text.Encoded([0x66, 0x6F, 0x6F]) == "Zm9v"
    ensures Base64Text.Encoded([0x66, 0x6F, 0x6F, 0x62]) == "Zm9vYg=="
    ensures Base64Text.Encoded([0x66, 0x6F, 0x6F, 0x62, 0x61]) == "Zm9vYmE="
    ensures Base64Text.Encoded([0x66, 0x6F, 0x6F, 0x62, 0x61, 0x72]) == "Zm9vYmFy"
  {
  }

  // UTF-8.

  /** The code points of the examples in section 7 of RFC 3629: A, not identical to, Alpha, full stop; three Hangul
      syllables; three Han characters; and a Han character outside the basic plane. */
  lemma {:induction false} CodePointsEncoded()
    ensures Utf8.Encoded(0x41) == [0x41 as char] && Utf8.Encoded(0x2E) == [0x2E as char]
    ensures Utf8.Encoded(0x391) == [0xCE as char, 0x91 as char]
    ensures Utf8.Encoded(0x2262) == [0xE2 as char, 0x89 as char, 0xA2 as char]
    ensures Utf8.Encoded(0xD55C) == [0xED as char, 0x95 as char, 0x9C as char]
    ensures Utf8.Encoded(0x65E5) == [0xE6 as char, 0x97 as char, 0xA5 as char]
    ensures Utf8.Encoded(0x233B4) == [0xF0 as char, 0xA3 as char, 0x8E as char, 0xB4 as char]
  {
  }
}
