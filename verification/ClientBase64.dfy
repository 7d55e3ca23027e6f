/** The client's base 64 codec, which works directly on the input and output buffers. */
module ClientBase64 {
  import opened Bytes
  import opened Base64Text

  /** The values the client shifts out of one, two and three input bytes. */
  function Top(a: byte): byte {
    (a >> 2) & 0x3F
  }

  function Middle1(a: byte, b: byte): byte {
    ((a << 4) & 0x30) | ((b >> 4) & 0x0F)
  }

  function Middle2(b: byte, c: byte): byte {
    ((b << 2) & 0x3C) | ((c >> 6) & 0x03)
  }

  function Bottom(c: byte): byte {
    c & 0x3F
  }

  lemma TopIsSextet(a: byte, b: byte, c: byte)
    ensures Top(a) == Sextet(Group(a, b, c), 0)
  {
  }

  lemma Middle1IsSextet(a: byte, b: byte, c: byte)
    ensures Middle1(a, b) == Sextet(Group(a, b, c), 1)
    ensures (a << 4) & 0x30 == Middle1(a, 0)
  {
  }

  lemma Middle2IsSextet(a: byte, b: byte, c: byte)
    ensures Middle2(b, c) == Sextet(Group(a, b, c), 2)
    ensures (b << 2) & 0x3C == Middle2(b, 0)
  {
  }

  lemma BottomIsSextet(a: byte, b: byte, c: byte)
    ensures Bottom(c) == Sextet(Group(a, b, c), 3)
  {
  }

  lemma Sextets(a: byte, b: byte, c: byte)
    ensures Top(a) as nat < 64 && Middle1(a, b) as nat < 64 && Middle2(b, c) as nat < 64 && Bottom(c) as nat < 64
    ensures Quad(Group(a, b, c)) == [Digit(Top(a) as nat), Digit(Middle1(a, b) as nat), Digit(Middle2(b, c) as nat),
                                     Digit(Bottom(c) as nat)]
  {
    TopIsSextet(a, b, c);
    Middle1IsSextet(a, b, c);
    Middle2IsSextet(a, b, c);
    BottomIsSextet(a, b, c);
    SextetRange(Group(a, b, c), 0);
    SextetRange(Group(a, b, c), 1);
    SextetRange(Group(a, b, c), 2);
    SextetRange(Group(a, b, c), 3);
  }

  /** The characters written for the group at `i`, which may be the last and short. */
  method EncodeGroup(bindata: seq<byte>, i: nat) returns (out: string, last: bool)
    requires i < |bindata|
    ensures last <==> i + 3 > |bindata|
    ensures out == Encoded(bindata[i..if i + 3 <= |bindata| then i + 3 else |bindata|])
  {
    var a := bindata[i];
    if i + 1 >= |bindata| {
      Sextets(a, 0, 0);
      Middle1IsSextet(a, 0, 0);
      var current := (a << 4) & 0x30;
      return [Digit(Top(a) as nat), Digit(current as nat), '=', '='], true;
    }
    var b := bindata[i + 1];
    if i + 2 >= |bindata| {
      Sextets(a, b, 0);
      Middle2IsSextet(a, b, 0);
      var current := (b << 2) & 0x3C;
      return [Digit(Top(a) as nat), Digit(Middle1(a, b) as nat), Digit(current as nat), '='], true;
    }
    var c := bindata[i + 2];
    Sextets(a, b, c);
    EncodedGroup(bindata[i..i + 3]);
    out := [Digit(Top(a) as nat), Digit(Middle1(a, b) as nat), Digit(Middle2(b, c) as nat), Digit(Bottom(c) as nat)];
    last := false;
  }

  /** Encodes `bindata`. */
  method Encode(bindata: seq<byte>) returns (base64: string)
    ensures base64 == Encoded(bindata)
  {
    base64 := "";
    var i, last := 0, false;
    ghost var groups := 0;
    while i < |bindata| && !last
      invariant last ==> base64 == Encoded(bindata)
      invariant !last ==> i <= |bindata| && i == 3 * groups && base64 == Encoded(bindata[..i])
      decreases |bindata| - i, !last
    {
      var out;
      out, last := EncodeGroup(bindata, i);
      base64 := base64 + out;
      GroupEncoded(bindata, i, groups);
      if !last {
        groups := groups + 1;
        i := i + 3;
      }
    }
    assert !last ==> bindata[..i] == bindata;
  }

  lemma GroupEncoded(bindata: seq<byte>, i: nat, groups: nat)
    requires i < |bindata| && i == 3 * groups
    ensures var end := if i + 3 <= |bindata| then i + 3 else |bindata|;
      && Encoded(bindata[..i]) + Encoded(bindata[i..end]) == Encoded(bindata[..end])
      && (end == |bindata| ==> bindata[..end] == bindata)
  {
    var end := if i + 3 <= |bindata| then i + 3 else |bindata|;
    EncodedAppend(bindata[..i], bindata[i..end], groups);
    assert bindata[..i] + bindata[i..end] == bindata[..end];
  }

  /** The three bytes the client computes from four table positions, 255 standing for a foreign character. */
  function Merge(v0: byte, v1: byte, v2: byte, v3: byte): (r: seq<byte>)
    ensures |r| == 3
  {
    [((v0 << 2) & 0xFC) | ((v1 >> 4) & 0x03), ((v1 << 4) & 0xF0) | ((v2 >> 2) & 0x0F), ((v2 << 6) & 0xF0) | (v3 & 0x3F)]
  }

  lemma MergeOfGroup(b0: byte, b1: byte, b2: byte, v0: byte, v1: byte, v2: byte, v3: byte, n: nat)
    requires var g := Group(b0, b1, b2);
      && v0 == Sextet(g, 0) && v1 == Sextet(g, 1) && (n >= 3 ==> v2 == Sextet(g, 2)) && (n >= 4 ==> v3 == Sextet(g, 3))
    ensures Merge(v0, v1, v2, v3)[0] == b0
    ensures n >= 3 ==> Merge(v0, v1, v2, v3)[1] == b1
    ensures n >= 4 ==> Merge(v0, v1, v2, v3)[2] == b2
  {
  }

  function Quantum(q: string): (r: seq<byte>)
    requires |q| == 4
    ensures |r| == 3
  {
    Merge(ValueByte(q[0]), ValueByte(q[1]), ValueByte(q[2]), ValueByte(q[3]))
  }

  /** What the client makes of a text whose length is a multiple of four: it stops behind the first padded
      quantum. */
  function Decoded(base64: string): (r: seq<byte>)
    decreases |base64|
  {
    if |base64| < 4 then []
    else if base64[2] == '=' then Quantum(base64[..4])[..1]
    else if base64[3] == '=' then Quantum(base64[..4])[..2]
    else Quantum(base64[..4]) + Decoded(base64[4..])
  }

  /** The first `n` digits of a group, whatever follows, give back its first `n - 1` bytes. */
  lemma QuantumOfDigits(b0: byte, b1: byte, b2: byte, q: string, n: nat)
    requires |q| == 4 && 2 <= n <= 4
    requires forall i :: 0 <= i < n ==> q[i] == Quad(Group(b0, b1, b2))[i]
    ensures Quantum(q)[0] == b0
    ensures n >= 3 ==> Quantum(q)[1] == b1
    ensures n >= 4 ==> Quantum(q)[2] == b2
  {
    var g := Group(b0, b1, b2);
    forall i | 0 <= i < n
      ensures ValueByte(q[i]) == Sextet(g, i)
    {
      SextetValue(g, i);
    }
    MergeOfGroup(b0, b1, b2, ValueByte(q[0]), ValueByte(q[1]), ValueByte(q[2]), ValueByte(q[3]), n);
  }

  lemma SextetValue(g: bv24, i: nat)
    requires i < 4
    ensures ValueByte(Quad(g)[i]) == Sextet(g, i)
  {
    ValueOfSextet(g, i);
  }

  /** Decoding inverts encoding for every byte string, padded tails included. */
  lemma {:induction false} DecodeInvertsEncode(data: seq<byte>)
    ensures Decoded(Encoded(data)) == data
    decreases |data|
  {
    if data == [] {
    } else if |data| < 3 {
      DecodeTail(data, Encoded(data));
    } else {
      DecodeGroup(data, Encoded(data));
      DecodeInvertsEncode(data[3..]);
    }
  }

  lemma DecodeTail(data: seq<byte>, text: string)
    requires 0 < |data| < 3 && text == Encoded(data)
    ensures Decoded(text) == data
  {
    var second := if |data| == 2 then data[1] else 0;
    QuadDigits(Group(data[0], second, 0));
    QuantumOfDigits(data[0], second, 0, text[..4], |data| + 1);
  }

  lemma DecodeGroup(data: seq<byte>, text: string)
    requires 3 <= |data| && text == Encoded(data)
    ensures Decoded(text) == data[..3] + Decoded(Encoded(data[3..]))
  {
    var g := Group(data[0], data[1], data[2]);
    QuadDigits(g);
    assert text[..4] == Quad(g) && text[4..] == Encoded(data[3..]);
    assert text[2] == Quad(g)[2] && text[3] == Quad(g)[3];
    QuantumOfDigits(data[0], data[1], data[2], text[..4], 4);
    assert Quantum(text[..4]) == data[..3];
  }

  /** Searches the whole table; 0xFF when the character is not in it. */
  method Lookup(c: char) returns (temp: byte)
    ensures temp == ValueByte(c)
  {
    temp := 0xFF;
    AllOnes();
    for k := 0 to 64
      invariant temp == if IsDigit(c) && Value(c) < k then ValueByte(c) else 0xFF
    {
      if Digit(k) == c {
        DigitIsDigit(k);
        ValueOfDigit(k);
        temp := ByteOf(k);
      } else if IsDigit(c) {
        DigitOfValue(c);
      }
    }
  }

  lemma AllOnes()
    ensures ByteOf(255) == 0xFF
  {
    ByteOfUnique(0xFF);
  }

  /** The bytes of the quantum at `i`: all three, or fewer behind which decoding stops. */
  method DecodeQuantum(base64: string, i: nat) returns (out: seq<byte>, last: bool)
    requires i + 4 <= |base64|
    ensures Decoded(base64[i..]) == if last then out else out + Decoded(base64[i + 4..])
  {
    var temp0 := Lookup(base64[i]);
    var temp1 := Lookup(base64[i + 1]);
    var temp2 := Lookup(base64[i + 2]);
    var temp3 := Lookup(base64[i + 3]);
    out := Merge(temp0, temp1, temp2, temp3);
    DecodedStep(base64, i);
    if base64[i + 2] == '=' {
      return out[..1], true;
    }
    if base64[i + 3] == '=' {
      return out[..2], true;
    }
    last := false;
  }

  /** Decodes a text of full quanta. */
  method Decode(base64: string) returns (bindata: seq<byte>)
    requires |base64| % 4 == 0
    ensures bindata == Decoded(base64)
  {
    bindata := [];
    var i := 0;
    assert base64[0..] == base64;
    ghost var quanta := 0;
    while i < |base64|
      invariant i == 4 * quanta && i <= |base64|
      invariant Decoded(base64) == bindata + Decoded(base64[i..])
    {
      var out, last := DecodeQuantum(base64, i);
      if last {
        return bindata + out;
      }
      assert bindata + (out + Decoded(base64[i + 4..])) == bindata + out + Decoded(base64[i + 4..]);
      bindata := bindata + out;
      i := i + 4;
      quanta := quanta + 1;
    }
  }

  lemma DecodedStep(base64: string, i: nat)
    requires i + 4 <= |base64|
    ensures var q := Quantum(base64[i..i + 4]);
      Decoded(base64[i..]) ==
        if base64[i + 2] == '=' then q[..1]
        else if base64[i + 3] == '=' then q[..2]
        else q + Decoded(base64[i + 4..])
  {
    assert base64[i..][..4] == base64[i..i + 4] && base64[i..][4..] == base64[i + 4..];
  }
}
