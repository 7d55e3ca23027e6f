/** Bytes, network byte order and the exclusive-or mask shared by every framing module. */
module Bytes {
  type byte = bv8

  /** A mask key is the four bytes carried in a masked frame. */
  type MaskKey = key: seq<byte> | |key| == 4 witness [0, 0, 0, 0]

  datatype Option<+T> = None | Some(value: T)

  /** `data` with byte `i` combined with byte `(from + i) % 4` of the key. */
  function Masked(data: seq<byte>, key: MaskKey, from: nat): (r: seq<byte>)
    ensures |r| == |data|
  {
    seq(|data|, i requires 0 <= i < |data| => data[i] ^ key[(from + i) % 4])
  }

  /** Masking twice at the same position is the identity. */
  lemma {:induction false} MaskedTwice(data: seq<byte>, key: MaskKey, from: nat)
    ensures Masked(Masked(data, key, from), key, from) == data
  {
  }

  /** Masking changes nothing exactly when every key byte that is used is zero. */
  lemma MaskedFixed(data: seq<byte>, key: MaskKey)
    ensures Masked(data, key, 0) == data <==> forall i :: 0 <= i < 4 && i < |data| ==> key[i] == 0
  {
    if forall i :: 0 <= i < 4 && i < |data| ==> key[i] == 0 {
      forall i | 0 <= i < |data|
        ensures Masked(data, key, 0)[i] == data[i]
      {
        assert key[i % 4] == 0;
      }
    } else {
      var i :| 0 <= i < 4 && i < |data| && key[i] != 0;
      assert Masked(data, key, 0)[i] == data[i] ^ key[i];
      XorFixed(data[i], key[i]);
    }
  }

  lemma XorFixed(a: byte, k: byte)
    ensures a ^ k == a <==> k == 0
  {
  }

  /** The byte with value `n`: the narrowing of a small number to `unsigned char`. */
  function ByteOf(n: nat): (b: byte)
    requires n < 0x100
  {
    if n == 0 then 0 else ByteOf(n - 1) + 1
  }

  lemma ByteOfValue(n: nat)
    requires n < 0x100
    ensures ByteOf(n) as nat == n
  {
  }

  lemma ByteOfUnique(b: byte)
    ensures ByteOf(b as nat) == b
  {
    ByteOfValue(b as nat);
  }

  /** Two bytes, most significant first. */
  function BigEndian16(n: nat): (r: seq<byte>)
    requires n < 0x1_0000
    ensures |r| == 2
  {
    [ByteOf(n / 0x100), ByteOf(n % 0x100)]
  }

  /** Four bytes, most significant first. */
  function BigEndian32(n: nat): (r: seq<byte>)
    requires n < 0x1_0000_0000
    ensures |r| == 4
  {
    BigEndian16(n / 0x1_0000) + BigEndian16(n % 0x1_0000)
  }

  /** The number whose big-endian digits are `bytes`. */
  function FromBigEndian(bytes: seq<byte>): (n: nat) {
    if bytes == [] then 0 else FromBigEndian(bytes[..|bytes| - 1]) * 0x100 + bytes[|bytes| - 1] as nat
  }

  lemma FromBigEndian2(b: seq<byte>)
    requires |b| == 2
    ensures FromBigEndian(b) == b[0] as nat * 0x100 + b[1] as nat
  {
    assert b[..1][..0] == [];
    assert FromBigEndian(b[..1]) == FromBigEndian([]) * 0x100 + b[0] as nat;
  }

  lemma FromBigEndian4(b: seq<byte>)
    requires |b| == 4
    ensures FromBigEndian(b) == FromBigEndian(b[..2]) * 0x1_0000 + FromBigEndian(b[2..])
  {
    FromBigEndian2(b[..2]);
    FromBigEndian2(b[2..]);
    assert b[..3][..2] == b[..2];
    assert FromBigEndian(b[..3]) == FromBigEndian(b[..2]) * 0x100 + b[2] as nat;
  }

  lemma BigEndian16RoundTrip(n: nat)
    requires n < 0x1_0000
    ensures FromBigEndian(BigEndian16(n)) == n
  {
    FromBigEndian2(BigEndian16(n));
    ByteOfValue(n / 0x100);
    ByteOfValue(n % 0x100);
  }

  lemma BigEndian32RoundTrip(n: nat)
    requires n < 0x1_0000_0000
    ensures FromBigEndian(BigEndian32(n)) == n
  {
    var b := BigEndian32(n);
    FromBigEndian4(b);
    assert b[..2] == BigEndian16(n / 0x1_0000) && b[2..] == BigEndian16(n % 0x1_0000);
    BigEndian16RoundTrip(n / 0x1_0000);
    BigEndian16RoundTrip(n % 0x1_0000);
  }
}
