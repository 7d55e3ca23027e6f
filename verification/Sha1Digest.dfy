/** The secure hash of FIPS PUB 180-1, as a function of the whole message. */
module Sha1Digest {
  import opened Bytes

  type word = bv32

  /** Section 3: the circular left shift. */
  function Rotl1(x: word): word { (x << 1) | (x >> 31) }
  function Rotl5(x: word): word { (x << 5) | (x >> 27) }
  function Rotl30(x: word): word { (x << 30) | (x >> 2) }

  /** Section 3: addition modulo 2^32. */
  function Plus(x: word, y: word): word { x + y }

  /** Section 5: the logical functions. */
  function F(t: nat, b: word, c: word, d: word): word
    requires t < 80
  {
    if t < 20 then (b & c) | ((!b) & d)
    else if t < 40 then b ^ c ^ d
    else if t < 60 then (b & c) | (b & d) | (c & d)
    else b ^ c ^ d
  }

  /** Section 6: the constants. */
  function K(t: nat): word
    requires t < 80
  {
    if t < 20 then 0x5A827999 else if t < 40 then 0x6ED9EBA1 else if t < 60 then 0x8F1BBCDC else 0xCA62C1D6
  }

  /** The constants are the square roots of 2, 3, 5 and 10, times 2^30 and without their fractions. */
  lemma {:induction false} RoundConstants(t: nat)
    requires t < 80
    ensures var k, n := K(t) as nat, if t < 20 then 2 else if t < 40 then 3 else if t < 60 then 5 else 10;
      k * k <= n * 0x1000_0000_0000_0000 < (k + 1) * (k + 1)
  {
  }

  /** Five words: the chaining value, and the buffers A to E. */
  datatype Five = Five(a: word, b: word, c: word, d: word, e: word)

  const INITIAL := Five(0x67452301, 0xEFCDAB89, 0x98BADCFE, 0x10325476, 0xC3D2E1F0)

  function WordAt(block: seq<byte>, i: nat): word
    requires i * 4 + 4 <= |block|
  {
    (block[i * 4] as word << 24) | (block[i * 4 + 1] as word << 16) | (block[i * 4 + 2] as word << 8)
    | (block[i * 4 + 3] as word)
  }

  /** Section 7, steps a and b: the first `n` words of the message schedule. */
  function Schedule(block: seq<byte>, n: nat): (w: seq<word>)
    requires |block| == 64
    ensures |w| == n
    decreases n, block
  {
    if n == 0 then []
    else
      var w := Schedule(block, n - 1);
      var t := n - 1;
      w + [if t < 16 then WordAt(block, t) else Rotl1(w[t - 3] ^ w[t - 8] ^ w[t - 14] ^ w[t - 16])]
  }

  /** One pass of step d. */
  function Round(t: nat, s: Five, w: word): Five
    requires t < 80
  {
    Five(Plus(Plus(Plus(Plus(Rotl5(s.a), F(t, s.b, s.c, s.d)), s.e), w), K(t)), s.a, Rotl30(s.b), s.c, s.d)
  }

  /** Steps c and d: the buffers after `t` passes. */
  function Rounds(h: Five, w: seq<word>, t: nat): Five
    requires t <= 80 && t <= |w|
    decreases t, w
  {
    if t == 0 then h else Round(t - 1, Rounds(h, w, t - 1), w[t - 1])
  }

  function Sum(h: Five, s: Five): Five {
    Five(Plus(h.a, s.a), Plus(h.b, s.b), Plus(h.c, s.c), Plus(h.d, s.d), Plus(h.e, s.e))
  }

  type Block = b: seq<byte> | |b| == 64 witness seq(64, _ => 0)

  /** Section 7: one block. */
  function Compress(h: Five, block: Block): Five {
    Sum(h, Rounds(h, Schedule(block, 80), 80))
  }

  /** The chaining value after a sequence of blocks, for any way of compressing one. */
  function Chain(compress: (Five, Block) -> Five, h: Five, blocks: seq<Block>): Five {
    if blocks == [] then h else compress(Chain(compress, h, blocks[..|blocks| - 1]), blocks[|blocks| - 1])
  }

  lemma ChainNext(compress: (Five, Block) -> Five, h: Five, blocks: seq<Block>, block: Block)
    ensures Chain(compress, h, blocks + [block]) == compress(Chain(compress, h, blocks), block)
  {
    assert (blocks + [block])[..|blocks|] == blocks;
  }

  function Concat(blocks: seq<Block>): (r: seq<byte>)
    ensures |r| == 64 * |blocks|
  {
    if blocks == [] then [] else Concat(blocks[..|blocks| - 1]) + blocks[|blocks| - 1]
  }

  /** The blocks of a message whose length is a multiple of 64. */
  function Cut(data: seq<byte>): (blocks: seq<Block>)
    decreases |data|
  {
    if |data| < 64 then [] else Cut(data[..|data| - 64]) + [data[|data| - 64..]]
  }

  lemma {:induction false} CutConcat(blocks: seq<Block>)
    ensures Cut(Concat(blocks)) == blocks
  {
    if blocks != [] {
      var data, rest := Concat(blocks), Concat(blocks[..|blocks| - 1]);
      assert data[..|data| - 64] == rest && data[|data| - 64..] == blocks[|blocks| - 1];
      CutConcat(blocks[..|blocks| - 1]);
      assert Cut(data) == Cut(rest) + [blocks[|blocks| - 1]];
    }
  }

  lemma ConcatNext(blocks: seq<Block>, block: Block)
    ensures Concat(blocks + [block]) == Concat(blocks) + block
  {
    assert (blocks + [block])[..|blocks|] == blocks;
  }

  const MAX_BYTES := 0x2000_0000_0000_0000

  function Zeros(n: nat): (r: seq<byte>)
    ensures |r| == n
  {
    seq(n, _ => 0)
  }

  /** Section 4: the number of zero bytes between the one bit and the length. */
  function ZeroCount(n: nat): (k: nat)
    ensures k < 64
  {
    var used := n - 64 * (n / 64);
    if used < 56 then 55 - used else 119 - used
  }

  /** The last `count` bytes of a number, most significant first. */
  function BigEndian(n: nat, count: nat): (r: seq<byte>)
    ensures |r| == count
    decreases count, n
  {
    if count == 0 then [] else BigEndian(n / 0x100, count - 1) + [ByteOf(n % 0x100)]
  }

  /** Section 4: the length in bits as eight bytes. */
  function LengthField(n: nat): (r: seq<byte>)
    ensures |r| == 8
  {
    BigEndian(8 * n, 8)
  }

  lemma {:induction false} BigEndianAppend(n: nat, high: nat, low: nat, scale: nat, a: nat, b: nat)
    requires n == high * scale + low && low < scale && scale == Power256(b)
    ensures BigEndian(n, a + b) == BigEndian(high, a) + BigEndian(low, b)
    decreases b
  {
    if b == 0 {
      assert scale == 1 && low == 0;
      assert BigEndian(high, a) + [] == BigEndian(high, a);
    } else {
      var s := Power256(b - 1);
      DropDigit(n, high, low, s);
      BigEndianAppend(n / 0x100, high, low / 0x100, s, a, b - 1);
      assert BigEndian(high, a) + (BigEndian(low / 0x100, b - 1) + [ByteOf(low % 0x100)]) ==
             BigEndian(high, a) + BigEndian(low / 0x100, b - 1) + [ByteOf(low % 0x100)];
    }
  }

  function Power256(k: nat): (r: nat)
    ensures r >= 1
  {
    if k == 0 then 1 else 0x100 * Power256(k - 1)
  }

  lemma DropDigit(n: nat, high: nat, low: nat, s: nat)
    requires n == high * (0x100 * s) + low && low < 0x100 * s
    ensures n / 0x100 == high * s + low / 0x100 && n % 0x100 == low % 0x100 && low / 0x100 < s
  {
    assert n == 0x100 * (high * s + low / 0x100) + low % 0x100;
  }

  lemma BigEndianOfWord(n: nat)
    requires n < 0x1_0000_0000
    ensures BigEndian(n, 4) == BigEndian32(n)
  {
    var a, b := n / 0x1_0000, n % 0x1_0000;
    TwoBytes(a);
    TwoBytes(b);
    assert Power256(2) == 0x100 * Power256(1) == 0x1_0000 * Power256(0);
    BigEndianAppend(n, a, b, 0x1_0000, 2, 2);
  }

  lemma TwoBytes(n: nat)
    requires n < 0x1_0000
    ensures BigEndian(n, 2) == BigEndian16(n)
  {
    assert BigEndian(n / 0x100, 1) == BigEndian(n / 0x100 / 0x100, 0) + [ByteOf(n / 0x100 % 0x100)];
    assert n / 0x100 % 0x100 == n / 0x100;
  }

  /** The two length words together are the length field. */
  lemma {:induction false} LengthFieldOfWords(n: nat, high: nat, low: nat)
    requires high * 0x1_0000_0000 + low == 8 * n && low < 0x1_0000_0000 && high < 0x1_0000_0000
    ensures LengthField(n) == BigEndian32(high) + BigEndian32(low)
  {
    BigEndianOfWord(high);
    BigEndianOfWord(low);
    assert Power256(4) == 0x100 * Power256(3) == 0x1_0000 * Power256(2);
    assert Power256(2) == 0x100 * Power256(1) == 0x1_0000 * Power256(0);
    BigEndianAppend(8 * n, high, low, 0x1_0000_0000, 4, 4);
  }

  /** Section 4: the message, a one bit, `zeros` zero bytes, and the length. */
  function PaddedWith(message: seq<byte>, zeros: nat, length: seq<byte>): seq<byte> {
    message + [0x80] + Zeros(zeros) + length
  }

  function Padded(message: seq<byte>): seq<byte>
    requires |message| < MAX_BYTES
  {
    PaddedWith(message, ZeroCount(|message|), LengthField(|message|))
  }

  /** The digest of the whole message. */
  function Digest(message: seq<byte>): Five
    requires |message| < MAX_BYTES
  {
    Chain(Compress, INITIAL, Cut(Padded(message)))
  }

  lemma ZeroCountOf(blocks: nat, used: nat)
    requires used < 64
    ensures ZeroCount(64 * blocks + used) == if used < 56 then 55 - used else 119 - used
  {
    assert (64 * blocks + used) / 64 == blocks;
  }

  /** The zero count is the one that makes the padded length a multiple of 64. */
  lemma {:induction false} PaddedLength(message: seq<byte>) returns (blocks: nat)
    requires |message| < MAX_BYTES
    ensures |Padded(message)| == 64 * blocks
  {
    var n := |message|;
    blocks := n / 64 + if n - 64 * (n / 64) < 56 then 1 else 2;
  }

  lemma CutOneMore(blocks: seq<Block>, last: Block, data: seq<byte>)
    requires data == Concat(blocks) + last
    ensures Cut(data) == blocks + [last]
  {
    ConcatNext(blocks, last);
    CutConcat(blocks + [last]);
  }

  /** The padding fits behind the last bytes of the message. */
  lemma {:induction false} PaddedInOneBlock(blocks: seq<Block>, tail: seq<byte>, length: seq<byte>)
    requires |tail| < 56 && |length| == 8
    ensures var message := Concat(blocks) + tail;
      Cut(PaddedWith(message, ZeroCount(|message|), length)) ==
      blocks + [tail + [0x80] + Zeros(55 - |tail|) + length]
  {
    var zeros := Zeros(55 - |tail|);
    ZeroCountOf(|blocks|, |tail|);
    OneBlock(tail, zeros, length, Concat(blocks));
    CutOneMore(blocks, tail + [0x80] + zeros + length, Concat(blocks) + tail + [0x80] + zeros + length);
  }

  lemma OneBlock(a: seq<byte>, z: seq<byte>, l: seq<byte>, c: seq<byte>)
    ensures c + a + [0x80] + z + l == c + (a + [0x80] + z + l)
  {
  }

  /** The padding needs another block. */
  lemma {:induction false} PaddedInTwoBlocks(blocks: seq<Block>, tail: seq<byte>, length: seq<byte>)
    requires 56 <= |tail| < 64 && |length| == 8
    ensures var message := Concat(blocks) + tail;
      Cut(PaddedWith(message, ZeroCount(|message|), length)) ==
      blocks + [tail + [0x80] + Zeros(63 - |tail|)] + [Zeros(56) + length]
  {
    var first, last: Block := tail + [0x80] + Zeros(63 - |tail|), Zeros(56) + length;
    var padded := Concat(blocks) + tail + [0x80] + Zeros(119 - |tail|) + length;
    ZeroCountOf(|blocks|, |tail|);
    assert Zeros(119 - |tail|) == Zeros(63 - |tail|) + Zeros(56);
    TwoBlocks(tail, Zeros(63 - |tail|), Zeros(56), length, Concat(blocks));
    ConcatNext(blocks, first);
    CutOneMore(blocks + [first], last, padded);
  }

  lemma TwoBlocks(a: seq<byte>, z1: seq<byte>, z2: seq<byte>, l: seq<byte>, c: seq<byte>)
    ensures c + a + [0x80] + (z1 + z2) + l == c + (a + [0x80] + z1) + (z2 + l)
  {
  }
}
