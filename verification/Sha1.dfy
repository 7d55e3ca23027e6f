/** The streaming SHA-1 object. The client's SHA-1 routines are the same code over a struct. */
module Sha1 {
  import opened Bytes
  import opened Sha1Digest

  /** The shift as the class spells it. */
  function CircularShift(bits: nat, x: word): word
    requires 1 <= bits <= 31
  {
    ((x << bits) & 0xFFFFFFFF) | ((x & 0xFFFFFFFF) >> (32 - bits))
  }

  lemma {:induction false} CircularShifts(x: word)
    ensures CircularShift(1, x) == Rotl1(x) && CircularShift(5, x) == Rotl5(x) && CircularShift(30, x) == Rotl30(x)
  {
  }

  /** The first 16 words. */
  method Load(block: array<byte>, W: array<word>)
    requires block.Length == 64 && W.Length == 80
    modifies W
    ensures W[..16] == Schedule(block[..], 16)
  {
    for t := 0 to 16
      invariant W[..t] == Schedule(block[..], t)
    {
      W[t] := (block[t * 4] as word << 24) | (block[t * 4 + 1] as word << 16) | (block[t * 4 + 2] as word << 8)
              | (block[t * 4 + 3] as word);
      assert W[..t + 1] == W[..t] + [WordAt(block[..], t)];
    }
  }

  function Xor(a: word, b: word, c: word, d: word): word {
    a ^ b ^ c ^ d
  }

  lemma ScheduleNext(block: Block, t: nat)
    requires 16 <= t
    ensures var w := Schedule(block, t);
      Schedule(block, t + 1) == w + [CircularShift(1, Xor(w[t - 3], w[t - 8], w[t - 14], w[t - 16]))]
  {
    var w := Schedule(block, t);
    CircularShifts(Xor(w[t - 3], w[t - 8], w[t - 14], w[t - 16]));
  }

  /** The other 64 words. */
  method Extend(W: array<word>, ghost block: Block)
    requires W.Length == 80 && W[..16] == Schedule(block, 16)
    modifies W
    ensures W[..80] == Schedule(block, 80)
  {
    hide *;
    for t := 16 to 80
      invariant W[..t] == Schedule(block, t)
    {
      ghost var w := W[..t];
      ScheduleNext(block, t);
      W[t] := CircularShift(1, Xor(W[t - 3], W[t - 8], W[t - 14], W[t - 16]));
      assert W[..t + 1] == w + [W[t]];
    }
  }

  /** The logical function of the loop that starts at `from`. */
  function Mix(from: nat, b: word, c: word, d: word): word {
    if from == 0 then (b & c) | ((!b) & d)
    else if from == 40 then (b & c) | (b & d) | (c & d)
    else b ^ c ^ d
  }

  lemma MixIsF(from: nat, t: nat, b: word, c: word, d: word)
    requires from == 0 || from == 20 || from == 40 || from == 60
    requires from <= t < from + 20
    ensures Mix(from, b, c, d) == F(t, b, c, d) && K(from) == K(t)
  {
  }

  /** One of the four loops: twenty passes with the function and the constant of their range. */
  method Twenty(from: nat, s: Five, W: array<word>, ghost h: Five, ghost w: seq<word>) returns (r: Five)
    requires from == 0 || from == 20 || from == 40 || from == 60
    requires W.Length == 80 && W[..] == w && s == Rounds(h, w, from)
    ensures r == Rounds(h, w, from + 20)
  {
    var A, B, C, D, E := s.a, s.b, s.c, s.d, s.e;
    for t := from to from + 20
      invariant Five(A, B, C, D, E) == Rounds(h, w, t)
    {
      CircularShifts(A);
      CircularShifts(B);
      MixIsF(from, t, B, C, D);
      var temp := Plus(Plus(Plus(Plus(CircularShift(5, A), Mix(from, B, C, D)), E), W[t]), K(from));
      E := D;
      D := C;
      C := CircularShift(30, B);
      B := A;
      A := temp;
    }
    r := Five(A, B, C, D, E);
  }

  method Expanded(block: array<byte>) returns (W: array<word>)
    requires block.Length == 64
    ensures fresh(W) && W.Length == 80 && W[..] == Schedule(block[..], 80)
  {
    W := new word[80];
    Load(block, W);
    Extend(W, block[..]);
    assert W[..80] == W[..];
  }

  method AllRounds(h: Five, W: array<word>) returns (s: Five)
    requires W.Length == 80
    ensures s == Rounds(h, W[..], 80)
  {
    s := Twenty(0, h, W, h, W[..]);
    s := Twenty(20, s, W, h, W[..]);
    s := Twenty(40, s, W, h, W[..]);
    s := Twenty(60, s, W, h, W[..]);
  }

  class SHA1 {
    const H: array<word>
    const Message_Block: array<byte>
    var Length_Low: nat
    var Length_High: nat
    var Message_Block_Index: nat
    var Computed: bool
    var Corrupted: bool

    /** Every byte fed so far, and the full blocks already compressed. */
    ghost var fed: seq<byte>
    ghost var blocks: seq<Block>

    ghost predicate Shape()
      reads this
    {
      && H.Length == 5 && Message_Block.Length == 64
    }

    ghost function Chained(): Five
      reads this, H
      requires Shape()
    {
      Five(H[0], H[1], H[2], H[3], H[4])
    }

    /** While input is still accepted: what is fed is the compressed blocks and the bytes in the buffer, the
        index stays below 64, and the two length words count eight times the bytes. */
    ghost predicate Absorbing()
      reads this, H, Message_Block
      requires Shape()
    {
      && |fed| < MAX_BYTES
      && Message_Block_Index < 64
      && fed == Concat(blocks) + Message_Block[..Message_Block_Index]
      && Chained() == Chain(Compress, INITIAL, blocks)
      && Length_High * 0x1_0000_0000 + Length_Low == 8 * |fed| && Length_Low < 0x1_0000_0000
    }

    ghost predicate Valid()
      reads this, H, Message_Block
    {
      Shape() && (!Corrupted && !Computed ==> Absorbing())
    }

    /** Once the digest has been taken it stays the digest of what was fed, until the object is spoilt. */
    ghost predicate Settled()
      reads this, H
      requires Shape()
    {
      !Corrupted && Computed ==> |fed| < MAX_BYTES && Chained() == Digest(fed)
    }

    constructor ()
      ensures Valid() && fresh(H) && fresh(Message_Block)
      ensures !Computed && !Corrupted && fed == []
    {
      H := new word[5][0x67452301, 0xEFCDAB89, 0x98BADCFE, 0x10325476, 0xC3D2E1F0];
      Message_Block := new byte[64];
      Length_Low, Length_High, Message_Block_Index := 0, 0, 0;
      Computed, Corrupted := false, false;
      fed, blocks := [], [];
      new;
      assert fed == Concat(blocks) + Message_Block[..0];
    }

    method Reset()
      requires Shape()
      modifies this, H
      ensures Valid() && !Computed && !Corrupted && fed == []
    {
      Length_Low, Length_High, Message_Block_Index := 0, 0, 0;
      H[0], H[1], H[2], H[3], H[4] := 0x67452301, 0xEFCDAB89, 0x98BADCFE, 0x10325476, 0xC3D2E1F0;
      Computed, Corrupted := false, false;
      fed, blocks := [], [];
      assert fed == Concat(blocks) + Message_Block[..0];
    }

    /** Compresses the full buffer. */
    method ProcessMessageBlock()
      requires Shape()
      modifies this`Message_Block_Index, H
      ensures Message_Block_Index == 0
      ensures Chained() == Compress(old(Chained()), Message_Block[..])
    {
      var W := Expanded(Message_Block);
      var s := AllRounds(Five(H[0], H[1], H[2], H[3], H[4]), W);
      AddInto(s);
      Message_Block_Index := 0;
    }

    method AddInto(s: Five)
      requires Shape()
      modifies H
      ensures Chained() == Sum(old(Chained()), s)
    {
      H[0] := Plus(H[0], s.a);
      H[1] := Plus(H[1], s.b);
      H[2] := Plus(H[2], s.c);
      H[3] := Plus(H[3], s.d);
      H[4] := Plus(H[4], s.e);
    }

    /** The buffer is full and holds the next block. */
    method CompressFull(ghost block: Block)
      requires Shape() && !Computed && !Corrupted
      requires Message_Block[..] == block && fed == Concat(blocks) + block && |fed| < MAX_BYTES
      requires Chained() == Chain(Compress, INITIAL, blocks)
      requires Length_High * 0x1_0000_0000 + Length_Low == 8 * |fed| && Length_Low < 0x1_0000_0000
      modifies this`Message_Block_Index, this`blocks, H
      ensures Absorbing() && Message_Block_Index == 0
      ensures blocks == old(blocks) + [block]
    {
      ChainNext(Compress, INITIAL, blocks, block);
      ConcatNext(blocks, block);
      ProcessMessageBlock();
      blocks := blocks + [block];
      assert Message_Block[..0] == [];
    }

    /** Counts eight more bits; the count overflows when the message reaches 2^61 bytes. */
    method CountByte()
      requires Length_High * 0x1_0000_0000 + Length_Low == 8 * |fed| && Length_Low < 0x1_0000_0000
      requires |fed| < MAX_BYTES && !Corrupted
      modifies this`Length_Low, this`Length_High, this`Corrupted
      ensures Corrupted <==> |fed| + 1 == MAX_BYTES
      ensures !Corrupted ==> Length_High * 0x1_0000_0000 + Length_Low == 8 * (|fed| + 1) && Length_Low < 0x1_0000_0000
    {
      Length_Low := (Length_Low + 8) % 0x1_0000_0000;
      if Length_Low == 0 {
        Length_High := (Length_High + 1) % 0x1_0000_0000;
        if Length_High == 0 {
          Corrupted := true;
        }
      }
    }

    method StoreByte(b: byte)
      requires Shape() && Message_Block_Index < 64
      modifies this`Message_Block_Index, Message_Block
      ensures Message_Block_Index == old(Message_Block_Index) + 1
      ensures Message_Block[..Message_Block_Index] == old(Message_Block[..Message_Block_Index]) + [b]
    {
      Message_Block[Message_Block_Index] := b;
      Message_Block_Index := Message_Block_Index + 1;
    }

    method PutByte(b: byte)
      requires Valid() && !Computed && !Corrupted
      modifies this, H, Message_Block
      ensures Valid() && !Computed
      ensures Corrupted <==> |old(fed)| + 1 == MAX_BYTES
      ensures fed == old(fed) + [b]
    {
      StoreByte(b);
      CountByte();
      assert fed + [b] == Concat(blocks) + Message_Block[..Message_Block_Index];
      fed := fed + [b];
      if Message_Block_Index == 64 {
        BufferFull();
      }
    }

    method BufferFull()
      requires Shape() && !Computed && Message_Block_Index == 64
      requires !Corrupted ==>
        && |fed| < MAX_BYTES && fed == Concat(blocks) + Message_Block[..64]
        && Chained() == Chain(Compress, INITIAL, blocks)
        && Length_High * 0x1_0000_0000 + Length_Low == 8 * |fed| && Length_Low < 0x1_0000_0000
      modifies this`Message_Block_Index, this`blocks, H
      ensures Valid()
    {
      hide Chain, Compress, Concat;
      if Corrupted {
        ProcessMessageBlock();
      } else {
        assert Message_Block[..64] == Message_Block[..];
        CompressFull(Message_Block[..]);
      }
    }

    /** Feeds a piece of the message. Feeding after the digest was taken, or feeding 2^61 bytes in all, spoils
        the object for good. */
    method Input(message: seq<byte>)
      requires Valid()
      modifies this, H, Message_Block
      ensures Valid() && Computed == old(Computed)
      ensures Corrupted <==> old(Corrupted) || (message != [] && (old(Computed) || |old(fed)| + |message| >= MAX_BYTES))
      ensures !Corrupted ==> fed == old(fed) + message
      ensures old(Computed) ==> fed == old(fed) && Chained() == old(Chained())
    {
      hide Chain, Concat, Compress, Digest;
      if message == [] {
        return;
      }
      if Computed || Corrupted {
        Corrupted := true;
        return;
      }
      var i := 0;
      while i < |message| && !Corrupted
        invariant 0 <= i <= |message| && Valid() && !Computed
        invariant !Corrupted ==> fed == old(fed) + message[..i]
        invariant Corrupted <==> |old(fed)| + i >= MAX_BYTES
      {
        PutByte(message[i]);
        i := i + 1;
      }
    }

    /** Zero bytes up to position `end` of the buffer. */
    method FillZeros(end: nat)
      requires Shape() && Message_Block_Index <= end <= 64
      modifies this`Message_Block_Index, Message_Block
      ensures Message_Block_Index == end
      ensures Message_Block[..end] == old(Message_Block[..Message_Block_Index]) + Zeros(end - old(Message_Block_Index))
    {
      while Message_Block_Index < end
        invariant old(Message_Block_Index) <= Message_Block_Index <= end
        invariant Message_Block[..Message_Block_Index] ==
                  old(Message_Block[..Message_Block_Index]) + Zeros(Message_Block_Index - old(Message_Block_Index))
      {
        StoreByte(0);
      }
    }

    /** The message length as the last eight bytes of the buffer. */
    method StoreLength()
      requires Shape() && |fed| < MAX_BYTES
      requires Length_High * 0x1_0000_0000 + Length_Low == 8 * |fed| && Length_Low < 0x1_0000_0000
      modifies Message_Block
      ensures Message_Block[..] == old(Message_Block[..56]) + LengthField(|fed|)
    {
      LengthFieldOfWords(|fed|, Length_High, Length_Low);
      var high, low := BigEndian32(Length_High), BigEndian32(Length_Low);
      Message_Block[56], Message_Block[57], Message_Block[58], Message_Block[59] := high[0], high[1], high[2], high[3];
      Message_Block[60], Message_Block[61], Message_Block[62], Message_Block[63] := low[0], low[1], low[2], low[3];
      assert Message_Block[56..] == LengthField(|fed|);
      assert Message_Block[..] == Message_Block[..56] + Message_Block[56..];
    }

    /** The one bit, then zeros up to position `end`. */
    method PadTo(end: nat)
      requires Shape() && Message_Block_Index < end <= 64
      modifies this`Message_Block_Index, Message_Block
      ensures Message_Block_Index == end
      ensures Message_Block[..end] ==
              old(Message_Block[..Message_Block_Index]) + [0x80] + Zeros(end - old(Message_Block_Index) - 1)
    {
      StoreByte(0x80);
      FillZeros(end);
    }

    /** Pads the message and compresses what remains. */
    method PadMessage()
      requires Shape() && !Computed && !Corrupted && Absorbing()
      modifies this, H, Message_Block
      ensures fed == old(fed) && !Computed && !Corrupted && Chained() == Digest(fed)
    {
      hide Chain, Digest, Concat, Compress, Zeros;
      if Message_Block_Index > 55 {
        PadTwoBlocks();
      } else {
        PadOneBlock();
      }
    }

    method PadOneBlock()
      requires Shape() && Absorbing() && Message_Block_Index < 56
      modifies this`Message_Block_Index, this`blocks, H, Message_Block
      ensures Chained() == Digest(fed)
    {
      ghost var tail := Message_Block[..Message_Block_Index];
      PaddedInOneBlock(blocks, tail, LengthField(|fed|));
      PadTo(56);
      StoreLength();
      PadCompress(tail + [0x80] + Zeros(55 - |tail|) + LengthField(|fed|));
    }

    method PadTwoBlocks()
      requires Shape() && Absorbing() && 56 <= Message_Block_Index
      modifies this`Message_Block_Index, this`blocks, H, Message_Block
      ensures Chained() == Digest(fed)
    {
      ghost var start, tail := blocks, Message_Block[..Message_Block_Index];
      ghost var first := tail + [0x80] + Zeros(63 - |tail|);
      PaddedInTwoBlocks(start, tail, LengthField(|fed|));
      PadTo(64);
      assert Message_Block[..64] == Message_Block[..];
      PadCompress(first);
      PadSecond();
      DigestOfBlocks(fed, start + [first] + [Zeros(56) + LengthField(|fed|)], Chained());
    }

    /** The block that holds nothing but zeros and the length. */
    method PadSecond()
      requires Shape() && Message_Block_Index == 0 && Chained() == Chain(Compress, INITIAL, blocks)
      requires |fed| < MAX_BYTES
      requires Length_High * 0x1_0000_0000 + Length_Low == 8 * |fed| && Length_Low < 0x1_0000_0000
      modifies this`Message_Block_Index, this`blocks, H, Message_Block
      ensures blocks == old(blocks) + [Zeros(56) + LengthField(|fed|)]
      ensures Chained() == Chain(Compress, INITIAL, blocks)
    {
      FillZeros(56);
      assert Message_Block[..56] == Zeros(56);
      StoreLength();
      PadCompress(Zeros(56) + LengthField(|fed|));
    }

    method PadCompress(ghost block: Block)
      requires Shape() && Message_Block[..] == block && Chained() == Chain(Compress, INITIAL, blocks)
      modifies this`Message_Block_Index, this`blocks, H
      ensures Message_Block_Index == 0 && blocks == old(blocks) + [block]
      ensures Chained() == Chain(Compress, INITIAL, blocks)
    {
      ChainNext(Compress, INITIAL, blocks, block);
      ProcessMessageBlock();
      blocks := blocks + [block];
    }

    /** The digest of everything fed; false when the object has been spoilt. */
    method Result() returns (ok: bool, digest: Five)
      requires Valid() && Settled()
      modifies this, H, Message_Block
      ensures Valid() && Settled() && fed == old(fed) && Corrupted == old(Corrupted)
      ensures ok <==> !Corrupted
      ensures ok ==> Computed && |fed| < MAX_BYTES && digest == Digest(fed)
    {
      hide Chain, Digest, Concat;
      if Corrupted {
        return false, INITIAL;
      }
      if !Computed {
        PadMessage();
        Computed := true;
      }
      return true, Five(H[0], H[1], H[2], H[3], H[4]);
    }
  }

  lemma DigestOfBlocks(message: seq<byte>, blocks: seq<Block>, h: Five)
    requires |message| < MAX_BYTES
    requires Cut(PaddedWith(message, ZeroCount(|message|), LengthField(|message|))) == blocks
    requires h == Chain(Compress, INITIAL, blocks)
    ensures h == Digest(message)
  {
  }

  function Joined(pieces: seq<seq<byte>>): seq<byte> {
    if pieces == [] then [] else Joined(pieces[..|pieces| - 1]) + pieces[|pieces| - 1]
  }

  /** However a message is split into pieces, the result is the digest of the whole message, and there is a
      result exactly when the message is shorter than 2^61 bytes. */
  method HashPieces(pieces: seq<seq<byte>>) returns (ok: bool, digest: Five)
    ensures ok <==> |Joined(pieces)| < MAX_BYTES
    ensures ok ==> digest == Digest(Joined(pieces))
  {
    var sha := new SHA1();
    for i := 0 to |pieces|
      invariant sha.Valid() && fresh(sha) && fresh(sha.H) && fresh(sha.Message_Block) && !sha.Computed
      invariant sha.Corrupted <==> |Joined(pieces[..i])| >= MAX_BYTES
      invariant !sha.Corrupted ==> sha.fed == Joined(pieces[..i])
    {
      assert pieces[..i + 1][..i] == pieces[..i];
      sha.Input(pieces[i]);
    }
    assert pieces[..|pieces|] == pieces;
    ok, digest := sha.Result();
  }
}
