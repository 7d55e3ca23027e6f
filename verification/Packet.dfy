/** The packet under construction and the socket it is read from. */
module Packet {
  import opened Bytes
  import opened Frame
  import opened FrameDecoding

  /** The receiving side of a connection: the bytes that have arrived and have not been read. A read may come
      up short although enough bytes are there; the ghost flag records that it did. */
  class Socket {
    var queue: seq<byte>
    ghost var faulted: bool

    constructor ()
      ensures queue == [] && !faulted
    {
      queue, faulted := [], false;
    }

    /** More bytes arrive from the peer. */
    method Arrive(bytes: seq<byte>)
      modifies this`queue
      ensures queue == old(queue) + bytes
    {
      queue := queue + bytes;
    }

    method Read(n: nat) returns (bytes: seq<byte>)
      modifies this
      ensures bytes + queue == old(queue) && |bytes| <= n
      ensures old(faulted) ==> faulted
      ensures n <= |old(queue)| && !faulted ==> |bytes| == n
      ensures |bytes| == n ==> faulted == old(faulted)
    {
      var k := if n <= |queue| then n else |queue|;
      if * {
        var j: nat :| j <= k;
        faulted := faulted || j < n;
        k := j;
      }
      bytes, queue := queue[..k], queue[k..];
    }

    /** Takes some of the bytes at hand. When there are none, `closed` tells whether the peer is gone. */
    method Receive(max: nat, closed: bool) returns (r: Received)
      requires max > 0
      modifies this
      ensures r.Bytes? ==> r.bytes != [] && r.bytes + queue == old(queue)
      ensures !r.Bytes? ==> queue == old(queue)
      ensures faulted == (old(faulted) || r.Broken?)
      ensures r.Again? ==> queue == [] && !closed
      ensures r.Closed? ==> queue == [] && closed
    {
      if * {
        faulted := true;
        return Broken;
      }
      if queue == [] {
        return if closed then Closed else Again;
      }
      var k: nat :| 0 < k <= |queue| && k <= max;
      r, queue := Bytes(queue[..k]), queue[k..];
    }
  }

  /** How a call that reads whatever is there can end. */
  datatype Received = Bytes(bytes: seq<byte>) | Again | Closed | Broken

  class Packet {
    var data_: array?<byte>
    var len_: nat
    var size_: nat
    var fin_: nat
    var opcode_: nat
    var mask_: nat
    var masking_key_: MaskKey
    var body_size_: nat
    var head_size_: nat
    var state_: PacketState

    ghost predicate Valid()
      reads this, data_
    {
      && (if data_ == null then size_ == 0 else size_ == data_.Length)
      && len_ <= size_ <= MAX_INT
      && View().Valid()
    }

    /** The whole allocation. */
    function Buffer(): seq<byte>
      reads this, data_
    {
      if data_ == null then [] else data_[..]
    }

    ghost function View(): PacketView
      reads this, data_
      requires len_ <= |Buffer()|
    {
      PacketView(state_, fin_, opcode_, mask_, masking_key_, body_size_, head_size_, Buffer()[..len_])
    }

    /** The mask key starts out as whatever the memory held. */
    constructor (garbage: MaskKey)
      ensures Valid() && data_ == null
      ensures View() == PacketView(PACKET_INIT, 0, 0, 0, garbage, 0, 0, [])
    {
      data_ := null;
      len_, size_, fin_, opcode_, mask_, body_size_, head_size_ := 0, 0, 0, 0, 0, 0, 0;
      masking_key_ := garbage;
      state_ := PACKET_INIT;
    }

    method Reset()
      requires Valid()
      modifies this
      ensures Valid() && data_ == old(data_) && size_ == old(size_)
      ensures View() == old(View()).Reset() == PacketView(PACKET_INIT, 0, 0, 0, old(masking_key_), 0, 0, [])
    {
      len_, fin_, opcode_, mask_, body_size_, head_size_ := 0, 0, 0, 0, 0, 0;
      state_ := PACKET_INIT;
    }

    /** Grows the buffer to at least `len` bytes; what it held stays. Nothing happens for a negative `len`. */
    method Resize(len: int)
      requires Valid() && len <= MAX_INT
      modifies this`data_, this`size_
      ensures Valid() && size_ >= len && View() == old(View())
      ensures data_ == old(data_) || (data_ != null && fresh(data_))
      ensures old(Buffer()) <= Buffer()
      ensures data_ == old(data_) <==> len <= old(size_)
      ensures size_ == if len > old(size_) then len else old(size_)
    {
      if len > size_ {
        var data := new byte[len];
        forall i | 0 <= i < size_ {
          data[i] := data_[i];
        }
        data_, size_ := data, len;
        assert old(Buffer()) == data[..old(size_)];
        assert Buffer()[..len_] == old(Buffer())[..len_];
      }
    }
  }
}
