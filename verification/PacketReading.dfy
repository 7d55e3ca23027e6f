/** The resumable packet reader of the server, stage by stage over the packet object and the socket. */
module PacketReading {
  import opened Bytes
  import opened Frame
  import opened FrameDecoding
  import opened Packet

  /** What a stage decided: go on, return 0 and wait for the next event, or return -1 because of a refused
      length or because a read came up short. At `Overrun` the source goes on and writes behind its buffer. */
  datatype Stage = Continue | Return | Refuse | Fault | Overrun

  /** A stage and the state it leaves, as the abstract decoder describes it. */
  function Described(s: Stage, p: PacketView, rest: seq<byte>): Progress {
    match s
    case Continue => Go(p, rest)
    case Refuse => TooBig(p, rest)
    case _ => Wait(p, rest)
  }

  lemma NothingThere(p: PacketView, queue: seq<byte>)
    requires p.state == PACKET_INIT && |queue| < 2
    ensures InitStage(p, queue) == Wait(p.Reset(), queue)
  {
  }

  lemma InitRead(p: PacketView, head: seq<byte>, rest: seq<byte>)
    requires p.state == PACKET_INIT && |head| == 2
    ensures var len := LowSeven(head[1]);
      InitStage(p, head + rest) ==
      Go(PacketView(if len < 126 then PACKET_MASK else if len == 126 then PACKET_HEAD_126 else PACKET_HEAD_127,
                    TopBit(head[0]), LowFour(head[0]), TopBit(head[1]), p.key, len, 2, []), rest)
  {
    assert (head + rest)[2..] == rest;
  }

  method ReadInit(packet: Packet, sock: Socket) returns (s: Stage)
    requires packet.Valid() && !sock.faulted && packet.state_ == PACKET_INIT
    modifies packet, sock
    ensures packet.Valid() && packet.data_ == old(packet.data_)
    ensures s == Fault <==> sock.faulted
    ensures s != Overrun && (s != Fault ==>
      Described(s, packet.View(), sock.queue) == InitStage(old(packet.View()), old(sock.queue)))
  {
    hide TopBit, LowFour, LowSeven, InitStage;
    ghost var before := packet.View();
    packet.Reset();
    if |sock.queue| < 2 {
      NothingThere(before, sock.queue);
      return Return;
    }
    var head := sock.Read(2);
    if |head| != 2 {
      return Fault;
    }
    packet.head_size_ := packet.head_size_ + 2;
    packet.fin_ := TopBit(head[0]);
    packet.opcode_ := LowFour(head[0]);
    packet.mask_ := TopBit(head[1]);
    packet.body_size_ := LowSeven(head[1]);
    if packet.body_size_ < 126 {
      packet.state_ := PACKET_MASK;
    } else if packet.body_size_ == 126 {
      packet.state_ := PACKET_HEAD_126;
    } else {
      packet.state_ := PACKET_HEAD_127;
    }
    InitRead(before, head, sock.queue);
    return Continue;
  }

  method ReadHead126(packet: Packet, sock: Socket) returns (s: Stage)
    requires packet.Valid() && !sock.faulted && packet.state_ == PACKET_HEAD_126
    modifies packet, sock
    ensures packet.Valid() && packet.data_ == old(packet.data_)
    ensures s == Fault <==> sock.faulted
    ensures s != Overrun && (s != Fault ==>
      Described(s, packet.View(), sock.queue) == Head126Stage(old(packet.View()), old(sock.queue)))
  {
    if |sock.queue| < 2 {
      return Return;
    }
    var len_buffer := sock.Read(2);
    if |len_buffer| != 2 {
      return Fault;
    }
    packet.head_size_ := packet.head_size_ + 2;
    packet.body_size_ := FromBigEndian(len_buffer);
    assert old(sock.queue)[..2] == len_buffer;
    packet.state_ := PACKET_MASK;
    return Continue;
  }

  method ReadHead127(packet: Packet, sock: Socket) returns (s: Stage)
    requires packet.Valid() && !sock.faulted && packet.state_ == PACKET_HEAD_127
    modifies packet, sock
    ensures packet.Valid() && packet.data_ == old(packet.data_)
    ensures s == Fault <==> sock.faulted
    ensures s != Overrun && (s != Fault ==>
      Described(s, packet.View(), sock.queue) == Head127Stage(old(packet.View()), old(sock.queue)))
  {
    if |sock.queue| < 8 {
      return Return;
    }
    var len_buffer := sock.Read(8);
    if |len_buffer| != 8 {
      return Fault;
    }
    packet.head_size_ := packet.head_size_ + 8;
    if len_buffer[0] != 0 && len_buffer[1] != 0 && len_buffer[2] != 0 && len_buffer[3] != 0 {
      return Refuse;
    }
    packet.body_size_ := FromBigEndian(len_buffer[4..8]);
    assert old(sock.queue)[..8] == len_buffer;
    assert old(sock.queue)[4..8] == len_buffer[4..8];
    packet.state_ := PACKET_MASK;
    return Continue;
  }

  method ReadMask(packet: Packet, sock: Socket) returns (s: Stage)
    requires packet.Valid() && !sock.faulted && packet.state_ == PACKET_MASK
    modifies packet, sock
    ensures packet.Valid() && packet.data_ == old(packet.data_)
    ensures s == Fault <==> sock.faulted
    ensures s != Overrun && (s != Fault ==>
      Described(s, packet.View(), sock.queue) == MaskStage(old(packet.View()), old(sock.queue)))
  {
    if packet.mask_ != 1 {
      packet.state_ := PACKET_DATA;
      return Continue;
    }
    if |sock.queue| < 4 {
      return Return;
    }
    var mask_buffer := sock.Read(4);
    if |mask_buffer| != 4 {
      return Fault;
    }
    packet.head_size_ := packet.head_size_ + 4;
    packet.masking_key_ := mask_buffer;
    packet.state_ := PACKET_DATA;
    return Continue;
  }

  /** Stores `bytes` behind the first `len` bytes of the buffer and unmasks them there. */
  method StoreUnmasked(data: array<byte>, len: nat, bytes: seq<byte>, key: MaskKey)
    requires len + |bytes| <= data.Length
    modifies data
    ensures data[..len + |bytes|] == old(data[..len]) + Masked(bytes, key, len)
  {
    forall i | 0 <= i < |bytes| {
      data[len + i] := bytes[i];
    }
    for i := 0 to |bytes|
      invariant forall k :: 0 <= k < len ==> data[k] == old(data[k])
      invariant forall k :: 0 <= k < i ==> data[len + k] == Masked(bytes, key, len)[k]
      invariant forall k :: i <= k < |bytes| ==> data[len + k] == bytes[k]
    {
      var j := (len + i) % 4;
      data[len + i] := data[len + i] ^ key[j];
    }
    assert data[len..len + |bytes|] == Masked(bytes, key, len);
  }

  method ReadData(packet: Packet, sock: Socket) returns (s: Stage)
    requires packet.Valid() && !sock.faulted && packet.state_ == PACKET_DATA
    modifies packet, packet.data_, sock
    ensures packet.Valid() && (packet.data_ == old(packet.data_) || fresh(packet.data_))
    ensures s == Fault <==> sock.faulted
    ensures s == Overrun <==> old(Exceeds(packet.View(), sock.queue, packet.size_))
    ensures s != Fault && s != Overrun ==>
      Described(s, packet.View(), sock.queue) == DataStage(old(packet.View()), old(sock.queue))
  {
    hide DataStage, Exceeds, Room, ToInt, Masked;
    ghost var before, input := packet.View(), sock.queue;
    var bytes := |sock.queue|;
    var readLen := if bytes > packet.body_size_ - packet.len_ then packet.body_size_ - packet.len_ else bytes;
    DataParts(before, input, readLen, packet.size_);
    packet.Resize(ToInt(packet.body_size_));
    if packet.len_ + readLen > packet.size_ {
      return Overrun;
    }
    s := TakeData(packet, sock, readLen);
    if s == Continue {
      assert sock.queue == input[readLen..];
    }
  }

  /** What the data stage makes of the bytes at hand, and when they fit the buffer. */
  lemma DataParts(p: PacketView, input: seq<byte>, n: nat, size: nat)
    requires p.Valid() && p.state == PACKET_DATA
    requires n == if |input| > p.bodySize - |p.body| then p.bodySize - |p.body| else |input|
    ensures Exceeds(p, input, size) <==>
      |p.body| + n > if ToInt(p.bodySize) > size then ToInt(p.bodySize) else size
    ensures var body := p.body + Masked(input[..n], p.key, |p.body|);
      DataStage(p, input) ==
      Go(p.(body := body, state := if |body| == p.bodySize then PACKET_INIT else PACKET_DATA), input[n..])
  {
    hide ToInt, Masked;
  }

  /** Reads into the free part of the buffer and unmasks there. */
  method TakeData(packet: Packet, sock: Socket, readLen: nat) returns (s: Stage)
    requires packet.Valid() && !sock.faulted && packet.state_ == PACKET_DATA
    requires packet.len_ + readLen <= packet.size_ && packet.len_ + readLen <= packet.body_size_
    requires readLen <= |sock.queue|
    modifies packet`len_, packet`state_, packet.data_, sock
    ensures packet.Valid() && (s == Continue || s == Fault) && (s == Fault <==> sock.faulted)
    ensures s == Continue ==>
      var p := old(packet.View());
      var body := p.body + Masked(old(sock.queue)[..readLen], p.key, |p.body|);
      && packet.View() == p.(body := body, state := if |body| == p.bodySize then PACKET_INIT else PACKET_DATA)
      && sock.queue == old(sock.queue)[readLen..]
  {
    hide Masked;
    ghost var before := packet.View();
    var read := sock.Read(readLen);
    if packet.data_ != null {
      StoreUnmasked(packet.data_, packet.len_, read, packet.masking_key_);
    }
    if |read| != readLen {
      return Fault;
    }
    assert old(sock.queue)[..readLen] == read;
    packet.len_ := packet.len_ + |read|;
    if packet.len_ == packet.body_size_ {
      packet.state_ := PACKET_INIT;
    }
    return Continue;
  }

  /** The stages up to the mask key. */
  method ReadHeader(packet: Packet, sock: Socket) returns (s: Stage)
    requires packet.Valid() && !sock.faulted
    modifies packet, sock
    ensures packet.Valid() && packet.data_ == old(packet.data_)
    ensures s == Fault <==> sock.faulted
    ensures s != Overrun && (s != Fault ==>
      Described(s, packet.View(), sock.queue) == HeaderStages(old(packet.View()), old(sock.queue)))
  {
    s := Continue;
    if packet.state_ == PACKET_INIT {
      s := ReadInit(packet, sock);
    }
    if s == Continue && packet.state_ == PACKET_HEAD_126 {
      s := ReadHead126(packet, sock);
    }
    if s == Continue && packet.state_ == PACKET_HEAD_127 {
      s := ReadHead127(packet, sock);
    }
    if s == Continue && packet.state_ == PACKET_MASK {
      s := ReadMask(packet, sock);
    }
  }

  /** One call of the reader. Unless it leaves its buffer or a read comes up short it does what the abstract decoder
      does, and it leaves its buffer exactly when the decoder says so. */
  method ReadAndParsePacket(packet: Packet, sock: Socket) returns (s: Stage)
    requires packet.Valid() && !sock.faulted
    modifies packet, packet.data_, sock
    ensures packet.Valid() && (packet.data_ == old(packet.data_) || fresh(packet.data_))
    ensures s == Fault <==> sock.faulted
    ensures s == Overrun ==> old(Overruns(packet.View(), sock.queue, packet.size_))
    ensures old(Overruns(packet.View(), sock.queue, packet.size_)) ==> s == Overrun || s == Fault
    ensures s != Fault && s != Overrun ==>
      Described(s, packet.View(), sock.queue) == Advance(old(packet.View()), old(sock.queue))
  {
    s := ReadHeader(packet, sock);
    if s == Continue && packet.state_ == PACKET_DATA {
      s := ReadData(packet, sock);
    }
  }
}
