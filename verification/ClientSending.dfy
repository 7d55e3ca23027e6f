/** The client's sending routine, and what arrives at the server. */
module ClientSending {
  import opened Bytes
  import opened ClientFraming
  import opened Frame
  import opened FrameDecoding
  import opened Segmentation

  /** One call of the sending routine; the key is what the random generator yields when a mask is asked for. */
  datatype Message = Message(t: DataType, key: Option<MaskKey>, payload: seq<byte>)

  /** The routine adds 128 to the length, which is an `int`. */
  type Outgoing = m: Message | IsSendable(m.t) && |m.payload| <= MAX_INT - 128
    witness Message(TxtData, None, [])

  function FramesOf(ms: seq<Outgoing>): (fs: seq<DataFrame>)
    ensures |fs| == |ms|
  {
    if ms == [] then [] else [FrameOf(ms[0].t, ms[0].key, ms[0].payload)] + FramesOf(ms[1..])
  }

  function OpcodeOf(t: DataType): nat
    requires IsSendable(t)
  {
    match t
    case MinData => 0x0
    case TxtData => 0x1
    case BinData => 0x2
    case DisConn => 0x8
    case Ping => 0x9
    case Pong => 0xA
  }

  /** Opcode and payload of every message. */
  function Announced(ms: seq<Outgoing>): seq<(nat, seq<byte>)>
  {
    if ms == [] then [] else [(OpcodeOf(ms[0].t), ms[0].payload)] + Announced(ms[1..])
  }

  /** Builds the frame in a zeroed buffer with 128 bytes to spare, and hands it to the socket. */
  method Send(m: Outgoing) returns (wire: seq<byte>)
    ensures wire == Wire(FrameOf(m.t, m.key, m.payload))
  {
    hide Wire, WireOver, ShortLength;
    var isMask := m.key.Some?;
    var maskKey := if isMask then m.key.value else [0, 0, 0, 0];
    var webSocketPackage := new byte[|m.payload| + 128](_ => 0);
    ghost var f := FrameOf(m.t, m.key, m.payload);
    WireFits(m);
    WireOverIsWire(f, 0);
    var retLen := EnPackage(m.payload, webSocketPackage, |m.payload| + 128, isMask, m.t, maskKey);
    wire := webSocketPackage[..retLen];
  }

  lemma WireFits(m: Outgoing)
    ensures |Wire(FrameOf(m.t, m.key, m.payload))| < |m.payload| + 128
    ensures 0 & !ShortLength(|m.payload|) == 0
  {
    hide Wire, ShortLength;
  }

  /** What the messages put on the wire one after the other. */
  method SendAll(ms: seq<Outgoing>) returns (wire: seq<byte>)
    ensures wire == Stream(FramesOf(ms))
  {
    hide Wire, FrameOf;
    wire := [];
    ghost var done: seq<DataFrame> := [];
    assert ms[0..] == ms && done + FramesOf(ms) == FramesOf(ms);
    for i := 0 to |ms|
      invariant wire == Stream(done)
      invariant FramesOf(ms) == done + FramesOf(ms[i..])
    {
      var bytes := Send(ms[i]);
      ghost var f: DataFrame := FrameOf(ms[i].t, ms[i].key, ms[i].payload);
      assert ms[i..][1..] == ms[i + 1..] && FramesOf(ms[i..]) == [f] + FramesOf(ms[i + 1..]);
      StreamAppend(done, [f]);
      OneFrame(f);
      wire := wire + bytes;
      done := done + [f];
    }
    assert ms[|ms|..] == [] && done + [] == done;
  }

  lemma OneFrame(f: DataFrame)
    ensures Stream([f]) == Wire(f)
  {
    hide Wire;
    assert [f][1..] == [];
    assert Wire(f) + [] == Wire(f);
  }

  predicate AllKeyed(ms: seq<Outgoing>) {
    forall m :: m in ms ==> m.key.Some?
  }

  lemma {:induction false} FramesAnnounced(ms: seq<Outgoing>)
    ensures Sent(FramesOf(ms)) == Announced(ms)
    ensures AllKeyed(ms) ==> AllMasked(FramesOf(ms))
  {
    if ms != [] {
      FramesAnnounced(ms[1..]);
      assert FramesOf(ms)[1..] == FramesOf(ms[1..]);
    }
  }

  /** What the client sends with masks, the server receives: the bytes of all messages, cut into any pieces, one call of
      the server's reader for each piece and one more for each message, are delivered as exactly those opcodes and
      payloads, in order. */
  lemma {:induction false} MessagesDelivered(ms: seq<Outgoing>, p: PacketView, pieces: seq<seq<byte>>)
    requires AllKeyed(ms) && p.state == PACKET_INIT && Flatten(pieces) == Stream(FramesOf(ms))
    ensures Delivered(Run(ReaderState(p, []), pieces + Empties(|ms|)).1) == Announced(ms)
  {
    FramesAnnounced(ms);
    MaskedFramesDelivered(FramesOf(ms), p, pieces);
  }
}
