/** The server's resumable frame decoder as a function from the packet so far and the unread bytes to the
    packet afterwards and the bytes still unread. */
module FrameDecoding {
  import opened Bytes
  import opened Frame

  datatype PacketState = PACKET_INIT | PACKET_HEAD_126 | PACKET_HEAD_127 | PACKET_MASK | PACKET_DATA

  /** The abstract value of a packet; `body` is the part of the payload received so far, unmasked. */
  datatype PacketView = PacketView(
    state: PacketState, fin: nat, opcode: nat, mask: nat, key: MaskKey, bodySize: nat, headSize: nat,
    body: seq<byte>)
  {
    predicate Valid() {
      match state
      case PACKET_INIT => true
      case PACKET_DATA => |body| <= bodySize
      case _ => body == []
    }

    /** Forgets everything but the mask key. */
    function Reset(): PacketView {
      PacketView(PACKET_INIT, 0, 0, 0, key, 0, 0, [])
    }
  }

  /** One stage of a call: it went through, it ran out of bytes, or it met a length it refuses. */
  datatype Progress = Go(p: PacketView, rest: seq<byte>) | Wait(p: PacketView, rest: seq<byte>)
                    | TooBig(p: PacketView, rest: seq<byte>)

  function InitStage(p: PacketView, input: seq<byte>): Progress {
    if p.state != PACKET_INIT then Go(p, input)
    else if |input| < 2 then Wait(p.Reset(), input)
    else
      var len := LowSeven(input[1]);
      Go(PacketView(if len < 126 then PACKET_MASK else if len == 126 then PACKET_HEAD_126 else PACKET_HEAD_127,
                    TopBit(input[0]), LowFour(input[0]), TopBit(input[1]), p.key, len, 2, []),
         input[2..])
  }

  function Head126Stage(p: PacketView, input: seq<byte>): Progress {
    if p.state != PACKET_HEAD_126 then Go(p, input)
    else if |input| < 2 then Wait(p, input)
    else
      Go(p.(headSize := p.headSize + 2, bodySize := FromBigEndian(input[..2]), state := PACKET_MASK), input[2..])
  }

  /** Refuses a 64-bit length only when all four upper bytes are non-zero. */
  function Head127Stage(p: PacketView, input: seq<byte>): Progress {
    if p.state != PACKET_HEAD_127 then Go(p, input)
    else if |input| < 8 then Wait(p, input)
    else if input[0] != 0 && input[1] != 0 && input[2] != 0 && input[3] != 0 then
      TooBig(p.(headSize := p.headSize + 8), input[8..])
    else
      Go(p.(headSize := p.headSize + 8, bodySize := FromBigEndian(input[4..8]), state := PACKET_MASK), input[8..])
  }

  function MaskStage(p: PacketView, input: seq<byte>): Progress {
    if p.state != PACKET_MASK then Go(p, input)
    else if p.mask != 1 then Go(p.(state := PACKET_DATA), input)
    else if |input| < 4 then Wait(p, input)
    else Go(p.(headSize := p.headSize + 4, key := input[..4], state := PACKET_DATA), input[4..])
  }

  /** Takes what is there of the payload, and unmasks it with the key at hand whatever the mask bit says. */
  function DataStage(p: PacketView, input: seq<byte>): Progress
    requires p.Valid()
  {
    if p.state != PACKET_DATA then Go(p, input)
    else
      var n := if |input| > p.bodySize - |p.body| then p.bodySize - |p.body| else |input|;
      var body := p.body + Masked(input[..n], p.key, |p.body|);
      Go(p.(body := body, state := if |body| == p.bodySize then PACKET_INIT else PACKET_DATA), input[n..])
  }

  /** The stages up to the mask key. */
  function HeaderStages(p: PacketView, input: seq<byte>): (r: Progress)
    requires p.Valid()
    ensures r.p.Valid()
  {
    var a := InitStage(p, input);
    if !a.Go? then a else
    var b := Head126Stage(a.p, a.rest);
    if !b.Go? then b else
    var c := Head127Stage(b.p, b.rest);
    if !c.Go? then c else MaskStage(c.p, c.rest)
  }

  /** One whole call of the decoder. */
  function Advance(p: PacketView, input: seq<byte>): (r: Progress)
    requires p.Valid()
    ensures r.p.Valid()
  {
    var d := HeaderStages(p, input);
    if !d.Go? then d else DataStage(d.p, d.rest)
  }

  /** The header of a frame that has arrived as a whole: every field of the packet, and what is left to read. */
  lemma {:induction false} HeaderRead(p: PacketView, f: Frame, tail: seq<byte>)
    requires Sendable(f) && p.Valid() && p.state == PACKET_INIT
    ensures HeaderStages(p, Wire(f) + tail) ==
      Go(PacketView(PACKET_DATA, if f.fin then 1 else 0, f.opcode, if f.key.Some? then 1 else 0,
                    if f.key.Some? then f.key.value else p.key, |f.payload|,
                    (if |f.payload| < 126 then 2 else if |f.payload| < 65536 then 4 else 10) +
                      if f.key.Some? then 4 else 0, []),
         Body(f) + tail)
  {
    hide InitStage, Head126Stage, Head127Stage, MaskStage, Wire;
    var w, n := Wire(f), |f.payload|;
    WireFields(f);
    var rest, behind := w[2..] + tail, w[PrefixSize(n)..] + tail;
    FirstTwoRead(p, f, tail);
    var q := PacketView(if n < 126 then PACKET_MASK else if n < 0x1_0000 then PACKET_HEAD_126 else PACKET_HEAD_127,
                        if f.fin then 1 else 0, f.opcode, if f.key.Some? then 1 else 0, p.key,
                        if n < 126 then n else if n < 0x1_0000 then 126 else 127, 2, []);
    LengthRead(w, tail, n);
    LengthStages(q, rest, behind, n);
    MaskRead(q.(state := PACKET_MASK, bodySize := n, headSize := PrefixSize(n)), f, behind, tail);
  }

  lemma FirstTwoRead(p: PacketView, f: Frame, tail: seq<byte>)
    requires Sendable(f) && p.state == PACKET_INIT
    ensures var w, n := Wire(f), |f.payload|;
      InitStage(p, w + tail) == Go(PacketView(
        if n < 126 then PACKET_MASK else if n < 0x1_0000 then PACKET_HEAD_126 else PACKET_HEAD_127,
        if f.fin then 1 else 0, f.opcode, if f.key.Some? then 1 else 0, p.key,
        if n < 126 then n else if n < 0x1_0000 then 126 else 127, 2, []), w[2..] + tail)
  {
    hide Wire, FirstByte, SecondByte, TopBit, LowFour, LowSeven;
    var w := Wire(f);
    WireFields(f);
    FirstByteFields(f.fin, f.opcode);
    SecondByteFields(f.key.Some?, |f.payload|);
    var a := w + tail;
    assert a[0] == w[0] && a[1] == w[1] && a[2..] == w[2..] + tail;
  }

  lemma LengthStages(q: PacketView, rest: seq<byte>, behind: seq<byte>, n: nat)
    requires q.state == if n < 126 then PACKET_MASK else if n < 0x1_0000 then PACKET_HEAD_126 else PACKET_HEAD_127
    requires q.headSize == 2 && (n < 126 ==> q.bodySize == n)
    requires |rest| >= PrefixSize(n) - 2 && rest[PrefixSize(n) - 2..] == behind
    requires 126 <= n < 0x1_0000 ==> FromBigEndian(rest[..2]) == n
    requires n >= 0x1_0000 ==> rest[0] == 0 && FromBigEndian(rest[4..8]) == n
    ensures var b := Head126Stage(q, rest);
      && b.Go?
      && Head127Stage(b.p, b.rest) ==
           Go(q.(state := PACKET_MASK, bodySize := n, headSize := PrefixSize(n)), behind)
  {
    hide FromBigEndian;
  }

  lemma MaskRead(q: PacketView, f: Frame, behind: seq<byte>, tail: seq<byte>)
    requires Sendable(f) && q.state == PACKET_MASK && q.mask == if f.key.Some? then 1 else 0
    requires behind == Wire(f)[PrefixSize(|f.payload|)..] + tail
    ensures MaskStage(q, behind) ==
      Go(q.(state := PACKET_DATA, headSize := q.headSize + (if f.key.Some? then 4 else 0),
            key := if f.key.Some? then f.key.value else q.key), Body(f) + tail)
  {
    hide Wire;
    WireFields(f);
    var w, m := Wire(f), PrefixSize(|f.payload|);
    if f.key.Some? {
      assert HeaderSize(f) == m + 4;
      KeyInFront(w, m, tail);
    }
  }

  lemma KeyInFront(w: seq<byte>, m: nat, tail: seq<byte>)
    requires m + 4 <= |w|
    ensures var behind := w[m..] + tail; behind[..4] == w[m..m + 4] && behind[4..] == w[m + 4..] + tail
  {
  }

  /** The extended length of a frame, behind its first two bytes. */
  lemma LengthRead(w: seq<byte>, tail: seq<byte>, n: nat)
    requires n <= MAX_INT && |w| >= PrefixSize(n) && w[2..PrefixSize(n)] == ExtendedLength(n)
    ensures var rest := w[2..] + tail;
      && rest[PrefixSize(n) - 2..] == w[PrefixSize(n)..] + tail
      && (126 <= n < 0x1_0000 ==> |rest| >= 2 && FromBigEndian(rest[..2]) == n)
      && (n >= 0x1_0000 ==> |rest| >= 8 && rest[0] == 0 && FromBigEndian(rest[4..8]) == n)
  {
    hide BigEndian16, BigEndian32, FromBigEndian;
    var rest := w[2..] + tail;
    if n >= 126 {
      ExtendedLengthRoundTrip(n);
      assert rest[..PrefixSize(n) - 2] == w[2..PrefixSize(n)];
      if n >= 0x1_0000 {
        assert rest[4..8] == w[2..10][4..] && rest[0] == w[2..10][0];
      }
    }
  }

  // The buffer behind the payload.

  /** The conversion of a length to a C `int`. */
  function ToInt(n: nat): (r: int)
    ensures r <= MAX_INT && (n <= MAX_INT ==> r == n)
    ensures MAX_INT < n < 0x1_0000_0000 ==> r == n - 0x1_0000_0000
  {
    var m := n % 0x1_0000_0000;
    if m <= MAX_INT then m else m - 0x1_0000_0000
  }

  /** The size of the buffer, once it has been grown for the payload of the frame. */
  function Room(p: PacketView, size: nat): nat {
    if ToInt(p.bodySize) > size then ToInt(p.bodySize) else size
  }

  /** The part of the payload that a call takes does not fit the buffer. */
  predicate Exceeds(p: PacketView, input: seq<byte>, size: nat)
    requires p.Valid()
  {
    p.state == PACKET_DATA &&
    |p.body| + (if |input| > p.bodySize - |p.body| then p.bodySize - |p.body| else |input|) > Room(p, size)
  }

  /** The call writes behind the buffer. */
  predicate Overruns(p: PacketView, input: seq<byte>, size: nat)
    requires p.Valid()
  {
    var d := HeaderStages(p, input);
    d.Go? && Exceeds(d.p, d.rest, size)
  }

  /** That needs a payload whose length does not fit an `int`, of which more arrives than the buffer can hold. */
  lemma {:induction false} OnlyLongPayloadsExceed(p: PacketView, input: seq<byte>, size: nat)
    requires p.Valid() && p.state == PACKET_DATA && p.bodySize < 0x1_0000_0000
    ensures Exceeds(p, input, size) <==>
      p.bodySize > MAX_INT && p.bodySize > size && |p.body| + |input| > size
  {
  }

  /** No call completes a frame whose payload length does not fit an `int` without leaving the buffer. */
  lemma {:induction false} LongPayloadOverruns(p: PacketView, input: seq<byte>, size: nat)
    requires p.Valid() && size <= MAX_INT
    requires var r := Advance(p, input); r.Go? && r.p.state == PACKET_INIT && MAX_INT < r.p.bodySize < 0x1_0000_0000
    ensures Overruns(p, input, size)
  {
    hide HeaderStages;
    HeaderDone(p, input);
  }

  lemma HeaderDone(p: PacketView, input: seq<byte>)
    requires p.Valid()
    ensures var d := HeaderStages(p, input); d.Go? ==> d.p.state == PACKET_DATA
  {
  }

  /** A frame as the decoder understands it: the key in force once its header is read, and the payload after
      unmasking with that key. */
  datatype Meant = Meant(fin: bool, opcode: nat, masked: bool, key: MaskKey, payload: seq<byte>)
  {
    function HeaderSize(): nat {
      PrefixSize(|payload|) + if masked then 4 else 0
    }

    function WireSize(): nat {
      HeaderSize() + |payload|
    }
  }

  /** How frame `f` is understood when `stale` is the key left over from earlier frames. */
  function MeantBy(f: Frame, stale: MaskKey): (m: Meant)
    ensures |m.payload| == |f.payload| && m.HeaderSize() == HeaderSize(f) && m.WireSize() == WireSize(f)
  {
    var key := if f.key.Some? then f.key.value else stale;
    Meant(f.fin, f.opcode, f.key.Some?, key, Masked(Body(f), key, 0))
  }

  /** A masked frame is understood as it was meant; an unmasked one exactly when every key byte it meets is
      zero. */
  lemma {:induction false} MeantIsPayload(f: Frame, stale: MaskKey)
    ensures MeantBy(f, stale).payload == f.payload <==>
            f.key.Some? || forall i :: 0 <= i < 4 && i < |f.payload| ==> stale[i] == 0
  {
    if f.key.Some? {
      MaskedTwice(f.payload, f.key.value, 0);
    } else {
      MaskedFixed(f.payload, stale);
    }
  }

  /** The packet in the middle of frame `m`, `c` of whose bytes have been consumed. */
  ghost predicate Inside(p: PacketView, m: Meant, c: nat, stale: MaskKey) {
    var n := |m.payload|;
    && p.Valid()
    && p.fin == (if m.fin then 1 else 0) && p.opcode == m.opcode && p.mask == (if m.masked then 1 else 0)
    && (p.state != PACKET_DATA ==> p.key == stale)
    && match p.state
       case PACKET_INIT => false
       case PACKET_HEAD_126 => c == 2 && 126 <= n < 0x1_0000
       case PACKET_HEAD_127 => c == 2 && 0x1_0000 <= n
       case PACKET_MASK => c == PrefixSize(n) && p.bodySize == n
       case PACKET_DATA =>
         && c == m.HeaderSize() + |p.body| && p.key == m.key && p.bodySize == n
         && |p.body| <= n && p.body == m.payload[..|p.body|]
  }

  /** Frame `m` has been received completely. */
  ghost predicate Holds(p: PacketView, m: Meant) {
    && p.state == PACKET_INIT && p.fin == (if m.fin then 1 else 0) && p.opcode == m.opcode
    && p.key == m.key && p.bodySize == |m.payload| && p.body == m.payload
  }

  /** `input` is what follows the first `c` bytes of `stream`, as far as it has arrived. */
  ghost predicate Arrived(stream: seq<byte>, c: nat, input: seq<byte>) {
    c + |input| <= |stream| && input == stream[c..c + |input|]
  }

  lemma ArrivedDrop(stream: seq<byte>, c: nat, input: seq<byte>, k: nat)
    requires Arrived(stream, c, input) && k <= |input|
    ensures Arrived(stream, c + k, input[k..])
  {
  }

  lemma ArrivedField(f: Frame, tail: seq<byte>, c: nat, input: seq<byte>, k: nat)
    requires Sendable(f) && Arrived(Wire(f) + tail, c, input) && k <= |input| && c + k <= WireSize(f)
    ensures input[..k] == Wire(f)[c..c + k]
  {
  }

  lemma InitInside(p: PacketView, f: Frame, tail: seq<byte>, input: seq<byte>)
    requires Sendable(f) && p.state == PACKET_INIT
    requires |input| >= 2 && Arrived(Wire(f) + tail, 0, input)
    ensures var r := InitStage(p, input); r.Go? && r.rest == input[2..] && Inside(r.p, MeantBy(f, p.key), 2, p.key)
  {
    WireFields(f);
    ArrivedField(f, tail, 0, input, 2);
    assert input[0] == input[..2][0] && input[1] == input[..2][1];
    FirstByteFields(f.fin, f.opcode);
    SecondByteFields(f.key.Some?, |f.payload|);
  }

  lemma LengthInside(p: PacketView, f: Frame, m: Meant, c: nat, stale: MaskKey, tail: seq<byte>, input: seq<byte>)
    requires Sendable(f) && m == MeantBy(f, stale) && Inside(p, m, c, stale) && Arrived(Wire(f) + tail, c, input)
    requires p.state == PACKET_HEAD_126 || p.state == PACKET_HEAD_127
    requires |input| >= PrefixSize(|f.payload|) - 2
    ensures var r := if p.state == PACKET_HEAD_126 then Head126Stage(p, input) else Head127Stage(p, input);
      r.Go? && r.rest == input[PrefixSize(|f.payload|) - 2..] && Inside(r.p, m, PrefixSize(|f.payload|), stale)
  {
    var n := |f.payload|;
    WireFields(f);
    ExtendedLengthRoundTrip(n);
    ArrivedField(f, tail, c, input, PrefixSize(n) - 2);
    var e := ExtendedLength(n);
    if n >= 0x1_0000 {
      assert input[..8] == e;
      assert input[0] == e[0] == 0;
      assert input[4..8] == input[..8][4..];
    }
  }

  lemma MaskInside(p: PacketView, f: Frame, m: Meant, c: nat, stale: MaskKey, tail: seq<byte>, input: seq<byte>)
    requires Sendable(f) && m == MeantBy(f, stale) && Inside(p, m, c, stale) && Arrived(Wire(f) + tail, c, input)
    requires p.state == PACKET_MASK && (f.key.Some? ==> |input| >= 4)
    ensures var r := MaskStage(p, input);
      r.Go? && r.rest == input[HeaderSize(f) - c..] && Inside(r.p, m, HeaderSize(f), stale)
  {
    WireFields(f);
    if f.key.Some? {
      ArrivedField(f, tail, c, input, 4);
    }
  }

  /** What a call that starts `c` bytes into frame `m` with `input` unread may leave behind: it completes the
      frame exactly when the rest of it has arrived, never consumes a byte behind it, and otherwise stops
      inside the frame. Only a call that finds less than two bytes at a frame boundary empties the packet. */
  ghost predicate Lands(p: PacketView, m: Meant, c: nat, stale: MaskKey, input: seq<byte>, r: Progress) {
    var k := |input| - |r.rest|;
    && !r.TooBig? && r.p.Valid()
    && 0 <= k && r.rest == input[k..] && c + k <= m.WireSize()
    && if |input| >= m.WireSize() - c then c + k == m.WireSize() && Holds(r.p, m)
       else if c == 0 && |input| < 2 then r.p == p.Reset() && k == 0
       else 0 < c + k < m.WireSize() && Inside(r.p, m, c + k, stale)
  }

  /** The bytes taken from the socket extend the payload received so far. */
  lemma DataTaken(p: PacketView, f: Frame, m: Meant, c: nat, stale: MaskKey, tail: seq<byte>, input: seq<byte>, k: nat)
    requires Sendable(f) && m == MeantBy(f, stale) && Inside(p, m, c, stale) && Arrived(Wire(f) + tail, c, input)
    requires p.state == PACKET_DATA && k <= |input| && c + k <= WireSize(f)
    ensures p.body + Masked(input[..k], p.key, |p.body|) == m.payload[..|p.body| + k]
    ensures m.payload[..|m.payload|] == m.payload
  {
    var b := |p.body|;
    WireFields(f);
    ArrivedField(f, tail, c, input, k);
    assert input[..k] == Body(f)[b..b + k];
    MaskedGrows(Body(f), p.key, b, k);
  }

  lemma DataInside(p: PacketView, f: Frame, m: Meant, c: nat, stale: MaskKey, tail: seq<byte>, input: seq<byte>)
    requires Sendable(f) && m == MeantBy(f, stale) && Inside(p, m, c, stale) && Arrived(Wire(f) + tail, c, input)
    requires p.state == PACKET_DATA
    ensures Lands(p, m, c, stale, input, DataStage(p, input))
  {
    hide Wire, MeantBy, Arrived, Masked;
    var room := m.WireSize() - c;
    DataTaken(p, f, m, c, stale, tail, input, if |input| > room then room else |input|);
  }

  /** Unmasking the next `k` bytes extends the unmasked prefix. */
  lemma MaskedGrows(data: seq<byte>, key: MaskKey, from: nat, k: nat)
    requires from + k <= |data|
    ensures var h := Masked(data, key, 0);
      && h[..from] + Masked(data[from..from + k], key, from) == h[..from + k]
      && h[..|data|] == h
  {
    MaskedSlice(data, key, from, k);
  }

  /** Masking a slice at its own position gives that slice of the masked whole. */
  lemma MaskedSlice(data: seq<byte>, key: MaskKey, from: nat, k: nat)
    requires from + k <= |data|
    ensures Masked(data[from..from + k], key, from) == Masked(data, key, 0)[from..from + k]
  {
  }

  lemma LandsAfter(p: PacketView, q: PacketView, m: Meant, c: nat, k: nat, stale: MaskKey, input: seq<byte>,
                   r: Progress)
    requires 0 < c + k && k <= |input| && Lands(q, m, c + k, stale, input[k..], r)
    requires c == 0 ==> k >= 2
    ensures c + k <= m.WireSize() ==> Lands(p, m, c, stale, input, r)
  {
    var j := |input[k..]| - |r.rest|;
    assert input[k..][j..] == input[k + j..];
  }

  /** Stages other than the packet's own pass it on unchanged. */
  lemma AdvanceByStage(p: PacketView, input: seq<byte>)
    requires p.Valid()
    ensures p.state == PACKET_INIT && InitStage(p, input).Go? ==>
              var r := InitStage(p, input); r.p.Valid() && Advance(p, input) == Advance(r.p, r.rest)
    ensures p.state == PACKET_HEAD_126 && Head126Stage(p, input).Go? ==>
              var r := Head126Stage(p, input); r.p.Valid() && Advance(p, input) == Advance(r.p, r.rest)
    ensures p.state == PACKET_HEAD_127 && Head127Stage(p, input).Go? ==>
              var r := Head127Stage(p, input); r.p.Valid() && Advance(p, input) == Advance(r.p, r.rest)
    ensures p.state == PACKET_MASK && MaskStage(p, input).Go? ==>
              var r := MaskStage(p, input); r.p.Valid() && Advance(p, input) == Advance(r.p, r.rest)
  {
  }

  /** The reader at a frame boundary, or inside frame `m`. */
  ghost predicate At(p: PacketView, m: Meant, c: nat, stale: MaskKey) {
    if c == 0 then p.state == PACKET_INIT && p.key == stale else Inside(p, m, c, stale)
  }

  /** A stage that needs more bytes than there are leaves everything as it was. */
  lemma WaitInside(p: PacketView, m: Meant, c: nat, stale: MaskKey, input: seq<byte>)
    requires At(p, m, c, stale)
    requires match p.state
             case PACKET_HEAD_127 => |input| < 8
             case PACKET_MASK => |input| < 4 && m.masked
             case PACKET_DATA => false
             case _ => |input| < 2
    ensures p.Valid() && Advance(p, input) == Wait(if c == 0 then p.Reset() else p, input)
    ensures Lands(p, m, c, stale, input, Advance(p, input))
  {
    assert |input| < m.WireSize() - c;
    assert input == input[0..];
  }

  /** One call, wherever in the frame it starts and however much has arrived. */
  lemma {:induction false} AdvanceInside(p: PacketView, f: Frame, m: Meant, c: nat, stale: MaskKey,
                                         tail: seq<byte>, input: seq<byte>)
    requires Sendable(f) && m == MeantBy(f, stale) && At(p, m, c, stale)
    requires Arrived(Wire(f) + tail, c, input)
    ensures p.Valid() && Lands(p, m, c, stale, input, Advance(p, input))
    decreases WireSize(f) - c, p.state != PACKET_DATA, 1
  {
    AdvanceByStage(p, input);
    match p.state
    case PACKET_INIT =>
      if |input| < 2 {
        WaitInside(p, m, c, stale, input);
      } else {
        InitInside(p, f, tail, input);
        AdvanceFrom(p, InitStage(p, input).p, f, m, 0, 2, stale, tail, input, Advance(p, input));
      }
    case PACKET_HEAD_126 =>
      if |input| < 2 {
        WaitInside(p, m, c, stale, input);
      } else {
        LengthInside(p, f, m, c, stale, tail, input);
        AdvanceFrom(p, Head126Stage(p, input).p, f, m, c, 2, stale, tail, input, Advance(p, input));
      }
    case PACKET_HEAD_127 =>
      if |input| < 8 {
        WaitInside(p, m, c, stale, input);
      } else {
        LengthInside(p, f, m, c, stale, tail, input);
        AdvanceFrom(p, Head127Stage(p, input).p, f, m, c, 8, stale, tail, input, Advance(p, input));
      }
    case PACKET_MASK =>
      if |input| < 4 && m.masked {
        WaitInside(p, m, c, stale, input);
      } else {
        MaskInside(p, f, m, c, stale, tail, input);
        AdvanceFrom(p, MaskStage(p, input).p, f, m, c, HeaderSize(f) - c, stale, tail, input, Advance(p, input));
      }
    case PACKET_DATA =>
      DataLands(p, f, m, c, stale, tail, input);
  }

  lemma DataLands(p: PacketView, f: Frame, m: Meant, c: nat, stale: MaskKey, tail: seq<byte>, input: seq<byte>)
    requires Sendable(f) && m == MeantBy(f, stale) && Inside(p, m, c, stale) && Arrived(Wire(f) + tail, c, input)
    requires p.state == PACKET_DATA
    ensures Advance(p, input) == DataStage(p, input) && Lands(p, m, c, stale, input, Advance(p, input))
  {
    hide *;
    InsideIsValid(p, m, c, stale);
    AdvanceData(p, input);
    DataInside(p, f, m, c, stale, tail, input);
  }

  lemma InsideIsValid(p: PacketView, m: Meant, c: nat, stale: MaskKey)
    requires Inside(p, m, c, stale)
    ensures p.Valid()
  {
  }

  lemma AdvanceData(p: PacketView, input: seq<byte>)
    requires p.state == PACKET_DATA && p.Valid()
    ensures Advance(p, input) == DataStage(p, input)
  {
    hide DataStage;
  }

  lemma {:induction false} AdvanceFrom(p: PacketView, q: PacketView, f: Frame, m: Meant, c: nat, k: nat,
                                       stale: MaskKey, tail: seq<byte>, input: seq<byte>, r: Progress)
    requires Sendable(f) && m == MeantBy(f, stale)
    requires k <= |input| && c + k <= m.WireSize() && Inside(q, m, c + k, stale)
    requires if c == 0 then k >= 2 else k > 0 || p.state != PACKET_DATA == q.state
    requires Arrived(Wire(f) + tail, c, input)
    requires q.Valid() && r == Advance(q, input[k..])
    ensures Lands(p, m, c, stale, input, r)
    decreases WireSize(f) - c, p.state != PACKET_DATA, 0
  {
    hide Advance, Inside, Lands, Arrived, Wire, MeantBy;
    ArrivedDrop(Wire(f) + tail, c, input, k);
    AtInside(q, m, c + k, stale);
    AdvanceInside(q, f, m, c + k, stale, tail, input[k..]);
    LandsAfter(p, q, m, c, k, stale, input, r);
  }

  /** No call on a frame whose payload length fits an `int` writes behind the buffer, whatever its size. */
  lemma {:induction false} FrameFits(p: PacketView, f: Frame, m: Meant, c: nat, stale: MaskKey, tail: seq<byte>,
                                     input: seq<byte>, size: nat)
    requires Sendable(f) && m == MeantBy(f, stale) && At(p, m, c, stale)
    requires Arrived(Wire(f) + tail, c, input)
    ensures p.Valid() && !Overruns(p, input, size)
  {
    hide HeaderStages, Wire, Arrived, MeantBy, At, ToInt, Masked;
    AdvanceInside(p, f, m, c, stale, tail, input);
    HeaderDone(p, input);
    NothingRead(p, input);
    SameLength(f, stale);
  }

  lemma SameLength(f: Frame, stale: MaskKey)
    ensures |MeantBy(f, stale).payload| == |f.payload|
  {
  }

  lemma NothingRead(p: PacketView, input: seq<byte>)
    requires p.Valid()
    ensures p.state == PACKET_INIT && |input| < 2 ==> !HeaderStages(p, input).Go?
  {
  }

  lemma AtInside(p: PacketView, m: Meant, c: nat, stale: MaskKey)
    requires Inside(p, m, c, stale)
    ensures c > 0 && At(p, m, c, stale)
  {
  }

  /** A 64-bit length is refused only when none of its four upper bytes is zero. Its lower half is taken for the
      payload length otherwise, which is the length announced exactly when the upper half is zero; and the buffer is
      grown to that length exactly when it fits an `int`, too. */
  lemma {:induction false} LongLengthHonoured(p: PacketView, length: seq<byte>)
    requires p.state == PACKET_HEAD_127 && |length| == 8
    ensures var r := Head127Stage(p, length);
      && (r.TooBig? <==> length[0] != 0 && length[1] != 0 && length[2] != 0 && length[3] != 0)
      && (r.Go? && r.p.bodySize == FromBigEndian(length) <==>
          length[0] == 0 && length[1] == 0 && length[2] == 0 && length[3] == 0)
      && (r.Go? && ToInt(r.p.bodySize) == FromBigEndian(length) <==>
          length[0] == 0 && length[1] == 0 && length[2] == 0 && length[3] == 0 && length[4] < 0x80)
  {
    hide ToInt;
    assert length[4..8] == length[4..];
    FromBigEndian8(length);
    FromBigEndian4Zero(length[..4]);
    FromBigEndian4Range(length[4..]);
  }

  lemma FromBigEndian4Range(b: seq<byte>)
    requires |b| == 4
    ensures FromBigEndian(b) < 0x1_0000_0000 && (FromBigEndian(b) <= MAX_INT <==> b[0] < 0x80)
  {
    FromBigEndian4(b);
    FromBigEndian2(b[..2]);
    FromBigEndian2(b[2..]);
  }

  lemma FromBigEndian4Zero(b: seq<byte>)
    requires |b| == 4
    ensures FromBigEndian(b) == 0 <==> b[0] == 0 && b[1] == 0 && b[2] == 0 && b[3] == 0
  {
    FromBigEndian4(b);
    FromBigEndian2(b[..2]);
    FromBigEndian2(b[2..]);
  }

  lemma FromBigEndian8(b: seq<byte>)
    requires |b| == 8
    ensures FromBigEndian(b) == FromBigEndian(b[..4]) * 0x1_0000_0000 + FromBigEndian(b[4..])
  {
    FromBigEndian4(b[4..]);
    FromBigEndian2(b[4..][..2]);
    FromBigEndian2(b[4..][2..]);
    assert b[..7][..6] == b[..6] && b[..6][..5] == b[..5] && b[..5][..4] == b[..4];
    assert FromBigEndian(b) == FromBigEndian(b[..7]) * 0x100 + b[7] as nat;
    assert FromBigEndian(b[..7]) == FromBigEndian(b[..6]) * 0x100 + b[6] as nat;
    assert FromBigEndian(b[..6]) == FromBigEndian(b[..5]) * 0x100 + b[5] as nat;
    assert FromBigEndian(b[..5]) == FromBigEndian(b[..4]) * 0x100 + b[4] as nat;
  }
}
