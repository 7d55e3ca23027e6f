/** Runs of the frame decoder over a byte stream that arrives in arbitrary pieces. */
module Segmentation {
  import opened Bytes
  import opened Frame
  import opened FrameDecoding
  import Folds

  /** How one call of the decoder ended. An idle call found less than two bytes at a frame boundary. */
  datatype Call = Completed(opcode: nat, payload: seq<byte>) | Idle | Partial | Rejected

  /** Classifies a call on packet `p` that ended in `r`. */
  function CallOf(p: PacketView, input: seq<byte>, r: Progress): Call {
    if r.TooBig? then Rejected
    else if p.state == PACKET_INIT && |input| < 2 then Idle
    else if r.p.state == PACKET_INIT then Completed(r.p.opcode, r.p.body)
    else Partial
  }

  /** The packet and the bytes that have arrived but have not been consumed. */
  datatype ReaderState = ReaderState(p: PacketView, unread: seq<byte>)

  type Reader = s: ReaderState | s.p.Valid()
    witness ReaderState(PacketView(PACKET_INIT, 0, 0, 0, [0, 0, 0, 0], 0, 0, []), [])

  /** A piece arrives and the decoder is called once. */
  function Feed(s: Reader, piece: seq<byte>): (Reader, Call) {
    var input := s.unread + piece;
    var r := Advance(s.p, input);
    (ReaderState(r.p, r.rest), CallOf(s.p, input, r))
  }

  /** The reader and the outcome of every call, after one call per arriving piece. */
  function Run(s: Reader, pieces: seq<seq<byte>>): (Reader, seq<Call>) {
    Folds.Fold(Feed, s, pieces)
  }

  function Flatten(pieces: seq<seq<byte>>): seq<byte> {
    if pieces == [] then [] else pieces[0] + Flatten(pieces[1..])
  }

  /** Opcode and payload of every completed frame, in order. */
  function Delivered(calls: seq<Call>): seq<(nat, seq<byte>)> {
    if calls == [] then []
    else if calls[0].Completed? then [(calls[0].opcode, calls[0].payload)] + Delivered(calls[1..])
    else Delivered(calls[1..])
  }

  ghost predicate AllMasked(fs: seq<DataFrame>) {
    forall f :: f in fs ==> f.key.Some?
  }

  /** The frames one after the other on the wire. */
  ghost function Stream(fs: seq<DataFrame>): seq<byte>
  {
    if fs == [] then [] else Wire(fs[0]) + Stream(fs[1..])
  }

  /** Opcode and payload of every frame sent. */
  ghost function Sent(fs: seq<DataFrame>): (r: seq<(nat, seq<byte>)>)
    ensures |r| == |fs|
  {
    if fs == [] then [] else [(fs[0].opcode, fs[0].payload)] + Sent(fs[1..])
  }

  /** What the decoder makes of the frames, starting with a stale key. */
  ghost function Understood(fs: seq<DataFrame>, stale: MaskKey): (r: seq<Meant>)
    ensures |r| == |fs|
  {
    if fs == [] then []
    else
      var m := MeantBy(fs[0], stale);
      [m] + Understood(fs[1..], m.key)
  }

  ghost function Contents(ms: seq<Meant>): (r: seq<(nat, seq<byte>)>)
    ensures |r| == |ms|
  {
    if ms == [] then [] else [(ms[0].opcode, ms[0].payload)] + Contents(ms[1..])
  }

  ghost function Size(ms: seq<Meant>): nat {
    if ms == [] then 0 else ms[0].WireSize() + Size(ms[1..])
  }

  /** Masked frames are understood as they were sent. */
  lemma {:induction false} MaskedUnderstood(fs: seq<DataFrame>, stale: MaskKey)
    requires AllMasked(fs)
    ensures Contents(Understood(fs, stale)) == Sent(fs)
  {
    if fs != [] {
      var m := MeantBy(fs[0], stale);
      MeantIsPayload(fs[0], stale);
      MaskedUnderstood(fs[1..], m.key);
      assert Understood(fs, stale)[1..] == Understood(fs[1..], m.key);
    }
  }

  /** `c` bytes of the first of the frames to come have been consumed. */
  ghost predicate Reading(p: PacketView, ms: seq<Meant>, c: nat, stale: MaskKey) {
    if ms == [] then c == 0 && p.state == PACKET_INIT && p.key == stale
    else c < ms[0].WireSize() && At(p, ms[0], c, stale)
  }

  /** `r` is what one call makes of `input`, `c` bytes into the first of the frames to come. */
  ghost predicate Receives(p: PacketView, ms: seq<Meant>, c: nat, stale: MaskKey, input: seq<byte>, r: Progress) {
    if ms == [] then input == [] && r == Wait(p.Reset(), []) else Lands(p, ms[0], c, stale, input, r)
  }

  /** One call either stays with the first frame or completes it and delivers what the decoder makes of it. */
  lemma {:induction false} CallDecodes(p: PacketView, ms: seq<Meant>, c: nat, stale: MaskKey, input: seq<byte>,
                                       r: Progress)
    requires Reading(p, ms, c, stale) && Receives(p, ms, c, stale, input, r)
    ensures var call := CallOf(p, input, r);
      var k := |input| - |r.rest|;
      && 0 <= k && r.rest == input[k..]
      && if ms != [] && |input| >= ms[0].WireSize() - c then
           && call == Completed(ms[0].opcode, ms[0].payload)
           && c + k == ms[0].WireSize() && Reading(r.p, ms[1..], 0, ms[0].key)
         else
           && (call == Idle || call == Partial)
           && Reading(r.p, ms, c + k, stale)
  {
  }

  lemma {:induction false} AdvanceReceives(p: PacketView, fs: seq<DataFrame>, ms: seq<Meant>, c: nat, stale: MaskKey,
                                           input: seq<byte>)
    requires ms == Understood(fs, stale) && Reading(p, ms, c, stale)
    requires Arrived(Stream(fs), c, input)
    ensures p.Valid() && Receives(p, ms, c, stale, input, Advance(p, input))
  {
    if fs != [] {
      AdvanceInside(p, fs[0], ms[0], c, stale, Stream(fs[1..]), input);
    }
  }

  /** The key left over when the first `n` frames have been read. */
  ghost function KeyBefore(ms: seq<Meant>, n: nat, stale: MaskKey): MaskKey
    requires n <= |ms|
  {
    if n == 0 then stale else ms[n - 1].key
  }

  /** Where a run stands: `n` frames delivered, `c'` bytes of the next one consumed, no byte lost or repeated. */
  ghost predicate Delivers(s: Reader, calls: seq<Call>, ms: seq<Meant>, c: nat, stale: MaskKey, arrived: seq<byte>,
                           n: nat, c': nat) {
    && n <= |ms|
    && Rejected !in calls
    && Delivered(calls) == Contents(ms[..n])
    && |s.unread| <= |arrived| && s.unread == arrived[|arrived| - |s.unread|..]
    && Reading(s.p, ms[n..], c', KeyBefore(ms, n, stale))
    && c + |arrived| == Size(ms[..n]) + c' + |s.unread|
  }

  lemma {:induction false} DeliversNothing(s: Reader, ms: seq<Meant>, c: nat, stale: MaskKey)
    requires Reading(s.p, ms, c, stale)
    ensures Delivers(s, [], ms, c, stale, s.unread, 0, c)
  {
    assert ms[..0] == [] && ms[0..] == ms;
    assert Size(ms[..0]) == 0;
  }

  lemma {:induction false} DeliversNext(s: Reader, calls: seq<Call>, ms: seq<Meant>, c: nat, stale: MaskKey,
                                        input: seq<byte>,
                     future: seq<byte>, k: nat, n: nat, c': nat)
    requires ms != [] && k <= |input| && c + k == ms[0].WireSize()
    requires Delivers(s, calls, ms[1..], 0, ms[0].key, input[k..] + future, n, c')
    ensures Delivers(s, [Completed(ms[0].opcode, ms[0].payload)] + calls, ms, c, stale, input + future, n + 1, c')
  {
    assert ms[..n + 1][1..] == ms[1..][..n] && ms[1..][n..] == ms[n + 1..];
    assert KeyBefore(ms[1..], n, ms[0].key) == KeyBefore(ms, n + 1, stale);
    assert input[k..] + future == (input + future)[k..];
  }

  lemma {:induction false} DeliversSame(s: Reader, calls: seq<Call>, ms: seq<Meant>, c: nat, stale: MaskKey,
                                        input: seq<byte>,
                     future: seq<byte>, k: nat, call: Call, n: nat, c': nat)
    requires k <= |input| && (call == Idle || call == Partial)
    requires Delivers(s, calls, ms, c + k, stale, input[k..] + future, n, c')
    ensures Delivers(s, [call] + calls, ms, c, stale, input + future, n, c')
  {
    assert input[k..] + future == (input + future)[k..];
  }

  lemma {:induction false} ArrivedRest(stream: seq<byte>, c: nat, input: seq<byte>, future: seq<byte>, k: nat)
    requires Arrived(stream, c, input + future) && k <= |input|
    ensures Arrived(stream, c, input)
    ensures Arrived(stream, c + k, input[k..] + future)
  {
    assert input[k..] + future == (input + future)[k..];
    assert input == (input + future)[..|input|];
  }

  lemma {:induction false} ArrivedBehind(a: seq<byte>, b: seq<byte>, input: seq<byte>)
    requires Arrived(a + b, |a|, input)
    ensures Arrived(b, 0, input)
  {
  }

  /** The reader stands `c` bytes into the first of the frames still to come, and `future` bytes will follow
      what has arrived. */
  ghost predicate Expects(s: Reader, fs: seq<DataFrame>, c: nat, stale: MaskKey, future: seq<byte>)
  {
    Reading(s.p, Understood(fs, stale), c, stale) && Arrived(Stream(fs), c, s.unread + future)
  }

  /** One call: it completes the first frame when the rest of it has arrived, and waits for more otherwise. */
  lemma {:induction false} FeedDecodes(s: Reader, fs: seq<DataFrame>, c: nat, stale: MaskKey, piece: seq<byte>,
                                       future: seq<byte>)
    returns (s': Reader, call: Call, k: nat)
    requires Expects(s, fs, c, stale, piece + future)
    ensures Feed(s, piece) == (s', call)
    ensures var input := s.unread + piece;
      && k <= |input| && s'.unread == input[k..]
      && if fs != [] && |input| >= WireSize(fs[0]) - c then
           var m := MeantBy(fs[0], stale);
           call == Completed(m.opcode, m.payload) && c + k == m.WireSize() && Expects(s', fs[1..], 0, m.key, future)
         else
           (call == Idle || call == Partial) && Expects(s', fs, c + k, stale, future)
  {
    var input, ms := s.unread + piece, Understood(fs, stale);
    assert s.unread + (piece + future) == input + future;
    ArrivedRest(Stream(fs), c, input, future, 0);
    AdvanceReceives(s.p, fs, ms, c, stale, input);
    var r := Advance(s.p, input);
    s', call := ReaderState(r.p, r.rest), CallOf(s.p, input, r);
    k := FeedLands(s.p, fs, c, stale, input, future, r);
  }

  lemma {:induction false} FeedLands(p: PacketView, fs: seq<DataFrame>, c: nat, stale: MaskKey, input: seq<byte>,
                                     future: seq<byte>,
                  r: Progress) returns (k: nat)
    requires Reading(p, Understood(fs, stale), c, stale)
    requires Arrived(Stream(fs), c, input + future)
    requires Receives(p, Understood(fs, stale), c, stale, input, r) && r.p.Valid()
    ensures var s', call := ReaderState(r.p, r.rest), CallOf(p, input, r);
      && k <= |input| && s'.unread == input[k..]
      && if fs != [] && |input| >= WireSize(fs[0]) - c then
           var m := MeantBy(fs[0], stale);
           call == Completed(m.opcode, m.payload) && c + k == m.WireSize() && Expects(s', fs[1..], 0, m.key, future)
         else
           (call == Idle || call == Partial) && Expects(s', fs, c + k, stale, future)
  {
    CallDecodes(p, Understood(fs, stale), c, stale, input, r);
    k := |input| - |r.rest|;
    if fs != [] && |input| >= WireSize(fs[0]) - c {
      ExpectsNext(fs, c, stale, input, future, k, ReaderState(r.p, r.rest));
    } else {
      ArrivedRest(Stream(fs), c, input, future, k);
    }
  }

  lemma {:induction false} ExpectsNext(fs: seq<DataFrame>, c: nat, stale: MaskKey, input: seq<byte>,
                                       future: seq<byte>, k: nat, s: Reader)
    requires fs != [] && Arrived(Stream(fs), c, input + future)
    requires k <= |input| && s.unread == input[k..] && c + k == WireSize(fs[0])
    requires var m := MeantBy(fs[0], stale); Reading(s.p, Understood(fs, stale)[1..], 0, m.key)
    ensures Expects(s, fs[1..], 0, MeantBy(fs[0], stale).key, future)
  {
    ArrivedRest(Stream(fs), c, input, future, k);
    ArrivedBehind(Wire(fs[0]), Stream(fs[1..]), s.unread + future);
  }

  /** Any run, from anywhere in a stream of frames, cut into any pieces: the frames delivered are the first
      frames of the stream, and what is consumed and what is unread make up what has arrived. */
  lemma {:induction false} RunDelivers(s: Reader, fs: seq<DataFrame>, c: nat, stale: MaskKey, pieces: seq<seq<byte>>)
    returns (n: nat, c': nat)
    requires Expects(s, fs, c, stale, Flatten(pieces))
    ensures var (s', calls) := Run(s, pieces);
      Delivers(s', calls, Understood(fs, stale), c, stale, s.unread + Flatten(pieces), n, c')
    decreases |pieces|, 0
  {
    var ms := Understood(fs, stale);
    if pieces == [] {
      assert s.unread + Flatten(pieces) == s.unread;
      DeliversNothing(s, ms, c, stale);
      n, c' := 0, c;
    } else {
      var input, future := s.unread + pieces[0], Flatten(pieces[1..]);
      assert s.unread + Flatten(pieces) == input + future;
      var s', call, k := FeedDecodes(s, fs, c, stale, pieces[0], future);
      if fs != [] && |input| >= WireSize(fs[0]) - c {
        n, c' := RunBehind(s', fs, c, stale, input, k, pieces[1..]);
      } else {
        n, c' := RunWithin(s', fs, c, stale, input, k, call, pieces[1..]);
      }
    }
  }

  lemma {:induction false} RunBehind(s: Reader, fs: seq<DataFrame>, c: nat, stale: MaskKey, input: seq<byte>, k: nat,
                                     pieces: seq<seq<byte>>) returns (n: nat, c': nat)
    requires fs != [] && k <= |input| && c + k == WireSize(fs[0]) && s.unread == input[k..]
    requires Expects(s, fs[1..], 0, MeantBy(fs[0], stale).key, Flatten(pieces))
    ensures var (s', calls) := Run(s, pieces);
      var m := MeantBy(fs[0], stale);
      Delivers(s', [Completed(m.opcode, m.payload)] + calls, Understood(fs, stale), c, stale,
               input + Flatten(pieces), n, c')
    decreases |pieces|, 1
  {
    var ms := Understood(fs, stale);
    assert ms[1..] == Understood(fs[1..], ms[0].key);
    n, c' := RunDelivers(s, fs[1..], 0, ms[0].key, pieces);
    var (s', calls) := Run(s, pieces);
    DeliversNext(s', calls, ms, c, stale, input, Flatten(pieces), k, n, c');
    n := n + 1;
  }

  lemma {:induction false} RunWithin(s: Reader, fs: seq<DataFrame>, c: nat, stale: MaskKey, input: seq<byte>, k: nat,
                                     call: Call, pieces: seq<seq<byte>>) returns (n: nat, c': nat)
    requires k <= |input| && s.unread == input[k..] && (call == Idle || call == Partial)
    requires Expects(s, fs, c + k, stale, Flatten(pieces))
    ensures var (s', calls) := Run(s, pieces);
      Delivers(s', [call] + calls, Understood(fs, stale), c, stale, input + Flatten(pieces), n, c')
    decreases |pieces|, 1
  {
    n, c' := RunDelivers(s, fs, c + k, stale, pieces);
    var (s', calls) := Run(s, pieces);
    DeliversSame(s', calls, Understood(fs, stale), c, stale, input, Flatten(pieces), k, call, n, c');
  }

  lemma {:induction false} UnderstoodSplit(fs: seq<DataFrame>, stale: MaskKey, n: nat)
    requires n <= |fs|
    ensures var ms := Understood(fs, stale);
      && ms[..n] == Understood(fs[..n], stale)
      && ms[n..] == Understood(fs[n..], KeyBefore(ms, n, stale))
  {
    hide MeantBy;
    var ms := Understood(fs, stale);
    if n == 0 {
      assert fs[..0] == [] && fs[0..] == fs && ms[..0] == [] && ms[0..] == ms;
    } else {
      UnderstoodSplit(fs[1..], ms[0].key, n - 1);
      assert fs[..n] == [fs[0]] + fs[1..][..n - 1] && fs[n..] == fs[1..][n - 1..];
      assert ms[..n] == [ms[0]] + ms[1..][..n - 1] && ms[n..] == ms[1..][n - 1..];
    }
  }

  lemma {:induction false} StreamAppend(a: seq<DataFrame>, b: seq<DataFrame>)
    ensures Stream(a + b) == Stream(a) + Stream(b)
  {
    if a == [] {
      assert a + b == b;
    } else {
      assert (a + b)[1..] == a[1..] + b;
      StreamAppend(a[1..], b);
    }
  }

  lemma {:induction false} UnderstoodSize(fs: seq<DataFrame>, stale: MaskKey)
    ensures Size(Understood(fs, stale)) == |Stream(fs)|
  {
    if fs != [] {
      var m := MeantBy(fs[0], stale);
      UnderstoodSize(fs[1..], m.key);
      assert Understood(fs, stale)[1..] == Understood(fs[1..], m.key);
    }
  }

  lemma {:induction false} StreamSplit(fs: seq<DataFrame>, stale: MaskKey, n: nat)
    requires n <= |fs|
    ensures Size(Understood(fs, stale)[..n]) == |Stream(fs[..n])|
    ensures Stream(fs) == Stream(fs[..n]) + Stream(fs[n..])
  {
    assert fs[..n] + fs[n..] == fs;
    StreamAppend(fs[..n], fs[n..]);
    UnderstoodSplit(fs, stale, n);
    UnderstoodSize(fs[..n], stale);
  }

  /** No call on a stream of frames writes behind the buffer of the packet. */
  lemma {:induction false} StreamFits(s: Reader, fs: seq<DataFrame>, c: nat, stale: MaskKey, piece: seq<byte>,
                                      size: nat)
    requires Expects(s, fs, c, stale, piece)
    ensures !Overruns(s.p, s.unread + piece, size)
  {
    hide Overruns, Inside, MeantBy;
    var input := s.unread + piece;
    if fs == [] {
      assert input == [];
      NothingOverruns(s.p, input, size);
    } else {
      FrameFits(s.p, fs[0], MeantBy(fs[0], stale), c, stale, Stream(fs[1..]), input, size);
    }
  }

  lemma {:induction false} NothingOverruns(p: PacketView, input: seq<byte>, size: nat)
    requires p.Valid() && p.state == PACKET_INIT && |input| < 2
    ensures !Overruns(p, input, size)
  {
    NothingRead(p, input);
  }

  lemma {:induction false} StartExpects(fs: seq<DataFrame>, p: PacketView, future: seq<byte>) returns (s: Reader)
    requires p.state == PACKET_INIT && future <= Stream(fs)
    ensures s == ReaderState(p, []) && s.unread == [] && Expects(s, fs, 0, p.key, future)
  {
    hide Stream;
    s := ReaderState(p, []);
    assert [] + future == future;
    assert Arrived(Stream(fs), 0, future);
    if fs != [] {
      assert Understood(fs, p.key)[0] == MeantBy(fs[0], p.key);
    }
  }

  /** Segmentation does not matter. Masked frames sent one after the other, cut into any pieces, one call of the
      decoder per piece: what has been delivered are the first frames in order, with their own opcodes and
      payloads; the bytes consumed are those of the delivered frames and part of the next one; the bytes
      unread are the rest of what has arrived. */
  lemma {:induction false} SegmentationIrrelevant(fs: seq<DataFrame>, p: PacketView, pieces: seq<seq<byte>>)
    returns (n: nat, c': nat)
    requires AllMasked(fs) && p.state == PACKET_INIT
    requires Flatten(pieces) <= Stream(fs)
    ensures n <= |fs| && if n == |fs| then c' == 0 else c' < WireSize(fs[n])
    ensures var (s, calls) := Run(ReaderState(p, []), pieces);
      && Rejected !in calls
      && Delivered(calls) == Sent(fs[..n])
      && |Stream(fs[..n])| + c' <= |Flatten(pieces)|
      && s.unread == Flatten(pieces)[|Stream(fs[..n])| + c'..]
      && (s.unread == [] && Flatten(pieces) == Stream(fs) ==> n == |fs|)
  {
    hide Run, Contents, Understood, Stream, Flatten, Delivered, Sent, Reading, KeyBefore, Size, Wire, WireSize, Expects;
    var start := StartExpects(fs, p, Flatten(pieces));
    assert [] + Flatten(pieces) == Flatten(pieces);
    n, c' := RunDelivers(start, fs, 0, p.key, pieces);
    UnderstoodSplit(fs, p.key, n);
    StreamSplit(fs, p.key, n);
    MaskedUnderstood(fs[..n], p.key);
    ReadingWithin(Run(start, pieces).0.p, fs[n..], c', KeyBefore(Understood(fs, p.key), n, p.key));
  }

  /** How far into the next frame the reader can be. */
  lemma {:induction false} ReadingWithin(p: PacketView, fs: seq<DataFrame>, c: nat, stale: MaskKey)
    requires Reading(p, Understood(fs, stale), c, stale)
    ensures if fs == [] then c == 0 else c < WireSize(fs[0]) <= |Stream(fs)|
  {
    hide At, WireSize;
  }

  function Empties(m: nat): (r: seq<seq<byte>>)
    ensures |r| == m
  {
    if m == 0 then [] else [[]] + Empties(m - 1)
  }

  /** When everything has arrived, every call completes a frame until all are done. */
  lemma {:induction false} Drains(s: Reader, fs: seq<DataFrame>, c: nat, stale: MaskKey, m: nat)
    requires Expects(s, fs, c, stale, []) && |fs| <= m
    requires c + |s.unread| == |Stream(fs)|
    ensures var (s', calls) := Run(s, Empties(m));
      s'.unread == [] && Delivered(calls) == Contents(Understood(fs, stale))
    decreases m
  {
    if m > 0 {
      var ms := Understood(fs, stale);
      assert Empties(m)[1..] == Empties(m - 1);
      assert s.unread + [] == s.unread;
      var s', call, k := FeedDecodes(s, fs, c, stale, [], []);
      if fs == [] {
        Drains(s', fs, c + k, stale, m - 1);
      } else {
        assert ms[1..] == Understood(fs[1..], ms[0].key);
        Drains(s', fs[1..], 0, ms[0].key, m - 1);
      }
    }
  }

  lemma {:induction false} DeliveredAppend(a: seq<Call>, b: seq<Call>)
    ensures Delivered(a + b) == Delivered(a) + Delivered(b)
  {
    if a == [] {
      assert a + b == b;
    } else {
      assert (a + b)[0] == a[0] && (a + b)[1..] == a[1..] + b;
      DeliveredAppend(a[1..], b);
    }
  }

  lemma {:induction false} ContentsAppend(a: seq<Meant>, b: seq<Meant>)
    ensures Contents(a + b) == Contents(a) + Contents(b)
  {
    if a == [] {
      assert a + b == b;
    } else {
      assert (a + b)[1..] == a[1..] + b;
      ContentsAppend(a[1..], b);
    }
  }

  lemma {:induction false} RunAppend(s: Reader, a: seq<seq<byte>>, b: seq<seq<byte>>)
    ensures var (s', calls) := Run(s, a);
      var (s'', calls') := Run(s', b);
      Run(s, a + b) == (s'', calls + calls')
  {
    Folds.FoldAppend<Reader, seq<byte>, Call>(Feed, s, a, b);
  }

  /** However the stream was cut, once it has arrived at most one further call per frame delivers everything,
      unmasked frames as the left-over key distorts them. */
  lemma {:induction false} EverythingDelivered(fs: seq<DataFrame>, p: PacketView, pieces: seq<seq<byte>>)
    requires p.state == PACKET_INIT && Flatten(pieces) == Stream(fs)
    ensures var (s, calls) := Run(ReaderState(p, []), pieces + Empties(|fs|));
      s.unread == [] && Delivered(calls) == Contents(Understood(fs, p.key))
  {
    var start := ReaderState(p, []);
    assert [] + Flatten(pieces) == Flatten(pieces);
    var n, c' := RunDelivers(start, fs, 0, p.key, pieces);
    var (s, calls) := Run(start, pieces);
    DeliversRest(s, calls, fs, p.key, n, c');
    RunAppend(start, pieces, Empties(|fs|));
    DeliveredAppend(calls, Run(s, Empties(|fs|)).1);
  }

  /** Masked frames arrive exactly as they were sent. */
  lemma {:induction false} MaskedFramesDelivered(fs: seq<DataFrame>, p: PacketView, pieces: seq<seq<byte>>)
    requires AllMasked(fs) && p.state == PACKET_INIT && Flatten(pieces) == Stream(fs)
    ensures Delivered(Run(ReaderState(p, []), pieces + Empties(|fs|)).1) == Sent(fs)
  {
    EverythingDelivered(fs, p, pieces);
    MaskedUnderstood(fs, p.key);
  }

  /** Once everything has arrived, what is still missing is delivered by the calls that follow. */
  lemma {:induction false} DeliversRest(s: Reader, calls: seq<Call>, fs: seq<DataFrame>, stale: MaskKey, n: nat, c: nat)
    requires Delivers(s, calls, Understood(fs, stale), 0, stale, Stream(fs), n, c)
    ensures var (s', calls') := Run(s, Empties(|fs|));
      s'.unread == [] && Delivered(calls) + Delivered(calls') == Contents(Understood(fs, stale))
  {
    ExpectsRest(s, calls, fs, stale, n, c);
    ContentsSplit(fs, stale, n);
    Drains(s, fs[n..], c, KeyBefore(Understood(fs, stale), n, stale), |fs|);
  }

  lemma {:induction false} ExpectsRest(s: Reader, calls: seq<Call>, fs: seq<DataFrame>, stale: MaskKey, n: nat, c: nat)
    requires Delivers(s, calls, Understood(fs, stale), 0, stale, Stream(fs), n, c)
    ensures n <= |fs| && c + |s.unread| == |Stream(fs[n..])|
    ensures Expects(s, fs[n..], c, KeyBefore(Understood(fs, stale), n, stale), [])
  {
    hide Contents, Understood, Stream, Delivered, Reading, KeyBefore, Arrived, Wire;
    UnderstoodSplit(fs, stale, n);
    StreamSplit(fs, stale, n);
    UnreadTail(s.unread, Stream(fs), Stream(fs[..n]), Stream(fs[n..]), c);
  }

  lemma {:induction false} ContentsSplit(fs: seq<DataFrame>, stale: MaskKey, n: nat)
    requires n <= |fs|
    ensures var ms := Understood(fs, stale);
      Contents(ms[..n]) + Contents(Understood(fs[n..], KeyBefore(ms, n, stale))) == Contents(ms)
  {
    hide *;
    var ms := Understood(fs, stale);
    UnderstoodSplit(fs, stale, n);
    ContentsAppend(ms[..n], ms[n..]);
    assert ms[..n] + ms[n..] == ms;
  }

  lemma {:induction false} UnreadTail(unread: seq<byte>, all: seq<byte>, a: seq<byte>, b: seq<byte>, c: nat)
    requires all == a + b && |all| == |a| + c + |unread| && unread == all[|all| - |unread|..]
    ensures c + |unread| == |b| && Arrived(b, c, unread + [])
  {
    assert unread + [] == unread;
  }
}
