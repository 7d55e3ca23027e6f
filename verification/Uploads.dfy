/** What the server saves and answers, call by call, and how that depends on the frames and not on their cut. */
module Uploads {
  import opened Bytes
  import opened Frame
  import opened FrameDecoding
  import opened Segmentation

  const WEBSOCKET_TEXT_DATA := 0x1
  const WEBSOCKET_CONNECT_CLOSE := 0x8

  /** The three bytes of the text that ends an upload. */
  const EOS: seq<byte> := [0x45, 0x4F, 0x53]

  /** What one call of the reader leads to: its payload is saved and answered, nothing happens because of a
      three-byte text or because the frame is not complete, the upload ends, or the length was refused, so that the
      packet is not looked at. */
  datatype Effect = Stored(bytes: seq<byte>) | Ignored | Pending | Final | Broken

  /** A close frame ends the upload even while it is incomplete. */
  function EffectOf(p: PacketView): Effect {
    if p.opcode == WEBSOCKET_CONNECT_CLOSE then Final
    else if p.opcode == WEBSOCKET_TEXT_DATA && p.state == PACKET_INIT && |p.body| == 3 then
      if p.body == EOS then Final else Ignored
    else if p.state == PACKET_INIT then Stored(p.body)
    else Pending
  }

  function EffectAfter(fed: (Reader, Call)): Effect {
    if fed.1.Rejected? then Broken else EffectOf(fed.0.p)
  }

  function Effects(s: Reader, pieces: seq<seq<byte>>): (r: seq<Effect>)
    ensures |r| == |pieces|
    decreases |pieces|
  {
    if pieces == [] then []
    else
      var fed := Feed(s, pieces[0]);
      [EffectAfter(fed)] + Effects(fed.0, pieces[1..])
  }

  lemma {:induction false} EffectsAppend(s: Reader, pieces: seq<seq<byte>>, piece: seq<byte>)
    ensures var s' := Run(s, pieces).0;
      var fed := Feed(s', piece);
      && Run(s, pieces + [piece]).0 == fed.0
      && Effects(s, pieces + [piece]) == Effects(s, pieces) + [EffectAfter(fed)]
    decreases |pieces|
  {
    var all := pieces + [piece];
    hide Feed;
    if pieces == [] {
      assert all == [piece] && all[1..] == [];
      var s' := Feed(s, piece).0;
      assert Run(s', []).0 == s' && Run(s, [piece]).0 == Run(s', all[1..]).0;
    } else {
      assert all[1..] == pieces[1..] + [piece];
      EffectsAppend(Feed(s, pieces[0]).0, pieces[1..], piece);
    }
  }

  /** What is saved up to the end of the upload. */
  function Saved(es: seq<Effect>): seq<byte> {
    if es == [] || es[0].Final? then [] else BytesOf(es[0]) + Saved(es[1..])
  }

  function BytesOf(e: Effect): seq<byte> {
    if e.Stored? then e.bytes else []
  }

  lemma {:induction false} SavedAppend(es: seq<Effect>, e: Effect)
    requires Final !in es
    ensures Saved(es + [e]) == Saved(es) + BytesOf(e)
  {
    if es == [] {
      assert [e][1..] == [];
    } else {
      assert (es + [e])[1..] == es[1..] + [e];
      SavedAppend(es[1..], e);
    }
  }

  /** How many results are sent up to the end of the upload. */
  function Results(es: seq<Effect>): nat {
    if es == [] || es[0].Final? then 0 else (if es[0].Stored? then 1 else 0) + Results(es[1..])
  }

  // The same, frame by frame.

  predicate Ends(opcode: nat, payload: seq<byte>) {
    opcode == WEBSOCKET_CONNECT_CLOSE || (opcode == WEBSOCKET_TEXT_DATA && payload == EOS)
  }

  predicate Skipped(opcode: nat, payload: seq<byte>) {
    opcode == WEBSOCKET_TEXT_DATA && |payload| == 3
  }

  predicate Ended(items: seq<(nat, seq<byte>)>) {
    items != [] && (Ends(items[0].0, items[0].1) || Ended(items[1..]))
  }

  /** The payloads before the first frame that ends the upload, without three-byte texts. */
  function Upload(items: seq<(nat, seq<byte>)>): seq<byte> {
    if items == [] || Ends(items[0].0, items[0].1) then []
    else (if Skipped(items[0].0, items[0].1) then [] else items[0].1) + Upload(items[1..])
  }

  function Uploading(items: seq<(nat, seq<byte>)>): nat {
    if items == [] || Ends(items[0].0, items[0].1) then 0
    else (if Skipped(items[0].0, items[0].1) then 0 else 1) + Uploading(items[1..])
  }

  /** The call finds less than two bytes at a frame boundary. */
  predicate IsIdle(s: Reader, piece: seq<byte>) {
    s.p.state == PACKET_INIT && |s.unread + piece| < 2
  }

  /** How many calls are idle up to the end of the upload. */
  function IdleCalls(s: Reader, pieces: seq<seq<byte>>): nat
    decreases |pieces|
  {
    if pieces == [] then 0
    else
      var fed := Feed(s, pieces[0]);
      if EffectAfter(fed).Final? then 0
      else (if IsIdle(s, pieces[0]) then 1 else 0) + IdleCalls(fed.0, pieces[1..])
  }

  /** The pieces before the call that ends the upload. */
  function Heard(s: Reader, pieces: seq<seq<byte>>): (r: seq<seq<byte>>)
    ensures |r| <= |pieces|
    decreases |pieces|
  {
    if pieces == [] then []
    else
      var fed := Feed(s, pieces[0]);
      if EffectAfter(fed).Final? then [] else [pieces[0]] + Heard(fed.0, pieces[1..])
  }

  /** Opcode and payload of every frame completed before the call that ends the upload. */
  function Completions(s: Reader, pieces: seq<seq<byte>>): seq<(nat, seq<byte>)> {
    Delivered(Run(s, Heard(s, pieces)).1)
  }

  /** The frames as the decoder understands them. */
  ghost function Items(fs: seq<DataFrame>, stale: MaskKey): seq<(nat, seq<byte>)> {
    Contents(Understood(fs, stale))
  }

  lemma {:induction false} ItemsNext(fs: seq<DataFrame>, stale: MaskKey)
    requires fs != []
    ensures var m := MeantBy(fs[0], stale);
      Items(fs, stale) == [(m.opcode, m.payload)] + Items(fs[1..], m.key)
  {
    var m := MeantBy(fs[0], stale);
    assert Understood(fs, stale)[1..] == Understood(fs[1..], m.key);
  }

  function FrameEffect(opcode: nat, payload: seq<byte>): Effect {
    if Ends(opcode, payload) then Final else if Skipped(opcode, payload) then Ignored else Stored(payload)
  }

  /** The outcome of a call decides its effect, except that an incomplete frame may be a close frame; a refused one ends
      nothing and saves nothing. */
  lemma {:induction false} CallEffect(s: Reader, piece: seq<byte>)
    ensures var (s', call) := Feed(s, piece);
      var e := EffectAfter(Feed(s, piece));
      && (call.Idle? ==> IsIdle(s, piece) && e == Stored([]))
      && (call.Rejected? ==> !IsIdle(s, piece) && e == Broken)
      && (call.Partial? ==>
          !IsIdle(s, piece) && e == if s'.p.opcode == WEBSOCKET_CONNECT_CLOSE then Final else Pending)
      && (call.Completed? ==> !IsIdle(s, piece) && e == FrameEffect(call.opcode, call.payload))
  {
    var input := s.unread + piece;
    if IsIdle(s, piece) {
      assert Advance(s.p, input) == Wait(s.p.Reset(), input);
    } else {
      RefusedState(s.p, input);
    }
  }

  lemma RefusedState(p: PacketView, input: seq<byte>)
    requires p.Valid()
    ensures Advance(p, input).TooBig? ==> Advance(p, input).p.state == PACKET_HEAD_127
  {
  }

  /** Where one call leaves the reader: with the same frames to come, or with one less when the call completed
      the first. */
  ghost predicate Moves(fs: seq<DataFrame>, stale: MaskKey, e: Effect, idle: bool, fs': seq<DataFrame>,
                        stale': MaskKey) {
    var items, items' := Items(fs, stale), Items(fs', stale');
    if e.Final? then items != [] && Ends(items[0].0, items[0].1)
    else
      && Ended(items) == Ended(items')
      && Upload(items) == BytesOf(e) + Upload(items')
      && (if e.Stored? then 1 else 0) + Uploading(items') == Uploading(items) + (if idle then 1 else 0)
  }

  lemma {:induction false} CallMoves(s: Reader, fs: seq<DataFrame>, c: nat, stale: MaskKey, piece: seq<byte>,
                                     future: seq<byte>)
    returns (fs': seq<DataFrame>, c': nat, stale': MaskKey)
    requires Expects(s, fs, c, stale, piece + future)
    ensures var s' := Feed(s, piece).0;
      && Moves(fs, stale, EffectAfter(Feed(s, piece)), IsIdle(s, piece), fs', stale')
      && Expects(s', fs', c', stale', future)
    ensures c' + |Feed(s, piece).0.unread| + |Stream(fs)| == c + |s.unread + piece| + |Stream(fs')|
    ensures fs' == fs || (fs != [] && fs' == fs[1..])
    ensures fs != [] && |s.unread + piece| >= WireSize(fs[0]) - c ==> fs' != fs
    ensures var call := Feed(s, piece).1;
      if call.Completed? then
        fs' != fs && Items(fs, stale) == [(call.opcode, call.payload)] + Items(fs', stale')
      else fs' == fs && stale' == stale
  {
    hide EffectOf, EffectAfter, IsIdle, Moves, Items, Upload, Uploading, Ended, Feed;
    var s', call, k := FeedDecodes(s, fs, c, stale, piece, future);
    CallEffect(s, piece);
    if fs != [] && |s.unread + piece| >= WireSize(fs[0]) - c {
      ItemsNext(fs, stale);
      fs', c', stale' := fs[1..], 0, MeantBy(fs[0], stale).key;
      CompletedMoves(call.opcode, call.payload, fs, stale, fs', stale');
    } else {
      fs', c', stale' := fs, c + k, stale;
      if call.Partial? {
        PartialState(s, piece);
        InsideFirst(s', fs, c', stale, future);
      }
      WaitingMoves(fs, stale, EffectAfter((s', call)), IsIdle(s, piece));
    }
  }

  lemma {:induction false} PartialState(s: Reader, piece: seq<byte>)
    ensures var (s', call) := Feed(s, piece); call.Partial? ==> s'.p.state != PACKET_INIT
  {
    hide Advance;
  }

  lemma {:induction false} WaitingMoves(fs: seq<DataFrame>, stale: MaskKey, e: Effect, idle: bool)
    requires if idle then e == Stored([])
             else if e == Final then Items(fs, stale) != [] && Items(fs, stale)[0].0 == WEBSOCKET_CONNECT_CLOSE
             else e == Pending
    ensures Moves(fs, stale, e, idle, fs, stale)
  {
    hide Items;
  }

  lemma {:induction false} CompletedMoves(opcode: nat, payload: seq<byte>, fs: seq<DataFrame>, stale: MaskKey,
                                          fs': seq<DataFrame>,
                       stale': MaskKey)
    requires Items(fs, stale) == [(opcode, payload)] + Items(fs', stale')
    ensures Moves(fs, stale, FrameEffect(opcode, payload), false, fs', stale')
  {
    hide Items;
    assert Items(fs, stale)[1..] == Items(fs', stale');
  }

  lemma {:induction false} InsideFirst(s: Reader, fs: seq<DataFrame>, c: nat, stale: MaskKey, future: seq<byte>)
    requires Expects(s, fs, c, stale, future) && s.p.state != PACKET_INIT
    ensures fs != [] && Items(fs, stale) != [] && Items(fs, stale)[0].0 == s.p.opcode
  {
    ItemsNext(fs, stale);
  }

  lemma {:induction false} NoEffects(s: Reader, stale: MaskKey)
    ensures Effects(s, []) == [] && IdleCalls(s, []) == 0 && Items([], stale) == []
  {
  }

  lemma {:induction false} EffectsNext(s: Reader, pieces: seq<seq<byte>>)
    requires pieces != []
    ensures var s' := Feed(s, pieces[0]).0;
      var e, es := EffectAfter(Feed(s, pieces[0])), Effects(s', pieces[1..]);
      && Effects(s, pieces) == [e] + es && Effects(s, pieces)[1..] == es
      && IdleCalls(s, pieces) ==
         if e.Final? then 0 else (if IsIdle(s, pieces[0]) then 1 else 0) + IdleCalls(s', pieces[1..])
  {
  }

  lemma {:induction false} HeardNext(s: Reader, pieces: seq<seq<byte>>)
    requires pieces != []
    ensures var (s', call) := Feed(s, pieces[0]);
      if EffectAfter((s', call)).Final? then Heard(s, pieces) == [] && Completions(s, pieces) == []
      else
        && Heard(s, pieces) == [pieces[0]] + Heard(s', pieces[1..])
        && Completions(s, pieces) ==
           (if call.Completed? then [(call.opcode, call.payload)] else []) + Completions(s', pieces[1..])
  {
    hide EffectAfter, Feed;
    var (s', call) := Feed(s, pieces[0]);
    if !EffectAfter((s', call)).Final? {
      var rest := Heard(s', pieces[1..]);
      assert Heard(s, pieces)[1..] == rest;
      var calls := Run(s', rest).1;
      assert Run(s, Heard(s, pieces)).1 == [call] + calls;
      assert ([call] + calls)[1..] == calls;
    }
  }

  /** At every moment, whatever has arrived in whatever pieces: what has been saved is the in-order concatenation of
      the payloads of the frames completed before the upload ended, other than three-byte texts; none of those
      frames ends the upload; and there is one result for each saved frame and each idle call. */
  lemma {:induction false} SavedExactly(s: Reader, pieces: seq<seq<byte>>)
    ensures Heard(s, pieces) == pieces[..|Heard(s, pieces)|]
    ensures var es, items := Effects(s, pieces), Completions(s, pieces);
      && (Final in es <==> |Heard(s, pieces)| < |pieces|)
      && Saved(es) == Upload(items) && !Ended(items)
      && Results(es) == Uploading(items) + IdleCalls(s, pieces)
    decreases |pieces|
  {
    hide Feed, EffectAfter, Effects, IdleCalls, Heard, Completions, IsIdle;
    if pieces == [] {
      NoEffects(s, s.p.key);
      NothingHeard(s);
    } else {
      var (s', call) := Feed(s, pieces[0]);
      EffectsNext(s, pieces);
      HeardNext(s, pieces);
      CallEffect(s, pieces[0]);
      if !EffectAfter((s', call)).Final? {
        SavedExactly(s', pieces[1..]);
        OneMoreItem(call, EffectAfter((s', call)), IsIdle(s, pieces[0]), Completions(s', pieces[1..]));
        assert [pieces[0]] + pieces[1..][..|Heard(s', pieces[1..])|] == pieces[..1 + |Heard(s', pieces[1..])|];
      }
    }
  }

  lemma {:induction false} OneMoreItem(call: Call, e: Effect, idle: bool, rest: seq<(nat, seq<byte>)>)
    requires !e.Final?
    requires if call.Completed? then !idle && e == FrameEffect(call.opcode, call.payload)
             else if call.Idle? then idle && e == Stored([]) else !idle && (e == Pending || e == Broken)
    ensures var items := (if call.Completed? then [(call.opcode, call.payload)] else []) + rest;
      && Upload(items) == BytesOf(e) + Upload(rest)
      && (Ended(items) <==> Ended(rest))
      && Uploading(items) + (if idle then 1 else 0) == (if e.Stored? then 1 else 0) + Uploading(rest)
  {
    if call.Completed? {
      assert ([(call.opcode, call.payload)] + rest)[1..] == rest;
    } else {
      assert [] + rest == rest;
    }
  }

  /** On a stream of frames the completed ones are the first ones, and a call that ends the upload has met a frame
      that ends it. */
  lemma {:induction false} SavedInOrder(s: Reader, fs: seq<DataFrame>, c: nat, stale: MaskKey, pieces: seq<seq<byte>>)
    returns (n: nat)
    requires Expects(s, fs, c, stale, Flatten(pieces))
    ensures var items := Items(fs, stale);
      && n <= |items| && Completions(s, pieces) == items[..n]
      && (|Heard(s, pieces)| < |pieces| ==> n < |items| && Ends(items[n].0, items[n].1))
    decreases |pieces|
  {
    hide Feed, EffectAfter, Heard, Completions, Items, Expects, IsIdle;
    n := 0;
    if pieces == [] {
      NothingHeard(s);
    } else {
      var (s', call) := Feed(s, pieces[0]);
      var fs', c', stale' := CallMoves(s, fs, c, stale, pieces[0], Flatten(pieces[1..]));
      HeardNext(s, pieces);
      if !EffectAfter((s', call)).Final? {
        n := SavedInOrder(s', fs', c', stale', pieces[1..]);
        if call.Completed? {
          var items, item := Items(fs', stale'), (call.opcode, call.payload);
          assert ([item] + items)[..n + 1] == [item] + items[..n];
          n := n + 1;
        }
      }
    }
  }

  /** Without an ending call every completed frame counts. */
  lemma {:induction false} AllHeard(s: Reader, pieces: seq<seq<byte>>)
    requires |Heard(s, pieces)| == |pieces|
    ensures Completions(s, pieces) == Delivered(Run(s, pieces).1)
  {
    hide Heard;
    SavedExactly(s, pieces);
    assert pieces[..|pieces|] == pieces;
  }

  lemma {:induction false} NothingHeard(s: Reader)
    ensures Heard(s, []) == [] && Completions(s, []) == []
  {
  }

  /** The completed frames make up the beginning of the upload, and all of it when the next frame ends it. */
  lemma {:induction false} UploadPrefix(items: seq<(nat, seq<byte>)>, n: nat)
    requires n <= |items| && !Ended(items[..n])
    ensures Upload(items[..n]) <= Upload(items)
    ensures n < |items| && Ends(items[n].0, items[n].1) ==>
      Ended(items) && Upload(items) == Upload(items[..n]) && Uploading(items) == Uploading(items[..n])
  {
    if n > 0 {
      assert items[..n][1..] == items[1..][..n - 1];
      UploadPrefix(items[1..], n - 1);
    }
  }

  /** Once everything has arrived and one more call per frame has been made, the whole upload is saved, and it
      has ended exactly when one of the frames ends it. Every saved frame is answered once, and so is every
      idle call. */
  lemma {:induction false} SavedCompletely(s: Reader, fs: seq<DataFrame>, c: nat, stale: MaskKey,
                                           pieces: seq<seq<byte>>, m: nat)
    requires Expects(s, fs, c, stale, Flatten(pieces)) && m >= |fs|
    requires c + |s.unread| + |Flatten(pieces)| == |Stream(fs)|
    ensures var items, es := Items(fs, stale), Effects(s, pieces + Empties(m));
      && Saved(es) == Upload(items)
      && (Final in es <==> Ended(items))
      && Results(es) == Uploading(items) + IdleCalls(s, pieces + Empties(m))
    decreases |pieces|, m
  {
    hide Feed, EffectAfter, Effects, Items, IdleCalls, Expects;
    var all := pieces + Empties(m);
    if all == [] {
      NoEffects(s, stale);
    } else {
      var future, rest, m' := [], [], m;
      if pieces == [] {
        m' := m - 1;
      } else {
        future, rest := Flatten(pieces[1..]), pieces[1..];
      }
      assert all[1..] == rest + Empties(m') && all[0] + future == Flatten(pieces);
      var s' := Feed(s, all[0]).0;
      var fs', c', stale' := CallMoves(s, fs, c, stale, all[0], future);
      EffectsNext(s, all);
      if !EffectAfter(Feed(s, all[0])).Final? {
        SavedCompletely(s', fs', c', stale', rest, m');
      }
    }
  }

  lemma {:induction false} MaskedItems(fs: seq<DataFrame>, stale: MaskKey)
    requires AllMasked(fs)
    ensures Items(fs, stale) == Sent(fs)
  {
    hide AllMasked, Sent, Contents, Understood;
    MaskedUnderstood(fs, stale);
  }

  lemma {:induction false} SentPrefix(fs: seq<DataFrame>, n: nat)
    requires n <= |fs|
    ensures Sent(fs[..n]) == Sent(fs)[..n]
    ensures n < |fs| ==> Sent(fs)[n] == (fs[n].opcode, fs[n].payload)
  {
    if n > 0 {
      assert fs[..n][1..] == fs[1..][..n - 1];
      SentPrefix(fs[1..], n - 1);
    }
  }

  /** The client sends masked frames after the handshake, cut into any pieces. At every moment the completed frames
      are the first `n` ones, what the server has saved are their payloads in order without three-byte texts, and it
      has sent one result for each saved frame and each idle call; once the upload has ended, the next frame is the
      one that ended it. */
  lemma {:induction false} UploadSaved(fs: seq<DataFrame>, p: PacketView, pieces: seq<seq<byte>>) returns (n: nat)
    requires AllMasked(fs) && p.state == PACKET_INIT && Flatten(pieces) <= Stream(fs)
    ensures n <= |fs|
    ensures var start := ReaderState(p, []);
      var es, done := Effects(start, pieces), Sent(fs[..n]);
      && Completions(start, pieces) == done && !Ended(done)
      && Saved(es) == Upload(done) && Results(es) == Uploading(done) + IdleCalls(start, pieces)
      && (Final in es ==> n < |fs| && Ends(fs[n].opcode, fs[n].payload) && Saved(es) == Upload(Sent(fs)))
  {
    hide *;
    var start: Reader := StartExpects(fs, p, Flatten(pieces));
    MaskedItems(fs, p.key);
    SavedExactly(start, pieces);
    n := SavedInOrder(start, fs, 0, p.key, pieces);
    SentPrefix(fs, n);
    UploadPrefix(Sent(fs), n);
  }

  /** Once all has arrived and one more call per frame has been made, what is saved is the upload: the payloads in
      order, up to the first close frame or "EOS", without three-byte texts. It has ended exactly when some frame
      ends it. The server has sent one result for each saved frame exactly when no call was idle. */
  lemma {:induction false} UploadCompleted(fs: seq<DataFrame>, p: PacketView, pieces: seq<seq<byte>>)
    requires AllMasked(fs) && p.state == PACKET_INIT && Flatten(pieces) == Stream(fs)
    ensures var start, all := ReaderState(p, []), pieces + Empties(|fs|);
      && Saved(Effects(start, all)) == Upload(Sent(fs))
      && (Final in Effects(start, all) <==> Ended(Sent(fs)))
      && (Results(Effects(start, all)) == Uploading(Sent(fs)) <==> IdleCalls(start, all) == 0)
  {
    hide *;
    var start: Reader := StartExpects(fs, p, Flatten(pieces));
    MaskedItems(fs, p.key);
    SavedCompletely(start, fs, 0, p.key, pieces, |fs|);
  }

  /** The frames that are still to come after a run. */
  lemma {:induction false} RunExpects(s: Reader, fs: seq<DataFrame>, c: nat, stale: MaskKey, pieces: seq<seq<byte>>,
                                      future: seq<byte>)
    returns (fs': seq<DataFrame>, c': nat, stale': MaskKey)
    requires Expects(s, fs, c, stale, Flatten(pieces) + future)
    ensures Expects(Run(s, pieces).0, fs', c', stale', future)
    decreases |pieces|
  {
    hide Feed, Expects;
    if pieces == [] {
      assert [] + future == future;
      fs', c', stale' := fs, c, stale;
    } else {
      assert Flatten(pieces) + future == pieces[0] + (Flatten(pieces[1..]) + future);
      fs', c', stale' := CallMoves(s, fs, c, stale, pieces[0], Flatten(pieces[1..]) + future);
      fs', c', stale' := RunExpects(Feed(s, pieces[0]).0, fs', c', stale', pieces[1..], future);
    }
  }
}
