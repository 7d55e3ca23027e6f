/** What a client's messages do to an upload. */
module Sessions {
  import opened Bytes
  import opened ClientFraming
  import opened ClientSending
  import opened Frame
  import opened FrameDecoding
  import opened Segmentation
  import opened Uploads

  /** A disconnect, or the text "EOS", ends the upload. */
  predicate EndsSession(m: Outgoing) {
    m.t == DisConn || (m.t == TxtData && m.payload == [0x45, 0x4F, 0x53])
  }

  /** Other texts of three bytes are not part of the upload; everything else is, pings and pongs included. */
  predicate IsUploaded(m: Outgoing) {
    !EndsSession(m) && !(m.t == TxtData && |m.payload| == 3)
  }

  function PayloadsOf(ms: seq<Outgoing>): seq<byte> {
    if ms == [] then [] else (if IsUploaded(ms[0]) then ms[0].payload else []) + PayloadsOf(ms[1..])
  }

  function CountUploaded(ms: seq<Outgoing>): nat {
    if ms == [] then 0 else (if IsUploaded(ms[0]) then 1 else 0) + CountUploaded(ms[1..])
  }

  /** How many messages come before the first one that ends the session. */
  function Before(ms: seq<Outgoing>): (n: nat)
    ensures n <= |ms| && (forall i :: 0 <= i < n ==> !EndsSession(ms[i])) && (n < |ms| ==> EndsSession(ms[n]))
  {
    if ms == [] || EndsSession(ms[0]) then 0 else 1 + Before(ms[1..])
  }

  /** The server tells the messages apart by what the client put on the wire. */
  lemma {:induction false} MessageKinds(m: Outgoing)
    ensures Ends(OpcodeOf(m.t), m.payload) <==> EndsSession(m)
    ensures !Ends(OpcodeOf(m.t), m.payload) && !Skipped(OpcodeOf(m.t), m.payload) <==> IsUploaded(m)
  {
  }

  /** The upload is what the messages before the first ending one carry, without three-byte texts. */
  lemma {:induction false} SessionUpload(ms: seq<Outgoing>)
    ensures Ended(Announced(ms)) <==> Before(ms) < |ms|
    ensures Upload(Announced(ms)) == PayloadsOf(ms[..Before(ms)])
    ensures Uploading(Announced(ms)) == CountUploaded(ms[..Before(ms)])
  {
    hide Ends, EndsSession, IsUploaded, Skipped, OpcodeOf;
    if ms != [] {
      MessageKinds(ms[0]);
      SessionUpload(ms[1..]);
      assert Announced(ms)[1..] == Announced(ms[1..]);
      if !EndsSession(ms[0]) {
        assert ms[..Before(ms)][1..] == ms[1..][..Before(ms[1..])];
      }
    }
  }

  /** A client sends messages with masks after the handshake. However their bytes are cut: once all have arrived, and
      one more call for each message has been made, the server has saved exactly the payloads before the first
      disconnect or "EOS" but for three-byte texts, the session has ended exactly when there is such a message, and
      there is one result for each message saved exactly when no call was idle. */
  lemma {:induction false} SessionSaved(ms: seq<Outgoing>, p: PacketView, pieces: seq<seq<byte>>)
    requires AllKeyed(ms) && p.state == PACKET_INIT && Flatten(pieces) == Stream(FramesOf(ms))
    ensures var start, all := ReaderState(p, []), pieces + Empties(|ms|);
      var es, sent := Effects(start, all), ms[..Before(ms)];
      && Saved(es) == PayloadsOf(sent)
      && (Final in es <==> Before(ms) < |ms|)
      && (Results(es) == CountUploaded(sent) <==> IdleCalls(start, all) == 0)
  {
    hide *;
    FramesAnnounced(ms);
    UploadCompleted(FramesOf(ms), p, pieces);
    SessionUpload(ms);
  }
}
