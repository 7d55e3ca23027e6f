/** One connection of the server: the handshake, the frames, the upload and the results. */
module Connections {
  import opened Bytes
  import opened AcceptKey
  import Frame
  import opened FrameDecoding
  import opened Handshake
  import opened HttpText
  import opened Packet
  import opened PacketReading
  import opened Replies
  import opened ResultFrames
  import opened ResultTexts
  import opened Segmentation
  import opened Uploads

  datatype ProcessState = STATE_HEAD | STATE_START | STATE_DATA | STATE_FINISH | STATE_CLOSE | STATE_ERROR

  datatype ErrorType = ERROR_NO | ERROR_CLIENT_CLOSE | ERROR_PARSE_DATA | ERROR_READ | ERROR_WRITE | ERROR_PARSE_HEAD

  /** The sending side of a connection: every byte the peer has been sent. */
  class Outlet {
    var sent: seq<byte>

    constructor ()
      ensures sent == []
    {
      sent := [];
    }

    /** Takes as many bytes as it likes; nothing is taken when the call fails. */
    method Write(data: seq<byte>) returns (written_bytes: int)
      modifies this
      ensures written_bytes <= |data|
      ensures sent == old(sent) + if written_bytes > 0 then data[..written_bytes] else []
    {
      written_bytes :| written_bytes <= |data|;
      if written_bytes > 0 {
        sent := sent + data[..written_bytes];
      }
    }
  }

  /** The answers given, of each of which a beginning has been written, and the bytes sent. */
  ghost predicate Told(answers: seq<Answer>, written: seq<seq<byte>>, sent: seq<byte>, uuid: Uuid) {
    && |answers| == |written| && sent == Flatten(written)
    && forall i :: 0 <= i < |answers| ==> answers[i].Valid() && written[i] <= answers[i].Wire(uuid)
  }

  lemma {:induction false} FlattenAppend(pieces: seq<seq<byte>>, piece: seq<byte>)
    ensures Flatten(pieces + [piece]) == Flatten(pieces) + piece
  {
    if pieces == [] {
      assert [piece][1..] == [];
    } else {
      assert (pieces + [piece])[1..] == pieces[1..] + [piece];
      FlattenAppend(pieces[1..], piece);
    }
  }

  lemma ToldLengths(answers: seq<Answer>, written: seq<seq<byte>>, sent: seq<byte>, uuid: Uuid)
    requires Told(answers, written, sent, uuid)
    ensures |answers| == |written|
  {
  }

  lemma NothingTold(uuid: Uuid)
    ensures Told([], [], [], uuid)
  {
  }

  lemma ToldNext(answers: seq<Answer>, written: seq<seq<byte>>, sent: seq<byte>, uuid: Uuid, answer: Answer,
                 w: seq<byte>)
    requires Told(answers, written, sent, uuid) && answer.Valid() && w <= answer.Wire(uuid)
    ensures Told(answers + [answer], written + [w], sent + w, uuid)
  {
    hide Answer.Wire, Answer.Valid;
    FlattenAppend(written, w);
  }

  /** The results that follow from what the calls led to. */
  function Answers(es: seq<Effect>): (r: seq<Answer>) {
    if es == [] then []
    else
      Answers(es[..|es| - 1]) +
      match es[|es| - 1]
      case Stored(_) => [Result(false)]
      case Final => [Result(true)]
      case _ => []
  }

  /** Nothing, or a refusal, or the handshake reply and intermediate results, and a final one once `over`. Of each
      answer a beginning has been sent, and all of the reply before the first result. */
  ghost predicate OneConversation(answers: seq<Answer>, written: seq<seq<byte>>, sent: seq<byte>, uuid: Uuid,
                                  over: bool) {
    && Told(answers, written, sent, uuid)
    && (|answers| > 0 ==> !answers[0].Result?)
    && (|answers| > 1 ==> answers[0].Switching? && written[0] == answers[0].Wire(uuid))
    && (forall i :: 1 <= i < |answers| ==> answers[i] == Result(over && i == |answers| - 1))
    && (over ==> |answers| > 1)
  }

  /** The handshake reply has been written completely, and what followed it is what the calls led to. */
  ghost predicate Said(answers: seq<Answer>, written: seq<seq<byte>>, saved: seq<byte>, uuid: Uuid, es: seq<Effect>) {
    && |answers| >= 1 && answers[0].Switching? && answers[0].Valid()
    && |written| >= 1 && written[0] == answers[0].Wire(uuid)
    && answers[1..] == Answers(es) && saved == Saved(es)
  }

  lemma SaidNext(answers: seq<Answer>, written: seq<seq<byte>>, saved: seq<byte>, uuid: Uuid, es: seq<Effect>,
                 e: Effect,
                 written': seq<seq<byte>>)
    requires Said(answers, written, saved, uuid, es) && Final !in es
    requires |written| <= |written'| && written'[..|written|] == written
    ensures Said(answers + Answers([e]), written', saved + BytesOf(e), uuid, es + [e])
  {
    hide Answer.Wire, Answer.Valid, BytesOf, Answers, Saved;
    SavedAppend(es, e);
    AnswersAppend(es, e);
    assert written'[0] == written[0];
    assert (answers + Answers([e]))[1..] == answers[1..] + Answers([e]);
  }

  /** The effects so far, with or without the last one, explain what has been said after a call. */
  lemma SaidFurther(answers: seq<Answer>, written: seq<seq<byte>>, saved: seq<byte>, uuid: Uuid, es: seq<Effect>,
                    e: Effect, written': seq<seq<byte>>)
    requires Said(answers, written, saved, uuid, es) && Final !in es
    requires |written| <= |written'| && written'[..|written|] == written
    ensures var answers' := answers + if e.Stored? then [Result(false)] else [];
      if e.Final? then Said(answers', written', saved + BytesOf(e), uuid, es)
      else Said(answers', written', saved + BytesOf(e), uuid, es + [e]) && Final !in es + [e]
  {
    hide Answer.Wire, Answer.Valid, Saved, Answers;
    if e.Final? {
      assert written'[0] == written[0];
      assert answers + [] == answers && saved + [] == saved;
    } else {
      AnswersAppend(es, e);
      SaidNext(answers, written, saved, uuid, es, e, written');
    }
  }

  lemma SaidLast(answers: seq<Answer>, written: seq<seq<byte>>, saved: seq<byte>, uuid: Uuid, es: seq<Effect>,
                 written': seq<seq<byte>>)
    requires Said(answers, written, saved, uuid, es) && Final !in es
    requires |written| <= |written'| && written'[..|written|] == written
    ensures Said(answers + [Result(true)], written', saved, uuid, es + [Final])
  {
    hide Said;
    AnswersAppend(es, Final);
    SaidNext(answers, written, saved, uuid, es, Final, written');
    assert saved + BytesOf(Final) == saved;
  }

  lemma AnswersAppend(es: seq<Effect>, e: Effect)
    ensures Answers(es + [e]) == Answers(es) + Answers([e])
    ensures Answers([e]) == if e.Stored? then [Result(false)] else if e.Final? then [Result(true)] else []
  {
    assert [e][..0] == [] && (es + [e])[..|es|] == es;
  }

  class WebSocketData {
    const uuid_: Uuid
    const sock: Socket
    const outlet: Outlet
    const readPacket_: Packet
    const writePacket_: Packet
    var state_: ProcessState
    var error_: ErrorType
    var is_final_: bool
    var headers_: Headers
    var this_conn_bytes_: nat
    /** The file named after the connection. */
    var saved: seq<byte>
    /** Whether the poller still reports events of this connection. */
    var registered: bool
    /** Whether the reader has written behind its buffer. The model ends the connection there; what the source does
        from then on is not determined. */
    var overrun: bool
    /** The answers given and what was written of each. */
    ghost var answers: seq<Answer>
    ghost var written: seq<seq<byte>>
    /** The reader when the handshake was complete, what arrived before each call since, and what has arrived
        after the last call. */
    ghost var start: Reader
    ghost var pieces: seq<seq<byte>>
    ghost var arrived: seq<byte>
    /** What had arrived before the call that wrote behind the buffer, and the size of the buffer. */
    ghost var fatal: seq<byte>
    ghost var room: nat

    /** The reader has written behind its buffer: its frame was too long for it. */
    ghost predicate WrittenBehind()
      reads this`state_, this`start, this`pieces, this`fatal, this`room
    {
      var reader := Run(start, pieces).0;
      && state_ == STATE_ERROR && start.unread == [] && start.p.state == PACKET_INIT && room <= Frame.MAX_INT
      && Overruns(reader.p, reader.unread + fatal, room)
    }

    ghost predicate Blamed()
      reads this`overrun, this`state_, this`start, this`pieces, this`arrived, this`fatal, this`room
    {
      overrun ==> fatal <= arrived && WrittenBehind()
    }

    ghost predicate Packets()
      reads readPacket_, readPacket_.data_, writePacket_, writePacket_.data_
    {
      && readPacket_ != writePacket_ && readPacket_.Valid() && writePacket_.Valid()
      && writePacket_.state_ == PACKET_INIT
      && (readPacket_.data_ == null || readPacket_.data_ != writePacket_.data_)
    }

    ghost predicate Wired()
      reads this`headers_, this`answers, this`written, readPacket_, readPacket_.data_,
        writePacket_, writePacket_.data_, outlet
    {
      Packets() && IsKey(KeyOf(headers_)) && Told(answers, written, outlet.sent, uuid_)
    }

    ghost function Seen(): seq<Effect>
      reads this`start, this`pieces
    {
      Effects(start, pieces)
    }

    /** The handshake is complete: the calls since then decide what has been saved and answered. */
    ghost predicate Conversing(es: seq<Effect>)
      reads this`answers, this`written, this`start, this`saved, this`error_
    {
      && Said(answers, written, saved, uuid_, es) && Final !in es
      && start.unread == [] && start.p.state == PACKET_INIT
      && error_ != ERROR_PARSE_HEAD
    }

    /** The packet is the one the abstract reader holds after those calls. */
    ghost predicate InStep()
      reads this`start, this`pieces, this`arrived, readPacket_, readPacket_.data_, sock
      requires readPacket_.len_ <= |readPacket_.Buffer()|
    {
      var reader := Run(start, pieces).0;
      && !sock.faulted && readPacket_.View() == reader.p && sock.queue == reader.unread + arrived
    }

    /** The head was refused, or never complete, or the reply to it could not be sent. */
    ghost predicate TurnedAway()
      reads this`saved, this`answers
    {
      && saved == []
      && (answers == [] || (|answers| == 1 && !answers[0].Result?))
    }

    /** Nothing has happened yet. */
    ghost predicate Waiting()
      reads this`answers, this`saved, this`headers_, this`error_, this`is_final_, readPacket_`state_, sock`faulted
    {
      && answers == [] && saved == [] && headers_ == map[] && error_ == ERROR_NO && !sock.faulted && !is_final_
      && readPacket_.state_ == PACKET_INIT
    }

    /** The reply has been sent, and no frame has arrived. */
    ghost predicate Starting()
      reads this`is_final_, this`saved, this`answers, this`written, this`start, this`pieces, this`arrived, this`error_,
            readPacket_, readPacket_.data_, sock
      requires readPacket_.len_ <= |readPacket_.Buffer()|
    {
      && pieces == [] && arrived == [] && start == ReaderState(readPacket_.View(), []) && sock.queue == []
      && Conversing([]) && !sock.faulted && !is_final_
    }

    /** Frames are being read. */
    ghost predicate Reading()
      reads this`is_final_, this`saved, this`this_conn_bytes_, this`answers, this`written, this`start, this`pieces,
            this`arrived, this`error_, readPacket_, readPacket_.data_, sock
      requires readPacket_.len_ <= |readPacket_.Buffer()|
    {
      Conversing(Seen()) && InStep() && !is_final_ && this_conn_bytes_ == |saved|
    }

    ghost predicate Progress()
      reads this`state_, this`error_, this`is_final_, this`headers_, this`this_conn_bytes_, this`saved, this`answers,
            this`written, this`start, this`pieces, this`arrived, readPacket_, readPacket_.data_, sock
      requires readPacket_.len_ <= |readPacket_.Buffer()|
    {
      match state_
      case STATE_HEAD => Waiting()
      case STATE_START => Starting()
      case STATE_DATA => Reading()
      case STATE_FINISH => Conversing(Before()) && Ending()
      case STATE_CLOSE => Closing()
      case STATE_ERROR => TurnedAway() || Conversing(Seen())
    }

    /** The last call ended the upload. */
    ghost predicate Ending()
      reads this`start, this`pieces
    {
      pieces != [] && Seen() == Before() + [Final]
    }

    ghost function Before(): seq<Effect>
      reads this`start, this`pieces
    {
      if pieces == [] then [] else Effects(start, pieces[..|pieces| - 1])
    }

    ghost predicate Closing()
      reads this`answers, this`written, this`start, this`pieces, this`saved
    {
      && Ending() && Final !in Before()
      && start.unread == [] && start.p.state == PACKET_INIT
      && Said(answers, written, saved, uuid_, Seen())
    }

    ghost predicate Valid()
      reads this`state_, this`error_, this`is_final_, this`headers_, this`this_conn_bytes_, this`saved, this`answers,
            this`written, this`start, this`pieces, this`arrived, readPacket_, readPacket_.data_, writePacket_,
            writePacket_.data_, sock, outlet
    {
      Wired() && Progress()
    }

    /** Between events: the connection is open until it is over. */
    ghost predicate Settled()
      reads this, readPacket_, readPacket_.data_, writePacket_, writePacket_.data_, sock, outlet
    {
      && Valid() && Blamed() && state_ != STATE_START && state_ != STATE_FINISH
      && (registered <==> state_ == STATE_HEAD || state_ == STATE_DATA)
    }

    constructor (uuid: Uuid, garbage: MaskKey, garbage': MaskKey)
      ensures Settled() && state_ == STATE_HEAD && answers == [] && outlet.sent == [] && uuid_ == uuid
      ensures sock.queue == []
      ensures fresh(sock) && fresh(outlet) && fresh(readPacket_) && fresh(writePacket_)
      ensures readPacket_.data_ == null && writePacket_.data_ == null
    {
      uuid_ := uuid;
      sock := new Socket();
      outlet := new Outlet();
      readPacket_ := new Packet(garbage);
      writePacket_ := new Packet(garbage');
      state_, error_, is_final_, registered, overrun := STATE_HEAD, ERROR_NO, false, true, false;
      headers_ := map[];
      this_conn_bytes_, saved := 0, [];
      answers, written, pieces, arrived := [], [], [], [];
      new;
      hide *;
      KeyIsUsable([]);
      NothingTold(uuid_);
      FreshPackets();
      FreshState();
    }

    lemma FreshPackets()
      requires readPacket_ != writePacket_ && readPacket_.Valid() && writePacket_.Valid()
      requires readPacket_.data_ == null && writePacket_.data_ == null
      requires readPacket_.View().state == writePacket_.View().state == PACKET_INIT
      ensures Packets() && readPacket_.state_ == PACKET_INIT
    {
      hide PacketView.Valid;
    }

    lemma FreshState()
      requires Packets() && IsKey(KeyOf(headers_)) && Told(answers, written, outlet.sent, uuid_)
      requires state_ == STATE_HEAD && registered && readPacket_.state_ == PACKET_INIT && !overrun
      requires answers == [] && saved == [] && headers_ == map[] && error_ == ERROR_NO && !sock.faulted && !is_final_
      ensures Settled()
    {
      hide KeyOf, IsKey, Told, Starting, Reading, Closing, Conversing, Ending, TurnedAway, WrittenBehind;
    }

    /** Sends an answer; what was written of it is all of it exactly when there was no error. */
    method WriteData(data: seq<byte>, ghost answer: Answer) returns (ok: bool)
      requires answer.Valid() && data == answer.Wire(uuid_) && Told(answers, written, outlet.sent, uuid_)
      modifies this`error_, this`answers, this`written, outlet
      ensures Told(answers, written, outlet.sent, uuid_)
      ensures answers == old(answers) + [answer]
      ensures |written| == |old(written)| + 1 && written[..|old(written)|] == old(written)
      ensures ok <==> written[|old(written)|] == data
      ensures error_ == if ok then old(error_) else ERROR_WRITE
    {
      hide *;
      var done := 0;
      ok := true;
      while ok && done < |data|
        invariant done <= |data| && (!ok ==> done < |data|)
        invariant outlet.sent == old(outlet.sent) + data[..done]
        invariant answers == old(answers) && written == old(written)
        invariant error_ == if ok then old(error_) else ERROR_WRITE
        decreases ok, |data| - done
      {
        var written_bytes := outlet.Write(data[done..]);
        if written_bytes <= 0 {
          error_ := ERROR_WRITE;
          ok := false;
        } else {
          assert data[..done] + data[done..][..written_bytes] == data[..done + written_bytes];
          done := done + written_bytes;
        }
      }
      ToldNext(answers, written, old(outlet.sent), uuid_, answer, data[..done]);
      answers, written := answers + [answer], written + [data[..done]];
    }

    /** Reads everything that has arrived as one head. */
    method ReadAndParseHead(closed: bool) returns (ok: bool)
      requires headers_ == map[] && error_ == ERROR_NO && !sock.faulted
      modifies this`error_, this`headers_, sock
      ensures ok <==> !sock.faulted && !closed && HeadersOf(old(sock.queue)).Some?
      ensures headers_ == if ok then HeadersOf(old(sock.queue)).value else map[]
      ensures ok ==> sock.queue == []
      ensures error_ == if ok then ERROR_NO
        else if closed && !sock.faulted then ERROR_CLIENT_CLOSE else ERROR_PARSE_HEAD
    {
      var inBuffer := [];
      ok := false;
      var needRead := true;
      while needRead
        invariant headers_ == map[] && error_ == ERROR_NO && !sock.faulted
        invariant inBuffer + sock.queue == old(sock.queue)
        invariant !needRead ==> sock.queue == [] && !closed
        decreases needRead, |sock.queue|
      {
        var r := sock.Receive(4096, closed);
        match r {
          case Bytes(bytes) =>
            inBuffer := inBuffer + bytes;
          case Again =>
            needRead := false;
          case Closed =>
            error_ := ERROR_CLIENT_CLOSE;
            return;
          case Broken =>
            error_ := ERROR_PARSE_HEAD;
            return;
        }
      }
      assert inBuffer == old(sock.queue);
      if |inBuffer| <= Frame.MAX_INT {
        ok, headers_ := ParseHead(TextOf(inBuffer), headers_);
      }
      if !ok {
        error_ := ERROR_PARSE_HEAD;
      }
    }

    method SendRespond() returns (ok: bool)
      requires IsKey(KeyOf(headers_)) && Told(answers, written, outlet.sent, uuid_) &&
        answers == [] && error_ == ERROR_NO
      modifies this`error_, this`headers_, this`answers, this`written, outlet
      ensures IsKey(KeyOf(headers_)) && Told(answers, written, outlet.sent, uuid_)
      ensures answers == [Switching(KeyOf(old(headers_)))] && answers[0].Valid()
      ensures |written| == 1 && (ok <==> written[0] == answers[0].Wire(uuid_))
      ensures error_ == if ok then ERROR_NO else ERROR_WRITE
    {
      hide IsKey, Accept, ReplyText, Told;
      ToldLengths(answers, written, outlet.sent, uuid_);
      var key := KeyOf(headers_);
      headers_ := headers_[KEY_HEADER := key];
      var accept := ServerAccept(key);
      ok := WriteData(Octets(ReplyText(101, key)), Switching(key));
    }

    method SendErrorRespond()
      requires IsKey(KeyOf(headers_)) && Told(answers, written, outlet.sent, uuid_)
      modifies this`error_, this`headers_, this`answers, this`written, outlet
      ensures IsKey(KeyOf(headers_)) && Told(answers, written, outlet.sent, uuid_)
      ensures answers == old(answers) + [Refusal(KeyOf(old(headers_)))]
    {
      hide IsKey, Accept, ReplyText, Told;
      var key := KeyOf(headers_);
      headers_ := headers_[KEY_HEADER := key];
      var accept := ServerAccept(key);
      var ok := WriteData(Octets(ReplyText(400, key)), Refusal(key));
    }

    /** A result that cannot be sent is forgotten; only the error is remembered. */
    method SendResult(last: bool)
      requires Packets() && IsKey(KeyOf(headers_)) && Told(answers, written, outlet.sent, uuid_)
      modifies this`error_, this`answers, this`written, outlet, writePacket_, writePacket_.data_
      ensures Packets() && IsKey(KeyOf(headers_)) && Told(answers, written, outlet.sent, uuid_)
      ensures writePacket_.data_ == old(writePacket_.data_) || fresh(writePacket_.data_)
      ensures answers == old(answers) + [Result(last)]
      ensures |written| == |old(written)| + 1 && written[..|old(written)|] == old(written)
      ensures error_ == old(error_) || error_ == ERROR_WRITE
    {
      hide Told, IsKey, KeyOf, ReportedText, Octets, ResultWire, PacketView.Valid;
      var result := FormatJson(last, uuid_);
      var fits := BuildResult(writePacket_, Octets(result));
      var ok := WriteData(writePacket_.data_[..writePacket_.len_], Result(last));
    }

    /** The head, and the reply to a good one. */
    method Greet(closed: bool) returns (ok: bool)
      requires headers_ == map[] && error_ == ERROR_NO && !sock.faulted && answers == []
      requires IsKey(KeyOf(headers_)) && Told(answers, written, outlet.sent, uuid_)
      modifies this`error_, this`headers_, this`answers, this`written, sock, outlet
      ensures IsKey(KeyOf(headers_)) && Told(answers, written, outlet.sent, uuid_)
      ensures var good := !sock.faulted && !closed && HeadersOf(old(sock.queue)).Some?;
        && answers == (if good then [Switching(KeyOf(HeadersOf(old(sock.queue)).value))] else [])
        && (error_ == ERROR_PARSE_HEAD <==> !good && (sock.faulted || !closed))
        && (ok <==> good && error_ == ERROR_NO) && (!good ==> headers_ == map[])
      ensures ok ==> sock.queue == [] && |written| == 1 && answers[0].Valid() && written[0] == answers[0].Wire(uuid_)
    {
      hide *;
      KeyIsUsable(sock.queue);
      ok := ReadAndParseHead(closed);
      if ok {
        ok := SendRespond();
      }
    }

    lemma PacketEffect()
      requires Packets()
      ensures readPacket_.len_ <= |readPacket_.Buffer()|
      ensures var body := readPacket_.Buffer()[..readPacket_.len_];
        EffectOf(readPacket_.View()) ==
        if readPacket_.opcode_ == WEBSOCKET_CONNECT_CLOSE then Final
        else if readPacket_.state_ != PACKET_INIT then Pending
        else if readPacket_.opcode_ == WEBSOCKET_TEXT_DATA && |body| == 3 then if body == EOS then Final else Ignored
        else Stored(body)
    {
    }

    lemma EffectBytes()
      ensures BytesOf(Final) == BytesOf(Ignored) == BytesOf(Pending) == []
      ensures forall b :: BytesOf(Stored(b)) == b
    {
    }

    /** What a completed frame, or an idle call, leads to. */
    method ProcessPacket()
      requires Packets() && IsKey(KeyOf(headers_)) && Told(answers, written, outlet.sent, uuid_)
      requires !is_final_ && this_conn_bytes_ == |saved|
      modifies this`error_, this`is_final_, this`this_conn_bytes_, this`saved, this`answers, this`written, outlet,
               writePacket_, writePacket_.data_
      ensures Packets() && IsKey(KeyOf(headers_)) && Told(answers, written, outlet.sent, uuid_)
      ensures writePacket_.data_ == old(writePacket_.data_) || fresh(writePacket_.data_)
      ensures var e := EffectOf(readPacket_.View());
        && is_final_ == e.Final?
        && saved == old(saved) + BytesOf(e) && this_conn_bytes_ == |saved|
        && answers == old(answers) + if e.Stored? then [Result(false)] else []
      ensures |written| >= |old(written)| && written[..|old(written)|] == old(written)
      ensures error_ == old(error_) || error_ == ERROR_WRITE
    {
      hide *;
      PacketsApart();
      PacketEffect();
      EffectBytes();
      var body := readPacket_.Buffer()[..readPacket_.len_];
      if readPacket_.opcode_ == WEBSOCKET_CONNECT_CLOSE
         || (readPacket_.opcode_ == WEBSOCKET_TEXT_DATA && readPacket_.state_ == PACKET_INIT && readPacket_.len_ == 3) {
        if readPacket_.opcode_ == WEBSOCKET_CONNECT_CLOSE {
          is_final_ := true;
        } else if body == EOS {
          is_final_ := true;
        }
      } else if readPacket_.state_ == PACKET_INIT {
        this_conn_bytes_ := this_conn_bytes_ + readPacket_.len_;
        saved := saved + body;
        SendResult(false);
      }
    }

    lemma HeadState()
      requires Valid() && state_ == STATE_HEAD
      ensures Packets() && IsKey(KeyOf(headers_)) && Told(answers, written, outlet.sent, uuid_) && Waiting()
      ensures answers == [] && saved == [] && headers_ == map[] && error_ == ERROR_NO && !sock.faulted && !is_final_
    {
      hide IsKey, KeyOf, Told, Packets, Starting, Reading, Closing, Conversing, Ending, TurnedAway;
    }

    lemma StartState()
      requires Packets() && IsKey(KeyOf(headers_)) && Told(answers, written, outlet.sent, uuid_)
      requires state_ == STATE_START && readPacket_.state_ == PACKET_INIT && sock.queue == [] && !sock.faulted
      requires pieces == [] && arrived == [] && start == ReaderState(readPacket_.View(), [])
      requires |answers| == |written| == 1 && answers[0].Switching? && answers[0].Valid()
      requires written[0] == answers[0].Wire(uuid_)
      requires saved == [] && error_ == ERROR_NO && !is_final_
      ensures Valid()
    {
      hide IsKey, KeyOf, Told, Packets, Reading, Closing, Ending, TurnedAway, Waiting, Run, Effects, Saved, Answers,
           Answer.Wire, Answer.Valid;
      NothingSeen(start);
      assert answers[1..] == [];
    }

    lemma TurnedAwayState()
      requires Packets() && IsKey(KeyOf(headers_)) && Told(answers, written, outlet.sent, uuid_)
      requires state_ == STATE_ERROR && saved == []
      requires answers == [] || (|answers| == 1 && !answers[0].Result?)
      ensures Valid()
    {
      hide IsKey, KeyOf, Told, Packets, Starting, Reading, Closing, Conversing, Ending, Waiting;
    }

    method HandleHead(closed: bool)
      requires Valid() && state_ == STATE_HEAD
      modifies this`state_, this`error_, this`headers_, this`answers, this`written, this`start, this`pieces,
               this`arrived, sock, outlet
      ensures Valid() && (state_ == STATE_START || state_ == STATE_ERROR)
      ensures var good := !sock.faulted && !closed && HeadersOf(old(sock.queue)).Some?;
        && answers == (if good then [Switching(KeyOf(HeadersOf(old(sock.queue)).value))] else [])
        && (error_ == ERROR_PARSE_HEAD <==> !good && (sock.faulted || !closed))
        && (state_ == STATE_START <==> good && error_ == ERROR_NO) && (!good ==> headers_ == map[])
    {
      hide *;
      HeadState();
      WaitingPacket();
      var ok := Greet(closed);
      if ok {
        start, pieces, arrived := ReaderState(readPacket_.View(), []), [], [];
        state_ := STATE_START;
        StartState();
      } else {
        state_ := STATE_ERROR;
        TurnedAwayState();
      }
    }

    lemma WaitingPacket()
      requires Waiting() && Packets()
      ensures readPacket_.state_ == PACKET_INIT
      ensures readPacket_.len_ <= |readPacket_.Buffer()| && readPacket_.View().Valid()
    {
    }

    lemma StartingState()
      requires Valid() && state_ == STATE_START
      ensures Packets() && IsKey(KeyOf(headers_)) && Told(answers, written, outlet.sent, uuid_)
      ensures Conversing(Seen()) && InStep() && !is_final_ && saved == [] && pieces == [] && arrived == []
    {
      hide IsKey, KeyOf, Told, Packets, Reading, Closing, Ending, TurnedAway, Waiting;
      NothingSeen(start);
    }

    lemma DataState()
      requires Packets() && IsKey(KeyOf(headers_)) && Told(answers, written, outlet.sent, uuid_)
      requires state_ == STATE_DATA && Conversing(Seen()) && InStep() && !is_final_ && this_conn_bytes_ == |saved|
      ensures Valid()
    {
      hide IsKey, KeyOf, Told, Packets, Starting, Closing, Ending, TurnedAway, Waiting, Conversing, InStep;
    }

    method ProcessStart()
      requires Valid() && state_ == STATE_START
      modifies this`state_, this`this_conn_bytes_
      ensures Valid() && state_ == STATE_DATA && pieces == [] && arrived == []
    {
      hide *;
      StartingState();
      this_conn_bytes_ := 0;
      state_ := STATE_DATA;
      DataState();
    }

    /** The next call of the reader would write behind its buffer. */
    ghost predicate Exceeding()
      reads readPacket_, readPacket_.data_, sock
    {
      readPacket_.Valid() && Overruns(readPacket_.View(), sock.queue, readPacket_.size_)
    }

    /** One call of the reader, with what has arrived since the last one. */
    method ReadPacket() returns (ok: bool)
      requires Packets() && InStep() && !overrun
      modifies this`error_, this`pieces, this`arrived, this`overrun, this`fatal, this`room, readPacket_,
               readPacket_.data_, sock
      ensures Packets() && (readPacket_.data_ == old(readPacket_.data_) || fresh(readPacket_.data_))
      ensures ok ==>
        && InStep() && error_ == old(error_) && !overrun
        && pieces == old(pieces) + [old(arrived)] && arrived == []
        && Seen() == old(Seen()) + [EffectOf(readPacket_.View())]
      ensures !ok ==>
        && pieces == old(pieces) && arrived == old(arrived) && Seen() == old(Seen())
        && error_ == if overrun then old(error_) else if sock.faulted then ERROR_READ else ERROR_PARSE_DATA
      ensures overrun ==>
        var reader := Run(start, pieces).0;
        && fatal == arrived && room == old(readPacket_.size_) <= Frame.MAX_INT
        && Overruns(reader.p, reader.unread + fatal, room)
      ensures old(Exceeding()) ==> overrun || sock.faulted
    {
      hide Run, Effects, Advance, Described, Feed, EffectOf, Overruns, PacketView.Valid, ToInt;
      ghost var reader := Run(start, pieces).0;
      fatal, room := arrived, readPacket_.size_;
      var s := ReadAndParsePacket(readPacket_, sock);
      ok := s != Fault && s != Refuse && s != Overrun;
      if s == Overrun {
        overrun := true;
      } else if s == Fault {
        error_ := ERROR_READ;
      } else if s == Refuse {
        error_ := ERROR_PARSE_DATA;
      } else {
        CallRead(start, pieces, arrived, s, readPacket_.View(), sock.queue);
        pieces, arrived := pieces + [arrived], [];
      }
    }

    lemma WhoIsToBlame()
      requires state_ == STATE_ERROR && start.unread == [] && start.p.state == PACKET_INIT
      requires overrun ==>
        var reader := Run(start, pieces).0;
        fatal == arrived && room <= Frame.MAX_INT && Overruns(reader.p, reader.unread + fatal, room)
      ensures Blamed()
    {
      hide Run, Overruns;
    }

    lemma NobodyIsToBlame()
      requires !overrun
      ensures Blamed()
    {
      hide Run, Overruns;
    }

    lemma ReadingState()
      requires Valid() && state_ == STATE_DATA
      ensures Packets() && IsKey(KeyOf(headers_)) && Told(answers, written, outlet.sent, uuid_)
      ensures Conversing(Seen()) && InStep() && !is_final_ && this_conn_bytes_ == |saved|
      ensures Seen() == Effects(start, pieces)
    {
      hide IsKey, KeyOf, Told, Packets, Closing, Ending, TurnedAway, Waiting, Starting, Conversing, InStep;
    }

    lemma FailedState()
      requires Packets() && IsKey(KeyOf(headers_)) && Told(answers, written, outlet.sent, uuid_)
      requires state_ == STATE_ERROR && Conversing(Seen())
      ensures Valid()
    {
      hide IsKey, KeyOf, Told, Packets, Closing, Ending, TurnedAway, Waiting, Starting, Conversing, InStep;
    }

    lemma FinishState(es: seq<Effect>, ps: seq<seq<byte>>, piece: seq<byte>)
      requires Packets() && IsKey(KeyOf(headers_)) && Told(answers, written, outlet.sent, uuid_)
      requires state_ == STATE_FINISH && Conversing(es)
      requires pieces == ps + [piece] && es == Effects(start, ps) && Seen() == es + [Final]
      ensures Valid()
    {
      hide IsKey, KeyOf, Told, Packets, Closing, TurnedAway, Waiting, Starting, Conversing, InStep, Effects;
      assert pieces[..|pieces| - 1] == ps;
    }

    lemma StillConversing(es: seq<Effect>)
      requires Said(answers, written, saved, uuid_, es) && Final !in es && error_ != ERROR_PARSE_HEAD
      requires start.unread == [] && start.p.state == PACKET_INIT
      ensures Conversing(es)
    {
      hide Said;
    }

    lemma ConversingMeans(es: seq<Effect>)
      requires Conversing(es)
      ensures Said(answers, written, saved, uuid_, es) && Final !in es && error_ != ERROR_PARSE_HEAD
      ensures start.unread == [] && start.p.state == PACKET_INIT
    {
      hide Said;
    }

    /** What the last call has left in the packet is processed. */
    method TakePacket(ghost es: seq<Effect>, ghost ps: seq<seq<byte>>, ghost piece: seq<byte>)
      requires Packets() && IsKey(KeyOf(headers_)) && Told(answers, written, outlet.sent, uuid_)
      requires Conversing(es) && InStep() && !is_final_ && this_conn_bytes_ == |saved|
      requires pieces == ps + [piece] && es == Effects(start, ps)
      requires Seen() == es + [EffectOf(readPacket_.View())]
      modifies this`state_, this`error_, this`is_final_, this`this_conn_bytes_, this`saved, this`answers, this`written,
               writePacket_, writePacket_.data_, outlet
      ensures Valid() && error_ != ERROR_PARSE_HEAD
      ensures writePacket_.data_ == old(writePacket_.data_) || fresh(writePacket_.data_)
      ensures readPacket_.len_ <= |readPacket_.Buffer()|
      ensures Outcome(EffectOf(readPacket_.View()), old(saved), old(answers))
      ensures state_ == STATE_DATA || state_ == STATE_FINISH
    {
      hide *;
      ConversingMeans(es);
      PacketsApart();
      ghost var e := EffectOf(readPacket_.View());
      ghost var answersBefore, writtenBefore, savedBefore := answers, written, saved;
      ProcessPacket();
      SaidFurther(answersBefore, writtenBefore, savedBefore, uuid_, es, e, written);
      if is_final_ {
        state_ := STATE_FINISH;
        StillConversing(es);
        FinishState(es, ps, piece);
      } else {
        state_ := STATE_DATA;
        StillConversing(es + [e]);
        DataState();
      }
      TheOutcome(e, savedBefore, answersBefore);
    }

    /** One call, and what its frame leads to. */
    method HandleData()
      requires Valid() && state_ == STATE_DATA && !overrun
      modifies this`state_, this`error_, this`is_final_, this`this_conn_bytes_, this`saved, this`answers, this`written,
               this`pieces, this`arrived, this`overrun, this`fatal, this`room, readPacket_, readPacket_.data_,
               writePacket_, writePacket_.data_, sock, outlet
      ensures Valid() && (state_ == STATE_DATA || state_ == STATE_FINISH || state_ == STATE_ERROR)
      ensures error_ != ERROR_PARSE_HEAD
      ensures readPacket_.data_ == old(readPacket_.data_) || fresh(readPacket_.data_)
      ensures writePacket_.data_ == old(writePacket_.data_) || fresh(writePacket_.data_)
      ensures Blamed() && (overrun ==> state_ == STATE_ERROR) && readPacket_.len_ <= |readPacket_.Buffer()|
      ensures state_ == STATE_ERROR ==> saved == old(saved) && answers == old(answers)
      ensures old(Exceeding()) ==> overrun || sock.faulted
      ensures state_ != STATE_ERROR ==>
        && readPacket_.len_ <= |readPacket_.Buffer()|
        && pieces == old(pieces) + [old(arrived)] && arrived == []
        && Outcome(EffectOf(readPacket_.View()), old(saved), old(answers))
    {
      hide *;
      ReadingState();
      ghost var es, ps, piece := Seen(), pieces, arrived;
      ConversingMeans(es);
      var ok := ReadPacket();
      if !ok {
        state_ := STATE_ERROR;
        StillConversing(es);
        FailedState();
        WhoIsToBlame();
        PacketsApart();
      } else {
        TakePacket(es, ps, piece);
        NobodyIsToBlame();
      }
    }

    lemma StillApart()
      requires Valid()
      ensures readPacket_ != writePacket_ && readPacket_.len_ <= |readPacket_.Buffer()|
      ensures readPacket_.data_ == null || readPacket_.data_ != writePacket_.data_
    {
      hide Progress, IsKey, KeyOf, Told, PacketView.Valid;
    }

    lemma PacketsApart()
      requires Packets()
      ensures readPacket_ != writePacket_ && readPacket_.len_ <= |readPacket_.Buffer()|
      ensures readPacket_.data_ == null || readPacket_.data_ != writePacket_.data_
    {
    }

    lemma TheOutcome(e: Effect, savedBefore: seq<byte>, answersBefore: seq<Answer>)
      requires state_ == (if e.Final? then STATE_FINISH else STATE_DATA) && saved == savedBefore + BytesOf(e)
      requires answers == answersBefore + if e.Stored? then [Result(false)] else []
      ensures Outcome(e, savedBefore, answersBefore)
    {
    }

    lemma FinishingState() returns (es: seq<Effect>)
      requires Valid() && state_ == STATE_FINISH
      ensures Packets() && IsKey(KeyOf(headers_)) && Told(answers, written, outlet.sent, uuid_)
      ensures Conversing(es) && es == Before() && Ending() && Seen() == es + [Final]
    {
      hide IsKey, KeyOf, Told, Packets, Closing, TurnedAway, Waiting, Starting, Reading, Conversing;
      es := Before();
    }

    lemma ClosedState(es: seq<Effect>)
      requires Packets() && IsKey(KeyOf(headers_)) && Told(answers, written, outlet.sent, uuid_)
      requires state_ == STATE_CLOSE && Ending() && es == Before() && Final !in es
      requires Said(answers, written, saved, uuid_, es + [Final])
      requires start.unread == [] && start.p.state == PACKET_INIT
      ensures Valid()
    {
      hide IsKey, KeyOf, Told, Packets, Said, TurnedAway, Waiting, Starting, Reading, Conversing, Before;
    }

    /** The final result. */
    method ProcessEnd()
      requires Valid() && state_ == STATE_FINISH
      modifies this`state_, this`error_, this`answers, this`written, writePacket_, writePacket_.data_, outlet
      ensures Valid() && state_ == STATE_CLOSE
      ensures writePacket_.data_ == old(writePacket_.data_) || fresh(writePacket_.data_)
      ensures answers == old(answers) + [Result(true)]
    {
      hide *;
      ghost var es := FinishingState();
      ConversingMeans(es);
      ghost var answersBefore, writtenBefore := answers, written;
      SendResult(true);
      SaidLast(answersBefore, writtenBefore, saved, uuid_, es, written);
      state_ := STATE_CLOSE;
      ClosedState(es);
    }

    lemma ErrorState()
      requires Valid() && state_ == STATE_ERROR && answers == []
      ensures Packets() && IsKey(KeyOf(headers_)) && Told(answers, written, outlet.sent, uuid_) && saved == []
    {
      hide IsKey, KeyOf, Told, Packets, Closing, Waiting, Starting, Reading, Ending;
    }

    /** Only a head that cannot be read or is not good is answered. */
    method ProcessError()
      requires Valid() && state_ == STATE_ERROR && (error_ == ERROR_PARSE_HEAD ==> answers == [])
      modifies this`error_, this`headers_, this`answers, this`written, outlet
      ensures Valid() && state_ == STATE_ERROR
      ensures answers == old(answers) + if old(error_) == ERROR_PARSE_HEAD then [Refusal(old(KeyOf(headers_)))] else []
    {
      hide *;
      if error_ == ERROR_PARSE_HEAD {
        ErrorState();
        SendErrorRespond();
        TurnedAwayState();
      }
    }

    /** What the first event makes of the head `head`. */
    ghost predicate Greeted(head: seq<byte>, closed: bool)
      reads this`state_, this`error_, this`answers, this`saved, sock
    {
      var good := !sock.faulted && !closed && HeadersOf(head).Some?;
      && (state_ == STATE_DATA || state_ == STATE_ERROR) && saved == []
      && (state_ == STATE_DATA ==> good)
      && answers == if good then [Switching(KeyOf(HeadersOf(head).value))]
                    else if closed && !sock.faulted then []
                    else [Refusal("")]
    }

    /** What a later event makes of the piece that has arrived. */
    ghost predicate Continued(ps: seq<seq<byte>>, piece: seq<byte>, savedBefore: seq<byte>, answersBefore: seq<Answer>)
      reads this`state_, this`answers, this`saved, this`pieces, this`arrived, readPacket_, readPacket_.data_
    {
      if state_ == STATE_ERROR then saved == savedBefore && answers == answersBefore
      else
        && readPacket_.len_ <= |readPacket_.Buffer()|
        && pieces == ps + [piece] && arrived == []
        && var e := EffectOf(readPacket_.View());
           && state_ == (if e.Final? then STATE_CLOSE else STATE_DATA)
           && saved == savedBefore + BytesOf(e) && answers == answersBefore + Answers([e])
    }

    method HandleRead(closed: bool)
      requires Valid() && (state_ == STATE_HEAD || state_ == STATE_DATA) && !overrun
      modifies this`state_, this`error_, this`is_final_, this`headers_, this`this_conn_bytes_, this`saved, this`answers,
               this`written, this`start, this`pieces, this`arrived, this`overrun, this`fatal, this`room, readPacket_,
               readPacket_.data_, writePacket_, writePacket_.data_, sock, outlet
      ensures Valid() && Blamed() && state_ != STATE_HEAD && state_ != STATE_START && state_ != STATE_FINISH
      ensures old(state_ == STATE_DATA && Exceeding()) ==> overrun || sock.faulted
      ensures readPacket_.data_ == old(readPacket_.data_) || fresh(readPacket_.data_)
      ensures writePacket_.data_ == old(writePacket_.data_) || fresh(writePacket_.data_)
      ensures old(state_) == STATE_HEAD ==> Greeted(old(sock.queue), closed)
      ensures old(state_) == STATE_DATA ==> Continued(old(pieces), old(arrived), old(saved), old(answers))
    {
      hide *;
      ghost var atHead, head, answersBefore, savedBefore := state_ == STATE_HEAD, sock.queue, answers, saved;
      ghost var ps, piece := pieces, arrived;
      if state_ == STATE_HEAD {
        HeadState();
        NoKey();
        HandleHead(closed);
      }
      if state_ == STATE_START {
        ProcessStart();
      } else if state_ == STATE_DATA {
        HandleData();
        if state_ != STATE_ERROR {
          OutcomeMeans(EffectOf(readPacket_.View()), savedBefore, answersBefore);
          StillApart();
        }
      }
      if state_ == STATE_FINISH {
        ProcessEnd();
      }
      if state_ == STATE_ERROR {
        ProcessError();
      }
      if !overrun {
        NobodyIsToBlame();
      }
      if atHead {
        IsGreeted(head, closed);
      } else {
        IsContinued(ps, piece, savedBefore, answersBefore);
      }
    }

    lemma NoKey()
      ensures KeyOf(map[]) == ""
    {
    }

    lemma IsGreeted(head: seq<byte>, closed: bool)
      requires (state_ == STATE_DATA || state_ == STATE_ERROR) && saved == []
      requires var good := !sock.faulted && !closed && HeadersOf(head).Some?;
        && (state_ == STATE_DATA ==> good)
        && answers == if good then [Switching(KeyOf(HeadersOf(head).value))]
                      else if closed && !sock.faulted then [] else [Refusal("")]
      ensures Greeted(head, closed)
    {
    }

    lemma IsContinued(ps: seq<seq<byte>>, piece: seq<byte>, savedBefore: seq<byte>, answersBefore: seq<Answer>)
      requires if state_ == STATE_ERROR then saved == savedBefore && answers == answersBefore
               else
                 && readPacket_.len_ <= |readPacket_.Buffer()| && pieces == ps + [piece] && arrived == []
                 && var e := EffectOf(readPacket_.View());
                    && state_ == (if e.Final? then STATE_CLOSE else STATE_DATA)
                    && saved == savedBefore + BytesOf(e)
                    && answers == (answersBefore + if e.Stored? then [Result(false)] else [])
                                  + if e.Final? then [Result(true)] else []
      ensures Continued(ps, piece, savedBefore, answersBefore)
    {
      if state_ != STATE_ERROR {
        AnswersAppend([], EffectOf(readPacket_.View()));
      }
    }

    /** What is left of the outcome when the upload goes on or ends. */
    lemma OutcomeMeans(e: Effect, savedBefore: seq<byte>, answersBefore: seq<Answer>)
      requires Outcome(e, savedBefore, answersBefore)
      ensures state_ == (if e.Final? then STATE_FINISH else STATE_DATA) && saved == savedBefore + BytesOf(e)
      ensures answers == answersBefore + if e.Stored? then [Result(false)] else []
    {
    }

    /** What the effect of a call changes. */
    ghost predicate Outcome(e: Effect, savedBefore: seq<byte>, answersBefore: seq<Answer>)
      reads this`saved, this`answers, this`state_
    {
      && state_ == (if e.Final? then STATE_FINISH else STATE_DATA)
      && saved == savedBefore + BytesOf(e)
      && answers == answersBefore + if e.Stored? then [Result(false)] else []
    }

    /** Bytes arrive from the peer. */
    method Arrive(bytes: seq<byte>)
      requires Settled()
      modifies this`arrived, sock`queue
      ensures Settled() && sock.queue == old(sock.queue) + bytes && arrived == old(arrived) + bytes
    {
      hide *;
      SettledMeans();
      ghost var before := arrived;
      sock.Arrive(bytes);
      arrived := arrived + bytes;
      ArrivedState(before, bytes);
    }

    lemma ArrivedState(before: seq<byte>, bytes: seq<byte>)
      requires Packets() && IsKey(KeyOf(headers_)) && Told(answers, written, outlet.sent, uuid_)
      requires registered <==> state_ == STATE_HEAD || state_ == STATE_DATA
      requires match state_
        case STATE_HEAD => Waiting()
        case STATE_DATA =>
          && readPacket_.len_ <= |readPacket_.Buffer()|
          && sock.queue == Run(start, pieces).0.unread + before + bytes && arrived == before + bytes
          && readPacket_.View() == Run(start, pieces).0.p
          && !sock.faulted && Conversing(Seen()) && !is_final_ && this_conn_bytes_ == |saved|
        case STATE_CLOSE => Closing()
        case STATE_ERROR => TurnedAway() || Conversing(Seen())
        case _ => false
      requires overrun ==> fatal <= before && arrived == before + bytes && WrittenBehind()
      ensures Settled()
    {
      hide IsKey, KeyOf, Told, Packets, Closing, TurnedAway, Waiting, Starting, Conversing, Run, Effects, WrittenBehind;
    }

    lemma SettledMeans()
      requires Settled()
      ensures readPacket_.len_ <= |readPacket_.Buffer()|
      ensures Packets() && IsKey(KeyOf(headers_)) && Told(answers, written, outlet.sent, uuid_)
      ensures registered <==> state_ == STATE_HEAD || state_ == STATE_DATA
      ensures state_ == STATE_HEAD || state_ == STATE_DATA || state_ == STATE_CLOSE || state_ == STATE_ERROR
      ensures state_ == STATE_HEAD ==> Waiting()
      ensures state_ == STATE_DATA ==> Reading()
      ensures state_ == STATE_CLOSE ==> Closing()
      ensures state_ == STATE_ERROR ==> TurnedAway() || Conversing(Seen())
      ensures state_ == STATE_DATA ==>
        sock.queue == Run(start, pieces).0.unread + arrived && !sock.faulted && Conversing(Seen()) && !is_final_
        && this_conn_bytes_ == |saved| && readPacket_.View() == Run(start, pieces).0.p
      ensures Blamed() && (overrun ==> fatal <= arrived && WrittenBehind() && state_ == STATE_ERROR)
    {
      hide IsKey, KeyOf, Told, Packets, Closing, TurnedAway, Waiting, Starting, Conversing, Run, Effects, Overruns;
      PacketsApart();
    }

    /** The connection is taken off the poller once it is over. */
    method HandleConn()
      requires Valid() && Blamed() && state_ != STATE_START && state_ != STATE_FINISH
      modifies this`registered
      ensures Settled()
    {
      hide Valid, Blamed;
      registered := state_ != STATE_ERROR && state_ != STATE_CLOSE;
    }

    /** One event of the poller: hang-up, error, input, and urgent input or the end of the peer's sending. A hang-up
        without input and an error are ignored. */
    method HandleEvents(hangup: bool, failed: bool, input: bool, urgent: bool, closed: bool)
      requires Settled() && registered
      modifies this`state_, this`error_, this`is_final_, this`headers_, this`this_conn_bytes_, this`saved, this`answers,
               this`written, this`start, this`pieces, this`arrived, this`overrun, this`fatal, this`room,
               this`registered, readPacket_, readPacket_.data_, writePacket_, writePacket_.data_, sock, outlet
      ensures Settled()
      ensures readPacket_.data_ == old(readPacket_.data_) || fresh(readPacket_.data_)
      ensures writePacket_.data_ == old(writePacket_.data_) || fresh(writePacket_.data_)
      ensures failed || (hangup && !input) || !(input || urgent) ==>
        state_ == old(state_) && answers == old(answers) && saved == old(saved) && pieces == old(pieces)
      ensures !failed && (input || (urgent && !hangup)) && old(state_) == STATE_HEAD ==>
        Greeted(old(sock.queue), closed)
      ensures !failed && (input || (urgent && !hangup)) && old(state_) == STATE_DATA ==>
        Continued(old(pieces), old(arrived), old(saved), old(answers))
    {
      hide *;
      SettledMeans();
      SettledIsValid();
      if hangup && !input {
        return;
      }
      if failed {
        return;
      }
      if input || urgent {
        HandleRead(closed);
      }
      HandleConn();
    }

    lemma SettledIsValid()
      requires Settled()
      ensures Valid()
    {
      hide Valid;
    }

    // What a whole conversation looks like.

    /** At every moment the server has sent nothing, or one refusal, or the handshake reply, followed by
        intermediate results and at most one final result, with nothing behind it. Results only follow a
        handshake reply that was sent completely. */
    lemma {:induction false} Protocol()
      requires Settled()
      ensures OneConversation(answers, written, outlet.sent, uuid_, state_ == STATE_CLOSE)
    {
      hide IsKey, KeyOf, Packets, Reading, Starting, InStep, Effects, Answer.Wire, Answer.Valid, Saved;
      SettledMeans();
      if state_ == STATE_CLOSE {
        OnlyIntermediate(Before());
        AnswersAppend(Before(), Final);
      } else if Conversing(Seen()) {
        OnlyIntermediate(Seen());
      }
    }

    /** The handshake is complete, so that the calls of the reader count. */
    ghost predicate InConversation()
      reads this`state_, this`answers, this`written, this`start, this`pieces, this`saved, this`error_
    {
      state_ == STATE_DATA || state_ == STATE_CLOSE || (state_ == STATE_ERROR && Conversing(Seen()))
    }

    /** Whatever was sent, in every reachable state: what has been saved are the payloads of the frames completed before
        the upload ended, in order and without three-byte texts, and there is one intermediate result for each saved
        frame and each idle call. */
    lemma {:induction false} SavedIsExact()
      requires Settled()
      ensures if !InConversation() then saved == [] else
        var done := Completions(start, pieces);
        && saved == Upload(done) && !Ended(done)
        && |answers| == 1 + Uploading(done) + IdleCalls(start, pieces) + (if state_ == STATE_CLOSE then 1 else 0)
        && (state_ == STATE_CLOSE <==> |Heard(start, pieces)| < |pieces|)
    {
      hide IsKey, KeyOf, Packets, Starting, InStep, Effects, Told, Saved, Upload, Ended, Uploading, IdleCalls, Results,
           Completions, Heard, WrittenBehind, Run, Answers;
      SettledMeans();
      SavedExactly(start, pieces);
      if state_ == STATE_CLOSE {
        OneAnswerEach(Before());
        AnswersAppend(Before(), Final);
        ResultsAppend(Before(), Final);
      } else if InConversation() {
        OneAnswerEach(Seen());
      }
    }

    /** Masked frames that follow the handshake in any pieces, in every reachable state: the frames completed before the
        upload ended are the first `n` ones, and what has been saved are their payloads in order, without three-byte
        texts. The connection is closed exactly when the next frame has ended the upload, and then all of the upload
        has been saved. */
    lemma {:induction false} UploadIsSaved(fs: seq<Frame.DataFrame>) returns (n: nat)
      requires Settled() && AllMasked(fs) && Flatten(pieces) <= Stream(fs)
      ensures n <= |fs| && saved == Upload(Sent(fs[..n])) && !Ended(Sent(fs[..n]))
      ensures if !InConversation() then n == 0 else
        && Completions(start, pieces) == Sent(fs[..n])
        && |answers| == 1 + Uploading(Sent(fs[..n])) + IdleCalls(start, pieces) +
          (if state_ == STATE_CLOSE then 1 else 0)
      ensures state_ == STATE_CLOSE ==>
        n < |fs| && Ends(fs[n].opcode, fs[n].payload) && saved == Upload(Sent(fs)) && Ended(Sent(fs))
    {
      hide IsKey, KeyOf, Packets, Starting, InStep, Effects, Told, Saved, Upload, Ended, Uploading, IdleCalls, Results,
           Completions, Heard, WrittenBehind, Run, Answers, Sent, AllMasked, Stream;
      SavedIsExact();
      n := 0;
      if InConversation() {
        StartOfConversation();
        n := UploadSaved(fs, start.p, pieces);
        SentPrefix(fs, n);
        UploadPrefix(Sent(fs), n);
        SavedExactly(start, pieces);
      } else {
        NothingSent();
        SettledMeans();
        assert fs[..0] == [];
      }
    }

    lemma StartOfConversation()
      requires Settled() && InConversation()
      ensures start == ReaderState(start.p, []) && start.p.state == PACKET_INIT
    {
      hide IsKey, KeyOf, Packets, Starting, InStep, Effects, Told, Said, WrittenBehind, Run, Before;
      SettledMeans();
    }

    lemma NothingSent()
      ensures Upload(Sent([])) == [] && !Ended(Sent([]))
    {
    }

    /** When everything has been read and the connection is still open, all of the upload has been saved, none of the
        frames ends it, and there is one result for each saved frame and each idle call. */
    lemma {:induction false} UploadIsAnswered(fs: seq<Frame.DataFrame>)
      requires Settled() && AllMasked(fs) && state_ == STATE_DATA && sock.queue == [] && Flatten(pieces) == Stream(fs)
      ensures saved == Upload(Sent(fs)) && !Ended(Sent(fs))
      ensures |answers| == 1 + Uploading(Sent(fs)) + IdleCalls(start, pieces)
    {
      hide IsKey, KeyOf, Packets, Starting, InStep, Effects, Told, Saved, Upload, Ended, Uploading, IdleCalls, Results,
           Heard, WrittenBehind, Run, Answers, Sent, AllMasked, Stream, Delivered, Completions, Conversing, Told;
      SavedIsExact();
      SettledMeans();
      StartOfConversation();
      SavedExactly(start, pieces);
      AllHeard(start, pieces);
      var n, c := SegmentationIrrelevant(fs, start.p, pieces);
      assert fs[..|fs|] == fs;
    }

    /** A client whose frames have payload lengths that fit an `int`, masked or not, never makes the server write behind
        the buffer of its reader. */
    lemma {:induction false} NeverOverruns(fs: seq<Frame.DataFrame>)
      requires Settled() && Flatten(pieces) + arrived <= Stream(fs)
      ensures !overrun
    {
      hide IsKey, KeyOf, Packets, Starting, InStep, Effects, Told, Run, Stream, Flatten, Overruns, Expects;
      SettledMeans();
      if overrun {
        var s := StartExpects(fs, start.p, Flatten(pieces) + fatal);
        var fs', c', stale' := RunExpects(start, fs, 0, start.p.key, pieces, fatal);
        StreamFits(Run(start, pieces).0, fs', c', stale', fatal, room);
      }
    }
  }

  lemma {:induction false} OnlyIntermediate(es: seq<Effect>)
    requires Final !in es
    ensures forall i :: 0 <= i < |Answers(es)| ==> Answers(es)[i] == Result(false)
  {
    if es != [] {
      OnlyIntermediate(es[..|es| - 1]);
      assert es[|es| - 1] != Final;
    }
  }

  lemma {:induction false} OneAnswerEach(es: seq<Effect>)
    requires Final !in es
    ensures |Answers(es)| == Results(es)
    decreases |es|
  {
    if es != [] {
      var init, last := es[..|es| - 1], es[|es| - 1];
      assert es == init + [last] && last in es;
      OneAnswerEach(init);
      ResultsAppend(init, last);
    }
  }

  lemma {:induction false} ResultsAppend(es: seq<Effect>, e: Effect)
    requires Final !in es
    ensures Results(es + [e]) == Results(es) + if e.Stored? then 1 else 0
  {
    if es == [] {
      assert [e][1..] == [];
    } else {
      assert (es + [e])[1..] == es[1..] + [e];
      ResultsAppend(es[1..], e);
    }
  }

  /** What the poller and the peer do. */
  datatype Event = Event(bytes: seq<byte>, hangup: bool, failed: bool, input: bool, urgent: bool, closed: bool)

  /** A connection from its first event on; nothing is reported any more once it is over. */
  method Serve(uuid: Uuid, garbage: MaskKey, garbage': MaskKey, events: seq<Event>) returns (conn: WebSocketData)
    ensures fresh(conn) && conn.Settled() && conn.uuid_ == uuid
    ensures OneConversation(conn.answers, conn.written, conn.outlet.sent, uuid, conn.state_ == STATE_CLOSE)
    ensures conn.registered <==> conn.state_ == STATE_HEAD || conn.state_ == STATE_DATA
  {
    hide *;
    conn := new WebSocketData(uuid, garbage, garbage');
    for i := 0 to |events|
      invariant conn.Settled() && fresh(conn) && conn.uuid_ == uuid
      invariant fresh(conn.sock) && fresh(conn.outlet) && fresh(conn.readPacket_) && fresh(conn.writePacket_)
      invariant conn.readPacket_.data_ == null || fresh(conn.readPacket_.data_)
      invariant conn.writePacket_.data_ == null || fresh(conn.writePacket_.data_)
    {
      var e := events[i];
      conn.Arrive(e.bytes);
      if conn.registered {
        conn.HandleEvents(e.hangup, e.failed, e.input, e.urgent, e.closed);
      }
    }
    conn.SettledMeans();
    conn.Protocol();
  }

  /** One more call of the reader that went well, in terms of the run so far. */
  lemma CallRead(start: Reader, pieces: seq<seq<byte>>, piece: seq<byte>, s: Stage, p: PacketView, rest: seq<byte>)
    requires s != Refuse && s != Overrun
    requires var reader := Run(start, pieces).0;
      Described(s, p, rest) == Advance(reader.p, reader.unread + piece)
    ensures Run(start, pieces + [piece]).0 == ReaderState(p, rest)
    ensures Effects(start, pieces + [piece]) == Effects(start, pieces) + [EffectOf(p)]
  {
    hide Advance, Run, Effects, EffectOf;
    CallEffect(Run(start, pieces).0, piece);
    EffectsAppend(start, pieces, piece);
  }

  lemma NothingSeen(s: Reader)
    ensures Run(s, []) == (s, []) && Effects(s, []) == [] && Answers([]) == [] && Saved([]) == []
  {
  }
}
