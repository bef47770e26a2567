/** A WebSocket connection as an object: its fields, the listener it reports to and the
    channel it writes to.
  */
module WebSocketImpl {
  import opened Options
  import opened ByteBuffers
  import opened Connection

  /** A listener that remembers what it has been told, and does not call back. */
  class WebSocketListener {
    var calls: seq<Call>

    constructor ()
      ensures calls == []
    {
      calls := [];
    }

    method OnWriteDemand()
      modifies this
      ensures calls == old(calls) + [Call.OnWriteDemand]
    {
      calls := calls + [Call.OnWriteDemand];
    }

    method OnWebsocketOpen()
      modifies this
      ensures calls == old(calls) + [OnOpen]
    {
      calls := calls + [OnOpen];
    }

    method OnWebsocketCloseInitiated(code: int, message: string)
      modifies this
      ensures calls == old(calls) + [OnCloseInitiated(code, message)]
    {
      calls := calls + [OnCloseInitiated(code, message)];
    }

    method OnWebsocketClosing(code: int, message: string, remote: bool)
      modifies this
      ensures calls == old(calls) + [OnClosing(Reason(code, message, remote))]
    {
      calls := calls + [OnClosing(Reason(code, message, remote))];
    }

    method OnWebsocketClose(code: int, message: string, remote: bool)
      modifies this
      ensures calls == old(calls) + [OnClose(Reason(code, message, remote))]
    {
      calls := calls + [OnClose(Reason(code, message, remote))];
    }

    method OnWebsocketError()
      modifies this
      ensures calls == old(calls) + [OnError]
    {
      calls := calls + [OnError];
    }
  }

  /** A plain channel.  `room` is how many bytes each of the next writes is going to take. */
  class ByteChannel {
    var written: seq<byte>
    var room: seq<nat>

    constructor (room: seq<nat>)
      ensures written == [] && this.room == room
    {
      written, this.room := [], room;
    }

    method Write(buffer: seq<byte>) returns (n: nat)
      modifies this
      ensures n == Taken(if old(room) == [] then 0 else old(room)[0], buffer)
      ensures room == if old(room) == [] then [] else old(room)[1..]
      ensures written == old(written) + buffer[..n]
    {
      if room == [] {
        n := 0;
      } else {
        n := Taken(room[0], buffer);
        room := room[1..];
      }
      written := written + buffer[..n];
    }
  }

  class WebSocketImpl {
    const wsl: WebSocketListener
    const channel: ByteChannel
    const role: Role
    var outQueue: seq<seq<byte>>
    var flushandclosestate: bool
    var readyState: ReadyState
    var knownDrafts: seq<Draft>
    var draft: Option<Draft>
    var tmpHandshakeBytes: Option<ByteBuffer>
    var closemessage: Option<string>
    var closecode: Option<int>
    var closedremotely: Option<bool>

    /** What has been put into the output queue, and what has been handed to the frame
        decoder. */
    ghost var queued: seq<Item>
    ghost var frames: seq<byte>

    /** Code, message and origin of a closing are set together. */
    ghost predicate Valid()
      reads this
    {
      closemessage.Some? == closecode.Some? == closedremotely.Some?
    }

    ghost function State(): Conn
      requires Valid()
      reads this, wsl, channel
    {
      Conn(role, knownDrafts, draft, readyState, flushandclosestate,
           if closecode.Some? then Some(Reason(closecode.value, closemessage.value, closedremotely.value)) else None,
           tmpHandshakeBytes, outQueue, wsl.calls, queued, channel.written, frames)
    }

    /** A connection of a server, with the drafts it may use. */
    constructor Server(listener: WebSocketListener, channel: ByteChannel, drafts: seq<Draft>, standard: Draft)
      ensures Valid() && wsl == listener && this.channel == channel
      ensures State() == Conn(SERVER, if drafts == [] then [standard] else drafts, None, NOT_YET_CONNECTED, false, None,
                              Some(Allocate(0)), [], listener.calls, [], channel.written, [])
    {
      wsl, this.channel, role := listener, channel, SERVER;
      outQueue, flushandclosestate, readyState := [], false, NOT_YET_CONNECTED;
      knownDrafts := if drafts == [] then [standard] else drafts;
      draft, tmpHandshakeBytes := None, Some(Allocate(0));
      closemessage, closecode, closedremotely := None, None, None;
      queued, frames := [], [];
    }

    /** A connection of a client, with a copy of its draft. */
    constructor Client(listener: WebSocketListener, channel: ByteChannel, draft: Draft)
      ensures Valid() && wsl == listener && this.channel == channel
      ensures State() == Conn(CLIENT, [], Some(draft.(role := None)), NOT_YET_CONNECTED, false, None,
                              Some(Allocate(0)), [], listener.calls, [], channel.written, [])
    {
      wsl, this.channel, role := listener, channel, CLIENT;
      outQueue, flushandclosestate, readyState := [], false, NOT_YET_CONNECTED;
      knownDrafts := [];
      this.draft, tmpHandshakeBytes := Some(draft.(role := None)), Some(Allocate(0));
      closemessage, closecode, closedremotely := None, None, None;
      queued, frames := [], [];
    }

    // ---------- sending ----------

    method Write(buf: seq<byte>, ghost item: Item)
      requires Valid() && item.bytes == buf
      modifies this`outQueue, this`queued, wsl
      ensures Valid() && State() == Connection.Write(old(State()), item)
    {
      outQueue := outQueue + [buf];
      queued := queued + [item];
      wsl.OnWriteDemand();
    }

    method WriteAll(bufs: seq<seq<byte>>, ghost items: seq<Item>)
      requires Valid()
      requires |items| == |bufs| && forall i :: 0 <= i < |items| ==> items[i].bytes == bufs[i]
      modifies this`outQueue, this`queued, wsl
      ensures Valid() && State() == Connection.WriteAll(old(State()), items)
    {
      for i := 0 to |bufs|
        invariant Valid() && State() == Connection.WriteAll(old(State()), items[..i])
      {
        assert items[..i + 1][..i] == items[..i];
        Write(bufs[i], items[i]);
      }
      assert items[..|bufs|] == items;
    }

    method SendBytes(frames: seq<seq<byte>>, ghost items: seq<Item>) returns (thrown: bool)
      requires Valid()
      requires |items| == |frames| && forall i :: 0 <= i < |items| ==> items[i].bytes == frames[i]
      modifies this`outQueue, this`queued, wsl
      ensures Valid() && thrown == (readyState != OPEN)
      ensures State() == if thrown then old(State()) else Connection.WriteAll(old(State()), items)
    {
      if readyState != OPEN {
        return true;
      }
      WriteAll(frames, items);
      return false;
    }

    /** Frames, as the draft has put them into bytes.  Throws unless the connection is open. */
    method Send(frames: seq<seq<byte>>) returns (thrown: bool)
      requires Valid()
      modifies this`outQueue, this`queued, wsl
      ensures Valid() && thrown == (readyState != OPEN)
      ensures State() == Connection.Send(old(State()), frames)
    {
      thrown := SendBytes(frames, Items(frames));
    }

    /** A client's handshake, if the listener, which has been asked, consents. */
    method StartHandshake(bytes: seq<seq<byte>>, consent: Consent) returns (thrown: bool)
      requires Valid()
      modifies this`outQueue, this`queued, wsl
      ensures Valid() && thrown == (consent != Consents)
      ensures State() == Connection.StartHandshake(old(State()), bytes, consent)
    {
      match consent {
        case Refuses =>
          return true;
        case BreaksDown =>
          wsl.OnWebsocketError();
          return true;
        case Consents =>
          WriteAll(bytes, Responses(bytes));
          return false;
      }
    }

    // ---------- closing ----------

    method FlushAndClose(code: int, message: string, remote: bool)
      requires Valid()
      modifies this`closecode, this`closemessage, this`closedremotely, this`flushandclosestate, wsl
      ensures Valid() && State() == Connection.FlushAndClose(old(State()), Reason(code, message, remote))
    {
      if flushandclosestate {
        return;
      }
      closecode := Some(code);
      closemessage := Some(message);
      closedremotely := Some(remote);
      flushandclosestate := true;
      wsl.OnWriteDemand();
      wsl.OnWebsocketClosing(code, message, remote);
    }

    method CloseConnection(code: int, message: string, remote: bool)
      requires Valid()
      modifies this`readyState, wsl
      ensures Valid() && State() == Connection.CloseConnection(old(State()), Reason(code, message, remote))
    {
      if readyState == CLOSED {
        return;
      }
      if readyState == OPEN {
        if code == ABNORMAL_CLOSE {
          readyState := CLOSING;
        }
      }
      wsl.OnWebsocketClose(code, message, remote);
      readyState := CLOSED;
    }

    /** Throws if nobody has said why to close. */
    method CloseFlushed() returns (thrown: bool)
      requires Valid()
      modifies this`readyState, wsl
      ensures Valid() && thrown == closedremotely.None?
      ensures State() ==
        if thrown then old(State()) else Connection.CloseConnection(old(State()), old(State().reason).value)
    {
      if closedremotely == None {
        return true;
      }
      CloseConnection(closecode.value, closemessage.value, closedremotely.value);
      return false;
    }

    method Close(code: int, message: string, remote: bool)
      requires Valid() && (readyState == OPEN ==> draft.Some?)
      modifies this, wsl
      ensures Valid() && State() == Connection.Close(old(State()), code, message, remote)
    {
      hide Connection.SayClose, Connection.FlushAndClose;
      if readyState != CLOSING && readyState != CLOSED {
        if readyState == OPEN {
          if code == ABNORMAL_CLOSE {
            readyState := CLOSING;
            FlushAndClose(code, message, false);
            return;
          }
          SayClose(code, message, remote);
          FlushAndClose(code, message, remote);
        } else if code == FLASHPOLICY {
          FlushAndClose(FLASHPOLICY, message, true);
        } else if code == PROTOCOL_ERROR {
          FlushAndClose(code, message, remote);
        } else {
          FlushAndClose(NEVER_CONNECTED, message, false);
        }
        readyState := CLOSING;
        tmpHandshakeBytes := None;
      }
    }

    /** The part of closing that the other end hears of. */
    method SayClose(code: int, message: string, remote: bool)
      requires Valid() && readyState == OPEN && draft.Some?
      modifies this`outQueue, this`queued, this`closecode, this`closemessage, this`closedremotely, this`flushandclosestate, wsl
      ensures Valid() && State() == Connection.SayClose(old(State()), code, message, remote)
    {
      if draft.value.closeHandshakeType != NONE {
        if !remote {
          wsl.OnWebsocketCloseInitiated(code, message);
        }
        ghost var s := State();
        var closeFrame := MakeCloseFrame(code, message);
        if IsValid(closeFrame) {
          var bytes := draft.value.binaryClose(closeFrame);
          ghost var item := ByClose(bytes);
          assert [item][..0] == [];
          assert Connection.WriteAll(s, [item]) == Connection.Write(s, item);
          var thrown := SendBytes([bytes], [item]);
        } else {
          wsl.OnWebsocketError();
          FlushAndClose(ABNORMAL_CLOSE, "generated frame is invalid", false);
        }
      }
    }

    /** The other end has closed the channel.  Fails when there is no draft to ask. */
    method Eot() returns (failed: bool)
      requires Valid() && (flushandclosestate ==> closedremotely.Some?)
      modifies this`readyState, wsl
      ensures Valid() && failed == EotFails(old(State()))
      ensures State() == if failed then old(State()) else Connection.Eot(old(State()))
    {
      if readyState == NOT_YET_CONNECTED {
        CloseConnection(NEVER_CONNECTED, "", true);
      } else if flushandclosestate {
        CloseConnection(closecode.value, closemessage.value, closedremotely.value);
      } else if draft == None {
        return true;
      } else if draft.value.closeHandshakeType == NONE {
        CloseConnection(NORMAL, "", true);
      } else if draft.value.closeHandshakeType == ONEWAY {
        if role == SERVER {
          CloseConnection(ABNORMAL_CLOSE, "", true);
        } else {
          CloseConnection(NORMAL, "", true);
        }
      } else {
        CloseConnection(ABNORMAL_CLOSE, "", true);
      }
      return false;
    }

    // ---------- receiving ----------

    method Open()
      requires Valid()
      modifies this`readyState, wsl
      ensures Valid() && State() == Connection.Open(old(State()))
    {
      readyState := OPEN;
      wsl.OnWebsocketOpen();
    }

    method CloseConnectionDueToWrongHandshake(code: int, message: string)
      requires Valid()
      modifies this`outQueue, this`queued, this`closecode, this`closemessage, this`closedremotely, this`flushandclosestate, wsl
      ensures Valid() && State() == CloseDueToWrongHandshake(old(State()), code, message)
    {
      Write(NotFound(), ByHandshake(NotFound()));
      FlushAndClose(code, message, false);
    }

    method CloseConnectionDueToInternalServerError(message: string)
      requires Valid()
      modifies this`outQueue, this`queued, this`closecode, this`closemessage, this`closedremotely, this`flushandclosestate, wsl
      ensures Valid() && State() == CloseDueToInternalError(old(State()), message)
    {
      Write(InternalError(), ByHandshake(InternalError()));
      FlushAndClose(NEVER_CONNECTED, message, false);
    }

    /** A draft accepts the handshake, and the server's listener answers. */
    method AnswerMatch(d: Draft, answer: Answer) returns (done: bool)
      requires Valid()
      modifies this, wsl
      ensures Valid() && done == answer.Agreed?
      ensures State() ==
        match answer
        case Agreed(response) =>
          Connection.Open(Connection.WriteAll(old(State()), Responses(response)).(draft := Some(d)))
        case Rejected(code, message) => CloseDueToWrongHandshake(old(State()), code, message)
        case Failed(message) => CloseDueToInternalError(Tell(old(State()), OnError), message)
    {
      hide Connection.Write, Connection.WriteAll, Connection.FlushAndClose, NotFound, InternalError;
      done := false;
      match answer {
        case Agreed(response) =>
          WriteAll(response, Responses(response));
          draft := Some(d);
          Open();
          done := true;
        case Rejected(code, message) =>
          CloseConnectionDueToWrongHandshake(code, message);
        case Failed(message) =>
          wsl.OnWebsocketError();
          CloseConnectionDueToInternalServerError(message);
      }
    }

    /** Each known draft reads the handshake from its beginning. */
    method JudgeAsServer(judge: Judge, bytes: seq<byte>) returns (p: Parse, done: bool)
      requires Valid() && knownDrafts != [] && role == SERVER && draft.None?
      modifies this, wsl
      ensures Valid() && (State(), p, done) == JudgedByServer(old(State()), judge, bytes)
    {
      hide Connection.Write, Connection.WriteAll, Connection.FlushAndClose, NotFound, InternalError;
      ghost var s := State();
      p, done := Parse(Refused(""), 0), false;
      for i := 0 to |knownDrafts|
        invariant State() == s && Valid() && knownDrafts == s.knownDrafts && draft.None?
        invariant FirstToDecide(judge, knownDrafts, bytes, 0) == FirstToDecide(judge, knownDrafts, bytes, i)
        invariant i > 0 ==> p.used == judge(knownDrafts[i - 1].(role := Some(SERVER)), bytes).used
      {
        var d := knownDrafts[i].(role := Some(SERVER));
        p := judge(d, bytes);
        match p.verdict {
          case Incomplete(_) =>
            return;
          case WrongFunction =>
            CloseConnectionDueToWrongHandshake(PROTOCOL_ERROR, "wrong http function");
            return;
          case Matched(answer) =>
            done := AnswerMatch(d, answer);
            return;
          case _ =>
        }
      }
      CloseConnectionDueToWrongHandshake(PROTOCOL_ERROR, "no draft matches");
      p := Parse(Refused(""), p.used);
    }

    /** The draft that is already there reads the handshake. */
    method JudgeByDraft(judge: Judge, bytes: seq<byte>) returns (p: Parse, done: bool)
      requires Valid() && draft.Some? && readyState == NOT_YET_CONNECTED
      modifies this, wsl
      ensures Valid() && (State(), p, done) == JudgedByDraft(old(State()), judge, bytes)
    {
      hide Connection.FlushAndClose, Connection.Close;
      if role == CLIENT {
        draft := Some(draft.value.(role := Some(CLIENT)));
      }
      p, done := judge(draft.value, bytes), false;
      match p.verdict {
        case Incomplete(_) =>
        case Invalid(message) =>
          Close(PROTOCOL_ERROR, message, false);
        case WrongFunction =>
          FlushAndClose(PROTOCOL_ERROR, "wrong http function", false);
        case Refused(description) =>
          Close(PROTOCOL_ERROR, Refusal(role, description), false);
        case Matched(answer) =>
          if role == SERVER {
            Open();
            done := true;
          } else {
            done := HearAnswer(answer);
          }
      }
    }

    /** What the client's listener answers to a handshake that the draft accepts. */
    method HearAnswer(answer: Answer) returns (done: bool)
      requires Valid()
      modifies this, wsl
      ensures Valid() && done == answer.Agreed?
      ensures State() ==
        if answer.Agreed? then Connection.Open(old(State()))
        else if answer.Rejected? then
          Connection.FlushAndClose(old(State()), Reason(answer.code, answer.message, false))
        else
          Connection.FlushAndClose(Tell(old(State()), OnError), Reason(NEVER_CONNECTED, answer.message, false))
    {
      hide Connection.FlushAndClose;
      done := false;
      match answer {
        case Agreed(_) =>
          Open();
          done := true;
        case Rejected(code, message) =>
          FlushAndClose(code, message, false);
        case Failed(message) =>
          wsl.OnWebsocketError();
          FlushAndClose(NEVER_CONNECTED, message, false);
      }
    }

    /** Handing bytes to the draft's frame decoder.  What the frames ask for are calls of their
        own. */
    method DecodeFrames(socketBuffer: ByteBuffer)
      requires Valid() && socketBuffer.Valid()
      modifies this`frames
      ensures Valid() && State() == old(State()).(frames := old(frames) + socketBuffer.Unread())
    {
      frames := frames + socketBuffer.Unread();
    }

    /** Puts a chunk behind what has been collected.  Every put fits. */
    method Collect(chunk: ByteBuffer) returns (r: ByteBuffer)
      requires Valid() && chunk.Valid() && tmpHandshakeBytes.Some? && tmpHandshakeBytes.value.Valid()
      ensures r == Collected(tmpHandshakeBytes.value, chunk)
    {
      var tmp := tmpHandshakeBytes.value;
      if tmp.Capacity() == 0 {
        return chunk;
      }
      if tmp.Remaining() < chunk.Remaining() {
        var buf := Allocate(tmp.Capacity() + chunk.Remaining());
        tmp := tmp.Flip();
        buf := buf.Put(tmp.Unread());
        tmp := buf;
      }
      tmp := tmp.Put(chunk.Unread());
      return tmp.Flip();
    }

    /** Whether the handshake is complete, and what is left to read after it.  The buffer is
        stored once it has been judged, unless closing the connection has dropped it. */
    method DecodeHandshake(socketBufferNew: ByteBuffer, judge: Judge) returns (done: bool, rest: ByteBuffer)
      requires Valid() && readyState == NOT_YET_CONNECTED && Decodable(State(), socketBufferNew, judge)
      modifies this, wsl
      ensures Valid() && rest.Valid()
      ensures State().(frames := if done then frames + rest.Unread() else frames) ==
              Connection.DecodeHandshake(old(State()), socketBufferNew, judge)
    {
      hide Collected, JudgedByServer, JudgedByDraft, Sensible, Keep;
      var tmp := tmpHandshakeBytes.value;
      var socketBuffer := Collect(socketBufferNew);
      ghost var s := State();
      var p: Parse;
      if role == SERVER && draft == None {
        p, done := JudgeAsServer(judge, socketBuffer.Unread());
      } else {
        p, done := JudgeByDraft(judge, socketBuffer.Unread());
      }
      assert (State(), p, done) == Judged(s, judge, socketBuffer.Unread());
      hide Judged;
      rest := socketBuffer;
      if p.verdict.Incomplete? {
        tmpHandshakeBytes := Some(Keep(tmp, socketBuffer, p.verdict.preferredSize));
        NotDone(s, judge, socketBuffer.Unread());
      } else {
        rest := socketBuffer.Skip(p.used);
        if tmp.Capacity() != 0 && tmpHandshakeBytes.Some? {
          tmpHandshakeBytes := Some(rest);
        }
      }
    }

    method Decode(socketBuffer: ByteBuffer, judge: Judge)
      requires Valid() && Decodable(State(), socketBuffer, judge)
      modifies this, wsl
      ensures Valid() && State() == Connection.Decode(old(State()), socketBuffer, judge)
    {
      if readyState != NOT_YET_CONNECTED {
        if readyState == OPEN {
          DecodeFrames(socketBuffer);
        }
      } else {
        var done, rest := DecodeHandshake(socketBuffer, judge);
        hide Connection.DecodeHandshake, Decodable;
        if done && rest.Remaining() > 0 {
          DecodeFrames(rest);
        } else if done {
          assert frames + rest.Unread() == frames;
        }
      }
    }
  }

  lemma NotDone(c: Conn, judge: Judge, bytes: seq<byte>)
    requires Sensible(judge)
    requires if c.role == SERVER then c.knownDrafts != [] else c.draft.Some?
    ensures Judged(c, judge, bytes).1.verdict.Incomplete? ==> !Judged(c, judge, bytes).2
  {
    hide FirstToDecide, Connection.Close, Connection.FlushAndClose, Connection.WriteAll, Connection.Open;
  }
}
