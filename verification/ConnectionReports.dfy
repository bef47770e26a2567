/** What the listener of a connection hears, and what it is told about the end. */
module ConnectionReports {
  import opened Options
  import opened ByteBuffers
  import opened Connection
  import opened ConnectionInvariant
  import opened ConnectionLaws
  import opened ConnectionRuns

  /** What the listener hears, apart from the calls that only ask for the queue to be
      written. */
  function Notices(calls: seq<Call>): seq<Call> {
    if calls == [] then []
    else
      var last := calls[|calls| - 1];
      Notices(calls[..|calls| - 1]) + if last == OnWriteDemand then [] else [last]
  }

  lemma NoticesOneMore(calls: seq<Call>, call: Call)
    ensures Notices(calls + [call]) == Notices(calls) + if call == OnWriteDemand then [] else [call]
  {
    assert (calls + [call])[..|calls|] == calls;
  }

  lemma NoticesOfTell(c: Conn, call: Call)
    ensures Notices(Tell(c, call).calls) == Notices(c.calls) + if call == OnWriteDemand then [] else [call]
  {
    NoticesOneMore(c.calls, call);
  }

  lemma NoticesOfWrite(c: Conn, item: Item)
    ensures Notices(Write(c, item).calls) == Notices(c.calls)
  {
    NoticesOneMore(c.calls, OnWriteDemand);
  }

  /** Only the first reason is heard. */
  lemma NoticesOfFlush(c: Conn, r: Reason)
    ensures Notices(FlushAndClose(c, r).calls) == Notices(c.calls) + if c.flushAndClose then [] else [OnClosing(r)]
    ensures FlushAndClose(c, r).flushAndClose && FlushAndClose(c, r).queued == c.queued && FlushAndClose(c, r).ready == c.ready
    ensures FlushAndClose(c, r).reason == if c.flushAndClose then c.reason else Some(r)
  {
    NoticesOneMore(c.calls, OnWriteDemand);
    NoticesOneMore(c.calls + [OnWriteDemand], OnClosing(r));
    assert Notices(c.calls) + [] == Notices(c.calls);
  }

  lemma {:induction false} NoticesOfWriteAll(c: Conn, items: seq<Item>)
    ensures Notices(WriteAll(c, items).calls) == Notices(c.calls)
    ensures WriteAll(c, items).queued == c.queued + items
    ensures WriteAll(c, items) == c.(
      outQueue := WriteAll(c, items).outQueue, queued := WriteAll(c, items).queued, calls := WriteAll(c, items).calls)
    decreases |items|
  {
    if items == [] {
      assert c.queued + items == c.queued;
    } else {
      var init, last := items[..|items| - 1], items[|items| - 1];
      NoticesOfWriteAll(c, init);
      NoticesOfWrite(WriteAll(c, init), last);
      assert c.queued + init + [last] == c.queued + items;
    }
  }

  // ---------- closing ----------

  /** The reason that a call of `close` gives, for a connection that has no reason yet. */
  function ReasonFor(c: Conn, code: int, message: string, remote: bool): Reason
    requires c.ready == OPEN ==> c.draft.Some?
  {
    if c.ready == OPEN then
      if code == 1006 then Reason(1006, message, false)
      else if c.draft.value.closeHandshakeType == NONE || MaySend(code, message) then Reason(code, message, remote)
      else Reason(1006, "generated frame is invalid", false)
    else if code == -3 then Reason(-3, message, true)
    else if code == 1002 then Reason(1002, message, remote)
    else Reason(-1, message, false)
  }

  /** What is heard before that: that closing begins, unless the other end began it, and that
      the frame cannot be sent. */
  function HeardBefore(c: Conn, code: int, message: string, remote: bool): seq<Call>
    requires c.ready == OPEN ==> c.draft.Some?
  {
    if c.ready != OPEN || code == 1006 || c.draft.value.closeHandshakeType == NONE then []
    else (if remote then [] else [OnCloseInitiated(code, message)]) + (if MaySend(code, message) then [] else [OnError])
  }

  lemma SayCloseReports(c: Conn, code: int, message: string, remote: bool)
    requires c.ready == OPEN && c.draft.Some? && code != 1006
    ensures var d := SayClose(c, code, message, remote);
      var unsent := c.draft.value.closeHandshakeType != NONE && !MaySend(code, message);
      && d.flushAndClose == (c.flushAndClose || unsent)
      && d.reason == (if !c.flushAndClose && unsent then Some(Reason(1006, "generated frame is invalid", false)) else c.reason)
      && Notices(d.calls) == Notices(c.calls) + HeardBefore(c, code, message, remote) +
         if !c.flushAndClose && unsent then [OnClosing(Reason(1006, "generated frame is invalid", false))] else []
  {
    SendableCodes(code, message);
    hide IsValid, MaySend, Notices;
    var c1 := if remote then c else Tell(c, OnCloseInitiated(code, message));
    NoticesOfTell(c, OnCloseInitiated(code, message));
    NoticesOfTell(c1, OnError);
    NoticesOfWrite(c1, ByClose(c.draft.value.binaryClose(MakeCloseFrame(code, message))));
    NoticesOfFlush(Tell(c1, OnError), Reason(1006, "generated frame is invalid", false));
    hide Tell, Write, FlushAndClose, MakeCloseFrame;
  }

  /** Closing a connection that is not closing yet: what the listener hears, and the reason
      that is kept; the first one stays. */
  lemma CloseReports(c: Conn, code: int, message: string, remote: bool)
    requires c.ready == OPEN ==> c.draft.Some?
    requires c.ready == OPEN || c.ready == NOT_YET_CONNECTED
    ensures var (d, r) := (Close(c, code, message, remote), ReasonFor(c, code, message, remote));
      && d.ready == CLOSING && d.flushAndClose
      && d.reason == (if c.flushAndClose then c.reason else Some(r))
      && Notices(d.calls) == Notices(c.calls) + HeardBefore(c, code, message, remote) + if c.flushAndClose then [] else [OnClosing(r)]
  {
    hide IsValid, MaySend, Notices, FlushAndClose, SayClose;
    if c.ready == OPEN && code != 1006 {
      SayCloseReports(c, code, message, remote);
      NoticesOfFlush(SayClose(c, code, message, remote), Reason(code, message, remote));
    } else {
      var r := ReasonFor(c, code, message, remote);
      NoticesOfFlush(c, r);
      NoticesOfFlush(c.(ready := CLOSING), r);
      assert Notices(c.calls) + [] == Notices(c.calls);
    }
  }

  // ---------- the end ----------

  lemma {:induction false} ClosesAreNotices(calls: seq<Call>)
    ensures Closes(Notices(calls)) == Closes(calls)
    decreases |calls|
  {
    if calls != [] {
      var init, last := calls[..|calls| - 1], calls[|calls| - 1];
      ClosesAreNotices(init);
      if last != OnWriteDemand {
        SnocCalls(Notices(init), last);
      } else {
        assert Notices(init) + [] == Notices(init) && Closes(init) + [] == Closes(init);
      }
    }
  }

  /** A connection that has been told to close, for a reason. */
  ghost predicate Ending(c: Conn, r: Reason) {
    && c.flushAndClose && c.reason == Some(r) && (c.ready == CLOSING || c.ready == CLOSED)
    && Closes(c.calls) == if c.ready == CLOSED then [r] else []
  }

  lemma EndingClosed(c: Conn, r: Reason)
    requires Ending(c, r)
    ensures Ending(CloseConnection(c, r), r)
  {
    SnocCalls(c.calls, OnClose(r));
    hide Closes;
    assert [] + [r] == [r];
  }

  lemma EndingHandshake(c: Conn, bytes: seq<seq<byte>>, consent: Consent, r: Reason)
    requires Ending(c, r)
    ensures Ending(StartHandshake(c, bytes, consent), r)
  {
    var d := WriteAll(c, Responses(bytes));
    NoticesOfWriteAll(c, Responses(bytes));
    ClosesAreNotices(c.calls);
    ClosesAreNotices(d.calls);
    SnocCalls(c.calls, OnError);
    hide Closes, Notices, WriteAll;
    assert Closes(c.calls) + [] == Closes(c.calls);
  }

  lemma EndingStep(c: Conn, s: Step, r: Reason)
    requires Inv(c) && Possible(s) && Ending(c, r) && !s.StepCloseConnection?
    ensures Ending(Next(c, s), r)
  {
    hide Inv, Possible, Closes, CloseConnection, Flush, StartHandshake, FlushAndClose, DecodeHandshake;
    if s.StepCloseFlushed? || s.StepEot? {
      EndingClosed(c, r);
    } else if s.StepBatch? {
      FlushKeeps(c, s.room);
      EndingClosed(Flush(c, s.room), r);
    } else if s.StepStartHandshake? {
      EndingHandshake(c, s.bytes, s.consent, r);
    } else if s.StepFlushAndClose? {
      assert FlushAndClose(c, s.reason) == c by {
        FlushedAlready(c, s.reason);
      }
    }
  }

  lemma FlushedAlready(c: Conn, r: Reason)
    requires c.flushAndClose
    ensures FlushAndClose(c, r) == c
  {}

  lemma {:induction false} EndingRun(c: Conn, steps: seq<Step>, r: Reason)
    requires Inv(c) && AllPossible(steps) && Ending(c, r)
    requires forall i :: 0 <= i < |steps| ==> !steps[i].StepCloseConnection?
    ensures Ending(After(c, steps), r)
    decreases |steps|
  {
    if steps != [] {
      var init, last := steps[..|steps| - 1], steps[|steps| - 1];
      assert !last.StepCloseConnection? && forall i :: 0 <= i < |init| ==> !init[i].StepCloseConnection?;
      hide Inv, Next, Ending, Possible;
      AfterSplits(c, steps);
      EndingRun(c, init, r);
      EndingStep(After(c, init), last, r);
    }
  }

  /** A connection that is told to close for the first time by `close`: whatever calls follow,
      the reason that `close` gave is the one that the listener hears when the closing begins,
      and, unless somebody closes the connection with a reason of their own, when it ends. */
  lemma ReasonReachesTheEnd(c: Conn, code: int, message: string, remote: bool, steps: seq<Step>)
    requires Inv(c) && !c.flushAndClose && (c.ready == OPEN || c.ready == NOT_YET_CONNECTED)
    requires AllPossible(steps) && forall i :: 0 <= i < |steps| ==> !steps[i].StepCloseConnection?
    ensures Inv(Close(c, code, message, remote))
    ensures var d, r := After(Close(c, code, message, remote), steps), ReasonFor(c, code, message, remote);
      Closings(d.calls) == [r] && Closes(d.calls) == if d.ready == CLOSED then [r] else []
  {
    var c1, r := Close(c, code, message, remote), ReasonFor(c, code, message, remote);
    GoodClose(c, code, message, remote);
    CloseReports(c, code, message, remote);
    ToldOnce(c1);
    hide Close, Later, After, HeardBefore, ReasonFor, Closes, Notices;
    assert Ending(c1, r);
    EndingRun(c1, steps, r);
    ToldOnce(After(c1, steps));
    hide Inv, Closings;
  }

  lemma ToldOnce(c: Conn)
    requires Inv(c)
    ensures c.flushAndClose ==> c.reason.Some? && Closings(c.calls) == [c.reason.value]
    ensures c.ready != CLOSED ==> Closes(c.calls) == []
  {
    hide Closes, Closings;
  }

  /** The other end closes the channel: -1 for a connection that was never open, the reason kept
      if there is one, else 1000 if the draft has no close handshake, or one way of it and this
      is a client, and 1006 otherwise; the reason counts as the other end's. */
  lemma EotReports(c: Conn)
    requires Inv(c) && !EotFails(c) && c.ready != CLOSED
    ensures c.flushAndClose ==> c.reason.Some?
    ensures c.ready != NOT_YET_CONNECTED && !c.flushAndClose ==> c.draft.Some?
    ensures Eot(c).ready == CLOSED
    ensures Closes(Eot(c).calls) == [
      if c.ready == NOT_YET_CONNECTED then Reason(-1, "", true)
      else if c.flushAndClose then c.reason.value
      else if c.draft.value.closeHandshakeType == NONE then Reason(1000, "", true)
      else if c.draft.value.closeHandshakeType == ONEWAY && c.role == CLIENT then Reason(1000, "", true)
      else Reason(1006, "", true)]
  {
    ToldOnce(c);
    SnocCalls(c.calls, OnClose(EotReason(c)));
    hide Closes, Closings, Phased, Said;
    assert [] + [EotReason(c)] == [EotReason(c)];
  }

  lemma OneClose(c: Conn, r: Reason)
    requires Closes(c.calls) == []
    ensures Closes(c.calls + [OnClose(r)]) == [r]
  {
    SnocCalls(c.calls, OnClose(r));
    hide Closes;
    assert [] + [r] == [r];
  }

  /** Closing at once tells the reason given; closing without one tells the reason kept, and is an
      exception that changes nothing if none has been kept. */
  lemma EndReports(c: Conn, r: Reason)
    requires Inv(c) && c.ready != CLOSED
    ensures var d := Next(c, StepCloseConnection(r)); d.ready == CLOSED && Closes(d.calls) == [r]
    ensures var d := Next(c, StepCloseFlushed);
      if c.flushAndClose then c.reason.Some? && d.ready == CLOSED && Closes(d.calls) == [c.reason.value] else d == c
  {
    ToldOnce(c);
    OneClose(c, r);
    if c.flushAndClose {
      OneClose(c, c.reason.value);
    }
    hide Closes, Closings, Phased, Said;
  }

  // ---------- sending ----------

  lemma {:induction false} WriteAllQueues(c: Conn, items: seq<Item>, bytes: seq<seq<byte>>)
    requires |items| == |bytes| && forall i :: 0 <= i < |items| ==> items[i].bytes == bytes[i]
    ensures WriteAll(c, items).outQueue == c.outQueue + bytes
    decreases |items|
  {
    if items == [] {
      assert c.outQueue + bytes == c.outQueue;
    } else {
      var n := |items| - 1;
      WriteAllQueues(c, items[..n], bytes[..n]);
      assert c.outQueue + bytes[..n] + [bytes[n]] == c.outQueue + bytes;
    }
  }

  /** An open connection queues all frames, in order and behind those before them; any other
      queues nothing. */
  lemma SendQueues(c: Conn, frames: seq<seq<byte>>)
    ensures Send(c, frames).outQueue == c.outQueue + if c.ready == OPEN then frames else []
    ensures |Send(c, frames).queued| == |c.queued| + if c.ready == OPEN then |frames| else 0
    ensures Send(c, frames).ready == c.ready && Notices(Send(c, frames).calls) == Notices(c.calls)
  {
    WriteAllQueues(c, Items(frames), frames);
    NoticesOfWriteAll(c, Items(frames));
    hide WriteAll, Notices;
    assert c.outQueue + [] == c.outQueue;
  }

  /** And so does a handshake that the listener consents to. */
  lemma StartQueues(c: Conn, bytes: seq<seq<byte>>, consent: Consent)
    ensures StartHandshake(c, bytes, consent).outQueue == c.outQueue + if consent.Consents? then bytes else []
    ensures Notices(StartHandshake(c, bytes, consent).calls) ==
      Notices(c.calls) + if consent.BreaksDown? then [OnError] else []
  {
    WriteAllQueues(c, Responses(bytes), bytes);
    NoticesOfWriteAll(c, Responses(bytes));
    NoticesOfTell(c, OnError);
    hide WriteAll, Notices;
    assert c.outQueue + [] == c.outQueue && Notices(c.calls) + [] == Notices(c.calls);
  }

  // ---------- handshakes ----------

  /** The first draft of a server that does not pass the handshake on to the next. */
  ghost predicate Decides(c: Conn, judge: Judge, bytes: seq<byte>, i: nat) {
    && i < |c.knownDrafts|
    && (forall j :: 0 <= j < i ==>
          var v := judge(c.knownDrafts[j].(role := Some(SERVER)), bytes).verdict; v.Invalid? || v.Refused?)
    && var v := judge(c.knownDrafts[i].(role := Some(SERVER)), bytes).verdict; !v.Invalid? && !v.Refused?
  }

  ghost predicate NobodyDecides(c: Conn, judge: Judge, bytes: seq<byte>) {
    forall j :: 0 <= j < |c.knownDrafts| ==>
      var v := judge(c.knownDrafts[j].(role := Some(SERVER)), bytes).verdict; v.Invalid? || v.Refused?
  }

  lemma {:induction false} FirstFrom(c: Conn, judge: Judge, bytes: seq<byte>, from: nat, i: nat)
    requires from <= i && Decides(c, judge, bytes, i)
    ensures FirstToDecide(judge, c.knownDrafts, bytes, from) == i
    decreases i - from
  {
    if from < i {
      FirstFrom(c, judge, bytes, from + 1, i);
    }
  }

  lemma {:induction false} NoneFrom(c: Conn, judge: Judge, bytes: seq<byte>, from: nat)
    requires from <= |c.knownDrafts| && NobodyDecides(c, judge, bytes)
    ensures FirstToDecide(judge, c.knownDrafts, bytes, from) == -1
    decreases |c.knownDrafts| - from
  {
    if from < |c.knownDrafts| {
      NoneFrom(c, judge, bytes, from + 1);
    }
  }

  /** What was told and queued in between: some buffers, and some calls apart from those for
      writing. */
  ghost predicate Spoke(c: Conn, d: Conn, buffers: seq<seq<byte>>, calls: seq<Call>) {
    d.outQueue == c.outQueue + buffers && Notices(d.calls) == Notices(c.calls) + calls
  }

  lemma Refused(c: Conn, page: seq<byte>, r: Reason)
    ensures var d := FlushAndClose(Write(c, ByHandshake(page)), r);
      && Spoke(c, d, [page], if c.flushAndClose then [] else [OnClosing(r)])
      && d.ready == c.ready && d.flushAndClose && d.reason == if c.flushAndClose then c.reason else Some(r)
  {
    NoticesOfWrite(c, ByHandshake(page));
    NoticesOfFlush(Write(c, ByHandshake(page)), r);
    hide Notices;
  }

  /** A server that has not been told to close judges a handshake.  The first draft that does
      not pass it on decides: it waits for more; or the response is queued and then the
      connection opened, with that draft; or an answer with an error is queued and the
      connection told to close, for the reason of the listener, as never connected if the
      listener breaks down, and for a protocol error if this is no client's handshake or all
      drafts pass it on. */
  lemma ServerJudges(c: Conn, judge: Judge, bytes: seq<byte>, i: nat)
    requires c.knownDrafts != [] && !c.flushAndClose
    requires Decides(c, judge, bytes, i) || (i == |c.knownDrafts| && NobodyDecides(c, judge, bytes))
    ensures var (d, p, done) := JudgedByServer(c, judge, bytes);
      if i == |c.knownDrafts| then
        !done && d.ready == c.ready && Spoke(c, d, [NotFound()], [OnClosing(Reason(1002, "no draft matches", false))])
      else
        var draft := c.knownDrafts[i].(role := Some(SERVER));
        match judge(draft, bytes).verdict
        case Incomplete(_) => d == c && !done
        case WrongFunction =>
          !done && d.ready == c.ready && Spoke(c, d, [NotFound()], [OnClosing(Reason(1002, "wrong http function", false))])
        case Matched(Agreed(response)) =>
          done && d.ready == OPEN && d.draft == Some(draft) && Spoke(c, d, response, [OnOpen])
        case Matched(Rejected(code, message)) =>
          !done && d.ready == c.ready && Spoke(c, d, [NotFound()], [OnClosing(Reason(code, message, false))])
        case Matched(Failed(message)) =>
          !done && d.ready == c.ready && Spoke(c, d, [InternalError()], [OnError, OnClosing(Reason(-1, message, false))])
        case _ => false
  {
    assert i == |c.knownDrafts| ==> NobodyDecides(c, judge, bytes);
    hide Notices, NotFound, InternalError, WriteAll, FlushAndClose, Write, Spoke, Decides, NobodyDecides, FirstToDecide, Tell;
    if i == |c.knownDrafts| {
      NoneFrom(c, judge, bytes, 0);
      Refused(c, NotFound(), Reason(1002, "no draft matches", false));
    } else {
      FirstFrom(c, judge, bytes, 0, i);
      var draft := c.knownDrafts[i].(role := Some(SERVER));
      Decided(c, judge, bytes, i);
      match judge(draft, bytes).verdict {
        case WrongFunction => Refused(c, NotFound(), Reason(1002, "wrong http function", false));
        case Matched(Agreed(response)) => Agreed(c, draft, response);
        case Matched(Rejected(code, message)) => Refused(c, NotFound(), Reason(code, message, false));
        case Matched(Failed(message)) => Failed(c, message);
        case _ =>
      }
    }
  }

  lemma Decided(c: Conn, judge: Judge, bytes: seq<byte>, i: nat)
    requires Decides(c, judge, bytes, i)
    ensures var v := judge(c.knownDrafts[i].(role := Some(SERVER)), bytes).verdict; !v.Invalid? && !v.Refused?
  {}

  lemma Agreed(c: Conn, draft: Draft, response: seq<seq<byte>>)
    ensures var d := Open(WriteAll(c, Responses(response)).(draft := Some(draft)));
      d.ready == OPEN && d.draft == Some(draft) && Spoke(c, d, response, [OnOpen])
  {
    WriteAllQueues(c, Responses(response), response);
    NoticesOfWriteAll(c, Responses(response));
    NoticesOneMore(WriteAll(c, Responses(response)).calls, OnOpen);
    hide Notices, WriteAll;
  }

  lemma Failed(c: Conn, message: string)
    requires !c.flushAndClose
    ensures var d := CloseDueToInternalError(Tell(c, OnError), message);
      d.ready == c.ready && Spoke(c, d, [InternalError()], [OnError, OnClosing(Reason(-1, message, false))])
  {
    var c1, r := Tell(c, OnError), Reason(-1, message, false);
    Refused(c1, InternalError(), r);
    NoticesOfTell(c, OnError);
    hide Notices, InternalError, FlushAndClose, Write;
    assert [OnError] + [OnClosing(r)] == [OnError, OnClosing(r)];
  }

  lemma ToldToClose(c: Conn, r: Reason)
    requires !c.flushAndClose
    ensures Spoke(c, FlushAndClose(c, r), [], [OnClosing(r)])
  {
    NoticesOfFlush(c, r);
    hide Notices;
    assert c.outQueue + [] == c.outQueue;
  }

  lemma ClosedEarly(c: Conn, message: string)
    requires c.ready == NOT_YET_CONNECTED && !c.flushAndClose
    ensures var d := Close(c, 1002, message, false);
      d.ready == CLOSING && Spoke(c, d, [], [OnClosing(Reason(1002, message, false))])
  {
    ToldToClose(c, Reason(1002, message, false));
    hide Notices;
  }

  lemma BrokeDown(c: Conn, message: string)
    requires !c.flushAndClose
    ensures Spoke(c, FlushAndClose(Tell(c, OnError), Reason(-1, message, false)), [], [OnError, OnClosing(Reason(-1, message, false))])
  {
    ToldToClose(Tell(c, OnError), Reason(-1, message, false));
    NoticesOfTell(c, OnError);
    hide Notices, FlushAndClose;
    assert [OnError] + [OnClosing(Reason(-1, message, false))] == [OnError, OnClosing(Reason(-1, message, false))];
  }

  lemma SpokeNothing(c: Conn, d: Conn)
    requires d.outQueue == c.outQueue && d.calls == c.calls
    ensures Spoke(c, d, [], [])
  {
    hide Notices;
    assert c.outQueue + [] == c.outQueue && Notices(c.calls) + [] == Notices(c.calls);
  }

  lemma Opened(c: Conn)
    ensures Spoke(c, Open(c), [], [OnOpen]) && Open(c).ready == OPEN
  {
    NoticesOneMore(c.calls, OnOpen);
    hide Notices;
    assert c.outQueue + [] == c.outQueue;
  }

  /** A client judges the answer to its handshake: it waits for more, or is open once its
      listener agrees; otherwise it is told to close, for the reason of the draft or the
      listener, without a word to the other end. */
  lemma ClientJudges(c: Conn, judge: Judge, bytes: seq<byte>)
    requires c.role == CLIENT && c.draft.Some? && c.ready == NOT_YET_CONNECTED && !c.flushAndClose
    ensures var (d, p, done) := JudgedByDraft(c, judge, bytes);
      match judge(c.draft.value.(role := Some(CLIENT)), bytes).verdict
      case Incomplete(_) => !done && d.ready == NOT_YET_CONNECTED && Spoke(c, d, [], [])
      case Invalid(message) => !done && d.ready == CLOSING && Spoke(c, d, [], [OnClosing(Reason(1002, message, false))])
      case WrongFunction =>
        !done && d.ready == NOT_YET_CONNECTED && Spoke(c, d, [], [OnClosing(Reason(1002, "wrong http function", false))])
      case Refused(name) =>
        !done && d.ready == CLOSING && Spoke(c, d, [], [OnClosing(Reason(1002, "draft " + name + " refuses handshake", false))])
      case Matched(Agreed(_)) => done && d.ready == OPEN && Spoke(c, d, [], [OnOpen])
      case Matched(Rejected(code, message)) =>
        !done && d.ready == NOT_YET_CONNECTED && Spoke(c, d, [], [OnClosing(Reason(code, message, false))])
      case Matched(Failed(message)) =>
        !done && d.ready == NOT_YET_CONNECTED && Spoke(c, d, [], [OnError, OnClosing(Reason(-1, message, false))])
  {
    var c1 := c.(draft := Some(c.draft.value.(role := Some(CLIENT))));
    hide Notices, FlushAndClose, Close, Tell, Open, Spoke;
    SpokeAlike(c, c1);
    match judge(c1.draft.value, bytes).verdict {
      case Incomplete(_) => SpokeNothing(c, c1);
      case Invalid(message) => ClosedEarly(c1, message);
      case WrongFunction => ToldToClose(c1, Reason(1002, "wrong http function", false));
      case Refused(name) => ClosedEarly(c1, "draft " + name + " refuses handshake");
      case Matched(Agreed(_)) => Opened(c1);
      case Matched(Rejected(code, message)) => ToldToClose(c1, Reason(code, message, false));
      case Matched(Failed(message)) => BrokeDown(c1, message);
    }
    StillEarly(c1);
  }

  /** A server that has a draft would ask only that one, and its listener nothing. */
  lemma ServerAsksItsDraft(c: Conn, judge: Judge, bytes: seq<byte>)
    requires c.role == SERVER && c.draft.Some? && c.ready == NOT_YET_CONNECTED && !c.flushAndClose
    ensures var (d, p, done) := JudgedByDraft(c, judge, bytes);
      match judge(c.draft.value, bytes).verdict
      case Incomplete(_) => !done && d == c
      case Invalid(message) => !done && d.ready == CLOSING && Spoke(c, d, [], [OnClosing(Reason(1002, message, false))])
      case WrongFunction =>
        !done && d.ready == NOT_YET_CONNECTED && Spoke(c, d, [], [OnClosing(Reason(1002, "wrong http function", false))])
      case Refused(_) =>
        !done && d.ready == CLOSING && Spoke(c, d, [], [OnClosing(Reason(1002, "the handshake did finally not match", false))])
      case Matched(_) => done && d.ready == OPEN && Spoke(c, d, [], [OnOpen])
  {
    hide Notices, FlushAndClose, Close, Tell, Open, Spoke;
    match judge(c.draft.value, bytes).verdict {
      case Incomplete(_) => SpokeNothing(c, c);
      case Invalid(message) => ClosedEarly(c, message);
      case WrongFunction => ToldToClose(c, Reason(1002, "wrong http function", false));
      case Refused(_) => ClosedEarly(c, "the handshake did finally not match");
      case Matched(_) => Opened(c);
    }
    StillEarly(c);
  }

  lemma SpokeAlike(c: Conn, c1: Conn)
    requires c1.outQueue == c.outQueue && c1.calls == c.calls
    ensures forall d, buffers, calls :: Spoke(c1, d, buffers, calls) == Spoke(c, d, buffers, calls)
  {}

  lemma StillEarly(c: Conn)
    ensures forall r :: FlushAndClose(c, r).ready == c.ready
    ensures forall r :: FlushAndClose(Tell(c, OnError), r).ready == c.ready
  {}

  // ---------- the pages of a refusal ----------

  predicate Says(page: seq<byte>, i: int, text: string) {
    0 <= i <= |page| - |text| && forall k :: 0 <= k < |text| ==> page[i + k] as int == text[k] as int
  }

  lemma SaysPart(page: seq<byte>, before: string, text: string, after: string)
    requires var all := before + text + after;
      |page| == |all| && forall k :: 0 <= k < |all| ==> page[k] as int == (all[k] as int) % 256
    requires forall k :: 0 <= k < |text| ==> text[k] as int < 256
    ensures Says(page, |before|, text)
  {
    var all := before + text + after;
    forall k | 0 <= k < |text| ensures page[|before| + k] as int == text[k] as int {
      assert all[|before| + k] == text[k];
    }
  }

  lemma PageLengths()
    ensures |PAGE_BEGIN| + |PAGE_END| == 48
  {}

  lemma Pieces(a: string, d: string, h: string, l: string, t: string, b: string, e: string)
    ensures var text := a + d + h + l + t + b + d + e;
      && text == a + d + (h + l + t + b + d + e) && text == (a + d + h) + l + (t + b + d + e)
      && |a + d + h| == |text| - |b| - |e| - |d| - |t| - |l|
  {}

  lemma PiecesSaid(page: seq<byte>, a: string, d: string, h: string, l: string, t: string, b: string, e: string)
    requires var text := a + d + h + l + t + b + d + e;
      |page| == |text| && forall k :: 0 <= k < |text| ==> page[k] as int == (text[k] as int) % 256
    requires forall k :: 0 <= k < |d| ==> d[k] as int < 256
    requires forall k :: 0 <= k < |l| ==> l[k] as int < 256
    ensures Says(page, |a|, d) && Says(page, |page| - |b| - |e| - |d| - |t| - |l|, l)
  {
    Pieces(a, d, h, l, t, b, e);
    hide Says;
    SaysPart(page, a, d, h + l + t + b + d + e);
    SaysPart(page, a + d + h, l, t + b + d + e);
  }

  /** The status comes behind the first nine bytes, and the length right before the empty line. */
  lemma PageSays(description: string, length: string)
    requires forall k :: 0 <= k < |description| ==> description[k] as int < 256
    requires forall k :: 0 <= k < |length| ==> length[k] as int < 256
    ensures var page := HttpError(description, length);
      Says(page, 9, description) && Says(page, |page| - |description| - 48 - 4 - |length|, length)
  {
    PageLengths();
    hide PAGE_HEADER, PAGE_BEGIN, PAGE_END, Says;
    PiecesSaid(HttpError(description, length), "HTTP/1.1 ", description, PAGE_HEADER, length, "\r\n\r\n", PAGE_BEGIN, PAGE_END);
  }

  /** The two error pages have their status, and the length that each declares is that of what
      follows. */
  lemma PagesAreWhole()
    ensures Says(NotFound(), 9, "404 WebSocket Upgrade Failure") && Says(NotFound(), |NotFound()| - 77 - 4 - 2, "77")
    ensures Says(InternalError(), 9, "500 Internal Server Error") && Says(InternalError(), |InternalError()| - 73 - 4 - 2, "73")
  {
    hide Says, HttpError;
    PageSays("404 WebSocket Upgrade Failure", "77");
    PageSays("500 Internal Server Error", "73");
  }

  // ---------- waking the writer ----------

  function Demands(calls: seq<Call>): nat {
    if calls == [] then 0
    else Demands(calls[..|calls| - 1]) + if calls[|calls| - 1] == OnWriteDemand then 1 else 0
  }

  lemma DemandsOneMore(calls: seq<Call>, call: Call)
    ensures Demands(calls + [call]) == Demands(calls) + if call == OnWriteDemand then 1 else 0
  {
    assert (calls + [call])[..|calls|] == calls;
  }

  /** The writer has been called once for every buffer queued, and once more for the closing. */
  ghost predicate Woken(c: Conn) {
    Demands(c.calls) == |c.queued| + if c.flushAndClose then 1 else 0
  }

  lemma WokenTell(c: Conn, call: Call)
    requires Woken(c) && call != OnWriteDemand
    ensures Woken(Tell(c, call))
  {
    DemandsOneMore(c.calls, call);
  }

  lemma WokenWrite(c: Conn, item: Item)
    requires Woken(c)
    ensures Woken(Write(c, item))
  {
    DemandsOneMore(c.calls, OnWriteDemand);
  }

  lemma {:induction false} WokenWriteAll(c: Conn, items: seq<Item>)
    requires Woken(c)
    ensures Woken(WriteAll(c, items))
    decreases |items|
  {
    if items != [] {
      WokenWriteAll(c, items[..|items| - 1]);
      WokenWrite(WriteAll(c, items[..|items| - 1]), items[|items| - 1]);
    }
  }

  lemma WokenFlush(c: Conn, r: Reason)
    requires Woken(c)
    ensures Woken(FlushAndClose(c, r))
  {
    DemandsOneMore(c.calls, OnWriteDemand);
    DemandsOneMore(c.calls + [OnWriteDemand], OnClosing(r));
  }

  lemma WokenEnd(c: Conn, r: Reason)
    requires Woken(c)
    ensures Woken(CloseConnection(c, r))
  {
    DemandsOneMore(c.calls, OnClose(r));
  }

  lemma WokenSayClose(c: Conn, code: int, message: string, remote: bool)
    requires Woken(c) && c.draft.Some?
    ensures Woken(SayClose(c, code, message, remote))
  {
    hide Woken, Tell, Write, FlushAndClose, IsValid, MakeCloseFrame;
    if c.draft.value.closeHandshakeType != NONE {
      var c1 := if remote then c else Tell(c, OnCloseInitiated(code, message));
      if !remote {
        WokenTell(c, OnCloseInitiated(code, message));
      }
      WokenWrite(c1, ByClose(c.draft.value.binaryClose(MakeCloseFrame(code, message))));
      WokenTell(c1, OnError);
      WokenFlush(Tell(c1, OnError), Reason(ABNORMAL_CLOSE, "generated frame is invalid", false));
    }
  }

  lemma WokenAlike(c: Conn, d: Conn)
    requires Woken(c) && d.calls == c.calls && d.queued == c.queued && d.flushAndClose == c.flushAndClose
    ensures Woken(d)
  {}

  lemma WokenClose(c: Conn, code: int, message: string, remote: bool)
    requires Woken(c) && (c.ready == OPEN ==> c.draft.Some?)
    ensures Woken(Close(c, code, message, remote))
  {
    hide Demands, SayClose;
    if c.ready == OPEN && code != ABNORMAL_CLOSE {
      WokenSayClose(c, code, message, remote);
      WokenFlush(SayClose(c, code, message, remote), Reason(code, message, remote));
    } else {
      WokenFlush(c.(ready := CLOSING), Reason(code, message, false));
      WokenFlush(c, Reason(FLASHPOLICY, message, true));
      WokenFlush(c, Reason(code, message, remote));
      WokenFlush(c, Reason(NEVER_CONNECTED, message, false));
    }
    hide FlushAndClose;
  }

  lemma WokenRefusal(c: Conn, page: seq<byte>, r: Reason)
    requires Woken(c)
    ensures Woken(FlushAndClose(Write(c, ByHandshake(page)), r))
  {
    hide Woken, Write, FlushAndClose;
    WokenWrite(c, ByHandshake(page));
    WokenFlush(Write(c, ByHandshake(page)), r);
  }

  lemma WokenOpen(c: Conn)
    requires Woken(c)
    ensures Woken(Open(c))
  {
    DemandsOneMore(c.calls, OnOpen);
  }

  lemma WokenByServer(c: Conn, judge: Judge, bytes: seq<byte>)
    requires Woken(c) && c.knownDrafts != []
    ensures Woken(JudgedByServer(c, judge, bytes).0)
  {
    hide Woken, Write, WriteAll, FlushAndClose, Open, Tell, NotFound, InternalError, FirstToDecide;
    var i := FirstToDecide(judge, c.knownDrafts, bytes, 0);
    if i < 0 {
      WokenRefusal(c, NotFound(), Reason(PROTOCOL_ERROR, "no draft matches", false));
    } else {
      var d := c.knownDrafts[i].(role := Some(SERVER));
      match judge(d, bytes).verdict {
        case WrongFunction => WokenRefusal(c, NotFound(), Reason(PROTOCOL_ERROR, "wrong http function", false));
        case Matched(Agreed(response)) =>
          var c1 := WriteAll(c, Responses(response));
          WokenWriteAll(c, Responses(response));
          WokenAlike(c1, c1.(draft := Some(d)));
          WokenOpen(c1.(draft := Some(d)));
        case Matched(Rejected(code, message)) => WokenRefusal(c, NotFound(), Reason(code, message, false));
        case Matched(Failed(message)) =>
          WokenTell(c, OnError);
          WokenRefusal(Tell(c, OnError), InternalError(), Reason(NEVER_CONNECTED, message, false));
        case _ =>
      }
    }
  }

  lemma WokenByDraft(c: Conn, judge: Judge, bytes: seq<byte>)
    requires Woken(c) && c.draft.Some? && c.ready == NOT_YET_CONNECTED
    ensures Woken(JudgedByDraft(c, judge, bytes).0)
  {
    hide Demands, Close, FlushAndClose, Open, Tell, Refusal;
    var c1 := c.(draft := Some(if c.role == CLIENT then c.draft.value.(role := Some(CLIENT)) else c.draft.value));
    match judge(c1.draft.value, bytes).verdict {
      case Incomplete(_) =>
      case Invalid(message) => WokenClose(c1, PROTOCOL_ERROR, message, false);
      case WrongFunction => WokenFlush(c1, Reason(PROTOCOL_ERROR, "wrong http function", false));
      case Refused(name) => WokenClose(c1, PROTOCOL_ERROR, Refusal(c.role, name), false);
      case Matched(answer) =>
        WokenOpen(c1);
        if answer.Rejected? {
          WokenFlush(c1, Reason(answer.code, answer.message, false));
        } else if answer.Failed? {
          WokenTell(c1, OnError);
          WokenFlush(Tell(c1, OnError), Reason(NEVER_CONNECTED, answer.message, false));
        }
    }
  }

  lemma WokenDecode(c: Conn, chunk: ByteBuffer, judge: Judge)
    requires Woken(c) && Decodable(c, chunk, judge)
    ensures Woken(Decode(c, chunk, judge))
  {
    hide Demands, JudgedByServer, JudgedByDraft, Collected, Keep, Sensible;
    if c.ready == NOT_YET_CONNECTED {
      var bytes := Collected(c.tmp.value, chunk).Unread();
      if c.role == SERVER && c.draft.None? {
        WokenByServer(c, judge, bytes);
      } else if c.draft.Some? {
        WokenByDraft(c, judge, bytes);
      }
    }
  }

  lemma WokenBatch(c: Conn, room: seq<nat>)
    requires Woken(c) && (c.flushAndClose ==> c.reason.Some?)
    ensures Woken(Batch(c, room))
  {
    FlushKeeps(c, room);
    hide Demands, Flush, CloseConnection;
    if ClosesAfterFlush(Flush(c, room)) {
      WokenEnd(Flush(c, room), c.reason.value);
    }
  }

  lemma WokenSending(c: Conn, s: Step)
    requires Inv(c) && Possible(s) && Woken(c) && (s.StepSend? || s.StepStartHandshake?)
    ensures Woken(Next(c, s))
  {
    hide Inv, Woken, Possible, WriteAll, Tell;
    if s.StepSend? {
      WokenWriteAll(c, Items(s.frames));
    } else {
      WokenWriteAll(c, Responses(s.bytes));
      WokenTell(c, OnError);
    }
  }

  lemma WokenEnding(c: Conn, s: Step)
    requires Inv(c) && Possible(s) && Woken(c) && (s.StepCloseConnection? || s.StepCloseFlushed? || s.StepEot?)
    ensures Woken(Next(c, s))
  {
    ReasonIsThere(c);
    hide Inv, Woken, Possible, CloseConnection, EotReason, EotFails;
    if s.StepCloseConnection? {
      WokenEnd(c, s.reason);
    } else if s.StepEot? {
      if !EotFails(c) {
        WokenEnd(c, EotReason(c));
      }
    } else if c.reason.Some? {
      WokenEnd(c, c.reason.value);
    }
  }

  lemma WokenStep(c: Conn, s: Step)
    requires Inv(c) && Possible(s) && Woken(c)
    ensures Woken(Next(c, s))
  {
    ReasonIsThere(c);
    hide Inv, Woken, Possible, Decode, Close, CloseConnection, Eot, EotFails, FlushAndClose, Batch, Send, StartHandshake;
    match s {
      case StepDecode(chunk, judge) =>
        InvDecodes(c, s);
        WokenDecode(c, chunk, judge);
      case StepClose(code, message, remote) =>
        OpenHasDraft(c);
        WokenClose(c, code, message, remote);
      case StepCloseConnection(_) => WokenEnding(c, s);
      case StepCloseFlushed => WokenEnding(c, s);
      case StepFlushAndClose(r) => WokenFlush(c, r);
      case StepEot => WokenEnding(c, s);
      case StepSend(_) => WokenSending(c, s);
      case StepStartHandshake(_, _) => WokenSending(c, s);
      case StepBatch(room) => WokenBatch(c, room);
    }
  }

  lemma InvDecodes(c: Conn, s: Step)
    requires Inv(c) && Possible(s) && s.StepDecode?
    ensures Decodable(c, s.chunk, s.judge)
  {
    InvDecodable(c, s.chunk, s.judge);
  }

  lemma OpenHasDraft(c: Conn)
    requires Inv(c)
    ensures c.ready == OPEN ==> c.draft.Some?
  {}

  /** In every run the writer is called for every buffer that is queued, and for the closing. */
  lemma {:induction false} EveryWriteWakes(c: Conn, steps: seq<Step>)
    requires Fresh(c) && AllPossible(steps)
    ensures Inv(c) && Woken(After(c, steps))
    decreases |steps|
  {
    FreshInv(c);
    if steps == [] {
      assert Demands([]) == 0;
    } else {
      hide Inv, Next, Possible, Woken, Fresh;
      AfterSplits(c, steps);
      EveryWriteWakes(c, steps[..|steps| - 1]);
      WokenStep(After(c, steps[..|steps| - 1]), steps[|steps| - 1]);
    }
  }

  // ---------- after the end ----------

  /** A connection that is closing or closed reads nothing more; what arrives, and calls to send
      or to close, leave it as it is. */
  lemma NothingReadLate(c: Conn, s: Step)
    requires Inv(c) && Possible(s) && (c.ready == CLOSING || c.ready == CLOSED)
    ensures Next(c, s).frames == c.frames && Next(c, s).tmp == c.tmp && Next(c, s).draft == c.draft
    ensures s.StepDecode? || s.StepClose? || s.StepSend? ==> Next(c, s) == c
  {
    hide Inv, Possible, DecodeHandshake, Flush, EotReason, EotFails;
    if s.StepStartHandshake? {
      NoticesOfWriteAll(c, Responses(s.bytes));
    } else if s.StepBatch? {
      FlushKeeps(c, s.room);
    }
    hide WriteAll, Notices;
  }

  // ---------- while it is open ----------

  /** The bytes of all chunks. */
  function Arrived(steps: seq<Step>): seq<byte> {
    if steps == [] then []
    else
      var last := steps[|steps| - 1];
      Arrived(steps[..|steps| - 1]) + if last.StepDecode? && last.chunk.Valid() then last.chunk.Unread() else []
  }

  lemma FlushKeepsFrames(c: Conn, r: Reason)
    ensures FlushAndClose(c, r).frames == c.frames
  {}

  lemma WritesKeepFrames(c: Conn, items: seq<Item>)
    ensures WriteAll(c, items).frames == c.frames
  {
    NoticesOfWriteAll(c, items);
    hide WriteAll, Notices;
  }

  lemma BatchKeepsFrames(c: Conn, room: seq<nat>)
    requires c.flushAndClose ==> c.reason.Some?
    ensures Batch(c, room).frames == c.frames
  {
    FlushKeeps(c, room);
    hide Flush;
  }

  lemma OpenDecodes(c: Conn, chunk: ByteBuffer, judge: Judge)
    requires Decodable(c, chunk, judge) && c.ready == OPEN
    ensures Decode(c, chunk, judge).frames == c.frames + chunk.Unread()
  {
    hide DecodeHandshake, Sensible;
  }

  lemma ClosesOpen(c: Conn, code: int, message: string, remote: bool)
    requires c.ready == OPEN ==> c.draft.Some?
    ensures c.ready == OPEN ==> Close(c, code, message, remote).ready == CLOSING
  {
    hide SayClose, FlushAndClose;
    assert c.ready == OPEN && code == ABNORMAL_CLOSE ==>
      FlushAndClose(c.(ready := CLOSING), Reason(code, message, false)).ready == CLOSING by {
      NoticesOfFlush(c.(ready := CLOSING), Reason(code, message, false));
    }
  }

  lemma EndsOpen(c: Conn, r: Reason)
    ensures CloseConnection(c, r).ready == CLOSED
  {}

  lemma OpenReads(c: Conn, s: Step)
    requires Inv(c) && Possible(s) && c.ready == OPEN && Next(c, s).ready == OPEN
    ensures s.StepDecode? ==> s.chunk.Valid()
    ensures Next(c, s).frames == c.frames + if s.StepDecode? then s.chunk.Unread() else []
  {
    assert c.frames + [] == c.frames;
    hide Inv, Sensible, Decode, Close, CloseConnection, EotFails, EotReason, FlushAndClose, WriteAll, Batch;
    match s {
      case StepDecode(chunk, judge) =>
        InvDecodable(c, chunk, judge);
        OpenDecodes(c, chunk, judge);
      case StepClose(code, message, remote) => ClosesOpen(c, code, message, remote);
      case StepCloseConnection(r) => EndsOpen(c, r);
      case StepCloseFlushed =>
        if c.reason.Some? {
          EndsOpen(c, c.reason.value);
        }
      case StepFlushAndClose(r) => FlushKeepsFrames(c, r);
      case StepEot =>
        if !EotFails(c) {
          ReasonIsThere(c);
          EndsOpen(c, EotReason(c));
        }
      case StepSend(frames) => WritesKeepFrames(c, Items(frames));
      case StepStartHandshake(bytes, consent) => WritesKeepFrames(c, Responses(bytes));
      case StepBatch(room) =>
        ReasonIsThere(c);
        BatchKeepsFrames(c, room);
    }
  }

  lemma StillOpen(c: Conn, s: Step)
    requires Inv(c) && Possible(s) && c.ready != NOT_YET_CONNECTED && Next(c, s).ready == OPEN
    ensures c.ready == OPEN
  {
    GoodNext(c, s);
    hide Inv, Possible, Next;
  }

  lemma OpenStays(c: Conn, s: Step)
    requires Inv(c) && Possible(s) && c.ready != NOT_YET_CONNECTED
    ensures Next(c, s).ready != NOT_YET_CONNECTED
  {
    GoodNext(c, s);
    hide Inv, Possible, Next;
  }

  lemma {:induction false} NeverAgainNew(c: Conn, steps: seq<Step>)
    requires Inv(c) && AllPossible(steps) && c.ready != NOT_YET_CONNECTED
    ensures After(c, steps).ready != NOT_YET_CONNECTED
    decreases |steps|
  {
    if steps != [] {
      hide Inv, Next, Possible;
      AfterSplits(c, steps);
      NeverAgainNew(c, steps[..|steps| - 1]);
      OpenStays(After(c, steps[..|steps| - 1]), steps[|steps| - 1]);
    }
  }

  /** As long as a connection is open, all bytes that arrive go to the frame decoder, in order
      and whatever else is called. */
  lemma {:induction false} OpenReadsAll(c: Conn, steps: seq<Step>)
    requires Inv(c) && AllPossible(steps) && c.ready == OPEN && After(c, steps).ready == OPEN
    ensures After(c, steps).frames == c.frames + Arrived(steps)
    decreases |steps|
  {
    if steps == [] {
      assert c.frames + [] == c.frames;
    } else {
      hide *;
      var init, last := steps[..|steps| - 1], steps[|steps| - 1];
      AfterSplits(c, steps);
      ArrivedSplits(steps);
      NeverAgainNew(c, init);
      StillOpen(After(c, init), last);
      OpenReadsAll(c, init);
      OpenReads(After(c, init), last);
      GroupedBytes(c.frames, Arrived(init), if last.StepDecode? then last.chunk.Unread() else []);
    }
  }

  lemma GroupedBytes(a: seq<byte>, b: seq<byte>, c: seq<byte>)
    ensures (a + b) + c == a + (b + c)
  {}

  lemma ArrivedSplits(steps: seq<Step>)
    requires steps != []
    ensures var last := steps[|steps| - 1];
      Arrived(steps) == Arrived(steps[..|steps| - 1]) + if last.StepDecode? && last.chunk.Valid() then last.chunk.Unread() else []
  {}

  lemma UsedFits(c: Conn, judge: Judge, bytes: seq<byte>)
    requires Sensible(judge) && if c.role == SERVER then c.knownDrafts != [] else c.draft.Some?
    ensures Judged(c, judge, bytes).1.used <= |bytes|
  {}

  lemma RestAndMore(all: seq<byte>, more: seq<byte>, used: nat)
    requires used <= |all|
    ensures all[used..] + more == (all + more)[used..]
  {}

  lemma CanBeJudged(c: Conn, chunk: ByteBuffer, judge: Judge)
    requires Decodable(c, chunk, judge)
    ensures if c.role == SERVER then c.knownDrafts != [] else c.draft.Some?
  {}

  /** However the bytes are cut into chunks: once the handshake is complete, the frame decoder has
      all that has arrived, from the first byte that was not read as part of the handshake. */
  lemma FramesAreTheRest(c: Conn, steps: seq<Step>, chunk: ByteBuffer, judge: Judge, more: seq<Step>)
    requires Fresh(c) && Inv(c) && AllPossible(steps) && AllDecode(steps)
    requires Waiting(c, steps)
    requires Possible(StepDecode(chunk, judge)) && AllPossible(more)
    ensures var d := After(c, steps);
      var all := Received(steps) + chunk.Unread();
      && Decodable(d, chunk, judge)
      && (Judged(d, judge, all).2 ==>
            && Inv(Decode(d, chunk, judge))
            && var e := After(Decode(d, chunk, judge), more);
              e.ready == OPEN ==> e.frames == (all + Arrived(more))[Judged(d, judge, all).1.used..])
  {
    var d := After(c, steps);
    var all := Received(steps) + chunk.Unread();
    assert Sensible(judge);
    hide *;
    RestGoesToFrames(c, steps, chunk, judge);
    HandshakeSeesEverything(c, steps);
    CanBeJudged(d, chunk, judge);
    if Judged(d, judge, all).2 {
      GoodDecode(d, chunk, judge);
      var e := Decode(d, chunk, judge);
      var used := Judged(d, judge, all).1.used;
      UsedFits(d, judge, all);
      if After(e, more).ready == OPEN {
        OpenReadsAll(e, more);
        RestAndMore(all, Arrived(more), used);
      }
    }
  }
}
