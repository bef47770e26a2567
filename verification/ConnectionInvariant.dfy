/** What every public call on a WebSocket connection keeps. */
module ConnectionInvariant {
  import opened Options
  import opened ByteBuffers
  import opened Connection

  // ---------- what has been told and queued ----------

  function Closes(calls: seq<Call>): seq<Reason> {
    if calls == [] then []
    else
      var last := calls[|calls| - 1];
      Closes(calls[..|calls| - 1]) + if last.OnClose? then [last.reason] else []
  }

  function Closings(calls: seq<Call>): seq<Reason> {
    if calls == [] then []
    else
      var last := calls[|calls| - 1];
      Closings(calls[..|calls| - 1]) + if last.OnClosing? then [last.reason] else []
  }

  function Flat(buffers: seq<seq<byte>>): seq<byte> {
    if buffers == [] then [] else Flat(buffers[..|buffers| - 1]) + buffers[|buffers| - 1]
  }

  function ItemBytes(items: seq<Item>): seq<byte> {
    if items == [] then [] else ItemBytes(items[..|items| - 1]) + items[|items| - 1].bytes
  }

  lemma SnocFlat(buffers: seq<seq<byte>>, b: seq<byte>)
    ensures Flat(buffers + [b]) == Flat(buffers) + b
  {
    assert (buffers + [b])[..|buffers|] == buffers;
  }

  lemma {:induction false} FlatFirst(b: seq<byte>, rest: seq<seq<byte>>)
    ensures Flat([b] + rest) == b + Flat(rest)
  {
    if rest == [] {
      assert [b] + rest == [] + [b];
      SnocFlat([], b);
      assert [] + b == b + [];
    } else {
      var init, last := rest[..|rest| - 1], rest[|rest| - 1];
      FlatFirst(b, init);
      SnocFlat([b] + init, last);
      hide Flat;
      assert ([b] + init) + [last] == [b] + rest;
      assert (b + Flat(init)) + last == b + (Flat(init) + last);
    }
  }

  predicate ClosedSaid(items: seq<Item>) {
    exists i :: 0 <= i < |items| && items[i].ByClose?
  }

  predicate FrameSaid(items: seq<Item>) {
    exists i :: 0 <= i < |items| && items[i].BySend?
  }

  /** After a close frame come neither close frames nor other frames. */
  predicate NothingAfterClose(items: seq<Item>) {
    forall i, j :: 0 <= i < j < |items| && items[i].ByClose? ==> items[j].ByHandshake?
  }

  // ---------- the invariant ----------

  /** The fields and what the outside has seen of them fit together. */
  ghost predicate Consistent(c: Conn) {
    && (c.flushAndClose <==> c.reason.Some?)
    && Closings(c.calls) == (if c.reason.Some? then [c.reason.value] else [])
    && |Closes(c.calls)| == (if c.ready == CLOSED then 1 else 0)
    && c.written + Flat(c.outQueue) == ItemBytes(c.queued)
  }

  ghost predicate Phased(c: Conn) {
    && (c.tmp.Some? ==> c.tmp.value.Valid())
    && (c.tmp.None? || c.ready == CLOSING ==> c.ready == CLOSED || (c.ready == CLOSING && c.flushAndClose))
    && (c.ready == OPEN || c.role == CLIENT ==> c.draft.Some?)
    && (c.role == SERVER ==> c.knownDrafts != [])
    && (c.role == SERVER && c.draft.Some? ==> c.ready != NOT_YET_CONNECTED && c.draft.value.role == Some(SERVER))
    && (c.role == CLIENT ==> c.draft.value.role != Some(SERVER))
  }

  ghost predicate Said(c: Conn) {
    && NothingAfterClose(c.queued)
    && (ClosedSaid(c.queued) ==> c.ready == CLOSING || c.ready == CLOSED)
    && (c.ready == NOT_YET_CONNECTED ==> !FrameSaid(c.queued))
  }

  ghost predicate Inv(c: Conn) {
    Consistent(c) && Phased(c) && Said(c)
  }

  function Rank(r: ReadyState): nat {
    match r
    case NOT_YET_CONNECTED => 0
    case OPEN => 1
    case CLOSING => 2
    case CLOSED => 3
  }

  /** What no call ever takes back. */
  ghost predicate Later(c: Conn, d: Conn) {
    && Rank(c.ready) <= Rank(d.ready)
    && (c.flushAndClose ==> d.flushAndClose && d.reason == c.reason)
    && c.role == d.role && c.knownDrafts == d.knownDrafts
    && c.calls <= d.calls && c.queued <= d.queued && c.written <= d.written && c.frames <= d.frames
  }

  /** Nothing but speaking: to the listener, into the queue, and what to say at the end. */
  ghost predicate OnlySpoke(c: Conn, d: Conn) {
    && d.role == c.role && d.knownDrafts == c.knownDrafts && d.draft == c.draft && d.ready == c.ready
    && d.tmp == c.tmp && d.written == c.written && d.frames == c.frames
  }

  lemma LaterTrans(c: Conn, d: Conn, e: Conn)
    requires Later(c, d) && Later(d, e)
    ensures Later(c, e)
    ensures OnlySpoke(c, d) && OnlySpoke(d, e) ==> OnlySpoke(c, e)
  {}

  lemma LaterSelf(c: Conn)
    ensures Later(c, c) && OnlySpoke(c, c)
  {}

  // ---------- primitives ----------

  lemma SnocCalls(calls: seq<Call>, call: Call)
    ensures Closes(calls + [call]) == Closes(calls) + if call.OnClose? then [call.reason] else []
    ensures Closings(calls + [call]) == Closings(calls) + if call.OnClosing? then [call.reason] else []
  {
    assert (calls + [call])[..|calls|] == calls;
  }

  lemma SnocItems(items: seq<Item>, item: Item)
    ensures ItemBytes(items + [item]) == ItemBytes(items) + item.bytes
    ensures ClosedSaid(items + [item]) <==> ClosedSaid(items) || item.ByClose?
    ensures FrameSaid(items + [item]) <==> FrameSaid(items) || item.BySend?
    ensures NothingAfterClose(items + [item]) <==>
      NothingAfterClose(items) && (ClosedSaid(items) ==> item.ByHandshake?)
  {
    var t := items + [item];
    assert t[..|items|] == items;
    assert t[|items|] == item;
    assert forall i :: 0 <= i < |items| ==> t[i] == items[i];
  }

  lemma GoodTell(c: Conn, call: Call)
    requires Consistent(c) && !call.OnClose? && !call.OnClosing?
    ensures Consistent(Tell(c, call)) && Later(c, Tell(c, call)) && OnlySpoke(c, Tell(c, call))
    ensures Tell(c, call).queued == c.queued
  {
    SnocCalls(c.calls, call);
  }

  lemma GoodWrite(c: Conn, item: Item)
    requires Consistent(c)
    ensures Consistent(Write(c, item)) && Later(c, Write(c, item)) && OnlySpoke(c, Write(c, item))
    ensures Write(c, item).queued == c.queued + [item] && Write(c, item).flushAndClose == c.flushAndClose
  {
    hide Closes, Closings, Flat, ItemBytes, ClosedSaid, FrameSaid, NothingAfterClose;
    SnocCalls(c.calls, OnWriteDemand);
    SnocFlat(c.outQueue, item.bytes);
    SnocItems(c.queued, item);
    assert (c.written + Flat(c.outQueue)) + item.bytes == c.written + (Flat(c.outQueue) + item.bytes);
  }

  lemma GoodFlushAndClose(c: Conn, r: Reason)
    requires Consistent(c)
    ensures var d := FlushAndClose(c, r);
      && Consistent(d) && Later(c, d) && d.flushAndClose
      && d.reason == (if c.flushAndClose then c.reason else Some(r))
      && OnlySpoke(c, d) && d.queued == c.queued
  {
    SnocCalls(c.calls, OnWriteDemand);
    SnocCalls(c.calls + [OnWriteDemand], OnClosing(r));
    hide Closes, Closings, Flat, ItemBytes;
    assert [] + [r] == [r];
  }

  lemma ConsistentClose(c: Conn, r: Reason)
    requires Consistent(c) && c.ready != CLOSED
    ensures Consistent(CloseConnection(c, r)) && Closes(CloseConnection(c, r).calls) == [r]
  {
    SnocCalls(c.calls, OnClose(r));
    hide Closes, Closings, Flat, ItemBytes;
    assert Closes(c.calls) == [];
    assert [] + [r] == [r] && Closings(c.calls) + [] == Closings(c.calls);
  }

  lemma GoodCloseConnection(c: Conn, r: Reason)
    requires Inv(c)
    ensures var d := CloseConnection(c, r);
      && Inv(d) && Later(c, d) && d.ready == CLOSED
      && (c.ready != CLOSED ==> Closes(d.calls) == [r])
  {
    if c.ready != CLOSED {
      ConsistentClose(c, r);
    }
    hide Consistent, ClosedSaid, FrameSaid, NothingAfterClose;
  }

  lemma {:induction false} GoodWriteAll(c: Conn, items: seq<Item>)
    requires Consistent(c)
    ensures var d := WriteAll(c, items);
      && Consistent(d) && Later(c, d) && OnlySpoke(c, d)
      && d.queued == c.queued + items && d.flushAndClose == c.flushAndClose
    decreases |items|
  {
    hide Consistent, Later, OnlySpoke, Write;
    if items == [] {
      assert c.queued + items == c.queued;
      LaterSelf(c);
    } else {
      var init, last := items[..|items| - 1], items[|items| - 1];
      GoodWriteAll(c, init);
      var d := WriteAll(c, init);
      GoodWrite(d, last);
      LaterTrans(c, d, Write(d, last));
      assert (c.queued + init) + [last] == c.queued + items;
    }
  }

  lemma SaidTogether(before: seq<Item>, items: seq<Item>)
    requires NothingAfterClose(before)
    requires forall i :: 0 <= i < |items| ==> !items[i].ByClose?
    requires !ClosedSaid(before) || forall i :: 0 <= i < |items| ==> items[i].ByHandshake?
    ensures NothingAfterClose(before + items) && (ClosedSaid(before + items) <==> ClosedSaid(before))
    ensures (forall i :: 0 <= i < |items| ==> items[i].ByHandshake?) ==> (FrameSaid(before + items) <==> FrameSaid(before))
  {
    var t := before + items;
    assert forall i :: 0 <= i < |before| ==> t[i] == before[i];
    assert forall i :: |before| <= i < |t| ==> t[i] == items[i - |before|];
  }

  // ---------- the calls ----------

  /** Frames sent while nothing has been said about closing. */
  lemma GoodSend(c: Conn, frames: seq<seq<byte>>)
    requires Inv(c)
    ensures Inv(Send(c, frames)) && Later(c, Send(c, frames))
  {
    if c.ready == OPEN {
      GoodWriteAll(c, Items(frames));
      SaidTogether(c.queued, Items(frames));
    }
    hide Consistent, Later, WriteAll, ClosedSaid, FrameSaid, NothingAfterClose;
  }

  lemma GoodHandshakeWrite(c: Conn, items: seq<Item>)
    requires Inv(c) && forall i :: 0 <= i < |items| ==> items[i].ByHandshake?
    ensures var d := WriteAll(c, items); Inv(d) && Later(c, d) && OnlySpoke(c, d)
  {
    hide Consistent, Later, WriteAll, ClosedSaid, FrameSaid, NothingAfterClose;
    GoodWriteAll(c, items);
    SaidTogether(c.queued, items);
  }

  lemma GoodFlush(c: Conn, r: Reason)
    requires Inv(c)
    ensures var d := FlushAndClose(c, r); Inv(d) && Later(c, d) && OnlySpoke(c, d) && d.flushAndClose
  {
    GoodFlushAndClose(c, r);
    hide Consistent, Later, FlushAndClose, ClosedSaid, FrameSaid, NothingAfterClose;
  }

  /** Closing an open connection says so at most once, and nothing else after it. */
  lemma GoodSayClose(c: Conn, code: int, message: string, remote: bool)
    requires Consistent(c) && c.draft.Some? && !ClosedSaid(c.queued) && NothingAfterClose(c.queued)
    ensures var d := SayClose(c, code, message, remote);
      Consistent(d) && Later(c, d) && OnlySpoke(c, d) && NothingAfterClose(d.queued)
  {
    hide Consistent, Later, OnlySpoke, Tell, Write, FlushAndClose, ClosedSaid, FrameSaid, NothingAfterClose, IsValid;
    LaterSelf(c);
    if c.draft.value.closeHandshakeType != NONE {
      var c1 := if remote then c else Tell(c, OnCloseInitiated(code, message));
      GoodTell(c, OnCloseInitiated(code, message));
      SayFrame(c1, MakeCloseFrame(code, message), c.draft.value);
      LaterTrans(c, c1, SayClose(c, code, message, remote));
    }
  }

  lemma SayFrame(c: Conn, f: CloseFrame, draft: Draft)
    requires Consistent(c) && !ClosedSaid(c.queued) && NothingAfterClose(c.queued)
    ensures var d :=
        if IsValid(f) then Write(c, ByClose(draft.binaryClose(f)))
        else FlushAndClose(Tell(c, OnError), Reason(ABNORMAL_CLOSE, "generated frame is invalid", false));
      Consistent(d) && Later(c, d) && OnlySpoke(c, d) && NothingAfterClose(d.queued)
  {
    hide Consistent, Later, OnlySpoke, Tell, Write, FlushAndClose, ClosedSaid, FrameSaid, NothingAfterClose, IsValid;
    var item := ByClose(draft.binaryClose(f));
    GoodWrite(c, item);
    SnocItems(c.queued, item);
    var c2, r := Tell(c, OnError), Reason(ABNORMAL_CLOSE, "generated frame is invalid", false);
    GoodTell(c, OnError);
    GoodFlushAndClose(c2, r);
    LaterTrans(c, c2, FlushAndClose(c2, r));
  }

  /** From what has been spoken to a closing connection. */
  lemma Closing(c: Conn, d: Conn, tmp: Option<ByteBuffer>)
    requires Inv(c) && Consistent(d) && Later(c, d) && OnlySpoke(c, d) && NothingAfterClose(d.queued)
    requires d.flushAndClose && Rank(c.ready) < 2
    requires tmp == c.tmp || tmp == None
    ensures var e := d.(ready := CLOSING, tmp := tmp); Inv(e) && Later(c, e)
  {
    hide Closes, Closings, ClosedSaid, FrameSaid, NothingAfterClose, Flat, ItemBytes;
  }

  lemma GoodClose(c: Conn, code: int, message: string, remote: bool)
    requires Inv(c)
    ensures Inv(Close(c, code, message, remote)) && Later(c, Close(c, code, message, remote))
  {
    if c.ready == OPEN && code == ABNORMAL_CLOSE {
      GoodCloseAbnormal(c, message);
    } else if c.ready == OPEN {
      GoodCloseOpen(c, code, message, remote);
    } else if c.ready == NOT_YET_CONNECTED {
      GoodCloseEarly(c, code, message, remote);
    }
    hide Consistent, Later, ClosedSaid, FrameSaid, NothingAfterClose;
  }

  lemma GoodCloseAbnormal(c: Conn, message: string)
    requires Inv(c) && c.ready == OPEN
    ensures var d := FlushAndClose(c.(ready := CLOSING), Reason(ABNORMAL_CLOSE, message, false)); Inv(d) && Later(c, d)
  {
    var r := Reason(ABNORMAL_CLOSE, message, false);
    GoodFlushAndClose(c, r);
    Closing(c, FlushAndClose(c, r), c.tmp);
    assert FlushAndClose(c.(ready := CLOSING), r) == FlushAndClose(c, r).(ready := CLOSING, tmp := c.tmp);
    hide Consistent, Later, FlushAndClose, ClosedSaid, FrameSaid, NothingAfterClose;
  }

  lemma GoodCloseOpen(c: Conn, code: int, message: string, remote: bool)
    requires Inv(c) && c.ready == OPEN && code != ABNORMAL_CLOSE
    ensures Inv(Close(c, code, message, remote)) && Later(c, Close(c, code, message, remote))
  {
    GoodSayClose(c, code, message, remote);
    var d := SayClose(c, code, message, remote);
    var r := Reason(code, message, remote);
    GoodFlushAndClose(d, r);
    LaterTrans(c, d, FlushAndClose(d, r));
    Closing(c, FlushAndClose(d, r), None);
    hide Consistent, Later, ClosedSaid, FrameSaid, NothingAfterClose, FlushAndClose, SayClose;
  }

  lemma GoodCloseEarly(c: Conn, code: int, message: string, remote: bool)
    requires Inv(c) && c.ready == NOT_YET_CONNECTED
    ensures Inv(Close(c, code, message, remote)) && Later(c, Close(c, code, message, remote))
  {
    var r :=
      if code == FLASHPOLICY then Reason(FLASHPOLICY, message, true)
      else if code == PROTOCOL_ERROR then Reason(code, message, remote)
      else Reason(NEVER_CONNECTED, message, false);
    GoodFlushAndClose(c, r);
    Closing(c, FlushAndClose(c, r), None);
    hide Consistent, Later, ClosedSaid, FrameSaid, NothingAfterClose, FlushAndClose;
  }

  // ---------- the handshake ----------

  lemma GoodHandshakeItem(c: Conn, bytes: seq<byte>)
    requires Inv(c)
    ensures var d := Write(c, ByHandshake(bytes)); Inv(d) && Later(c, d) && OnlySpoke(c, d)
  {
    GoodHandshakeWrite(c, [ByHandshake(bytes)]);
    assert WriteAll(c, [ByHandshake(bytes)]) == Write(c, ByHandshake(bytes)) by {
      assert [ByHandshake(bytes)][..0] == [];
    }
    hide Inv, Later, OnlySpoke, Write, WriteAll;
  }

  lemma GoodRefusal(c: Conn, bytes: seq<byte>, r: Reason)
    requires Inv(c)
    ensures var d := FlushAndClose(Write(c, ByHandshake(bytes)), r); Inv(d) && Later(c, d) && OnlySpoke(c, d)
  {
    hide Inv, Later, OnlySpoke, Write, FlushAndClose;
    GoodHandshakeItem(c, bytes);
    var d := Write(c, ByHandshake(bytes));
    GoodFlush(d, r);
    LaterTrans(c, d, FlushAndClose(d, r));
  }

  lemma GoodError(c: Conn)
    requires Inv(c)
    ensures var d := Tell(c, OnError); Inv(d) && Later(c, d) && OnlySpoke(c, d)
  {
    hide Consistent, Later, OnlySpoke, ClosedSaid, FrameSaid, NothingAfterClose;
    GoodTell(c, OnError);
  }

  lemma GoodStart(c: Conn, bytes: seq<seq<byte>>, consent: Consent)
    requires Inv(c)
    ensures Inv(StartHandshake(c, bytes, consent)) && Later(c, StartHandshake(c, bytes, consent))
  {
    hide Inv, Later, Tell, WriteAll;
    match consent {
      case Consents => GoodHandshakeWrite(c, Responses(bytes));
      case Refuses => LaterSelf(c);
      case BreaksDown => GoodError(c);
    }
  }

  lemma GoodOpen(c: Conn, draft: Draft)
    requires Inv(c) && c.ready == NOT_YET_CONNECTED
    requires if c.role == SERVER then draft.role == Some(SERVER) else draft.role != Some(SERVER)
    ensures var d := Open(c.(draft := Some(draft))); Inv(d) && Later(c, d) && d.tmp == c.tmp && d.ready == OPEN
  {
    var c1 := c.(draft := Some(draft), ready := OPEN);
    hide Closes, Closings, Flat, ItemBytes;
    assert Consistent(c1);
    GoodTell(c1, OnOpen);
    hide Consistent, ClosedSaid, FrameSaid, NothingAfterClose;
  }

  lemma GoodServer(c: Conn, judge: Judge, bytes: seq<byte>)
    requires Inv(c) && c.ready == NOT_YET_CONNECTED && c.role == SERVER
    ensures var r := JudgedByServer(c, judge, bytes); Inv(r.0) && Later(c, r.0) && (r.0.tmp == c.tmp)
    ensures var r := JudgedByServer(c, judge, bytes); r.1.verdict.Incomplete? ==> r.0 == c
    ensures var r := JudgedByServer(c, judge, bytes); r.2 <==> r.0.ready == OPEN
  {
    hide Inv, Later, FlushAndClose, Write, WriteAll, Open, Tell, FirstToDecide;
    LaterSelf(c);
    var i := FirstToDecide(judge, c.knownDrafts, bytes, 0);
    if i < 0 {
      GoodRefusal(c, NotFound(), Reason(PROTOCOL_ERROR, "no draft matches", false));
    } else {
      var d := c.knownDrafts[i].(role := Some(SERVER));
      GoodVerdict(c, d, judge(d, bytes).verdict);
    }
  }

  lemma GoodVerdict(c: Conn, d: Draft, v: Verdict)
    requires Inv(c) && c.ready == NOT_YET_CONNECTED && c.role == SERVER && d.role == Some(SERVER)
    ensures v == WrongFunction ==>
      var e := CloseDueToWrongHandshake(c, PROTOCOL_ERROR, "wrong http function"); Inv(e) && Later(c, e) && OnlySpoke(c, e)
    ensures v.Matched? && v.answer.Agreed? ==>
      var e := Open(WriteAll(c, Responses(v.answer.response)).(draft := Some(d)));
      Inv(e) && Later(c, e) && e.tmp == c.tmp && e.ready == OPEN
    ensures v.Matched? && v.answer.Rejected? ==>
      var e := CloseDueToWrongHandshake(c, v.answer.code, v.answer.message); Inv(e) && Later(c, e) && OnlySpoke(c, e)
    ensures v.Matched? && v.answer.Failed? ==>
      var e := CloseDueToInternalError(Tell(c, OnError), v.answer.message); Inv(e) && Later(c, e) && OnlySpoke(c, e)
  {
    hide Inv, Later, FlushAndClose, Write, WriteAll, Tell;
    if v == WrongFunction {
      GoodRefusal(c, NotFound(), Reason(PROTOCOL_ERROR, "wrong http function", false));
    } else if v.Matched? && v.answer.Agreed? {
      GoodHandshakeWrite(c, Responses(v.answer.response));
      var c1 := WriteAll(c, Responses(v.answer.response));
      GoodOpen(c1, d);
      LaterTrans(c, c1, Open(c1.(draft := Some(d))));
    } else if v.Matched? && v.answer.Rejected? {
      GoodRefusal(c, NotFound(), Reason(v.answer.code, v.answer.message, false));
    } else if v.Matched? && v.answer.Failed? {
      GoodError(c);
      var c1, r := Tell(c, OnError), Reason(NEVER_CONNECTED, v.answer.message, false);
      GoodRefusal(c1, InternalError(), r);
      LaterTrans(c, c1, CloseDueToInternalError(c1, v.answer.message));
    }
  }

  lemma GoodRole(c: Conn)
    requires Inv(c) && c.role == CLIENT
    ensures var d := c.(draft := Some(c.draft.value.(role := Some(CLIENT)))); Inv(d) && Later(c, d)
  {
    hide Closes, Closings, Flat, ItemBytes, ClosedSaid, FrameSaid, NothingAfterClose;
  }

  lemma GoodClient(c: Conn, judge: Judge, bytes: seq<byte>)
    requires Inv(c) && c.ready == NOT_YET_CONNECTED && c.role == CLIENT
    ensures var r := JudgedByDraft(c, judge, bytes);
      && Inv(r.0) && Later(c, r.0) && (r.0.tmp == c.tmp || (r.0.tmp.None? && !r.2)) && (r.2 <==> r.0.ready == OPEN)
      && (r.1.verdict.Incomplete? ==> r.0.ready == NOT_YET_CONNECTED)
  {
    GoodRole(c);
    var d := c.draft.value.(role := Some(CLIENT));
    var c1 := c.(draft := Some(d));
    var v := judge(d, bytes).verdict;
    if v.Invalid? || v.Refused? {
      var message := if v.Invalid? then v.message else Refusal(c.role, v.description);
      GoodCloseHandshake(c, c1, message);
    } else if v == WrongFunction {
      GoodGivingUp(c, c1, Reason(PROTOCOL_ERROR, "wrong http function", false));
    } else if v.Matched? {
      GoodAnswer(c, c1, v.answer);
    }
    hide Inv, Later, FlushAndClose, Open, Tell, Close, OnlySpoke;
  }

  lemma GoodCloseHandshake(c: Conn, c1: Conn, message: string)
    requires Inv(c1) && Later(c, c1) && c1.ready == NOT_YET_CONNECTED
    ensures var e := Close(c1, PROTOCOL_ERROR, message, false); Inv(e) && Later(c, e) && e.tmp.None? && e.ready == CLOSING
  {
    GoodClose(c1, PROTOCOL_ERROR, message, false);
    var e := Close(c1, PROTOCOL_ERROR, message, false);
    assert e.tmp.None? && e.ready == CLOSING;
    hide Inv, Later, Close;
    LaterTrans(c, c1, e);
  }

  lemma GoodGivingUp(c: Conn, c1: Conn, r: Reason)
    requires Inv(c1) && Later(c, c1)
    ensures var e := FlushAndClose(c1, r); Inv(e) && Later(c, e) && OnlySpoke(c1, e)
  {
    hide Inv, Later, FlushAndClose, OnlySpoke;
    GoodFlush(c1, r);
    LaterTrans(c, c1, FlushAndClose(c1, r));
  }

  lemma GoodAnswer(c: Conn, c1: Conn, answer: Answer)
    requires Inv(c1) && Later(c, c1) && c1.ready == NOT_YET_CONNECTED && c1.role == CLIENT && c1.draft.Some?
    ensures answer.Agreed? ==> Inv(Open(c1)) && Later(c, Open(c1)) && Open(c1).tmp == c1.tmp
    ensures answer.Rejected? ==>
      var e := FlushAndClose(c1, Reason(answer.code, answer.message, false)); Inv(e) && Later(c, e) && OnlySpoke(c1, e)
    ensures answer.Failed? ==>
      var e := FlushAndClose(Tell(c1, OnError), Reason(NEVER_CONNECTED, answer.message, false));
      Inv(e) && Later(c, e) && OnlySpoke(c1, e)
  {
    if answer.Agreed? {
      GoodOpen(c1, c1.draft.value);
      assert c1.(draft := Some(c1.draft.value)) == c1;
      hide Inv, Later, Open;
      LaterTrans(c, c1, Open(c1));
    } else if answer.Rejected? {
      GoodGivingUp(c, c1, Reason(answer.code, answer.message, false));
    } else {
      hide Inv, Later, FlushAndClose, Tell, OnlySpoke;
      GoodError(c1);
      var c2 := Tell(c1, OnError);
      LaterTrans(c, c1, c2);
      GoodGivingUp(c, c2, Reason(NEVER_CONNECTED, answer.message, false));
      LaterTrans(c, c1, c2);
      SpokeTrans(c1, c2, FlushAndClose(c2, Reason(NEVER_CONNECTED, answer.message, false)));
    }
  }

  lemma SpokeTrans(c: Conn, d: Conn, e: Conn)
    requires OnlySpoke(c, d) && OnlySpoke(d, e)
    ensures OnlySpoke(c, e)
  {}

  // ---------- what arrives ----------

  lemma GoodBuffer(c: Conn, tmp: ByteBuffer, frames: seq<byte>)
    requires Inv(c) && c.tmp.Some? && tmp.Valid()
    ensures var d := c.(tmp := Some(tmp)); Inv(d) && Later(c, d)
    ensures var d := c.(frames := c.frames + frames); Inv(d) && Later(c, d)
  {
    hide Closes, Closings, Flat, ItemBytes, ClosedSaid, FrameSaid, NothingAfterClose;
  }

  lemma MoreFrames(c: Conn, frames: seq<byte>)
    requires Inv(c)
    ensures var d := c.(frames := c.frames + frames); Inv(d) && Later(c, d)
  {
    hide Closes, Closings, Flat, ItemBytes, ClosedSaid, FrameSaid, NothingAfterClose;
  }

  lemma GoodSettled(c: Conn, tmp: ByteBuffer, rest: ByteBuffer, done: bool)
    requires Inv(c) && rest.Valid()
    ensures var d := Settled(c, tmp, rest, done); Inv(d) && Later(c, d) && d.ready == c.ready
  {
    LaterSelf(c);
    var c1 := if tmp.Capacity() == 0 || c.tmp.None? then c else c.(tmp := Some(rest));
    if c.tmp.Some? {
      GoodBuffer(c, rest, []);
    }
    MoreFrames(c1, rest.Unread());
    hide Inv, Later;
    LaterTrans(c, c1, Settled(c, tmp, rest, done));
  }

  /** The judgement of a handshake, whoever makes it. */
  lemma GoodJudged(c: Conn, judge: Judge, bytes: seq<byte>)
    requires Inv(c) && c.ready == NOT_YET_CONNECTED && Sensible(judge)
    ensures if c.role == SERVER then c.knownDrafts != [] else c.draft.Some?
    ensures var r := Judged(c, judge, bytes);
      && Inv(r.0) && Later(c, r.0) && (r.0.tmp == c.tmp || (r.0.tmp.None? && !r.2)) && (r.2 <==> r.0.ready == OPEN)
      && (r.1.verdict.Incomplete? ==> r.0.ready == NOT_YET_CONNECTED)
  {
    if c.role == SERVER {
      GoodServer(c, judge, bytes);
    } else {
      GoodClient(c, judge, bytes);
    }
    hide Consistent, Said, Later, JudgedByServer, JudgedByDraft;
  }

  lemma InvDecodable(c: Conn, chunk: ByteBuffer, judge: Judge)
    requires Inv(c) && chunk.Valid() && chunk.Remaining() > 0 && Sensible(judge)
    ensures Decodable(c, chunk, judge)
  {}

  lemma GoodDecodeHandshake(c: Conn, chunk: ByteBuffer, judge: Judge)
    requires Inv(c) && Decodable(c, chunk, judge) && c.ready == NOT_YET_CONNECTED
    ensures var d := DecodeHandshake(c, chunk, judge); Inv(d) && Later(c, d)
  {
    var tmp := c.tmp.value;
    var buffer := Collected(tmp, chunk);
    var bytes := buffer.Unread();
    GoodJudged(c, judge, bytes);
    var (c1, p, done) := Judged(c, judge, bytes);
    var d := DecodeHandshake(c, chunk, judge);
    hide Judged, Collected;
    if p.verdict.Incomplete? {
      var kept := Keep(tmp, buffer, p.verdict.preferredSize);
      EarlyKeeps(c1);
      hide Inv, Keep, Later;
      GoodBuffer(c1, kept, []);
      LaterTrans(c, c1, d);
    } else {
      hide Inv, Settled, Later;
      GoodSettled(c1, tmp, buffer.Skip(p.used), done);
      LaterTrans(c, c1, d);
    }
  }

  lemma EarlyKeeps(c: Conn)
    requires Inv(c) && c.ready == NOT_YET_CONNECTED
    ensures c.tmp.Some?
  {}

  lemma GoodDecode(c: Conn, chunk: ByteBuffer, judge: Judge)
    requires Inv(c) && Decodable(c, chunk, judge)
    ensures var d := Decode(c, chunk, judge); Inv(d) && Later(c, d)
  {
    LaterSelf(c);
    if c.ready == OPEN {
      MoreFrames(c, chunk.Unread());
    } else if c.ready == NOT_YET_CONNECTED {
      GoodDecodeHandshake(c, chunk, judge);
    }
    hide Inv, Later, DecodeHandshake;
  }

  // ---------- writing ----------

  lemma {:induction false} FlushConserves(c: Conn, room: seq<nat>)
    ensures var d := Flush(c, room);
      d.written + Flat(d.outQueue) == c.written + Flat(c.outQueue) && c.written <= d.written
    decreases |c.outQueue|
  {
    if c.outQueue != [] {
      var buffer, rest := c.outQueue[0], c.outQueue[1..];
      var n := Taken(if room == [] then 0 else room[0], buffer);
      FlushSteps(c, room);
      hide *;
      assert c.outQueue == [buffer] + rest;
      if n < |buffer| {
        MovesPart(c.written, buffer, n, rest);
      } else {
        FlushConserves(c.(written := c.written + buffer, outQueue := rest), if room == [] then [] else room[1..]);
        MovesAll(c.written, buffer, rest);
      }
    }
  }

  lemma MovesPart(w: seq<byte>, buffer: seq<byte>, n: nat, rest: seq<seq<byte>>)
    requires n <= |buffer|
    ensures (w + buffer[..n]) + Flat([buffer[n..]] + rest) == w + Flat([buffer] + rest)
  {
    hide *;
    FlatFirst(buffer, rest);
    FlatFirst(buffer[n..], rest);
    Regroup(w, buffer[..n], buffer[n..], Flat(rest));
    assert buffer[..n] + buffer[n..] == buffer;
  }

  lemma MovesAll(w: seq<byte>, buffer: seq<byte>, rest: seq<seq<byte>>)
    ensures (w + buffer) + Flat(rest) == w + Flat([buffer] + rest)
  {
    hide *;
    FlatFirst(buffer, rest);
    assert (w + buffer) + Flat(rest) == w + (buffer + Flat(rest));
  }

  lemma FlushSteps(c: Conn, room: seq<nat>)
    requires c.outQueue != []
    ensures var (buffer, rest) := (c.outQueue[0], c.outQueue[1..]);
      var n := Taken(if room == [] then 0 else room[0], buffer);
      Flush(c, room) ==
        if n < |buffer| then c.(written := c.written + buffer[..n], outQueue := [buffer[n..]] + rest)
        else Flush(c.(written := c.written + buffer, outQueue := rest), if room == [] then [] else room[1..])
  {}

  lemma Regroup(w: seq<byte>, a: seq<byte>, b: seq<byte>, rest: seq<byte>)
    ensures (w + a) + (b + rest) == w + ((a + b) + rest)
  {}

  lemma GoodFlushing(c: Conn, room: seq<nat>)
    requires Inv(c)
    ensures var d := Flush(c, room); Inv(d) && Later(c, d)
  {
    FlushKeeps(c, room);
    FlushConserves(c, room);
    hide Flush, Flat, ItemBytes, Closes, Closings, ClosedSaid, FrameSaid, NothingAfterClose;
  }

  lemma GoodBatch(c: Conn, room: seq<nat>)
    requires Inv(c)
    ensures Inv(Batch(c, room)) && Later(c, Batch(c, room))
  {
    GoodFlushing(c, room);
    var c1 := Flush(c, room);
    if ClosesAfterFlush(c1) {
      GoodCloseConnection(c1, c1.reason.value);
      LaterTrans(c, c1, CloseConnection(c1, c1.reason.value));
    }
    hide Inv, Later, Flush, CloseConnection;
  }
}
