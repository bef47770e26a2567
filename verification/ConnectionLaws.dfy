/** Closing in order, failing handshakes, and handshakes that arrive in pieces. */
module ConnectionLaws {
  import opened Options
  import opened ByteBuffers
  import opened Connection
  import opened ConnectionInvariant
  import opened ConnectionRuns

  // ---------- close frames ----------

  /** The codes that reach the other end: those that section 7.4 of RFC 6455 defines for
      sending, 1012 to 1014, which were registered later, and the ones that section leaves
      to libraries and applications. */
  predicate MaySend(code: int, message: string) {
    1000 <= code <= 1003 || (code == 1007 && message != "") || 1008 <= code <= 1014 || 3000 <= code <= 4999
  }

  lemma SendableCodes(code: int, message: string)
    ensures IsValid(MakeCloseFrame(code, message)) <==> MaySend(code, message)
  {
    assert code == TLS_ERROR ==> !IsValid(MakeCloseFrame(code, message));
  }

  /** When closing an open connection says so to the other end. */
  lemma ClosingSaysSoIff(c: Conn, code: int, message: string, remote: bool)
    requires Inv(c) && c.ready == OPEN
    ensures ClosedSaid(Close(c, code, message, remote).queued) <==>
      code != ABNORMAL_CLOSE && c.draft.value.closeHandshakeType != NONE && IsValid(MakeCloseFrame(code, message))
    ensures var d := Close(c, code, message, remote);
      ClosedSaid(d.queued) ==>
        d.queued == c.queued + [ByClose(c.draft.value.binaryClose(MakeCloseFrame(code, message)))]
  {
    SnocItems(c.queued, ByClose(c.draft.value.binaryClose(MakeCloseFrame(code, message))));
    hide IsValid, ClosedSaid, NothingAfterClose, FrameSaid, Consistent;
  }

  predicate GoodbyeLast(items: seq<Item>) {
    ClosedSaid(items) ==> items[|items| - 1].ByClose?
  }

  lemma GoodbyeKept(c: Conn, s: Step)
    requires Inv(c) && Possible(s) && !s.StepStartHandshake?
    requires c.ready == CLOSING || c.ready == CLOSED
    ensures Next(c, s).queued == c.queued
  {
    ReasonIsThere(c);
    hide Inv, Possible, Batch, DecodeHandshake, EotReason, SayClose, WriteAll, StartHandshake;
    if s.StepBatch? {
      BatchQueuesNothing(c, s.room);
    }
  }

  lemma ServerStaysUp(c: Conn, judge: Judge, bytes: seq<byte>)
    requires c.role == SERVER && c.ready == NOT_YET_CONNECTED && c.knownDrafts != []
    ensures var r := JudgedByServer(c, judge, bytes).0.ready; r == NOT_YET_CONNECTED || r == OPEN
  {
    hide WriteAll, NotFound, InternalError, FirstToDecide;
  }

  lemma ClientQueuesNothing(c: Conn, judge: Judge, bytes: seq<byte>)
    requires c.role == CLIENT && c.ready == NOT_YET_CONNECTED && c.draft.Some?
    ensures JudgedByDraft(c, judge, bytes).0.queued == c.queued
  {}

  lemma DecodeSaysNothing(c: Conn, chunk: ByteBuffer, judge: Judge)
    requires Inv(c) && Decodable(c, chunk, judge) && c.ready == NOT_YET_CONNECTED
    ensures !ClosedSaid(DecodeHandshake(c, chunk, judge).queued)
  {
    var bytes := Collected(c.tmp.value, chunk).Unread();
    GoodJudged(c, judge, bytes);
    if c.role == CLIENT {
      ClientQueuesNothing(c, judge, bytes);
    } else {
      ServerStaysUp(c, judge, bytes);
    }
    hide Collected, Keep, Consistent, Later, ClosedSaid, NothingAfterClose, FrameSaid, JudgedByServer, JudgedByDraft;
  }

  lemma SendSaysNothing(c: Conn, frames: seq<seq<byte>>)
    requires Inv(c) && c.ready == OPEN
    ensures !ClosedSaid(Send(c, frames).queued)
  {
    GoodWriteAll(c, Items(frames));
    SaidTogether(c.queued, Items(frames));
    hide Consistent, WriteAll, ClosedSaid, FrameSaid, NothingAfterClose;
  }

  lemma EarlyCloseQueuesNothing(c: Conn, code: int, message: string, remote: bool)
    requires c.ready == NOT_YET_CONNECTED
    ensures Close(c, code, message, remote).queued == c.queued
  {}

  lemma NothingSaidEarly(c: Conn)
    requires Inv(c) && c.ready == NOT_YET_CONNECTED
    ensures !ClosedSaid(c.queued)
  {
    hide Consistent, ClosedSaid;
  }

  lemma CloseSaysLast(c: Conn, code: int, message: string, remote: bool)
    requires Inv(c) && (c.ready == NOT_YET_CONNECTED || c.ready == OPEN)
    ensures GoodbyeLast(Close(c, code, message, remote).queued)
  {
    hide Inv, Close, IsValid, ClosedSaid;
    if c.ready == OPEN {
      DraftIsThere(c);
      ClosingSaysSoIff(c, code, message, remote);
    } else {
      EarlyCloseQueuesNothing(c, code, message, remote);
      NothingSaidEarly(c);
    }
  }

  lemma CloseStep(c: Conn, s: Step)
    requires Inv(c) && s.StepClose?
    ensures Next(c, s) == Close(c, s.code, s.message, s.remote)
  {
    hide Inv, Close;
  }

  lemma DraftIsThere(c: Conn)
    requires Inv(c) && c.ready == OPEN
    ensures c.draft.Some?
  {}

  lemma NoGoodbyeYet(c: Conn, s: Step)
    requires Inv(c) && Possible(s) && !s.StepStartHandshake? && !s.StepClose?
    requires c.ready == NOT_YET_CONNECTED || c.ready == OPEN
    ensures !ClosedSaid(Next(c, s).queued)
  {
    if s.StepDecode? && c.ready == NOT_YET_CONNECTED {
      InvDecodable(c, s.chunk, s.judge);
      DecodeSaysNothing(c, s.chunk, s.judge);
    } else if s.StepBatch? {
      FlushKeeps(c, s.room);
    } else if s.StepSend? && c.ready == OPEN {
      SendSaysNothing(c, s.frames);
    }
    hide Consistent, Flush, DecodeHandshake, WriteAll, ClosedSaid, FrameSaid, NothingAfterClose;
  }

  /** Once the opening handshake is under way, a close frame is the last that is queued. */
  lemma {:induction false} GoodbyeIsLast(c: Conn, steps: seq<Step>)
    requires Inv(c) && !ClosedSaid(c.queued) && AllPossible(steps)
    requires forall i :: 0 <= i < |steps| ==> !steps[i].StepStartHandshake?
    ensures GoodbyeLast(After(c, steps).queued)
    decreases |steps|
  {
    if steps != [] {
      var init, last := steps[..|steps| - 1], steps[|steps| - 1];
      GoodbyeIsLast(c, init);
      var d := After(c, init);
      assert Possible(last) && !last.StepStartHandshake?;
      assert After(c, steps) == Next(d, last);
      hide Next, Possible, ClosedSaid, Consistent, Phased, Said, After;
      if d.ready == CLOSING || d.ready == CLOSED {
        GoodbyeKept(d, last);
      } else if last.StepClose? {
        CloseSaysLast(d, last.code, last.message, last.remote);
        CloseStep(d, last);
      } else {
        NoGoodbyeYet(d, last);
      }
    }
  }

  lemma LastBytes(c: Conn, room: seq<nat>)
    requires Inv(c) && GoodbyeLast(c.queued) && ClosedSaid(c.queued)
    requires c.ready != CLOSED && Batch(c, room).ready == CLOSED
    ensures EndsWithGoodbye(c.queued, Batch(c, room).written)
  {
    hide Inv, ItemBytes, Batch;
    ReasonIsThere(c);
    BatchClosesIff(c, room);
    BatchQueuesNothing(c, room);
    ItemBytesLast(c.queued);
  }

  ghost predicate EndsWithGoodbye(items: seq<Item>, written: seq<byte>) {
    items != [] &&
    var goodbye := items[|items| - 1];
    goodbye.ByClose? && written == ItemBytes(items[..|items| - 1]) + goodbye.bytes
  }

  /** When writing closes a connection that has said goodbye, the close frame is the last
      that the other end gets. */
  lemma LastBytesAreGoodbye(c: Conn, steps: seq<Step>, room: seq<nat>)
    requires Inv(c) && !ClosedSaid(c.queued) && AllPossible(steps)
    requires forall i :: 0 <= i < |steps| ==> !steps[i].StepStartHandshake?
    ensures var d := After(c, steps);
      d.ready != CLOSED && Batch(d, room).ready == CLOSED && ClosedSaid(d.queued) ==>
        EndsWithGoodbye(d.queued, Batch(d, room).written)
  {
    hide Inv, After, ClosedSaid, Batch, EndsWithGoodbye, Possible, GoodbyeLast;
    GoodbyeIsLast(c, steps);
    var d := After(c, steps);
    ReasonIsThere(d);
    if d.ready != CLOSED && Batch(d, room).ready == CLOSED && ClosedSaid(d.queued) {
      LastBytes(d, room);
    }
  }

  lemma BatchQueuesNothing(c: Conn, room: seq<nat>)
    requires c.flushAndClose ==> c.reason.Some?
    ensures Batch(c, room).queued == c.queued
  {
    FlushKeeps(c, room);
    hide Flush;
  }

  lemma ItemBytesLast(items: seq<Item>)
    requires ClosedSaid(items)
    ensures items != [] && ItemBytes(items) == ItemBytes(items[..|items| - 1]) + items[|items| - 1].bytes
  {}

  // ---------- the end of a connection that never opened ----------

  /** The end of the channel is answered except by a server that was never open and has
      ended already. */
  lemma EotFailsIff(c: Conn, steps: seq<Step>)
    requires Fresh(c) && AllPossible(steps)
    ensures Inv(c)
    ensures var d := After(c, steps);
      EotFails(d) <==> d.ready == CLOSED && !d.flushAndClose && d.draft.None?
  {
    FreshInv(c);
    assert Inv(After(c, steps));
    hide After, Consistent, Said;
  }

  /** So it may be reported once to such a server, but not twice. */
  lemma EotTwiceFails(c: Conn)
    requires Fresh(c) && c.role == SERVER
    ensures Inv(c) && AllPossible([StepEot]) && !EotFails(c) && EotFails(After(c, [StepEot]))
  {
    hide Inv, After;
    FreshInv(c);
    AfterOne(c, StepEot);
  }

  // ---------- handshakes that fail ----------

  /** A server whose handshake has failed has no draft, so writing the answer does not close
      it, however much the channel takes. */
  lemma FailedHandshakeWaits(c: Conn, steps: seq<Step>, room: seq<nat>)
    requires Fresh(c) && c.role == SERVER && AllPossible(steps)
    ensures Inv(c)
    ensures var d := After(c, steps);
      d.ready == NOT_YET_CONNECTED ==> Batch(d, room).ready == NOT_YET_CONNECTED
  {
    FreshInv(c);
    var d := After(c, steps);
    NothingIsTakenBack(c, [], steps);
    assert [] + steps == steps;
    FlushKeeps(d, room);
    hide After, Flush, Consistent, Said;
  }

  /** Being told to close does not keep a connection from opening. */
  lemma FlushedThenOpened(c: Conn, judge: Judge, chunk: ByteBuffer, r: Reason)
    requires Fresh(c) && c.role == CLIENT && chunk.Valid() && chunk.Remaining() > 0 && Sensible(judge)
    requires judge(c.draft.value.(role := Some(CLIENT)), chunk.Unread()).verdict == Matched(Agreed([]))
    ensures Inv(c) && AllPossible([StepFlushAndClose(r), StepDecode(chunk, judge)])
    ensures var d := After(c, [StepFlushAndClose(r), StepDecode(chunk, judge)]); d.ready == OPEN && d.flushAndClose
  {
    hide Inv, After, Sensible, Decode, FlushAndClose, OnlySpoke, Later;
    FreshInv(c);
    AfterTwo(c, StepFlushAndClose(r), StepDecode(chunk, judge));
    FlushedStill(c, r);
    InvDecodable(FlushAndClose(c, r), chunk, judge);
    ClientOpens(FlushAndClose(c, r), judge, chunk);
  }

  lemma FlushedStill(c: Conn, r: Reason)
    requires Inv(c)
    ensures var d := FlushAndClose(c, r);
      Inv(d) && d.role == c.role && d.ready == c.ready && d.tmp == c.tmp && d.draft == c.draft && d.flushAndClose
  {
    GoodFlush(c, r);
    hide Inv, FlushAndClose, Later;
  }

  lemma ClientOpens(c: Conn, judge: Judge, chunk: ByteBuffer)
    requires Inv(c) && c.role == CLIENT && c.ready == NOT_YET_CONNECTED && c.tmp == Some(Allocate(0))
    requires Decodable(c, chunk, judge)
    requires judge(c.draft.value.(role := Some(CLIENT)), chunk.Unread()).verdict == Matched(Agreed([]))
    ensures var d := Decode(c, chunk, judge); d.ready == OPEN && d.flushAndClose == c.flushAndClose
  {
    hide Inv, Sensible;
    assert Collected(c.tmp.value, chunk) == chunk;
  }

  // ---------- handshakes in pieces ----------

  predicate AllDecode(steps: seq<Step>) {
    forall i :: 0 <= i < |steps| ==> steps[i].StepDecode?
  }

  ghost function Received(steps: seq<Step>): seq<byte>
    requires AllPossible(steps) && AllDecode(steps)
  {
    if steps == [] then []
    else Received(steps[..|steps| - 1]) + steps[|steps| - 1].chunk.Unread()
  }

  /** The bytes are found incomplete. */
  ghost predicate Awaits(c: Conn, judge: Judge, bytes: seq<byte>)
    requires Sensible(judge)
  {
    (if c.role == SERVER then c.knownDrafts != [] else c.draft.Some?) && Judged(c, judge, bytes).1.verdict.Incomplete?
  }

  /** Every chunk so far, with those before it, has been found incomplete. */
  ghost predicate Waiting(c: Conn, steps: seq<Step>)
    requires Inv(c) && AllPossible(steps) && AllDecode(steps)
  {
    if steps == [] then true
    else
      var init, last := steps[..|steps| - 1], steps[|steps| - 1];
      Waiting(c, init) && Awaits(After(c, init), last.judge, Received(steps))
  }

  /** The buffer holds what has been received; it has no room at all before the first
      chunk. */
  ghost predicate Holds(tmp: ByteBuffer, bytes: seq<byte>) {
    && tmp.Valid() && tmp.Filled() == bytes
    && (tmp.Capacity() == 0 <==> bytes == [])
  }

  /** Each judgement sees what has been received and what is new. */
  lemma CollectedIsAll(tmp: ByteBuffer, bytes: seq<byte>, chunk: ByteBuffer)
    requires Holds(tmp, bytes) && chunk.Valid()
    ensures Collected(tmp, chunk).Unread() == bytes + chunk.Unread()
  {
    if tmp.Capacity() != 0 {
      assert tmp.Flip().Unread() == bytes;
      assert Allocate(0).Filled() + bytes == bytes;
    } else {
      assert bytes + chunk.Unread() == chunk.Unread();
    }
  }

  lemma KeepIsAll(tmp: ByteBuffer, bytes: seq<byte>, chunk: ByteBuffer, preferredSize: nat)
    requires Holds(tmp, bytes) && chunk.Valid() && chunk.Remaining() > 0
    requires preferredSize > 0 ==> preferredSize >= |bytes| + chunk.Remaining()
    ensures Collected(tmp, chunk).Remaining() == |bytes| + chunk.Remaining()
    ensures Holds(Keep(tmp, Collected(tmp, chunk), preferredSize), bytes + chunk.Unread())
  {
    CollectedIsAll(tmp, bytes, chunk);
    var all := Collected(tmp, chunk);
    assert |all.Unread()| == |bytes| + chunk.Remaining();
    if tmp.Capacity() == 0 {
      var n := if preferredSize == 0 then all.Capacity() + 16 else preferredSize;
      assert Allocate(n).Filled() + all.Unread() == all.Unread();
    } else {
      assert all.position == 0;
      assert all.data[..all.limit] == all.Unread();
    }
  }

  /** However a handshake is cut into pieces, each judgement sees all of it so far: as long
      as it is incomplete nothing else happens, and the buffer holds what has been received. */
  lemma {:induction false} HandshakeSeesEverything(c: Conn, steps: seq<Step>)
    requires Fresh(c) && Inv(c) && AllPossible(steps) && AllDecode(steps)
    requires Waiting(c, steps)
    ensures var d := After(c, steps);
      && d.ready == NOT_YET_CONNECTED && d.calls == [] && d.queued == [] && d.frames == []
      && d.tmp.Some? && Holds(d.tmp.value, Received(steps))
    decreases |steps|
  {
    if steps == [] {
      WaitingStarts(c);
    } else {
      hide After, Received, Inv, Fresh, Holds, Judged, Next, Waiting, AllPossible, AllDecode, Possible, Sensible;
      var init, last := steps[..|steps| - 1], steps[|steps| - 1];
      WaitingSplits(c, steps);
      HandshakeSeesEverything(c, init);
      OnePieceMore(After(c, init), Received(init), last);
    }
  }

  lemma WaitingStarts(c: Conn)
    requires Fresh(c) && Inv(c)
    ensures After(c, []) == c && Received([]) == []
    ensures c.tmp.Some? && Holds(c.tmp.value, [])
  {
    hide Inv;
  }

  lemma WaitingSplits(c: Conn, steps: seq<Step>)
    requires Inv(c) && AllPossible(steps) && AllDecode(steps)
    requires Waiting(c, steps) && steps != []
    ensures var init, last := steps[..|steps| - 1], steps[|steps| - 1];
      var d := After(c, init);
      && last.StepDecode? && Possible(last) && AllPossible(init) && AllDecode(init) && Waiting(c, init)
      && After(c, steps) == Next(d, last)
      && Received(steps) == Received(init) + last.chunk.Unread()
      && (if d.role == SERVER then d.knownDrafts != [] else d.draft.Some?)
      && Judged(d, last.judge, Received(steps)).1.verdict.Incomplete?
  {
    hide Inv, Next, Judged, Sensible;
  }

  lemma OnePieceMore(c: Conn, bytes: seq<byte>, s: Step)
    requires Inv(c) && c.ready == NOT_YET_CONNECTED && c.tmp.Some? && Holds(c.tmp.value, bytes)
    requires s.StepDecode? && Possible(s)
    requires if c.role == SERVER then c.knownDrafts != [] else c.draft.Some?
    requires Judged(c, s.judge, bytes + s.chunk.Unread()).1.verdict.Incomplete?
    ensures var d := Next(c, s);
      && d.ready == NOT_YET_CONNECTED && d.calls == c.calls && d.queued == c.queued && d.frames == c.frames
      && d.tmp.Some? && Holds(d.tmp.value, bytes + s.chunk.Unread())
  {
    hide Inv, Judged, Holds, Sensible, Decode;
    InvDecodable(c, s.chunk, s.judge);
    OnePiece(c, bytes, s.chunk, s.judge);
  }

  lemma OnePiece(c: Conn, bytes: seq<byte>, chunk: ByteBuffer, judge: Judge)
    requires Decodable(c, chunk, judge) && c.ready == NOT_YET_CONNECTED && Holds(c.tmp.value, bytes)
    requires Judged(c, judge, bytes + chunk.Unread()).1.verdict.Incomplete?
    ensures var d := Decode(c, chunk, judge);
      && d.ready == NOT_YET_CONNECTED && d.calls == c.calls && d.queued == c.queued && d.frames == c.frames
      && d.tmp.Some? && Holds(d.tmp.value, bytes + chunk.Unread())
  {
    hide Judged, Sensible, Keep, Collected, Holds;
    var tmp := c.tmp.value;
    CollectedIsAll(tmp, bytes, chunk);
    var all := bytes + chunk.Unread();
    var (c1, p, done) := Judged(c, judge, all);
    IncompleteChangesNothing(c, judge, all);
    KeepIsAll(tmp, bytes, chunk, p.verdict.preferredSize);
  }

  lemma IncompleteChangesNothing(c: Conn, judge: Judge, bytes: seq<byte>)
    requires Sensible(judge)
    requires if c.role == SERVER then c.knownDrafts != [] else c.draft.Some?
    requires Judged(c, judge, bytes).1.verdict.Incomplete?
    ensures Judged(c, judge, bytes).0 == c.(draft := Judged(c, judge, bytes).0.draft)
  {
    hide FirstToDecide, Close, FlushAndClose, WriteAll, Open;
  }

  /** When the last piece completes the handshake, exactly what was received and not read as
      part of it goes to the frame decoder. */
  lemma RestGoesToFrames(c: Conn, steps: seq<Step>, chunk: ByteBuffer, judge: Judge)
    requires Fresh(c) && Inv(c) && AllPossible(steps) && AllDecode(steps)
    requires Waiting(c, steps)
    requires Possible(StepDecode(chunk, judge))
    ensures var d := After(c, steps);
      var all := Received(steps) + chunk.Unread();
      && Decodable(d, chunk, judge)
      && (Judged(d, judge, all).2 ==>
            && Decode(d, chunk, judge).ready == OPEN
            && Decode(d, chunk, judge).frames == all[Judged(d, judge, all).1.used..])
  {
    HandshakeSeesEverything(c, steps);
    var d := After(c, steps);
    InvDecodable(d, chunk, judge);
    CollectedIsAll(d.tmp.value, Received(steps), chunk);
    var all := Received(steps) + chunk.Unread();
    GoodJudged(d, judge, all);
    hide After, Received, Holds, Collected, Inv, Later;
    if Judged(d, judge, all).2 {
      LastPiece(d, all, chunk, judge);
    }
  }

  lemma LastPiece(c: Conn, all: seq<byte>, chunk: ByteBuffer, judge: Judge)
    requires Decodable(c, chunk, judge) && c.ready == NOT_YET_CONNECTED && c.frames == []
    requires Collected(c.tmp.value, chunk).Unread() == all
    requires Judged(c, judge, all).2 && Judged(c, judge, all).0.ready == OPEN
    ensures Decode(c, chunk, judge).ready == OPEN
    ensures Decode(c, chunk, judge).frames == all[Judged(c, judge, all).1.used..]
  {
    hide Judged, Collected, Sensible, Keep;
    CompleteHasNoFrames(c, judge, all);
    var rest := all[Judged(c, judge, all).1.used..];
    assert [] + rest == rest;
  }

  lemma CompleteHasNoFrames(c: Conn, judge: Judge, bytes: seq<byte>)
    requires Sensible(judge)
    requires if c.role == SERVER then c.knownDrafts != [] else c.draft.Some?
    requires Judged(c, judge, bytes).2
    ensures Judged(c, judge, bytes).0.frames == c.frames
    ensures !Judged(c, judge, bytes).1.verdict.Incomplete?
  {
    hide JudgedByServer, JudgedByDraft, Sensible;
    if c.role == SERVER && c.draft.None? {
      CompleteByServer(c, judge, bytes);
    } else {
      CompleteByDraft(c, judge, bytes);
    }
  }

  lemma CompleteByServer(c: Conn, judge: Judge, bytes: seq<byte>)
    requires c.knownDrafts != [] && JudgedByServer(c, judge, bytes).2
    ensures JudgedByServer(c, judge, bytes).0.frames == c.frames
    ensures !JudgedByServer(c, judge, bytes).1.verdict.Incomplete?
  {
    hide FirstToDecide, CloseDueToWrongHandshake, CloseDueToInternalError, WriteAll, Responses;
    var v := judge(c.knownDrafts[FirstToDecide(judge, c.knownDrafts, bytes, 0)].(role := Some(SERVER)), bytes).verdict;
    FramesKept(c, Responses(v.answer.response));
  }

  lemma CompleteByDraft(c: Conn, judge: Judge, bytes: seq<byte>)
    requires c.draft.Some? && JudgedByDraft(c, judge, bytes).2
    ensures JudgedByDraft(c, judge, bytes).0.frames == c.frames
    ensures !JudgedByDraft(c, judge, bytes).1.verdict.Incomplete?
  {
    hide Close, FlushAndClose;
  }

  lemma {:induction false} FramesKept(c: Conn, items: seq<Item>)
    ensures WriteAll(c, items).frames == c.frames
    decreases |items|
  {
    if items != [] {
      FramesKept(c, items[..|items| - 1]);
    }
  }

  /** The buffer for the pieces: the first is kept with as much room as the draft asked for, or
      room for sixteen bytes more if it did not ask, and it grows by a later piece that does not
      fit. */
  lemma RoomForMore(tmp: ByteBuffer, bytes: seq<byte>, chunk: ByteBuffer, preferredSize: nat)
    requires Holds(tmp, bytes) && chunk.Valid() && chunk.Remaining() > 0
    requires preferredSize > 0 ==> preferredSize >= |bytes| + chunk.Remaining()
    ensures Collected(tmp, chunk).Remaining() == |bytes| + chunk.Remaining()
    ensures var kept := Keep(tmp, Collected(tmp, chunk), preferredSize);
      && kept.Valid()
      && (bytes == [] && preferredSize > 0 ==> kept.Capacity() == preferredSize)
      && (bytes == [] && preferredSize == 0 ==> kept.Capacity() == chunk.Capacity() + 16)
      && (bytes != [] ==> kept.Capacity() == tmp.Capacity() + if tmp.Remaining() < chunk.Remaining() then chunk.Remaining() else 0)
  {
    KeepIsAll(tmp, bytes, chunk, preferredSize);
  }

  // ---------- after a refusal ----------

  /** What has been put into the buffer and what is new: what is still to be read there does not
      count. */
  lemma CollectedIsFilled(tmp: ByteBuffer, chunk: ByteBuffer)
    requires tmp.Valid() && chunk.Valid() && tmp.Capacity() != 0
    ensures Collected(tmp, chunk).Unread() == tmp.Filled() + chunk.Unread()
  {
    assert tmp.Flip().Unread() == tmp.Filled();
    assert Allocate(0).Filled() + tmp.Filled() == tmp.Filled();
  }

  lemma CollectedStartsAtZero(tmp: ByteBuffer, chunk: ByteBuffer)
    requires tmp.Valid() && chunk.Valid() && tmp.Capacity() != 0
    ensures Collected(tmp, chunk).position == 0 && Collected(tmp, chunk).Capacity() != 0
  {}

  lemma SkippedIsFilled(buffer: ByteBuffer, n: nat)
    requires buffer.Valid() && buffer.position == 0 && n <= buffer.Remaining()
    ensures buffer.Skip(n).Filled() == buffer.Unread()[..n]
  {}

  lemma RefusedSettles(c: Conn, chunk: ByteBuffer, judge: Judge, all: seq<byte>)
    requires Decodable(c, chunk, judge) && c.ready == NOT_YET_CONNECTED
    requires Collected(c.tmp.value, chunk).Unread() == all
    requires var r := Judged(c, judge, all);
      !r.1.verdict.Incomplete? && r.0.ready == NOT_YET_CONNECTED && r.0.tmp == c.tmp && !r.2
    ensures var e, tmp := Decode(c, chunk, judge), c.tmp.value;
      && e.ready == NOT_YET_CONNECTED && e.tmp.Some?
      && e.tmp.value == if tmp.Capacity() == 0 then tmp else Collected(tmp, chunk).Skip(Judged(c, judge, all).1.used)
  {
    hide Judged, Collected, Sensible, Keep;
  }

  /** A connection that is refused but not closing may get another piece: it is judged behind
      what was read for the last judgement, and what was left unread then is lost; if the
      refused handshake was the first piece, all of it is. */
  lemma RefusedForgetsRest(c: Conn, steps: seq<Step>, chunk: ByteBuffer, judge: Judge, next: ByteBuffer)
    requires Fresh(c) && Inv(c) && AllPossible(steps) && AllDecode(steps)
    requires Waiting(c, steps)
    requires Possible(StepDecode(chunk, judge)) && next.Valid()
    ensures var d := After(c, steps);
      var all := Received(steps) + chunk.Unread();
      && Decodable(d, chunk, judge)
      && var r := Judged(d, judge, all);
        !r.1.verdict.Incomplete? && r.0.ready == NOT_YET_CONNECTED ==>
          var e := Decode(d, chunk, judge);
          && e.ready == NOT_YET_CONNECTED && e.tmp.Some? && e.tmp.value.Valid()
          && Collected(e.tmp.value, next).Unread() ==
             (if Received(steps) == [] then [] else all[..r.1.used]) + next.Unread()
  {
    HandshakeSeesEverything(c, steps);
    var d := After(c, steps);
    InvDecodable(d, chunk, judge);
    CollectedIsAll(d.tmp.value, Received(steps), chunk);
    var all := Received(steps) + chunk.Unread();
    GoodJudged(d, judge, all);
    var r := Judged(d, judge, all);
    if !r.1.verdict.Incomplete? && r.0.ready == NOT_YET_CONNECTED {
      EarlyKeeps(r.0);
      assert d.tmp.value.Valid() && (d.tmp.value.Capacity() == 0 <==> Received(steps) == []);
      hide *;
      RefusedSettles(d, chunk, judge, all);
      Reread(d.tmp.value, chunk, next, r.1.used);
    }
  }

  lemma Reread(tmp: ByteBuffer, chunk: ByteBuffer, next: ByteBuffer, used: nat)
    requires tmp.Valid() && chunk.Valid() && next.Valid() && used <= Collected(tmp, chunk).Remaining()
    ensures var all := Collected(tmp, chunk).Unread();
      && |all| == Collected(tmp, chunk).Remaining()
      && var kept := if tmp.Capacity() == 0 then tmp else Collected(tmp, chunk).Skip(used);
      kept.Valid() && Collected(kept, next).Unread() == (if tmp.Capacity() == 0 then [] else all[..used]) + next.Unread()
  {
    if tmp.Capacity() == 0 {
      assert [] + next.Unread() == next.Unread();
    } else {
      CollectedStartsAtZero(tmp, chunk);
      SkippedIsFilled(Collected(tmp, chunk), used);
      CollectedIsFilled(Collected(tmp, chunk).Skip(used), next);
    }
    hide Collected;
  }
}
