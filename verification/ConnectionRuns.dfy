/** What holds in every run of a WebSocket connection.

    A run is any sequence of public calls; a chunk that arrives, a partial write and a frame
    that makes a draft close the connection are among them.
  */
module ConnectionRuns {
  import opened Options
  import opened ByteBuffers
  import opened Connection
  import opened ConnectionInvariant

  datatype Step =
    | StepDecode(chunk: ByteBuffer, judge: Judge)
    | StepClose(code: int, message: string, remote: bool)
    | StepCloseConnection(reason: Reason)
    | StepCloseFlushed
    | StepFlushAndClose(reason: Reason)
    | StepEot
    | StepSend(frames: seq<seq<byte>>)
    | StepStartHandshake(bytes: seq<seq<byte>>, consent: Consent)
    | StepBatch(room: seq<nat>)

  ghost predicate Possible(s: Step) {
    s.StepDecode? ==> s.chunk.Valid() && s.chunk.Remaining() > 0 && Sensible(s.judge)
  }

  /** A call that throws changes nothing. */
  function Next(c: Conn, s: Step): Conn
    requires Inv(c) && Possible(s)
  {
    match s
    case StepDecode(chunk, judge) => InvDecodable(c, chunk, judge); Decode(c, chunk, judge)
    case StepClose(code, message, remote) => Close(c, code, message, remote)
    case StepCloseConnection(reason) => CloseConnection(c, reason)
    case StepCloseFlushed => if c.reason.None? then c else CloseConnection(c, c.reason.value)
    case StepFlushAndClose(reason) => FlushAndClose(c, reason)
    case StepEot => if EotFails(c) then c else Eot(c)
    case StepSend(frames) => Send(c, frames)
    case StepStartHandshake(bytes, consent) => StartHandshake(c, bytes, consent)
    case StepBatch(room) => Batch(c, room)
  }

  lemma ReasonIsThere(c: Conn)
    requires Inv(c)
    ensures c.flushAndClose ==> c.reason.Some?
  {}

  lemma GoodEot(c: Conn)
    requires Inv(c) && !EotFails(c)
    ensures c.flushAndClose ==> c.reason.Some?
    ensures Inv(Eot(c)) && Later(c, Eot(c))
  {
    ReasonIsThere(c);
    hide Inv, Later, CloseConnection, EotReason;
    GoodCloseConnection(c, EotReason(c));
  }

  lemma GoodEnd(c: Conn, s: Step)
    requires Inv(c) && Possible(s) && (s.StepCloseConnection? || s.StepCloseFlushed? || s.StepEot?)
    ensures Inv(Next(c, s)) && Later(c, Next(c, s))
  {
    hide Inv, Later, CloseConnection, Eot, EotFails, Possible, Decode, Close, FlushAndClose, Send, StartHandshake, Batch;
    LaterSelf(c);
    if s.StepCloseConnection? {
      GoodCloseConnection(c, s.reason);
    } else if s.StepEot? {
      if !EotFails(c) {
        GoodEot(c);
      }
    } else if c.reason.Some? {
      GoodCloseConnection(c, c.reason.value);
    }
  }

  lemma GoodArrival(c: Conn, s: Step)
    requires Inv(c) && Possible(s) && s.StepDecode?
    ensures Inv(Next(c, s)) && Later(c, Next(c, s))
  {
    InvDecodable(c, s.chunk, s.judge);
    hide Inv, Later, Decode, Possible, Sensible, Decodable;
    GoodDecode(c, s.chunk, s.judge);
  }

  lemma GoodNext(c: Conn, s: Step)
    requires Inv(c) && Possible(s)
    ensures Inv(Next(c, s)) && Later(c, Next(c, s))
  {
    hide Inv, Later, Possible, Decode, Close, CloseConnection, FlushAndClose, Eot, EotFails, Send, StartHandshake, Batch;
    match s {
      case StepDecode(_, _) => GoodArrival(c, s);
      case StepClose(code, message, remote) => GoodClose(c, code, message, remote);
      case StepCloseConnection(_) => GoodEnd(c, s);
      case StepCloseFlushed => GoodEnd(c, s);
      case StepFlushAndClose(reason) => GoodFlush(c, reason);
      case StepEot => GoodEnd(c, s);
      case StepSend(frames) => GoodSend(c, frames);
      case StepStartHandshake(bytes, consent) => GoodStart(c, bytes, consent);
      case StepBatch(room) => GoodBatch(c, room);
    }
  }

  ghost predicate AllPossible(steps: seq<Step>) {
    forall i :: 0 <= i < |steps| ==> Possible(steps[i])
  }

  ghost function After(c: Conn, steps: seq<Step>): (r: Conn)
    requires Inv(c) && AllPossible(steps)
    ensures Inv(r)
  {
    if steps == [] then c
    else
      var d := After(c, steps[..|steps| - 1]);
      var last := steps[|steps| - 1];
      GoodNext(d, last);
      Next(d, last)
  }

  lemma AfterSnoc(c: Conn, steps: seq<Step>, s: Step)
    requires Inv(c) && AllPossible(steps) && Possible(s)
    ensures AllPossible(steps + [s]) && After(c, steps + [s]) == Next(After(c, steps), s)
  {
    AllPossibleSnoc(steps, s);
    AfterSplits(c, steps + [s]);
    hide *;
    assert (steps + [s])[..|steps|] == steps && (steps + [s])[|steps|] == s;
  }

  lemma AllPossibleSnoc(steps: seq<Step>, s: Step)
    requires AllPossible(steps) && Possible(s)
    ensures AllPossible(steps + [s])
  {
    hide Possible;
  }

  lemma AfterSplits(c: Conn, steps: seq<Step>)
    requires Inv(c) && AllPossible(steps) && steps != []
    ensures AllPossible(steps[..|steps| - 1]) && Possible(steps[|steps| - 1])
    ensures After(c, steps) == Next(After(c, steps[..|steps| - 1]), steps[|steps| - 1])
  {
    hide Inv, Possible, Next;
  }

  lemma AfterOne(c: Conn, s: Step)
    requires Inv(c) && Possible(s)
    ensures AllPossible([s]) && After(c, [s]) == Next(c, s)
  {
    hide Inv, Possible, Next;
    AfterSnoc(c, [], s);
    assert [] + [s] == [s];
  }

  lemma AfterTwo(c: Conn, s: Step, t: Step)
    requires Inv(c) && Possible(s) && Possible(t)
    ensures AllPossible([s, t]) && Inv(Next(c, s)) && After(c, [s, t]) == Next(Next(c, s), t)
  {
    hide Inv, Possible, Next;
    AfterOne(c, s);
    GoodNext(c, s);
    AfterSnoc(c, [s], t);
    assert [s] + [t] == [s, t];
  }

  /** A connection as it is made. */
  ghost predicate Fresh(c: Conn) {
    && c.ready == NOT_YET_CONNECTED && !c.flushAndClose && c.reason.None?
    && c.tmp == Some(Allocate(0)) && c.outQueue == [] && c.calls == []
    && c.queued == [] && c.written == [] && c.frames == []
    && (if c.role == SERVER then c.knownDrafts != [] && c.draft.None? else c.draft.Some? && c.draft.value.role.None?)
  }

  lemma FreshInv(c: Conn)
    requires Fresh(c)
    ensures Inv(c)
  {}

  // ---------- what is never taken back ----------

  /** The state of a connection never goes back, what has been told, queued, written or
      decoded stays, and the first reason to close stays the reason. */
  lemma {:induction false} NothingIsTakenBack(c: Conn, steps: seq<Step>, more: seq<Step>)
    requires Inv(c) && AllPossible(steps) && AllPossible(more)
    ensures AllPossible(steps + more) && Later(After(c, steps), After(c, steps + more))
    decreases |more|
  {
    hide Later, Inv, Next, After, Possible;
    if more == [] {
      assert steps + more == steps;
      LaterSelf(After(c, steps));
    } else {
      var init, last := more[..|more| - 1], more[|more| - 1];
      NothingIsTakenBack(c, steps, init);
      var d := After(c, steps + init);
      GoodNext(d, last);
      AfterSnoc(c, steps + init, last);
      assert (steps + init) + [last] == steps + more;
      LaterTrans(After(c, steps), d, Next(d, last));
    }
  }

  /** In every run the listener hears of the closing once and of the end once, of the closing
      with the reason given first; at most one close frame is queued and no frame after it;
      and what has been written and what is queued is what was put into the queue. */
  lemma EveryRun(c: Conn, steps: seq<Step>)
    requires Fresh(c) && AllPossible(steps)
    ensures Inv(c)
    ensures var d := After(c, steps);
      && |Closes(d.calls)| == (if d.ready == CLOSED then 1 else 0)
      && Closings(d.calls) == (if d.flushAndClose then [d.reason.value] else [])
      && NothingAfterClose(d.queued)
      && d.written + Flat(d.outQueue) == ItemBytes(d.queued)
  {
    FreshInv(c);
    var d := After(c, steps);
    assert Inv(d);
    hide After, Closes, Closings, Flat, ItemBytes, NothingAfterClose, ClosedSaid, FrameSaid;
  }

  // ---------- closing by writing everything ----------

  /** The channel takes all there is in the queue. */
  predicate Fits(room: seq<nat>, queue: seq<seq<byte>>)
    decreases |queue|
  {
    queue == [] ||
    (Taken(if room == [] then 0 else room[0], queue[0]) == |queue[0]| && Fits(if room == [] then [] else room[1..], queue[1..]))
  }

  lemma {:induction false} FlushEmptiesIff(c: Conn, room: seq<nat>)
    ensures Flush(c, room).outQueue == [] <==> Fits(room, c.outQueue)
    decreases |c.outQueue|
  {
    if c.outQueue != [] {
      var d := c.(written := c.written + c.outQueue[0], outQueue := c.outQueue[1..]);
      FlushEmptiesIff(d, if room == [] then [] else room[1..]);
    }
  }

  /** Writing closes a connection exactly when it is a server's that has been opened and told
      to close, and the channel takes the whole queue.  Then everything ever queued has been
      written, and the listener hears the reason that was given first. */
  lemma BatchClosesIff(c: Conn, room: seq<nat>)
    requires Inv(c) && c.ready != CLOSED
    ensures var d := Batch(c, room);
      && (d.ready == CLOSED <==> c.role == SERVER && c.draft.Some? && c.flushAndClose && Fits(room, c.outQueue))
      && (d.ready == CLOSED ==>
            && d.outQueue == [] && d.written == ItemBytes(d.queued)
            && Closes(d.calls) == Closings(d.calls) == [c.reason.value])
  {
    FlushEmptiesIff(c, room);
    FlushKeeps(c, room);
    GoodFlushing(c, room);
    var c1 := Flush(c, room);
    if ClosesAfterFlush(c1) {
      ConsistentClose(c1, c1.reason.value);
      EmptyRest(CloseConnection(c1, c1.reason.value));
    }
    hide Flush, Fits, Flat, ItemBytes, Closes, Closings, NothingAfterClose, ClosedSaid, FrameSaid;
  }

  lemma EmptyRest(c: Conn)
    requires Consistent(c) && c.outQueue == []
    ensures c.written == ItemBytes(c.queued)
  {
    assert c.written + [] == c.written;
  }

  /** Closing after writing never finds that there is no reason to close. */
  lemma BatchHasReason(c: Conn, steps: seq<Step>, room: seq<nat>)
    requires Fresh(c) && AllPossible(steps)
    ensures Inv(c) && (ClosesAfterFlush(Flush(After(c, steps), room)) ==> After(c, steps).reason.Some?)
  {
    FreshInv(c);
    FlushKeeps(After(c, steps), room);
  }
}
