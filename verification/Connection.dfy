/** The life of a WebSocket connection, one public call at a time.

    A value holds the fields of a connection, what the listener has been told, what has been
    put into the output queue, what has been written to the channel and what has been handed
    to the frame decoder.  The drafts are abstract: `judge` says what a draft, and then the
    listener, make of the bytes of a handshake.
  */
module Connection {
  import opened Options
  import opened ByteBuffers

  datatype ReadyState = NOT_YET_CONNECTED | OPEN | CLOSING | CLOSED

  datatype Role = CLIENT | SERVER

  datatype CloseHandshakeType = NONE | ONEWAY | TWOWAY

  // ---------- close frames ----------

  const NORMAL := 1000
  const PROTOCOL_ERROR := 1002
  const NOCODE := 1005
  const ABNORMAL_CLOSE := 1006
  const NO_UTF8 := 1007
  const TLS_ERROR := 1015
  const NEVER_CONNECTED := -1
  const FLASHPOLICY := -3

  datatype CloseFrame = CloseFrame(code: int, reason: string)

  /** The reason is set first; the code for a failed TLS handshake is replaced. */
  function MakeCloseFrame(code: int, message: string): CloseFrame {
    if code == TLS_ERROR then CloseFrame(NOCODE, "") else CloseFrame(code, message)
  }

  /** The checks made before a close frame is sent, in their order. */
  predicate IsValid(f: CloseFrame) {
    if f.code == NO_UTF8 && f.reason == "" then false
    else if f.code == NOCODE && 0 < |f.reason| then false
    else if TLS_ERROR < f.code < 3000 then false
    else if f.code == ABNORMAL_CLOSE || f.code == TLS_ERROR || f.code == NOCODE || f.code > 4999 || f.code < 1000 || f.code == 1004 then false
    else true
  }

  // ---------- drafts ----------

  /** What the listener answers to a handshake that a draft accepts. */
  datatype Answer = Agreed(response: seq<seq<byte>>) | Rejected(code: int, message: string) | Failed(message: string)

  /** What becomes of the bytes of a handshake.  A draft that refuses it is asked for its
      description then. */
  datatype Verdict =
    | Incomplete(preferredSize: nat)
    | Invalid(message: string)
    | WrongFunction
    | Refused(description: string)
    | Matched(answer: Answer)

  /** A verdict and how many bytes have been read for it. */
  datatype Parse = Parse(verdict: Verdict, used: nat)

  datatype Draft = Draft(
    closeHandshakeType: CloseHandshakeType, binaryClose: CloseFrame -> seq<byte>, role: Option<Role>)

  type Judge = (Draft, seq<byte>) -> Parse

  /** A draft that names the size it would like names one that holds what is there, and reads
      no more than there is. */
  ghost predicate Sensible(judge: Judge) {
    forall d: Draft, bytes: seq<byte> ::
      var p := judge(d, bytes);
      && p.used <= |bytes|
      && (p.verdict.Incomplete? && p.verdict.preferredSize > 0 ==> p.verdict.preferredSize >= |bytes|)
  }

  // ---------- the connection ----------

  datatype Reason = Reason(code: int, message: string, remote: bool)

  datatype Call =
    | OnWriteDemand
    | OnOpen
    | OnCloseInitiated(code: int, message: string)
    | OnClosing(reason: Reason)
    | OnClose(reason: Reason)
    | OnError

  /** What is put into the output queue, and by whom. */
  datatype Item = ByHandshake(bytes: seq<byte>) | BySend(bytes: seq<byte>) | ByClose(bytes: seq<byte>)

  datatype Conn = Conn(
    role: Role,
    knownDrafts: seq<Draft>,
    draft: Option<Draft>,
    ready: ReadyState,
    flushAndClose: bool,
    reason: Option<Reason>,
    tmp: Option<ByteBuffer>,
    outQueue: seq<seq<byte>>,
    calls: seq<Call>,
    queued: seq<Item>,
    written: seq<byte>,
    frames: seq<byte>)

  function Tell(c: Conn, call: Call): Conn {
    c.(calls := c.calls + [call])
  }

  function Write(c: Conn, item: Item): Conn {
    Tell(c.(outQueue := c.outQueue + [item.bytes], queued := c.queued + [item]), OnWriteDemand)
  }

  function WriteAll(c: Conn, items: seq<Item>): Conn {
    if items == [] then c else Write(WriteAll(c, items[..|items| - 1]), items[|items| - 1])
  }

  function FlushAndClose(c: Conn, r: Reason): Conn {
    if c.flushAndClose then c
    else Tell(Tell(c.(reason := Some(r), flushAndClose := true), OnWriteDemand), OnClosing(r))
  }

  function CloseConnection(c: Conn, r: Reason): Conn {
    if c.ready == CLOSED then c else Tell(c, OnClose(r)).(ready := CLOSED)
  }

  /** Tell the other end: nothing at all if the draft has no close handshake. */
  function SayClose(c: Conn, code: int, message: string, remote: bool): Conn
    requires c.draft.Some?
  {
    if c.draft.value.closeHandshakeType == NONE then c
    else
      var c1 := if remote then c else Tell(c, OnCloseInitiated(code, message));
      var f := MakeCloseFrame(code, message);
      if IsValid(f) then Write(c1, ByClose(c.draft.value.binaryClose(f)))
      else FlushAndClose(Tell(c1, OnError), Reason(ABNORMAL_CLOSE, "generated frame is invalid", false))
  }

  function Close(c: Conn, code: int, message: string, remote: bool): Conn
    requires c.ready == OPEN ==> c.draft.Some?
  {
    if c.ready == CLOSING || c.ready == CLOSED then c
    else if c.ready == OPEN && code == ABNORMAL_CLOSE then
      FlushAndClose(c.(ready := CLOSING), Reason(code, message, false))
    else
      var c1 :=
        if c.ready == OPEN then FlushAndClose(SayClose(c, code, message, remote), Reason(code, message, remote))
        else if code == FLASHPOLICY then FlushAndClose(c, Reason(FLASHPOLICY, message, true))
        else if code == PROTOCOL_ERROR then FlushAndClose(c, Reason(code, message, remote))
        else FlushAndClose(c, Reason(NEVER_CONNECTED, message, false));
      c1.(ready := CLOSING, tmp := None)
  }

  /** The other end has closed the channel.  Without a draft there is no answer for a
      connection that is past its beginning and has not been told to close. */
  predicate EotFails(c: Conn) {
    c.ready != NOT_YET_CONNECTED && !c.flushAndClose && c.draft.None?
  }

  /** Why the connection ended when the other end closed the channel. */
  function EotReason(c: Conn): Reason
    requires !EotFails(c)
    requires c.flushAndClose ==> c.reason.Some?
  {
    if c.ready == NOT_YET_CONNECTED then Reason(NEVER_CONNECTED, "", true)
    else if c.flushAndClose then c.reason.value
    else
      match c.draft.value.closeHandshakeType
      case NONE => Reason(NORMAL, "", true)
      case ONEWAY => Reason(if c.role == SERVER then ABNORMAL_CLOSE else NORMAL, "", true)
      case TWOWAY => Reason(ABNORMAL_CLOSE, "", true)
  }

  function Eot(c: Conn): Conn
    requires !EotFails(c)
    requires c.flushAndClose ==> c.reason.Some?
  {
    CloseConnection(c, EotReason(c))
  }

  /** Frames, as the draft has put them into bytes. */
  function Items(frames: seq<seq<byte>>): (r: seq<Item>)
    ensures |r| == |frames| && forall i :: 0 <= i < |r| ==> r[i] == BySend(frames[i])
  {
    seq(|frames|, i requires 0 <= i < |frames| => BySend(frames[i]))
  }

  /** Sending on a connection that is not open is an exception, and changes nothing. */
  function Send(c: Conn, frames: seq<seq<byte>>): Conn {
    if c.ready != OPEN then c else WriteAll(c, Items(frames))
  }

  /** What the listener says to the handshake a client is about to send: it may refuse it, or
      break down. */
  datatype Consent = Consents | Refuses | BreaksDown

  /** Unless the listener consents this ends with an exception and sends nothing. */
  function StartHandshake(c: Conn, bytes: seq<seq<byte>>, consent: Consent): Conn {
    match consent
    case Consents => WriteAll(c, Responses(bytes))
    case Refuses => c
    case BreaksDown => Tell(c, OnError)
  }

  function Responses(frames: seq<seq<byte>>): (r: seq<Item>)
    ensures |r| == |frames| && forall i :: 0 <= i < |r| ==> r[i] == ByHandshake(frames[i])
  {
    seq(|frames|, i requires 0 <= i < |frames| => ByHandshake(frames[i]))
  }

  // ---------- the handshake ----------

  const PAGE_HEADER := "\r\nContent-Type: text/html\nServer: TooTallNate Java-WebSocket\r\nContent-Length: "
  const PAGE_BEGIN := "<html><head></head><body><h1>"
  const PAGE_END := "</h1></body></html>"

  /** The answer to a handshake that cannot be met: a status and how long the page is that
      shows it. */
  function HttpError(description: string, length: string): seq<byte> {
    var text := "HTTP/1.1 " + description + PAGE_HEADER + length + "\r\n\r\n" + PAGE_BEGIN + description + PAGE_END;
    seq(|text|, i requires 0 <= i < |text| => (text[i] as int) % 256)
  }

  function NotFound(): seq<byte> {
    HttpError("404 WebSocket Upgrade Failure", "77")
  }

  function InternalError(): seq<byte> {
    HttpError("500 Internal Server Error", "73")
  }

  function CloseDueToWrongHandshake(c: Conn, code: int, message: string): Conn {
    FlushAndClose(Write(c, ByHandshake(NotFound())), Reason(code, message, false))
  }

  function CloseDueToInternalError(c: Conn, message: string): Conn {
    FlushAndClose(Write(c, ByHandshake(InternalError())), Reason(NEVER_CONNECTED, message, false))
  }

  function Open(c: Conn): Conn {
    Tell(c.(ready := OPEN), OnOpen)
  }

  /** What has been collected, and what is new. */
  function Collected(tmp: ByteBuffer, chunk: ByteBuffer): (r: ByteBuffer)
    requires tmp.Valid() && chunk.Valid()
    ensures r.Valid()
  {
    if tmp.Capacity() == 0 then chunk
    else
      var grown :=
        if tmp.Remaining() < chunk.Remaining()
        then Allocate(tmp.Capacity() + chunk.Remaining()).Put(tmp.Flip().Unread())
        else tmp;
      grown.Put(chunk.Unread()).Flip()
  }

  /** The first of the drafts that has more to say than that it does not know the
      handshake, or -1. */
  function FirstToDecide(judge: Judge, drafts: seq<Draft>, bytes: seq<byte>, from: nat): (r: int)
    requires from <= |drafts|
    ensures r == -1 || from <= r < |drafts|
    decreases |drafts| - from
  {
    if from == |drafts| then -1
    else
      var v := judge(drafts[from].(role := Some(SERVER)), bytes).verdict;
      if v.Invalid? || v.Refused? then FirstToDecide(judge, drafts, bytes, from + 1) else from
  }

  /** The buffer in which an incomplete handshake is kept. */
  function Keep(tmp: ByteBuffer, collected: ByteBuffer, preferredSize: nat): ByteBuffer
    requires tmp.Valid() && collected.Valid()
    requires preferredSize > 0 ==> preferredSize >= collected.Remaining()
  {
    if tmp.Capacity() == 0 then
      Allocate(if preferredSize == 0 then collected.Capacity() + 16 else preferredSize).Put(collected.Unread())
    else collected.WriteOn()
  }

  /** A server asks its drafts in turn.  With the new state come the verdict that counts and
      whether the handshake is complete. */
  function JudgedByServer(c: Conn, judge: Judge, bytes: seq<byte>): (Conn, Parse, bool)
    requires c.knownDrafts != []
  {
    var i := FirstToDecide(judge, c.knownDrafts, bytes, 0);
    if i < 0 then
      var used := judge(c.knownDrafts[|c.knownDrafts| - 1].(role := Some(SERVER)), bytes).used;
      (CloseDueToWrongHandshake(c, PROTOCOL_ERROR, "no draft matches"), Parse(Refused(""), used), false)
    else
      var d := c.knownDrafts[i].(role := Some(SERVER));
      var p := judge(d, bytes);
      match p.verdict
      case WrongFunction => (CloseDueToWrongHandshake(c, PROTOCOL_ERROR, "wrong http function"), p, false)
      case Matched(Agreed(response)) => (Open(WriteAll(c, Responses(response)).(draft := Some(d))), p, true)
      case Matched(Rejected(code, message)) => (CloseDueToWrongHandshake(c, code, message), p, false)
      case Matched(Failed(message)) => (CloseDueToInternalError(Tell(c, OnError), message), p, false)
      case _ => (c, p, false)
  }

  /** What is said when a draft already chosen refuses the handshake; a client names the
      draft. */
  function Refusal(role: Role, description: string): string {
    if role == SERVER then "the handshake did finally not match" else "draft " + description + " refuses handshake"
  }

  /** With a draft already chosen, that draft decides. */
  function JudgedByDraft(c: Conn, judge: Judge, bytes: seq<byte>): (Conn, Parse, bool)
    requires c.draft.Some?
  {
    var d := if c.role == CLIENT then c.draft.value.(role := Some(CLIENT)) else c.draft.value;
    var c1 := c.(draft := Some(d));
    var p := judge(d, bytes);
    match p.verdict
    case Incomplete(_) => (c1, p, false)
    case Invalid(message) => (Close(c1, PROTOCOL_ERROR, message, false), p, false)
    case WrongFunction => (FlushAndClose(c1, Reason(PROTOCOL_ERROR, "wrong http function", false)), p, false)
    case Refused(description) => (Close(c1, PROTOCOL_ERROR, Refusal(c.role, description), false), p, false)
    case Matched(answer) =>
      if c.role == SERVER || answer.Agreed? then (Open(c1), p, true)
      else if answer.Rejected? then (FlushAndClose(c1, Reason(answer.code, answer.message, false)), p, false)
      else (FlushAndClose(Tell(c1, OnError), Reason(NEVER_CONNECTED, answer.message, false)), p, false)
  }

  function Judged(c: Conn, judge: Judge, bytes: seq<byte>): (r: (Conn, Parse, bool))
    requires Sensible(judge)
    requires if c.role == SERVER then c.knownDrafts != [] else c.draft.Some?
    ensures r.1.used <= |bytes|
    ensures r.1.verdict.Incomplete? && r.1.verdict.preferredSize > 0 ==> r.1.verdict.preferredSize >= |bytes|
  {
    if c.role == SERVER && c.draft.None? then JudgedByServer(c, judge, bytes) else JudgedByDraft(c, judge, bytes)
  }

  ghost predicate Decodable(c: Conn, chunk: ByteBuffer, judge: Judge) {
    && chunk.Valid() && chunk.Remaining() > 0 && Sensible(judge)
    && (c.tmp.Some? ==> c.tmp.value.Valid())
    && (c.ready == NOT_YET_CONNECTED ==> c.tmp.Some?)
    && (if c.role == SERVER then c.knownDrafts != [] else c.draft.Some?)
  }

  /** The buffer and the frame decoder after a judgement that read part of what has been
      collected. */
  function Settled(c: Conn, tmp: ByteBuffer, rest: ByteBuffer, done: bool): Conn
    requires rest.Valid()
  {
    var c1 := if tmp.Capacity() == 0 || c.tmp.None? then c else c.(tmp := Some(rest));
    if done then c1.(frames := c1.frames + rest.Unread()) else c1
  }

  function DecodeHandshake(c: Conn, chunk: ByteBuffer, judge: Judge): Conn
    requires Decodable(c, chunk, judge) && c.ready == NOT_YET_CONNECTED
  {
    var tmp := c.tmp.value;
    var buffer := Collected(tmp, chunk);
    var (c1, p, done) := Judged(c, judge, buffer.Unread());
    if p.verdict.Incomplete? then c1.(tmp := Some(Keep(tmp, buffer, p.verdict.preferredSize)))
    else Settled(c1, tmp, buffer.Skip(p.used), done)
  }

  /** What arrives is a piece of the handshake before the connection is open, goes to the
      frame decoder while it is open, and is dropped afterwards. */
  function Decode(c: Conn, chunk: ByteBuffer, judge: Judge): Conn
    requires Decodable(c, chunk, judge)
  {
    if c.ready == OPEN then c.(frames := c.frames + chunk.Unread())
    else if c.ready == NOT_YET_CONNECTED then DecodeHandshake(c, chunk, judge)
    else c
  }

  // ---------- writing ----------

  /** How many bytes the channel takes. */
  function Taken(n: nat, buffer: seq<byte>): (r: nat)
    ensures r <= |buffer|
  {
    if n <= |buffer| then n else |buffer|
  }

  /** Write from the front of the queue until it is empty or the channel takes less than is
      offered; `room` is what it is going to take, write by write. */
  function Flush(c: Conn, room: seq<nat>): Conn
    decreases |c.outQueue|
  {
    if c.outQueue == [] then c
    else
      var buffer := c.outQueue[0];
      var n := Taken(if room == [] then 0 else room[0], buffer);
      if n < |buffer| then c.(written := c.written + buffer[..n], outQueue := [buffer[n..]] + c.outQueue[1..])
      else Flush(c.(written := c.written + buffer, outQueue := c.outQueue[1..]), if room == [] then [] else room[1..])
  }

  /** A server closes the channel once everything is written; a client leaves that to the
      other end. */
  predicate ClosesAfterFlush(c: Conn) {
    c.outQueue == [] && c.flushAndClose && c.draft.Some? && c.draft.value.role == Some(SERVER)
  }

  function Batch(c: Conn, room: seq<nat>): Conn
    requires c.flushAndClose ==> c.reason.Some?
  {
    var c1 := Flush(c, room);
    FlushKeeps(c, room);
    if ClosesAfterFlush(c1) then CloseConnection(c1, c1.reason.value) else c1
  }

  lemma {:induction false} FlushKeeps(c: Conn, room: seq<nat>)
    ensures Flush(c, room) == c.(written := Flush(c, room).written, outQueue := Flush(c, room).outQueue)
    decreases |c.outQueue|
  {
    if c.outQueue != [] {
      var buffer := c.outQueue[0];
      FlushKeeps(c.(written := c.written + buffer, outQueue := c.outQueue[1..]), if room == [] then [] else room[1..]);
    }
  }
}
