/** The manager as the program has it: a queue of chunks, a table of pending commands that
    are objects of their own, and the callback that changes them.  The methods are proved
    against the functions on values; `Pump` and `Dispatch` say what these do in every
    interleaving.
  */
module CommManager {
  import opened BitConverter
  import BlockingQuery
  import opened Dispatch
  import opened Frames
  import opened MessageUtils
  import opened Pump
  import Replies
  import opened Runs
  import SyncedQuery
  import opened Texts

  class PendingCommand {
    var str: seq<byte>
    var done: bool

    constructor ()
      ensures str == [] && !done
    {
      str := [];
      done := false;
    }

    method AppendText(s: seq<byte>)
      modifies this`str
      ensures str == old(str) + s
    {
      str := str + s;
    }

    method AppendError(s: seq<byte>)
      modifies this`str
      ensures str == old(str) + (ERROR_MARK + s)
    {
      AppendText(ERROR_MARK + s);
    }

    method SetIsDone(d: bool)
      modifies this`done
      ensures done == d
    {
      done := d;
    }

    method TrimmedText() returns (s: seq<byte>)
      ensures s == Trim(str)
    {
      s := Trim(str);
    }
  }

  class MCJCommManager {
    const msgUtils: MCJMessageUtils
    var messagesQueue: seq<seq<byte>>
    var bContinue: bool
    var isQueryMode: bool
    var resSB: seq<byte>
    var commands: map<int, PendingCommand>
    /** What the application's callback has been given. */
    var passed: seq<Message>

    ghost predicate Valid()
      reads this
    {
      forall i, j :: i in commands && j in commands && i != j ==> commands[i] != commands[j]
    }

    ghost function Table(): map<int, Command>
      reads this`commands, commands.Values
    {
      map id | id in commands :: Command(commands[id].str, commands[id].done)
    }

    ghost function Contents(): Manager
      reads this, commands.Values
    {
      Manager(bContinue, isQueryMode, resSB, Table(), passed)
    }

    constructor (utils: MCJMessageUtils)
      ensures Valid() && msgUtils == utils && messagesQueue == []
      ensures Contents() == Manager(true, false, [], map[], [])
    {
      msgUtils := utils;
      messagesQueue := [];
      bContinue, isQueryMode := true, false;
      resSB, passed := [], [];
      commands := map[];
    }

    method OnNewBufferCallback(buffer: seq<byte>, filledSize: nat)
      requires filledSize <= |buffer|
      modifies this`messagesQueue
      ensures messagesQueue == old(messagesQueue) + [buffer[..filledSize]]
    {
      messagesQueue := messagesQueue + [buffer[..filledSize]];
    }

    /** Enters a fresh command under the id. */
    method PutCommand(id: int)
      requires Valid()
      modifies this`commands
      ensures Valid() && Contents() == After(old(Contents()), Put(id))
      ensures id in commands && fresh(commands[id])
      ensures forall i :: i in commands && i != id ==> i in old(commands) && commands[i] == old(commands)[i]
    {
      var c := new PendingCommand();
      commands := commands[id := c];
    }

    method SetCommandDone(id: int, done: bool)
      requires Valid()
      modifies commands.Values
      ensures Valid() && Contents() == SetDone(old(Contents()), id, done)
    {
      if id in commands {
        commands[id].SetIsDone(done);
        assert forall i :: i in commands && i != id ==> commands[i] != commands[id];
        assert Table() == old(Table())[id := old(Table())[id].(done := done)];
      }
    }

    /** What a query does, undisturbed, when it has stopped waiting: it takes the trimmed result
        out of the table, if it is there; without `bContinue` it returns nothing and leaves it
        there. */
    method CollectCommand(id: int) returns (result: seq<byte>)
      requires Valid()
      modifies this`commands
      ensures Valid() && Contents() == if bContinue then After(old(Contents()), Collect(id)) else old(Contents())
      ensures result == SyncedQuery.QueryAnswer(old(Contents()), old(Contents()), id)
    {
      if bContinue {
        if id !in commands {
          assert commands - {id} == commands;
          return [];
        }
        result := commands[id].TrimmedText();
        commands := commands - {id};
        return;
      }
      return [];
    }

    /** What a blocking query returns, undisturbed, when it has stopped waiting. */
    method FinishQuery() returns (result: seq<byte>)
      ensures result == BlockingQuery.QueryAnswer(Contents(), Contents())
    {
      if bContinue {
        return Trim(resSB);
      }
      return [];
    }

    method AppendTo(id: int, text: seq<byte>)
      requires Valid()
      modifies commands.Values
      ensures Valid() && Contents() == Append(old(Contents()), id, text)
    {
      if id in commands {
        commands[id].AppendText(text);
        assert forall i :: i in commands && i != id ==> commands[i] != commands[id];
        assert Table() == old(Table())[id := old(Table())[id].(str := old(Table())[id].str + text)];
      }
    }

    method AppendErrorTo(id: int, text: seq<byte>)
      requires Valid()
      modifies commands.Values
      ensures Valid() && Contents() == Append(old(Contents()), id, ERROR_MARK + text)
    {
      if id in commands {
        commands[id].AppendError(text);
        assert forall i :: i in commands && i != id ==> commands[i] != commands[id];
        assert Table() == old(Table())[id := old(Table())[id].(str := old(Table())[id].str + (ERROR_MARK + text))];
      }
    }

    method OnData(message: Message)
      requires Valid() && bContinue && message.frameType == Data
      modifies this`resSB, this`passed, commands.Values
      ensures Valid() && commands == old(commands) && Contents() == OnMessage(old(Contents()), message)
    {
      hide Trim, Append;
      AppendTo(message.id, message.text);
      if !isQueryMode {
        passed := passed + [message];
      } else {
        resSB := resSB + Trim(message.text);
      }
    }

    method OnError(message: Message)
      requires Valid() && bContinue && message.frameType == Error
      modifies this`resSB, this`passed, commands.Values
      ensures Valid() && commands == old(commands) && Contents() == OnMessage(old(Contents()), message)
    {
      hide Trim, Append;
      AppendErrorTo(message.id, message.text);
      if !isQueryMode {
        passed := passed + [message];
      } else {
        resSB := resSB + (ERROR_MARK + message.text);
      }
    }

    method OnPrompt(message: Message)
      requires Valid() && bContinue && message.frameType == Prompt
      modifies this`isQueryMode, this`passed, commands.Values
      ensures Valid() && commands == old(commands) && Contents() == OnMessage(old(Contents()), message)
    {
      hide Trim, SetDone;
      if isQueryMode {
        isQueryMode := false;
      }
      SetCommandDone(message.id, true);
      passed := passed + [message];
    }

    /** A decoded message. */
    method OnMultiPurpDataCallback(message: Message)
      requires Valid()
      modifies this`isQueryMode, this`resSB, this`passed, commands.Values
      ensures Valid() && commands == old(commands) && Contents() == OnMessage(old(Contents()), message)
    {
      hide Trim, Append, SetDone;
      if !bContinue {
        return;
      }
      match message.frameType
      case Data => OnData(message);
      case Prompt => OnPrompt(message);
      case Acknowledge =>
        if !isQueryMode {
          passed := passed + [message];
        }
      case Error => OnError(message);
      case Async => passed := passed + [message];
      case Async2 => passed := passed + [message.(frameType := Async)];
      case AsyncOther => passed := passed + [message.(frameType := Async)];
      case Invalid =>
      case Binary =>
      case Control =>
    }

    /** Decodes one byte and hands a message it completes to the callback. */
    method DecodeOne(b: byte) returns (faulted: bool)
      requires Valid() && msgUtils.Valid()
      modifies this`isQueryMode, this`resSB, this`passed, commands.Values, msgUtils.Repr()
      ensures Valid() && msgUtils.Valid() && commands == old(commands)
      ensures fresh(msgUtils.Repr() - old(msgUtils.Repr()))
      ensures Progress(old(Contents()), old(msgUtils.Fields()), [b], Contents(), msgUtils.Fields(), faulted)
    {
      hide Step, OnMessage, Progress;
      ghost var m, d := Contents(), msgUtils.Fields();
      var outcome := msgUtils.DecodeMessage(b);
      assert Contents() == m;
      ProgressByByte(m, d, b);
      if outcome.Delivered? {
        OnMultiPurpDataCallback(outcome.message);
      }
      faulted := outcome.Fault?;
    }

    /** Decodes one chunk, byte by byte. */
    method DecodeChunk(buff: seq<byte>) returns (faulted: bool)
      requires Valid() && msgUtils.Valid()
      modifies this`isQueryMode, this`resSB, this`passed, commands.Values, msgUtils.Repr()
      ensures Valid() && msgUtils.Valid() && commands == old(commands)
      ensures fresh(msgUtils.Repr() - old(msgUtils.Repr()))
      ensures Progress(old(Contents()), old(msgUtils.Fields()), buff, Contents(), msgUtils.Fields(), faulted)
    {
      hide Progress;
      ghost var m, d := Contents(), msgUtils.Fields();
      ProgressByNothing(m, d);
      var i := 0;
      faulted := false;
      while i < |buff| && !faulted
        invariant 0 <= i <= |buff| && Valid() && msgUtils.Valid() && commands == old(commands)
        invariant fresh(msgUtils.Repr() - old(msgUtils.Repr()))
        invariant Progress(m, d, buff[..i], Contents(), msgUtils.Fields(), faulted)
      {
        ghost var m1, d1 := Contents(), msgUtils.Fields();
        faulted := DecodeOne(buff[i]);
        ProgressJoins(m, d, buff[..i], m1, d1, [buff[i]], Contents(), msgUtils.Fields(), faulted);
        assert buff[..i + 1] == buff[..i] + [buff[i]];
        i := i + 1;
      }
      assert buff == buff[..i] + buff[i..];
      ProgressStops(m, d, buff[..i], Contents(), msgUtils.Fields(), faulted, buff[i..]);
    }

    /** Takes the first chunk off the queue and decodes it. */
    method PollAndDecode() returns (faulted: bool)
      requires Valid() && msgUtils.Valid() && messagesQueue != []
      modifies this`messagesQueue, this`isQueryMode, this`resSB, this`passed, commands.Values, msgUtils.Repr()
      ensures Valid() && msgUtils.Valid() && commands == old(commands) && messagesQueue == old(messagesQueue[1..])
      ensures fresh(msgUtils.Repr() - old(msgUtils.Repr()))
      ensures Progress(old(Contents()), old(msgUtils.Fields()), old(messagesQueue[0]), Contents(), msgUtils.Fields(), faulted)
    {
      hide Progress;
      ghost var m := Contents();
      var buff := messagesQueue[0];
      messagesQueue := messagesQueue[1..];
      assert Contents() == m;
      faulted := DecodeChunk(buff);
    }

    /** What the drain thread does when it finds chunks in the queue, undisturbed: it
        decodes them as one string, until an exception stops it. */
    method DrainQueue() returns (faulted: bool)
      requires Valid() && msgUtils.Valid()
      modifies this`messagesQueue, this`isQueryMode, this`resSB, this`passed, commands.Values, msgUtils.Repr()
      ensures Valid() && msgUtils.Valid() && commands == old(commands)
      ensures fresh(msgUtils.Repr() - old(msgUtils.Repr()))
      ensures if bContinue then
          && Progress(old(Contents()), old(msgUtils.Fields()), Flatten(old(messagesQueue)), Contents(), msgUtils.Fields(), faulted)
          && (!faulted ==> messagesQueue == [])
        else
          messagesQueue == old(messagesQueue) && Contents() == old(Contents()) && msgUtils.Fields() == old(msgUtils.Fields())
    {
      hide Progress, Flatten;
      faulted := false;
      if !bContinue {
        return;
      }
      ghost var m, d, queue, n := Contents(), msgUtils.Fields(), messagesQueue, 0;
      ProgressByNothing(m, d);
      FlattenNothing(queue);
      while messagesQueue != [] && !faulted
        invariant 0 <= n <= |queue| && messagesQueue == queue[n..]
        invariant Valid() && msgUtils.Valid() && commands == old(commands)
        invariant fresh(msgUtils.Repr() - old(msgUtils.Repr()))
        invariant Progress(m, d, Flatten(queue[..n]), Contents(), msgUtils.Fields(), faulted)
        decreases |messagesQueue|
      {
        ghost var m1, d1 := Contents(), msgUtils.Fields();
        faulted := PollAndDecode();
        ProgressJoins(m, d, Flatten(queue[..n]), m1, d1, queue[n], Contents(), msgUtils.Fields(), faulted);
        FlattenNext(queue, n);
        n := n + 1;
      }
      FlattenSplits(queue, n);
      if messagesQueue == [] {
        FlattenNothing(messagesQueue);
      }
      ProgressStops(m, d, Flatten(queue[..n]), Contents(), msgUtils.Fields(), faulted, Flatten(queue[n..]));
    }
  }

  // ---------- sequences of messages ----------

  function AfterMessages(m: Manager, xs: seq<Message>): Manager
    decreases |xs|
  {
    if xs == [] then m else AfterMessages(OnMessage(m, xs[0]), xs[1..])
  }

  lemma {:induction false} AfterMessagesAppend(m: Manager, xs: seq<Message>, ys: seq<Message>)
    ensures AfterMessages(m, xs + ys) == AfterMessages(AfterMessages(m, xs), ys)
    decreases |xs|
  {
    hide OnMessage;
    if xs == [] {
      assert xs + ys == ys;
    } else {
      assert (xs + ys)[1..] == xs[1..] + ys;
      AfterMessagesAppend(OnMessage(m, xs[0]), xs[1..], ys);
    }
  }

  /** The manager and the decoder have come from (m, d) to (m1, d1) by decoding the bytes
      of s and passing on their messages. */
  ghost predicate Progress(m: Manager, d: DecoderFields, s: seq<byte>, m1: Manager, d1: DecoderFields, faulted: bool) {
    && d.Valid()
    && var r := Decode(d, s);
      r.faulted == faulted && d1 == r.state && m1 == AfterMessages(m, r.out)
  }

  lemma ProgressByNothing(m: Manager, d: DecoderFields)
    requires d.Valid()
    ensures Progress(m, d, [], m, d, false)
  {}

  lemma ProgressByByte(m: Manager, d: DecoderFields, b: byte)
    requires d.Valid()
    ensures var (d1, o) := Step(d, b);
      Progress(m, d, [b], if o.Delivered? then OnMessage(m, o.message) else m, d1, o.Fault?)
  {
    hide Step, OnMessage;
    var (d1, o) := Step(d, b);
    RunOne<Decoder, byte, Message>(Step, d, b);
    if o.Delivered? {
      assert [o.message][1..] == [];
      assert AfterMessages(OnMessage(m, o.message), []) == OnMessage(m, o.message);
    }
  }

  lemma ProgressJoins(
    m: Manager, d: DecoderFields, s: seq<byte>, m1: Manager, d1: DecoderFields,
    t: seq<byte>, m2: Manager, d2: DecoderFields, faulted: bool)
    requires Progress(m, d, s, m1, d1, false) && Progress(m1, d1, t, m2, d2, faulted)
    ensures Progress(m, d, s + t, m2, d2, faulted)
  {
    hide Step, RunAll, AfterMessages;
    RunAppend<Decoder, byte, Message>(Step, d, s, t);
    AfterMessagesAppend(m, Decode(d, s).out, Decode(d1, t).out);
  }

  /** An exception ends the progress; what is left then does not matter. */
  lemma ProgressStops(
    m: Manager, d: DecoderFields, s: seq<byte>, m1: Manager, d1: DecoderFields, faulted: bool, rest: seq<byte>)
    requires Progress(m, d, s, m1, d1, faulted) && (faulted || rest == [])
    ensures Progress(m, d, s + rest, m1, d1, faulted)
  {
    hide Step, RunAll, AfterMessages;
    if faulted {
      RunAppend<Decoder, byte, Message>(Step, d, s, rest);
    } else {
      assert s + rest == s;
    }
  }

  lemma FlattenNext(queue: seq<seq<byte>>, k: nat)
    requires k < |queue|
    ensures Flatten(queue[..k + 1]) == Flatten(queue[..k]) + queue[k]
  {
    hide Flatten;
    assert queue[..k + 1] == queue[..k] + [queue[k]];
    FlattenOneMore(queue[..k], queue[k]);
  }

  lemma FlattenNothing(queue: seq<seq<byte>>)
    ensures Flatten(queue[..0]) == [] && (queue == [] ==> Flatten(queue) == [])
  {}

  lemma {:induction false} FlattenSplits(queue: seq<seq<byte>>, k: nat)
    requires k <= |queue|
    ensures Flatten(queue) == Flatten(queue[..k]) + Flatten(queue[k..])
    decreases |queue| - k
  {
    if k < |queue| {
      FlattenSplits(queue, k + 1);
      assert queue[..k + 1] == queue[..k] + [queue[k]];
      FlattenOneMore(queue[..k], queue[k]);
      assert queue[k..][1..] == queue[k + 1..];
    } else {
      assert queue[..k] == queue && Flatten(queue[k..]) == [];
    }
  }

  // ---------- from the wire to the application ----------

  function Arrivals(xs: seq<Message>): seq<Event> {
    if xs == [] then [] else [Dispatch.Arrive(xs[0])] + Arrivals(xs[1..])
  }

  lemma {:induction false} MessagesAreEvents(m: Manager, xs: seq<Message>)
    ensures AfterMessages(m, xs) == Dispatch.AfterAll(m, Arrivals(xs))
    decreases |xs|
  {
    hide OnMessage;
    if xs != [] {
      assert Arrivals(xs)[1..] == Arrivals(xs[1..]);
      MessagesAreEvents(OnMessage(m, xs[0]), xs[1..]);
    }
  }

  /** From bytes to callbacks: a manager whose decoder is waiting and that has decoded all that
      the controller sends in a conversation, in whatever chunks, has called the application
      for each of its messages that is not meant for a blocking query, in order. */
  lemma ConversationReachesApplication(
    m: Manager, d: DecoderFields, line: seq<seq<Replies.Reply>>, m1: Manager, d1: DecoderFields, faulted: bool)
    requires d.listener && d.phase == Waiting && forall i :: 0 <= i < |line| ==> Replies.Whole(line[i])
    requires Progress(m, d, Replies.Conversation(line), m1, d1, faulted)
    ensures !faulted && d1.phase == Waiting
    ensures forall i :: 0 <= i < |line| ==> line[i] != []
    ensures m1.passed == m.passed + Callbacks(Arrivals(Replies.Heard(line)), m.bContinue, m.isQueryMode)
  {
    hide Decode, AfterMessages, Dispatch.AfterAll, Callbacks, Replies.Whole, Arrivals, Replies.Heard, Replies.Conversation;
    Replies.ConversationArrives(d, line);
    MessagesAreEvents(m, Replies.Heard(line));
    ApplicationHears(m, Arrivals(Replies.Heard(line)));
  }
}
