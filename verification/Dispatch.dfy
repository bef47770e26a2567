/** Which pending command gets which message.

    What a caller does to the table of pending commands, and what a message does to it, is
    one step each; the steps of any number of callers and of the thread that decodes the
    messages may interleave in any order.
  */
module Dispatch {
  import opened BitConverter
  import opened Frames
  import opened Texts

  /** The characters of "$ERRORFRAME$". */
  const ERROR_MARK: seq<byte> := [0x24, 0x45, 0x52, 0x52, 0x4F, 0x52, 0x46, 0x52, 0x41, 0x4D, 0x45, 0x24]

  // ---------- the manager's state ----------

  datatype Command = Command(str: seq<byte>, done: bool)

  /** `passed` is what has been handed to the application's callback. */
  datatype Manager = Manager(
    bContinue: bool, isQueryMode: bool, resSB: seq<byte>, commands: map<int, Command>, passed: seq<Message>)

  function Append(m: Manager, id: int, text: seq<byte>): Manager {
    if id in m.commands then m.(commands := m.commands[id := m.commands[id].(str := m.commands[id].str + text)]) else m
  }

  function SetDone(m: Manager, id: int, done: bool): Manager {
    if id in m.commands then m.(commands := m.commands[id := m.commands[id].(done := done)]) else m
  }

  function Pass(m: Manager, t: FrameType, x: Message): Manager {
    m.(passed := m.passed + [x.(frameType := t)])
  }

  /** A decoded message. */
  function OnMessage(m: Manager, x: Message): Manager {
    if !m.bContinue then m
    else
      match x.frameType
      case Data =>
        var m1 := Append(m, x.id, x.text);
        if m.isQueryMode then m1.(resSB := m1.resSB + Trim(x.text)) else Pass(m1, Data, x)
      case Prompt => Pass(SetDone(m.(isQueryMode := false), x.id, true), Prompt, x)
      case Acknowledge => if m.isQueryMode then m else Pass(m, Acknowledge, x)
      case Error =>
        var m1 := Append(m, x.id, ERROR_MARK + x.text);
        if m.isQueryMode then m1.(resSB := m1.resSB + (ERROR_MARK + x.text)) else Pass(m1, Error, x)
      case Async => Pass(m, Async, x)
      case Async2 => Pass(m, Async, x)
      case AsyncOther => Pass(m, Async, x)
      case Invalid => m
      case Binary => m
      case Control => m
  }

  /** An error counts for its command with the characters that announce it. */
  lemma ErrorsAreMarked(m: Manager, x: Message)
    requires m.bContinue && x.frameType == Error && x.id in m.commands
    ensures x.id in OnMessage(m, x).commands
    ensures var (was, now) := (m.commands[x.id].str, OnMessage(m, x).commands[x.id].str);
      && |now| == |was| + 12 + |x.text| && now[..|was|] == was && now[|was| + 12..] == x.text
      && forall i :: 0 <= i < 12 ==> now[|was| + i] as int == "$ERRORFRAME$"[i] as int
  {
    var was := m.commands[x.id].str;
    var now := OnMessage(m, x).commands[x.id].str;
    assert now == was + (ERROR_MARK + x.text);
    forall i | 0 <= i < 12 ensures now[|was| + i] as int == "$ERRORFRAME$"[i] as int {
      assert now[|was| + i] == ERROR_MARK[i];
    }
  }

  // ---------- steps and runs ----------

  /** A caller enters its command in the table, marks it as not done, or takes it out; a
      message arrives; a blocking query empties its result, starts, or is cancelled;
      `bContinue` changes. */
  datatype Event =
    | Put(id: int) | Reset(id: int) | Collect(id: int)
    | Arrive(message: Message) | NewResult | Ask | Cancel | SetContinue(flag: bool)

  function After(m: Manager, e: Event): Manager {
    match e
    case Put(id) => m.(commands := m.commands[id := Command([], false)])
    case Reset(id) => SetDone(m, id, false)
    case Collect(id) => m.(commands := m.commands - {id})
    case Arrive(x) => OnMessage(m, x)
    case NewResult => m.(resSB := [])
    case Ask => m.(isQueryMode := true)
    case Cancel => m.(isQueryMode := false)
    case SetContinue(flag) => m.(bContinue := flag)
  }

  function AfterAll(m: Manager, es: seq<Event>): Manager
    decreases |es|
  {
    if es == [] then m else AfterAll(After(m, es[0]), es[1..])
  }

  /** Whose step on the table an event is. */
  predicate Concerns(e: Event, id: int) {
    match e
    case Put(i) => i == id
    case Reset(i) => i == id
    case Collect(i) => i == id
    case Arrive(_) => false
    case NewResult => false
    case Ask => false
    case Cancel => false
    case SetContinue(_) => false
  }

  predicate LeavesAlone(es: seq<Event>, id: int) {
    forall i :: 0 <= i < |es| ==> !Concerns(es[i], id)
  }

  /** The messages with a given id that arrive while the manager listens. */
  function Own(es: seq<Event>, id: int, on: bool): seq<Message>
    decreases |es|
  {
    if es == [] then []
    else match es[0]
      case SetContinue(flag) => Own(es[1..], id, flag)
      case Arrive(x) => (if on && x.id == id then [x] else []) + Own(es[1..], id, on)
      case _ => Own(es[1..], id, on)
  }

  /** What a message adds to the result of its command. */
  function Contribution(x: Message): seq<byte> {
    match x.frameType
    case Data => x.text
    case Error => ERROR_MARK + x.text
    case _ => []
  }

  function Collate(xs: seq<Message>): seq<byte> {
    if xs == [] then [] else Contribution(xs[0]) + Collate(xs[1..])
  }

  predicate HasPrompt(xs: seq<Message>) {
    exists i :: 0 <= i < |xs| && xs[i].frameType == Prompt
  }

  function Feed(c: Command, xs: seq<Message>): Command {
    Command(c.str + Collate(xs), c.done || HasPrompt(xs))
  }

  lemma FeedMore(c: Command, x: Message, xs: seq<Message>)
    ensures Feed(c, [x] + xs) == Feed(Feed(c, [x]), xs)
  {
    assert ([x] + xs)[1..] == xs && [x][1..] == [];
    assert Collate([x]) == Contribution(x);
    assert c.str + Collate([x] + xs) == (c.str + Contribution(x)) + Collate(xs);
    if HasPrompt(xs) {
      var i :| 0 <= i < |xs| && xs[i].frameType == Prompt;
      assert ([x] + xs)[i + 1].frameType == Prompt;
    }
    if x.frameType == Prompt {
      assert ([x] + xs)[0].frameType == Prompt && [x][0].frameType == Prompt;
    }
    assert forall i :: 1 <= i < |xs| + 1 ==> ([x] + xs)[i] == xs[i - 1];
  }

  /** One message changes at most the command with its id. */
  lemma MessageFeeds(m: Manager, x: Message, id: int)
    requires id in m.commands
    ensures id in OnMessage(m, x).commands
    ensures OnMessage(m, x).commands[id] == if m.bContinue && x.id == id then Feed(m.commands[id], [x]) else m.commands[id]
  {
    var c := m.commands[id];
    assert [x][1..] == [];
    assert Collate([x]) == Contribution(x) && c.str + [] == c.str;
    assert HasPrompt([x]) <==> x.frameType == Prompt by {
      assert [x][0] == x;
    }
  }

  lemma FeedNothing(c: Command)
    ensures Feed(c, []) == c
  {
    assert c.str + [] == c.str;
  }

  lemma EventFeeds(m: Manager, e: Event, id: int)
    requires id in m.commands && !Concerns(e, id)
    ensures id in After(m, e).commands
    ensures After(m, e).commands[id] == Feed(m.commands[id], Own([e], id, m.bContinue))
  {
    assert [e][1..] == [] && Own([], id, true) == [] && Own([], id, false) == [];
    FeedNothing(m.commands[id]);
    if e.Arrive? {
      MessageFeeds(m, e.message, id);
    }
  }

  /** Demultiplexing: whatever other callers do and whatever else arrives, in any
      interleaving, a pending command ends up with exactly the contributions of its own
      messages, in order, and is done exactly when its prompt has arrived. */
  lemma {:induction false} CommandCollectsItsOwn(m: Manager, es: seq<Event>, id: int)
    requires id in m.commands && LeavesAlone(es, id)
    ensures id in AfterAll(m, es).commands
    ensures AfterAll(m, es).commands[id] == Feed(m.commands[id], Own(es, id, m.bContinue))
    decreases |es|
  {
    hide Feed;
    if es == [] {
      FeedNothing(m.commands[id]);
    } else {
      var m1 := After(m, es[0]);
      EventFeeds(m, es[0], id);
      assert forall i :: 0 <= i < |es| - 1 ==> es[1..][i] == es[i + 1];
      CommandCollectsItsOwn(m1, es[1..], id);
      OwnSplits(m, es, id);
      var xs := Own(es[1..], id, m1.bContinue);
      if Own([es[0]], id, m.bContinue) == [] {
        FeedNothing(m.commands[id]);
        assert [] + xs == xs;
      } else {
        FeedMore(m.commands[id], es[0].message, xs);
      }
    }
  }

  lemma OwnSplits(m: Manager, es: seq<Event>, id: int)
    requires es != []
    ensures Own(es, id, m.bContinue) == Own([es[0]], id, m.bContinue) + Own(es[1..], id, After(m, es[0]).bContinue)
    ensures Own([es[0]], id, m.bContinue) ==
      if es[0].Arrive? && m.bContinue && es[0].message.id == id then [es[0].message] else []
  {
    assert [es[0]][1..] == [] && Own([], id, true) == [] && Own([], id, false) == [];
  }

  lemma {:induction false} AfterAllAppend(m: Manager, es: seq<Event>, fs: seq<Event>)
    ensures AfterAll(m, es + fs) == AfterAll(AfterAll(m, es), fs)
    decreases |es|
  {
    if es == [] {
      assert es + fs == fs;
    } else {
      assert (es + fs)[1..] == es[1..] + fs;
      AfterAllAppend(After(m, es[0]), es[1..], fs);
    }
  }

  // ---------- what the application hears ----------

  /** Which messages are for the application while the manager listens: prompts, asynchronous
      messages under one type, and the others unless they answer a blocking query. */
  function ForApplication(x: Message, asking: bool): seq<Message> {
    if x.frameType == Prompt then [x]
    else if x.frameType in [Async, Async2, AsyncOther] then [x.(frameType := Async)]
    else if !asking && x.frameType in [Data, Error, Acknowledge] then [x]
    else []
  }

  /** Those among the messages that arrive, given whether the manager listens and whether a
      blocking query is running.  A prompt that it listens to ends the query. */
  function Callbacks(es: seq<Event>, on: bool, asking: bool): seq<Message>
    decreases |es|
  {
    if es == [] then []
    else match es[0]
      case Arrive(x) =>
        (if on then ForApplication(x, asking) else []) + Callbacks(es[1..], on, asking && !(on && x.frameType == Prompt))
      case Ask => Callbacks(es[1..], on, true)
      case Cancel => Callbacks(es[1..], on, false)
      case SetContinue(flag) => Callbacks(es[1..], flag, asking)
      case _ => Callbacks(es[1..], on, asking)
  }

  /** In any interleaving the application's callback gets exactly these messages, in order. */
  lemma {:induction false} ApplicationHears(m: Manager, es: seq<Event>)
    ensures AfterAll(m, es).passed == m.passed + Callbacks(es, m.bContinue, m.isQueryMode)
    decreases |es|
  {
    if es == [] {
      assert m.passed + [] == m.passed;
    } else {
      var m1 := After(m, es[0]);
      OneCallback(m, es[0]);
      hide After, ForApplication;
      ApplicationHears(m1, es[1..]);
      var later := Callbacks(es[1..], m1.bContinue, m1.isQueryMode);
      assert [] + later == later && m.passed + [] == m.passed;
      if es[0].Arrive? {
        Grouped(m.passed, if m.bContinue then ForApplication(es[0].message, m.isQueryMode) else [], later);
      }
    }
  }

  lemma OneCallback(m: Manager, e: Event)
    ensures var m1 := After(m, e);
      && m1.passed == (if e.Arrive? && m.bContinue then m.passed + ForApplication(e.message, m.isQueryMode) else m.passed)
      && m1.bContinue == (if e.SetContinue? then e.flag else m.bContinue)
      && m1.isQueryMode ==
        (e.Ask? || (m.isQueryMode && !e.Cancel? && !(e.Arrive? && m.bContinue && e.message.frameType == Prompt)))
  {
    hide Trim;
    assert m.passed + [] == m.passed;
  }
}
