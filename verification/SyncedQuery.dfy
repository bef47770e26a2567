/** `QueryMCSynced`: a query that looks for the answer under its id. */
module SyncedQuery {
  import opened BitConverter
  import opened Dispatch
  import opened Frames
  import opened Queries
  import opened Texts

  /** `QueryMCSynced` has entered its command and marked it as not done. */
  function Start(m: Manager, id: int, before: seq<Event>): Manager {
    After(AfterAll(After(m, Put(id)), before), Reset(id))
  }

  lemma FeedTwice(xs: seq<Message>, ys: seq<Message>)
    ensures Feed(Feed(Command([], false), xs).(done := false), ys) == Command(Collate(xs + ys), HasPrompt(ys))
  {
    CollateAppend(xs, ys);
    hide Collate, HasPrompt;
    assert ([] + Collate(xs)) + Collate(ys) == Collate(xs) + Collate(ys);
  }

  /** What a query finds when it looks: the contributions of all its own messages since it
      was entered, whatever interleaves, and its prompt if that came after the second
      step. */
  lemma QueryResult(m: Manager, id: int, before: seq<Event>, es: seq<Event>)
    requires LeavesAlone(before, id) && LeavesAlone(es, id)
    ensures var s := Start(m, id, before);
      var xs, ys := Own(before, id, m.bContinue), Own(es, id, s.bContinue);
      var m1 := AfterAll(s, es);
      id in m1.commands && m1.commands[id] == Command(Collate(xs + ys), HasPrompt(ys))
  {
    var s := Start(m, id, before);
    hide OnMessage, Own, Concerns, AfterAll, Feed;
    CommandCollectsItsOwn(After(m, Put(id)), before, id);
    CommandCollectsItsOwn(s, es, id);
    FeedTwice(Own(before, id, m.bContinue), Own(es, id, s.bContinue));
  }

  /** No read in the test of the loop of `QueryMCSynced`, made now, would end it. */
  predicate KeepsWaiting(m: Manager, id: int) {
    m.bContinue && id in m.commands && !m.commands[id].done
  }

  /** What `QueryMCSynced` returns: nothing without `bContinue` or without a command, else the
      trimmed text, which it reads afterwards. */
  function QueryAnswer(flag: Manager, text: Manager, id: int): seq<byte> {
    if flag.bContinue && id in text.commands then Trim(text.commands[id].str) else []
  }

  function Returns(m: Manager, id: int, w: Episode): seq<byte> {
    var s := Start(m, id, w.before);
    QueryAnswer(ReadsFlag(s, w), ReadsText(s, w), id)
  }

  /** Nobody else uses the id. */
  predicate LeftAlone(w: Episode, id: int) {
    LeavesAlone(w.before, id) && LeavesAlone(Meanwhile(w), id)
  }

  /** At every moment the caller keeps waiting unless `bContinue` is cleared or its prompt has
      been heard; it returns nothing if `bContinue` is cleared when it reads it again, else
      all it has heard until it reads its text, trimmed. */
  lemma ReturnsWhatItHeard(m: Manager, id: int, w: Episode)
    requires LeftAlone(w, id)
    ensures var s := Start(m, id, w.before);
      && (KeepsWaiting(Leaves(s, w), id) <==> Leaves(s, w).bContinue && !HasPrompt(Own(w.after, id, s.bContinue)))
      && Returns(m, id, w) ==
         if ReadsFlag(s, w).bContinue then Trim(Collate(Own(w.before, id, m.bContinue) + Own(Meanwhile(w), id, s.bContinue)))
         else []
  {
    assert forall i :: 0 <= i < |w.after| ==> w.after[i] == Meanwhile(w)[i];
    QueryResult(m, id, w.before, w.after);
    QueryResult(m, id, w.before, Meanwhile(w));
    hide AfterAll, After, Own, Collate, HasPrompt, Trim;
  }

  /** A command that is taken out stays out, whatever arrives for it later, until the id is
      used again; and taking it out touches no other. */
  lemma {:induction false} CollectTakesOut(m: Manager, id: int, es: seq<Event>)
    requires LeavesAlone(es, id)
    ensures id !in AfterAll(After(m, Collect(id)), es).commands
    ensures forall i :: i != id ==> (i in After(m, Collect(id)).commands <==> i in m.commands)
    ensures forall i :: i != id && i in m.commands ==> After(m, Collect(id)).commands[i] == m.commands[i]
  {
    StaysOut(After(m, Collect(id)), id, es);
    hide AfterAll;
  }

  lemma {:induction false} StaysOut(m: Manager, id: int, es: seq<Event>)
    requires LeavesAlone(es, id) && id !in m.commands
    ensures id !in AfterAll(m, es).commands
    decreases |es|
  {
    if es != [] {
      assert !Concerns(es[0], id) && LeavesAlone(es[1..], id);
      NothingEntered(m, id, es[0]);
      hide After;
      StaysOut(After(m, es[0]), id, es[1..]);
    }
  }

  lemma NothingEntered(m: Manager, id: int, e: Event)
    requires id !in m.commands && !Concerns(e, id)
    ensures id !in After(m, e).commands
  {}

  // ---------- when it falls short ----------

  /** The messages with a given id, whether or not the manager listens. */
  function Sent(es: seq<Event>, id: int): seq<Message> {
    if es == [] then []
    else (if es[0].Arrive? && es[0].message.id == id then [es[0].message] else []) + Sent(es[1..], id)
  }

  /** Which of them it listens to. */
  function Listened(es: seq<Event>, id: int, on: bool): (r: seq<bool>)
    ensures |r| == |Sent(es, id)|
    decreases |es|
  {
    if es == [] then []
    else
      (if es[0].Arrive? && es[0].message.id == id then [on] else []) + Listened(es[1..], id, FlagAfter(es[0], on))
  }

  predicate HasId(e: Event, id: int) {
    e.Arrive? && e.message.id == id
  }

  lemma OneEventOfId(es: seq<Event>, id: int, on: bool)
    requires es != []
    ensures var (rest, on1) := (es[1..], FlagAfter(es[0], on));
      if HasId(es[0], id) then
        && Sent(es, id) == [es[0].message] + Sent(rest, id)
        && Listened(es, id, on) == [on] + Listened(rest, id, on1)
        && Own(es, id, on) == (if on then [es[0].message] else []) + Own(rest, id, on1)
      else
        Sent(es, id) == Sent(rest, id) && Listened(es, id, on) == Listened(rest, id, on1) && Own(es, id, on) == Own(rest, id, on1)
  {
    var own := Own(es[1..], id, FlagAfter(es[0], on));
    assert [] + own == own;
  }

  lemma CollateOne(x: Message, xs: seq<Message>, on: bool)
    ensures Collate((if on then [x] else []) + xs) == (if on then Contribution(x) else []) + Collate(xs)
  {
    if on {
      assert ([x] + xs)[1..] == xs;
    } else {
      assert [] + xs == xs && [] + Collate(xs) == Collate(xs);
    }
  }

  /** What a command collects is what is picked of the messages sent for it, and of what is
      going to be sent. */
  lemma {:induction false} OwnIsPicked(es: seq<Event>, id: int, on: bool, whole: seq<Message>)
    requires Sent(es, id) <= whole
    ensures Collate(Own(es, id, on)) == Picked(PartsOf(Contribution, whole), Listened(es, id, on))
    decreases |es|
  {
    if es == [] {
      PickedNothing(PartsOf(Contribution, whole));
    } else {
      var on1 := FlagAfter(es[0], on);
      OneEventOfId(es, id, on);
      hide Own, Sent, Listened, Collate, Contribution, Picked, PartsOf;
      if HasId(es[0], id) {
        var x := es[0].message;
        assert Sent(es, id)[0] == x == whole[0] && Sent(es, id)[1..] == Sent(es[1..], id);
        OwnIsPicked(es[1..], id, on1, whole[1..]);
        OneMoreMessage(Contribution, whole, Listened(es[1..], id, on1), on);
        CollateOne(x, Own(es[1..], id, on1), on);
      } else {
        OwnIsPicked(es[1..], id, on1, whole);
      }
    }
  }

  lemma {:induction false} HeardPromptWasSent(es: seq<Event>, id: int, on: bool)
    ensures HasPrompt(Own(es, id, on)) ==> HasPrompt(Sent(es, id))
    decreases |es|
  {
    if es != [] {
      var on1 := FlagAfter(es[0], on);
      OneEventOfId(es, id, on);
      hide Own, Sent, Listened, HasPrompt;
      HeardPromptWasSent(es[1..], id, on1);
      if HasId(es[0], id) {
        var x := es[0].message;
        PromptsJoin([x], Sent(es[1..], id));
        PromptsJoin(if on then [x] else [], Own(es[1..], id, on1));
        NoPromptInNothing();
      }
    }
  }

  /** A query that has its id for itself, and a controller that sends nothing for the id
      before the command and then its reply. */
  predicate Exchange(w: Episode, id: int, answer: seq<Message>, prompt: Message) {
    LeftAlone(w, id) && Sent(w.before, id) == [] && Reply(Sent(Meanwhile(w), id), answer, prompt)
  }

  lemma {:induction false} NothingOwn(es: seq<Event>, id: int, on: bool)
    requires Sent(es, id) == []
    ensures Own(es, id, on) == []
    decreases |es|
  {
    if es != [] {
      NothingOwn(es[1..], id, FlagAfter(es[0], on));
    }
  }

  lemma ReturnsPicked(m: Manager, id: int, w: Episode, answer: seq<Message>, prompt: Message)
    requires Exchange(w, id, answer, prompt)
    ensures var s := Start(m, id, w.before);
      var parts, marks := PartsOf(Contribution, answer + [prompt]), Listened(Meanwhile(w), id, s.bContinue);
      && Returns(m, id, w) == (if ReadsFlag(s, w).bContinue then Trim(Picked(parts, marks)) else [])
      && Collate(answer) == Flatten(parts)
  {
    assert Contribution(prompt) == [];
    assert Sent(w.before, id) == [] && Sent(Meanwhile(w), id) <= answer + [prompt] && LeftAlone(w, id);
    hide *;
    var s := Start(m, id, w.before);
    NothingOwn(w.before, id, m.bContinue);
    var ys := Own(Meanwhile(w), id, s.bContinue);
    assert [] + ys == ys;
    ReturnsWhatItHeard(m, id, w);
    OwnIsPicked(Meanwhile(w), id, s.bContinue, answer + [prompt]);
    PromptAddsNothing(Contribution, answer, prompt);
    CollateIsFlat(answer);
  }

  /** In every run: the query returns neither nothing nor the whole answer exactly if it finds
      the flag set when it reads it again, something but white space has been heard, and
      there is a gap in what has been heard, not just white space at the ends. */
  lemma FallsShortIff(m: Manager, id: int, w: Episode, answer: seq<Message>, prompt: Message)
    requires Exchange(w, id, answer, prompt)
    ensures var s := Start(m, id, w.before);
      var parts, marks := PartsOf(Contribution, answer + [prompt]), Listened(Meanwhile(w), id, s.bContinue);
      FallsShort(Returns(m, id, w), Collate(answer)) <==>
        ReadsFlag(s, w).bContinue && !Blank(Picked(parts, marks)) && Gap(parts, marks)
  {
    var parts := PartsOf(Contribution, answer + [prompt]);
    ReturnsPicked(m, id, w, answer, prompt);
    PickedIsWholeIff(parts, Listened(Meanwhile(w), id, Start(m, id, w.before).bContinue));
    hide Returns, Start, ReadsFlag, Meanwhile, Collate, Trim, Picked, Gap, Blank, Listened, PartsOf, Flatten, Exchange;
  }

  // ---------- when everything is heard ----------

  lemma {:induction false} OwnIsSent(es: seq<Event>, id: int, on: bool)
    requires forall i :: 0 <= i < |Listened(es, id, on)| ==> Listened(es, id, on)[i]
    ensures Own(es, id, on) == Sent(es, id)
    decreases |es|
  {
    if es != [] {
      var on1 := FlagAfter(es[0], on);
      OneEventOfId(es, id, on);
      var marks, later := Listened(es, id, on), Listened(es[1..], id, on1);
      hide Own, Sent, Listened;
      assert HasId(es[0], id) ==> marks[0] == on && marks[1..] == later;
      OwnIsSent(es[1..], id, on1);
    }
  }

  lemma ReturnsWhatWasSent(m: Manager, id: int, w: Episode, answer: seq<Message>, prompt: Message)
    requires Exchange(w, id, answer, prompt) && !KeepsWaiting(Leaves(Start(m, id, w.before), w), id)
    requires var marks := Listened(Meanwhile(w), id, Start(m, id, w.before).bContinue);
      forall i :: 0 <= i < |marks| ==> marks[i]
    ensures var (s, sent) := (Start(m, id, w.before), Sent(Meanwhile(w), id));
      && Returns(m, id, w) == (if ReadsFlag(s, w).bContinue then Trim(Collate(sent)) else [])
      && (Leaves(s, w).bContinue ==> sent == answer + [prompt])
  {
    var s := Start(m, id, w.before);
    var sent := Sent(Meanwhile(w), id);
    assert w.after + (w.later + w.last) == Meanwhile(w);
    assert LeftAlone(w, id) && Sent(w.before, id) == [] && Reply(sent, answer, prompt);
    hide *;
    NothingOwn(w.before, id, m.bContinue);
    assert [] + sent == sent;
    ReturnsWhatItHeard(m, id, w);
    OwnIsSent(Meanwhile(w), id, s.bContinue);
    PromptHeardMeansAll(w.after, w.later + w.last, id, s.bContinue, answer, prompt);
  }

  lemma BeginningFallsShortIff(sent: seq<Message>, answer: seq<Message>, prompt: Message)
    requires Reply(sent, answer, prompt)
    ensures FallsShort(Trim(Collate(sent)), Collate(answer)) <==>
      |sent| <= |answer| && !Blank(Collate(answer[..|sent|])) && !Blank(Collate(answer[|sent|..]))
  {
    hide Collate, Trim, Blank, HasPrompt;
    if |sent| <= |answer| {
      assert sent == (answer + [prompt])[..|sent|] == answer[..|sent|];
      assert answer == answer[..|sent|] + answer[|sent|..];
      CollateAppend(answer[..|sent|], answer[|sent|..]);
      BeginningIsWholeIff(Collate(answer[..|sent|]), Collate(answer[|sent|..]));
    } else {
      assert sent == answer + [prompt];
      CollatePrompt(answer, prompt);
    }
  }

  /** With nothing missed: a query that has left its loop returns neither nothing nor the whole
      answer exactly if it left because `bContinue` was cleared, with its prompt still to come,
      found it set again, and has heard something, but not everything, besides white space. */
  lemma FallsShortUnbrokenIff(m: Manager, id: int, w: Episode, answer: seq<Message>, prompt: Message)
    requires Exchange(w, id, answer, prompt) && !KeepsWaiting(Leaves(Start(m, id, w.before), w), id)
    requires var marks := Listened(Meanwhile(w), id, Start(m, id, w.before).bContinue);
      forall i :: 0 <= i < |marks| ==> marks[i]
    ensures var s := Start(m, id, w.before);
      var n := |Sent(Meanwhile(w), id)|;
      FallsShort(Returns(m, id, w), Collate(answer)) <==>
        && !Leaves(s, w).bContinue && ReadsFlag(s, w).bContinue && n <= |answer|
        && !Blank(Collate(answer[..n])) && !Blank(Collate(answer[n..]))
  {
    ReturnsWhatWasSent(m, id, w, answer, prompt);
    BeginningFallsShortIff(Sent(Meanwhile(w), id), answer, prompt);
    hide AfterAll, After, Listened, Sent, HasPrompt, Collate, Trim, Blank;
  }

  lemma CollatePrompt(answer: seq<Message>, prompt: Message)
    requires IsPrompt(prompt)
    ensures Collate(answer + [prompt]) == Collate(answer)
  {
    CollateAppend(answer, [prompt]);
    assert [prompt][1..] == [] && Collate([prompt]) == [];
    var text := Collate(answer);
    assert text + [] == text;
  }

  lemma {:induction false} SentJoins(a: seq<Event>, b: seq<Event>, id: int)
    ensures Sent(a + b, id) == Sent(a, id) + Sent(b, id)
  {
    if a == [] {
      assert a + b == b;
    } else {
      assert (a + b)[1..] == a[1..] + b;
      SentJoins(a[1..], b, id);
      var now := if HasId(a[0], id) then [a[0].message] else [];
      assert now + (Sent(a[1..], id) + Sent(b, id)) == (now + Sent(a[1..], id)) + Sent(b, id);
    }
  }

  /** Once the prompt is heard nothing more comes. */
  lemma PromptHeardMeansAll(es: seq<Event>, more: seq<Event>, id: int, on: bool, answer: seq<Message>, prompt: Message)
    requires Reply(Sent(es + more, id), answer, prompt)
    ensures HasPrompt(Own(es, id, on)) ==> Sent(es, id) == Sent(es + more, id) == answer + [prompt]
  {
    SentJoins(es, more, id);
    HeardPromptWasSent(es, id, on);
    PromptIsLast(Sent(es, id), answer, prompt);
    hide Own, Sent, HasPrompt;
  }

  lemma PartsCollate(id: int)
    ensures Collate([PartA(id)]) == [0x61] && Collate([PartB(id)]) == [0x62]
    ensures !Blank([0x61]) && !Blank([0x62])
  {
    assert [PartA(id)][1..] == [] && [PartB(id)][1..] == [];
    assert [0x61][0] == 0x61 && [0x62][0] == 0x62;
  }

  /** The first part of the answer, then the flag cleared, then set. */
  lemma CutShort(id: int, on: bool)
    ensures var es := [Arrive(PartA(id)), SetContinue(false)];
      && Sent(es + [SetContinue(true)], id) == [PartA(id)] && Listened(es + [SetContinue(true)], id, on) == [on]
      && Changes(es) == [false] && Changes(es + [SetContinue(true)]) == [false, true]
      && LeavesAlone(es + [SetContinue(true)], id)
  {
    var es := [Arrive(PartA(id)), SetContinue(false)];
    var more := es + [SetContinue(true)];
    var two := [SetContinue(false), SetContinue(true)];
    assert es[1..] == [SetContinue(false)] && es[1..][1..] == [];
    assert more[1..] == two && two[1..] == [SetContinue(true)] && two[1..][1..] == [];
    OneEventOfId(more, id, on);
    OneEventOfId(two, id, on);
    OneEventOfId(two[1..], id, false);
    assert Changes(more) == Changes(two);
    assert Changes(es) == Changes(es[1..]);
  }

  /** A run in which the flag is cleared while the answer is coming, and set again once the
      caller has left its loop: nothing is missed, and the query returns the beginning of the
      answer. */
  lemma AnswerCutShort(m: Manager, id: int)
    requires m.bContinue
    ensures exists w, answer, prompt ::
      && Exchange(w, id, answer, prompt) && !KeepsWaiting(Leaves(Start(m, id, w.before), w), id)
      && FallsShort(Returns(m, id, w), Collate(answer))
  {
    var x, y, prompt := PartA(id), PartB(id), End(id);
    var w := Episode([], [Arrive(x), SetContinue(false)], [SetContinue(true)], []);
    var s := Start(m, id, []);
    CutShort(id, s.bContinue);
    PartsCollate(id);
    FlagOverTime(s, w.after);
    FlagOverTime(s, w.after + w.later);
    assert s.bContinue && Meanwhile(w) == w.after + w.later;
    assert [x, y][..1] == [x] && [x, y][1..] == [y];
    assert Sent([], id) == [] && LeavesAlone([], id) && Reply([x], [x, y], prompt);
    hide AfterAll, Sent, Listened, Changes, After, Blank, Collate, LeavesAlone;
    FallsShortUnbrokenIff(m, id, w, [x, y], prompt);
    assert Exchange(w, id, [x, y], prompt) && FallsShort(Returns(m, id, w), Collate([x, y]));
  }

  // ---------- the orders in which the flag changes ----------

  lemma ListenedSteps(es: seq<Event>, id: int, on: bool)
    requires es != []
    ensures Listened(es, id, on) == (if HasId(es[0], id) then [on] else []) + Listened(es[1..], id, FlagAfter(es[0], on))
  {}

  lemma ListenedToNothing(id: int, on: bool)
    ensures Listened([], id, on) == []
  {}

  lemma ListenedOneMore(a: seq<Event>, b: seq<Event>, id: int, on: bool, later: seq<bool>)
    requires a != [] && Listened(a[1..] + b, id, FlagAfter(a[0], on)) == Listened(a[1..], id, FlagAfter(a[0], on)) + later
    ensures Listened(a + b, id, on) == Listened(a, id, on) + later
  {
    hide *;
    ListenedSteps(a, id, on);
    ListenedSteps(a + b, id, on);
    assert (a + b)[1..] == a[1..] + b && (a + b)[0] == a[0];
    Grouped(if HasId(a[0], id) then [on] else [], Listened(a[1..], id, FlagAfter(a[0], on)), later);
  }

  lemma {:induction false} ListenedJoins(a: seq<Event>, b: seq<Event>, id: int, on: bool)
    ensures Listened(a + b, id, on) == Listened(a, id, on) + Listened(b, id, Last(Changes(a), on))
    decreases |a|
  {
    if a == [] {
      ListenedToNothing(id, on);
      var heard := Listened(b, id, on);
      assert a + b == b && [] + heard == heard;
    } else {
      hide *;
      LastSteps(a, on);
      ListenedJoins(a[1..], b, id, FlagAfter(a[0], on));
      ListenedOneMore(a, b, id, on, Listened(b, id, Last(Changes(a), on)));
    }
  }

  lemma {:induction false} ListenedWhileSet(es: seq<Event>, id: int, on: bool)
    requires on && forall i :: 0 <= i < |Changes(es)| ==> Changes(es)[i]
    ensures forall i :: 0 <= i < |Listened(es, id, on)| ==> Listened(es, id, on)[i]
    decreases |es|
  {
    if es != [] {
      var now, later := if es[0].SetContinue? then [es[0].flag] else [], Changes(es[1..]);
      assert Changes(es) == now + later;
      assert forall i :: 0 <= i < |later| ==> later[i] == Changes(es)[|now| + i];
      assert es[0].SetContinue? ==> Changes(es)[0] == es[0].flag;
      ListenedWhileSet(es[1..], id, FlagAfter(es[0], on));
    }
  }

  /** Once the prompt has been heard with the flag set all the time, the whole answer has. */
  lemma HeardWhole(es: seq<Event>, more: seq<Event>, id: int, on: bool, answer: seq<Message>, prompt: Message)
    requires Reply(Sent(es + more, id), answer, prompt) && HasPrompt(Own(es, id, on))
    requires on && forall i :: 0 <= i < |Changes(es)| ==> Changes(es)[i]
    ensures !Gap(PartsOf(Contribution, answer + [prompt]), Listened(es + more, id, on))
  {
    PromptHeardMeansAll(es, more, id, on, answer, prompt);
    ListenedWhileSet(es, id, on);
    ListenedJoins(es, more, id, on);
    AllMarkedNoGap(PartsOf(Contribution, answer + [prompt]), Listened(es + more, id, on));
    hide Own, Sent, HasPrompt, Changes, Gap;
  }

  lemma StartFlag(m: Manager, id: int, before: seq<Event>)
    ensures Start(m, id, before).bContinue == Last(Changes(before), m.bContinue)
  {
    FlagOverTime(After(m, Put(id)), before);
  }

  /** A run of the query until it returns, in which the flag changes as given. */
  ghost predicate IsRun(m: Manager, id: int, w: Episode, answer: seq<Message>, prompt: Message, cs: seq<bool>) {
    && Exchange(w, id, answer, prompt) && Changes(w.before + Meanwhile(w)) == cs
    && !KeepsWaiting(Leaves(Start(m, id, w.before), w), id)
  }

  /** What leaving the loop and finding the flag set comes to then. */
  lemma LeftWhileSet(m: Manager, id: int, w: Episode, answer: seq<Message>, prompt: Message, cs: seq<bool>)
    requires IsRun(m, id, w, answer, prompt, cs) && !SetAgain(cs, m.bContinue)
    requires ReadsFlag(Start(m, id, w.before), w).bContinue
    ensures var s := Start(m, id, w.before);
      && s.bContinue && HasPrompt(Own(w.after, id, s.bContinue))
      && forall i :: 0 <= i < |Changes(w.after)| ==> Changes(w.after)[i]
  {
    StartFlag(m, id, w.before);
    SetUntilRead(Start(m, id, w.before), w, m.bContinue);
    ReturnsWhatItHeard(m, id, w);
    hide AfterAll, After, Own, Collate, Trim, HasPrompt, Changes, SetAgain;
  }

  lemma NotSetAgain(m: Manager, id: int, w: Episode, answer: seq<Message>, prompt: Message, cs: seq<bool>)
    requires IsRun(m, id, w, answer, prompt, cs) && !SetAgain(cs, m.bContinue)
    ensures !FallsShort(Returns(m, id, w), Collate(answer))
  {
    var s := Start(m, id, w.before);
    assert Reply(Sent(Meanwhile(w), id), answer, prompt) && Exchange(w, id, answer, prompt);
    assert w.after + (w.later + w.last) == Meanwhile(w);
    hide *;
    FallsShortIff(m, id, w, answer, prompt);
    if ReadsFlag(s, w).bContinue {
      LeftWhileSet(m, id, w, answer, prompt, cs);
      HeardWhole(w.after, w.later + w.last, id, s.bContinue, answer, prompt);
    }
  }

  // ---------- a run for every order in which the flag is set again ----------

  lemma ShortEpisodeIs(cs: seq<bool>, k: nat, id: int, on: bool)
    requires k < |cs| && cs[k] && !Last(cs[..k], on)
    ensures var w := ShortEpisode(cs, k, id);
      && Exchange(w, id, [PartA(id), PartB(id)], End(id)) && Changes(w.before + Meanwhile(w)) == cs
      && Changes(w.after) == cs[..k] && Changes(w.after + w.later) == cs[..k] + [true]
      && Listened(Meanwhile(w), id, on) == [false, true]
  {
    var w := ShortEpisode(cs, k, id);
    assert Sent([], id) == [] && LeavesAlone([], id);
    ShortEpisodeChanges(cs, k, id);
    ShortEpisodeHears(cs, k, id, on);
    ShortEpisodeAlone(cs, k, id);
    hide Sent, Listened, Changes, Sets, LeavesAlone, Meanwhile;
    assert w.before + Meanwhile(w) == Meanwhile(w);
    assert [PartA(id), PartB(id)] <= [PartA(id), PartB(id)] + [End(id)];
  }

  lemma ShortEpisodeHears(cs: seq<bool>, k: nat, id: int, on: bool)
    requires k < |cs| && !Last(cs[..k], on)
    ensures var es := Meanwhile(ShortEpisode(cs, k, id));
      Sent(es, id) == [PartA(id), PartB(id)] && Listened(es, id, on) == [false, true]
  {
    var w := ShortEpisode(cs, k, id);
    SetsOnlySet(cs[..k]);
    SetsForNobody(cs[..k], id, on);
    SetsForNobody(cs[k + 1..], id, true);
    SetsForNobody(cs[k + 1..], id, false);
    TwoParts(id);
    hide Sent, Listened, Changes, Sets;
    SentJoins(w.after + w.later, w.last, id);
    SentJoins(w.after, w.later, id);
    ListenedJoins(w.after + w.later, w.last, id, on);
    ListenedJoins(w.after, w.later, id, on);
    assert [] + [PartA(id), PartB(id)] + [] == [PartA(id), PartB(id)];
    assert [] + [false, true] + [] == [false, true];
  }

  lemma ShortEpisodeAlone(cs: seq<bool>, k: nat, id: int)
    requires k < |cs|
    ensures LeavesAlone(Meanwhile(ShortEpisode(cs, k, id)), id)
  {}

  lemma TwoParts(id: int)
    ensures var es := [Arrive(PartA(id)), SetContinue(true), Arrive(PartB(id))];
      Sent(es, id) == [PartA(id), PartB(id)] && Listened(es, id, false) == [false, true] && Changes(es) == [true]
  {
    var es := [Arrive(PartA(id)), SetContinue(true), Arrive(PartB(id))];
    var two := [SetContinue(true), Arrive(PartB(id))];
    assert es[1..] == two && two[1..] == [Arrive(PartB(id))] && two[1..][1..] == [];
    ListenedSteps(es, id, false);
    ListenedSteps(two, id, false);
    ListenedSteps(two[1..], id, true);
    ListenedToNothing(id, true);
    assert Sent(es, id) == [PartA(id)] + Sent(two, id) && Sent(two, id) == Sent(two[1..], id);
    assert Changes(es) == [true] + Changes(two[1..]);
  }

  lemma {:induction false} SetsForNobody(cs: seq<bool>, id: int, on: bool)
    ensures Sent(Sets(cs), id) == [] && Listened(Sets(cs), id, on) == [] && LeavesAlone(Sets(cs), id)
    decreases |cs|
  {
    if cs != [] {
      assert Sets(cs)[1..] == Sets(cs[1..]);
      SetsForNobody(cs[1..], id, cs[0]);
    }
  }

  lemma SecondPartOnly(id: int)
    ensures var parts := PartsOf(Contribution, [PartA(id), PartB(id)] + [End(id)]);
      !Blank(Picked(parts, [false, true])) && Gap(parts, [false, true])
  {
    var parts := PartsOf(Contribution, [PartA(id), PartB(id)] + [End(id)]);
    var more := [PartB(id), End(id)];
    assert ([PartA(id), PartB(id)] + [End(id)])[1..] == more && more[1..] == [End(id)] && more[1..][1..] == [];
    assert PartsOf(Contribution, more) == [[0x62]] + PartsOf(Contribution, more[1..]);
    assert parts == [[0x61]] + PartsOf(Contribution, more) == [[0x61], [0x62], []];
    PickedSecond();
  }

  lemma SetAgainFallsShort(m: Manager, id: int, cs: seq<bool>)
    requires SetAgain(cs, m.bContinue)
    ensures exists w, answer, prompt :: IsRun(m, id, w, answer, prompt, cs) && FallsShort(Returns(m, id, w), Collate(answer))
  {
    var k := WhereSetAgain(cs, m.bContinue);
    var w, answer := ShortEpisode(cs, k, id), [PartA(id), PartB(id)];
    var s := Start(m, id, []);
    assert s.bContinue == m.bContinue;
    ShortEpisodeIs(cs, k, id, m.bContinue);
    FlagOverTime(s, w.after);
    FlagOverTime(s, w.after + w.later);
    SecondPartOnly(id);
    FallsShortIff(m, id, w, answer, End(id));
    hide Picked, Gap, PartsOf, Blank, Listened, Sent, Collate, AfterAll, After, Changes;
    assert IsRun(m, id, w, answer, End(id), cs) && FallsShort(Returns(m, id, w), Collate(answer));
  }

  /** For every order in which the flag may change: every query returns nothing or its whole
      answer if and only if the flag is never set after it has been cleared. */
  lemma WholeOrNothingIff(m: Manager, id: int, cs: seq<bool>)
    ensures (forall w, answer, prompt :: IsRun(m, id, w, answer, prompt, cs) ==> !FallsShort(Returns(m, id, w), Collate(answer)))
      <==> !SetAgain(cs, m.bContinue)
  {
    hide *;
    if SetAgain(cs, m.bContinue) {
      SetAgainFallsShort(m, id, cs);
    } else {
      forall w, answer, prompt | IsRun(m, id, w, answer, prompt, cs)
        ensures !FallsShort(Returns(m, id, w), Collate(answer))
      {
        NotSetAgain(m, id, w, answer, prompt, cs);
      }
    }
  }

  /** With the flag always set, the caller waits until its prompt has come. */
  lemma WaitsWhileSet(m: Manager, id: int, w: Episode, answer: seq<Message>, prompt: Message)
    requires Exchange(w, id, answer, prompt)
    requires var s := Start(m, id, w.before);
      && s.bContinue && Leaves(s, w).bContinue
      && forall i :: 0 <= i < |Listened(w.after, id, s.bContinue)| ==> Listened(w.after, id, s.bContinue)[i]
    ensures KeepsWaiting(Leaves(Start(m, id, w.before), w), id) <==> Sent(w.after, id) != answer + [prompt]
  {
    var s := Start(m, id, w.before);
    assert LeftAlone(w, id) && Reply(Sent(Meanwhile(w), id), answer, prompt);
    assert w.after + (w.later + w.last) == Meanwhile(w);
    hide Start, Leaves, KeepsWaiting, Listened, Sent, Own, HasPrompt, LeftAlone, Meanwhile, Collate, Trim;
    ReturnsWhatItHeard(m, id, w);
    OwnIsSent(w.after, id, s.bContinue);
    SentJoins(w.after, w.later + w.last, id);
    PromptIsLast(Sent(w.after, id), answer, prompt);
  }

  /** While the flag stays set, the query waits until its prompt has come, and then returns the
      whole answer, trimmed. */
  lemma ReturnsTheAnswer(m: Manager, id: int, w: Episode, answer: seq<Message>, prompt: Message)
    requires Exchange(w, id, answer, prompt) && m.bContinue
    requires var cs := Changes(w.before + Meanwhile(w)); forall i :: 0 <= i < |cs| ==> cs[i]
    ensures var s := Start(m, id, w.before);
      && (KeepsWaiting(Leaves(s, w), id) <==> Sent(w.after, id) != answer + [prompt])
      && (!KeepsWaiting(Leaves(s, w), id) ==> Returns(m, id, w) == Trim(Collate(answer)))
  {
    var s := Start(m, id, w.before);
    assert IsPrompt(prompt);
    hide *;
    StartFlag(m, id, w.before);
    FlagsUp(s, w, m.bContinue);
    ListenedWhileSet(Meanwhile(w), id, s.bContinue);
    ListenedWhileSet(w.after, id, s.bContinue);
    WaitsWhileSet(m, id, w, answer, prompt);
    if !KeepsWaiting(Leaves(s, w), id) {
      ReturnsWhatWasSent(m, id, w, answer, prompt);
      CollatePrompt(answer, prompt);
    }
  }
}
