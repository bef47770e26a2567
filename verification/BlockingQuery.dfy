/** `QueryMC`: a query that sleeps until a prompt comes, and returns whatever came before it. */
module BlockingQuery {
  import opened BitConverter
  import opened Dispatch
  import opened Frames
  import opened Queries
  import opened Texts

  /** `QueryMC` has emptied the result, and then marked its query as running. */
  function Start(m: Manager, before: seq<Event>): Manager {
    After(AfterAll(After(m, NewResult), before), Ask)
  }

  predicate KeepsWaiting(m: Manager) {
    m.isQueryMode && m.bContinue
  }

  /** What `QueryMC` returns: nothing without `bContinue`, else the trimmed result, which it
      reads afterwards. */
  function QueryAnswer(flag: Manager, text: Manager): seq<byte> {
    if flag.bContinue then Trim(text.resSB) else []
  }

  function Returns(m: Manager, w: Episode): seq<byte> {
    var s := Start(m, w.before);
    QueryAnswer(ReadsFlag(s, w), ReadsText(s, w))
  }

  /** What a message adds to the result, whatever its id. */
  function Answers(x: Message): seq<byte> {
    match x.frameType
    case Data => Trim(x.text)
    case Error => ERROR_MARK + x.text
    case _ => []
  }

  /** The answers that arrive, while the manager listens, until a prompt arrives or the query
      is cancelled. */
  function Heard(es: seq<Event>, on: bool): seq<byte>
    decreases |es|
  {
    if es == [] || Ends(es[0], on) then []
    else (if es[0].Arrive? && on then Answers(es[0].message) else []) + Heard(es[1..], FlagAfter(es[0], on))
  }

  predicate Ends(e: Event, on: bool) {
    e.Cancel? || (e.Arrive? && on && IsPrompt(e.message))
  }

  /** Whether a prompt has arrived or the query has been cancelled. */
  predicate Answered(es: seq<Event>, on: bool)
    decreases |es|
  {
    es != [] && (Ends(es[0], on) || Answered(es[1..], FlagAfter(es[0], on)))
  }

  /** One blocking query at a time. */
  predicate NoQueryStarts(es: seq<Event>) {
    forall i :: 0 <= i < |es| ==> !es[i].Ask? && !es[i].NewResult?
  }

  lemma OneEvent(m: Manager, e: Event)
    requires !e.Ask? && !e.NewResult?
    ensures After(m, e).bContinue == FlagAfter(e, m.bContinue)
    ensures After(m, e).isQueryMode == (m.isQueryMode && !Ends(e, m.bContinue))
    ensures After(m, e).resSB ==
      if m.isQueryMode && !Ends(e, m.bContinue) && e.Arrive? && m.bContinue then m.resSB + Answers(e.message) else m.resSB
  {
    hide Trim;
    assert m.resSB + [] == m.resSB;
  }

  /** After its end nothing is added to a query until the next one starts. */
  lemma {:induction false} ResultStays(m: Manager, es: seq<Event>)
    requires !m.isQueryMode && NoQueryStarts(es)
    ensures !AfterAll(m, es).isQueryMode && AfterAll(m, es).resSB == m.resSB
    decreases |es|
  {
    hide After;
    if es != [] {
      assert !es[0].Ask? && !es[0].NewResult? && NoQueryStarts(es[1..]);
      OneEvent(m, es[0]);
      ResultStays(After(m, es[0]), es[1..]);
    }
  }

  /** Until it ends a query gathers all data and all marked errors, in order. */
  lemma {:induction false} QueryGathers(m: Manager, es: seq<Event>)
    requires m.isQueryMode && NoQueryStarts(es)
    ensures AfterAll(m, es).isQueryMode == !Answered(es, m.bContinue)
    ensures AfterAll(m, es).resSB == m.resSB + Heard(es, m.bContinue)
    decreases |es|
  {
    hide After, Answers, Ends;
    if es == [] {
      assert m.resSB + [] == m.resSB;
    } else {
      assert !es[0].Ask? && !es[0].NewResult? && NoQueryStarts(es[1..]);
      OneEvent(m, es[0]);
      var m1 := After(m, es[0]);
      if Ends(es[0], m.bContinue) {
        ResultStays(m1, es[1..]);
        assert m.resSB + [] == m.resSB;
      } else {
        QueryGathers(m1, es[1..]);
        var now := if es[0].Arrive? && m.bContinue then Answers(es[0].message) else [];
        assert m.resSB + [] == m.resSB;
        assert (m.resSB + now) + Heard(es[1..], m1.bContinue) == m.resSB + (now + Heard(es[1..], m1.bContinue));
      }
    }
  }

  /** What comes between the first two steps joins the result if the query before has left
      its mark. */
  function Leftover(m: Manager, before: seq<Event>): seq<byte> {
    if m.isQueryMode then Heard(before, m.bContinue) else []
  }

  lemma StartIs(m: Manager, before: seq<Event>)
    requires NoQueryStarts(before)
    ensures var s := Start(m, before);
      s.isQueryMode && s.resSB == Leftover(m, before) && s.bContinue == Last(Changes(before), m.bContinue)
  {
    var m0 := After(m, NewResult);
    assert m0 == m.(resSB := []);
    FlagOverTime(m0, before);
    if m.isQueryMode {
      QueryGathers(m0, before);
      var text := Heard(before, m.bContinue);
      assert [] + text == text;
    } else {
      ResultStays(m0, before);
    }
    hide Heard, AfterAll, Changes;
  }

  predicate OneAtATime(w: Episode) {
    NoQueryStarts(w.before) && NoQueryStarts(Meanwhile(w))
  }

  /** At every moment the caller keeps waiting unless `bContinue` is cleared, its prompt has
      been heard or it has been cancelled; it returns nothing if `bContinue` is cleared when
      it reads it again, else all it has heard until its end, trimmed, with what was left
      over in front. */
  lemma ReturnsWhatItHeard(m: Manager, w: Episode)
    requires OneAtATime(w)
    ensures var s := Start(m, w.before);
      && (KeepsWaiting(Leaves(s, w)) <==> Leaves(s, w).bContinue && !Answered(w.after, s.bContinue))
      && Returns(m, w) ==
         if ReadsFlag(s, w).bContinue then Trim(Leftover(m, w.before) + Heard(Meanwhile(w), s.bContinue)) else []
  {
    var s := Start(m, w.before);
    assert forall i :: 0 <= i < |w.after| ==> w.after[i] == Meanwhile(w)[i];
    StartIs(m, w.before);
    QueryGathers(s, w.after);
    QueryGathers(s, Meanwhile(w));
    hide AfterAll, After, Heard, Answered, Trim, Leftover, Start;
  }

  /** What arrives after the end of a query makes no difference. */
  lemma {:induction false} HeardUntilTheEnd(es: seq<Event>, more: seq<Event>, on: bool)
    requires Answered(es, on)
    ensures Heard(es + more, on) == Heard(es, on)
    decreases |es|
  {
    assert (es + more)[0] == es[0] && (es + more)[1..] == es[1..] + more;
    if !Ends(es[0], on) {
      HeardUntilTheEnd(es[1..], more, FlagAfter(es[0], on));
    }
  }

  // ---------- when it falls short ----------

  /** All messages that arrive, whether or not the manager listens. */
  function Arrived(es: seq<Event>): seq<Message> {
    if es == [] then [] else (if es[0].Arrive? then [es[0].message] else []) + Arrived(es[1..])
  }

  /** Which of them the query hears: those that the manager listens to before its end. */
  function Listened(es: seq<Event>, on: bool, waits: bool): (r: seq<bool>)
    ensures |r| == |Arrived(es)|
    decreases |es|
  {
    if es == [] then []
    else
      (if es[0].Arrive? then [on && waits] else []) + Listened(es[1..], FlagAfter(es[0], on), waits && !Ends(es[0], on))
  }

  lemma ListenedSteps(es: seq<Event>, on: bool, waits: bool)
    requires es != []
    ensures var more := Listened(es[1..], FlagAfter(es[0], on), waits && !Ends(es[0], on));
      if es[0].Arrive? then Listened(es, on, waits) == [on && waits] + more else Listened(es, on, waits) == more
    ensures if es[0].Arrive? then Arrived(es) == [es[0].message] + Arrived(es[1..]) else Arrived(es) == Arrived(es[1..])
  {}

  lemma {:induction false} NothingPicked(es: seq<Event>, on: bool, parts: seq<seq<byte>>)
    requires |Arrived(es)| <= |parts|
    ensures Picked(parts, Listened(es, on, false)) == []
    decreases |es|
  {
    if es == [] {
      PickedNothing(parts);
    } else {
      ListenedSteps(es, on, false);
      var on1, marks := FlagAfter(es[0], on), Listened(es, on, false);
      hide Listened, Arrived;
      if es[0].Arrive? {
        assert marks[1..] == Listened(es[1..], on1, false);
        NothingPicked(es[1..], on1, parts[1..]);
      } else {
        NothingPicked(es[1..], on1, parts);
      }
    }
  }

  lemma HeardSteps(es: seq<Event>, on: bool)
    requires es != [] && !Ends(es[0], on)
    ensures Heard(es, on) ==
      (if es[0].Arrive? && on then Answers(es[0].message) else []) + Heard(es[1..], FlagAfter(es[0], on))
  {}

  /** What a query hears is what is picked of the messages that arrive, and of what is going to
      arrive. */
  lemma {:induction false} HeardIsPicked(es: seq<Event>, on: bool, whole: seq<Message>)
    requires Arrived(es) <= whole
    ensures Heard(es, on) == Picked(PartsOf(Answers, whole), Listened(es, on, true))
    decreases |es|
  {
    if es == [] {
      PickedNothing(PartsOf(Answers, whole));
    } else if Ends(es[0], on) {
      HeardNoMore(es, on, whole);
    } else {
      ListenedSteps(es, on, true);
      HeardSteps(es, on);
      var on1 := FlagAfter(es[0], on);
      var later := Heard(es[1..], on1);
      hide *;
      if es[0].Arrive? {
        assert Arrived(es)[0] == es[0].message == whole[0] && Arrived(es)[1..] == Arrived(es[1..]);
        HeardIsPicked(es[1..], on1, whole[1..]);
        OneMoreMessage(Answers, whole, Listened(es[1..], on1, true), on);
      } else {
        assert [] + later == later;
        HeardIsPicked(es[1..], on1, whole);
      }
    }
  }

  lemma HeardNoMore(es: seq<Event>, on: bool, whole: seq<Message>)
    requires Arrived(es) <= whole && es != [] && Ends(es[0], on)
    ensures Heard(es, on) == Picked(PartsOf(Answers, whole), Listened(es, on, true))
  {
    ListenedSteps(es, on, true);
    var marks := Listened(es[1..], FlagAfter(es[0], on), false);
    hide Listened, Arrived;
    if es[0].Arrive? {
      assert Arrived(es)[0] == es[0].message == whole[0] && Arrived(es)[1..] == Arrived(es[1..]);
      OneMoreMessage(Answers, whole, marks, on);
      assert Answers(whole[0]) == [];
      NothingPicked(es[1..], FlagAfter(es[0], on), PartsOf(Answers, whole[1..]));
    } else {
      NothingPicked(es[1..], FlagAfter(es[0], on), PartsOf(Answers, whole));
    }
  }

  /** A controller that answers one query at a time: nothing is left over for the query, and
      what arrives is its reply. */
  predicate Exchange(m: Manager, w: Episode, answer: seq<Message>, prompt: Message) {
    OneAtATime(w) && Leftover(m, w.before) == [] && Reply(Arrived(Meanwhile(w)), answer, prompt)
  }

  function Answer(answer: seq<Message>): seq<byte> {
    Flatten(PartsOf(Answers, answer))
  }

  lemma ReturnsPicked(m: Manager, w: Episode, answer: seq<Message>, prompt: Message)
    requires Exchange(m, w, answer, prompt)
    ensures var s := Start(m, w.before);
      var parts, marks := PartsOf(Answers, answer + [prompt]), Listened(Meanwhile(w), s.bContinue, true);
      && Returns(m, w) == (if ReadsFlag(s, w).bContinue then Trim(Picked(parts, marks)) else [])
      && Answer(answer) == Flatten(parts)
  {
    assert Answers(prompt) == [] && Arrived(Meanwhile(w)) <= answer + [prompt];
    assert Leftover(m, w.before) == [] && OneAtATime(w) && Answer(answer) == Flatten(PartsOf(Answers, answer));
    hide *;
    var s := Start(m, w.before);
    ReturnsWhatItHeard(m, w);
    var heard := Heard(Meanwhile(w), s.bContinue);
    assert [] + heard == heard;
    HeardIsPicked(Meanwhile(w), s.bContinue, answer + [prompt]);
    PromptAddsNothing(Answers, answer, prompt);
  }

  /** In every run: the query returns neither nothing nor the whole answer exactly if it finds
      the flag set when it reads it again, something but white space has been heard, and
      there is a gap in what has been heard, not just white space at the ends. */
  lemma FallsShortIff(m: Manager, w: Episode, answer: seq<Message>, prompt: Message)
    requires Exchange(m, w, answer, prompt)
    ensures var s := Start(m, w.before);
      var parts, marks := PartsOf(Answers, answer + [prompt]), Listened(Meanwhile(w), s.bContinue, true);
      FallsShort(Returns(m, w), Answer(answer)) <==>
        ReadsFlag(s, w).bContinue && !Blank(Picked(parts, marks)) && Gap(parts, marks)
  {
    var parts := PartsOf(Answers, answer + [prompt]);
    ReturnsPicked(m, w, answer, prompt);
    PickedIsWholeIff(parts, Listened(Meanwhile(w), Start(m, w.before).bContinue, true));
    hide Returns, Start, ReadsFlag, Meanwhile, Answer, Trim, Picked, Gap, Blank, Listened, PartsOf, Flatten, Exchange;
  }

  // ---------- when everything is heard ----------

  predicate Cancelled(es: seq<Event>) {
    exists i :: 0 <= i < |es| && es[i].Cancel?
  }

  lemma {:induction false} ArrivedJoins(a: seq<Event>, b: seq<Event>)
    ensures Arrived(a + b) == Arrived(a) + Arrived(b)
  {
    if a == [] {
      assert a + b == b;
    } else {
      assert (a + b)[1..] == a[1..] + b;
      ArrivedJoins(a[1..], b);
      Grouped(if a[0].Arrive? then [a[0].message] else [], Arrived(a[1..]), Arrived(b));
    }
  }

  lemma {:induction false} EndsByPrompt(es: seq<Event>, on: bool)
    requires Answered(es, on) && !Cancelled(es)
    ensures HasPrompt(Arrived(es))
    decreases |es|
  {
    ListenedSteps(es, on, true);
    assert !es[0].Cancel? && forall i :: 0 <= i < |es| - 1 ==> es[1..][i] == es[i + 1];
    if Ends(es[0], on) {
      assert Arrived(es)[0] == es[0].message;
    } else {
      EndsByPrompt(es[1..], FlagAfter(es[0], on));
      if es[0].Arrive? {
        PromptsJoin([es[0].message], Arrived(es[1..]));
      }
    }
  }

  /** Once the prompt is heard nothing more comes. */
  lemma AnsweredMeansAll(es: seq<Event>, more: seq<Event>, on: bool, answer: seq<Message>, prompt: Message)
    requires Reply(Arrived(es + more), answer, prompt) && Answered(es, on) && !Cancelled(es)
    ensures Arrived(es) == Arrived(es + more) == answer + [prompt]
  {
    ArrivedJoins(es, more);
    EndsByPrompt(es, on);
    PromptIsLast(Arrived(es), answer, prompt);
    hide Arrived, Answered, Cancelled, HasPrompt;
  }

  lemma HeardAllIsArrived(es: seq<Event>, on: bool)
    requires forall i :: 0 <= i < |Listened(es, on, true)| ==> Listened(es, on, true)[i]
    ensures Heard(es, on) == Answer(Arrived(es))
  {
    HeardIsPicked(es, on, Arrived(es));
    AllPicked(PartsOf(Answers, Arrived(es)), Listened(es, on, true));
    hide Heard, Arrived, Listened, Picked, Answers;
  }

  lemma ReturnsWhatArrived(m: Manager, w: Episode, answer: seq<Message>, prompt: Message)
    requires Exchange(m, w, answer, prompt) && !KeepsWaiting(Leaves(Start(m, w.before), w))
    requires var marks := Listened(Meanwhile(w), Start(m, w.before).bContinue, true);
      forall i :: 0 <= i < |marks| ==> marks[i]
    ensures var (s, arrived) := (Start(m, w.before), Arrived(Meanwhile(w)));
      && Returns(m, w) == (if ReadsFlag(s, w).bContinue then Trim(Answer(arrived)) else [])
      && (Leaves(s, w).bContinue && !Cancelled(w.after) ==> arrived == answer + [prompt])
  {
    var s := Start(m, w.before);
    var text := Heard(Meanwhile(w), s.bContinue);
    assert w.after + (w.later + w.last) == Meanwhile(w);
    assert OneAtATime(w) && Leftover(m, w.before) == [] && Reply(Arrived(Meanwhile(w)), answer, prompt);
    hide *;
    ReturnsWhatItHeard(m, w);
    HeardAllIsArrived(Meanwhile(w), s.bContinue);
    assert [] + text == text;
    if Leaves(s, w).bContinue && !Cancelled(w.after) {
      AnsweredMeansAll(w.after, w.later + w.last, s.bContinue, answer, prompt);
    }
  }

  lemma AnswerPrompt(answer: seq<Message>, prompt: Message)
    requires IsPrompt(prompt)
    ensures Answer(answer + [prompt]) == Answer(answer)
  {
    PromptAddsNothing(Answers, answer, prompt);
  }

  lemma AnswerJoins(xs: seq<Message>, ys: seq<Message>)
    ensures Answer(xs + ys) == Answer(xs) + Answer(ys)
  {
    PartsAppend(Answers, xs, ys);
    FlattenJoins(PartsOf(Answers, xs), PartsOf(Answers, ys));
  }

  lemma BeginningFallsShortIff(arrived: seq<Message>, answer: seq<Message>, prompt: Message)
    requires Reply(arrived, answer, prompt)
    ensures FallsShort(Trim(Answer(arrived)), Answer(answer)) <==>
      |arrived| <= |answer| && !Blank(Answer(answer[..|arrived|])) && !Blank(Answer(answer[|arrived|..]))
  {
    hide Answer, Trim, Blank, HasPrompt;
    if |arrived| <= |answer| {
      assert arrived == (answer + [prompt])[..|arrived|] == answer[..|arrived|];
      assert answer == answer[..|arrived|] + answer[|arrived|..];
      AnswerJoins(answer[..|arrived|], answer[|arrived|..]);
      BeginningIsWholeIff(Answer(answer[..|arrived|]), Answer(answer[|arrived|..]));
    } else {
      assert arrived == answer + [prompt];
      AnswerPrompt(answer, prompt);
    }
  }

  /** With nothing missed: a query that has left its loop returns neither nothing nor the whole
      answer exactly if it left because `bContinue` was cleared, or was cancelled, with its
      prompt still to come, found the flag set again, and has heard something, but not
      everything, besides white space. */
  lemma FallsShortUnbrokenIff(m: Manager, w: Episode, answer: seq<Message>, prompt: Message)
    requires Exchange(m, w, answer, prompt) && !KeepsWaiting(Leaves(Start(m, w.before), w))
    requires var marks := Listened(Meanwhile(w), Start(m, w.before).bContinue, true);
      forall i :: 0 <= i < |marks| ==> marks[i]
    ensures var s := Start(m, w.before);
      var n := |Arrived(Meanwhile(w))|;
      FallsShort(Returns(m, w), Answer(answer)) <==>
        && (!Leaves(s, w).bContinue || Cancelled(w.after)) && ReadsFlag(s, w).bContinue && n <= |answer|
        && !Blank(Answer(answer[..n])) && !Blank(Answer(answer[n..]))
  {
    ReturnsWhatArrived(m, w, answer, prompt);
    BeginningFallsShortIff(Arrived(Meanwhile(w)), answer, prompt);
    hide AfterAll, After, Listened, Arrived, HasPrompt, Answer, Trim, Blank, Cancelled, Start;
  }

  lemma PartsAnswer()
    ensures Answer([PartA(0)]) == [0x61] && Answer([PartB(0)]) == [0x62]
    ensures !Blank([0x61]) && !Blank([0x62])
  {
    assert [PartA(0)][1..] == [] && [PartB(0)][1..] == [];
    assert Trim([0x61]) == [0x61] && Trim([0x62]) == [0x62];
    FlattenOne([0x61]);
    FlattenOne([0x62]);
    assert PartsOf(Answers, [PartA(0)]) == [[0x61]] && PartsOf(Answers, [PartB(0)]) == [[0x62]];
    assert [0x61][0] == 0x61 && [0x62][0] == 0x62;
  }

  /** The first part of the answer, then the flag cleared, then set. */
  lemma CutShort(on: bool)
    ensures var es := [Arrive(PartA(0)), SetContinue(false)];
      && Arrived(es + [SetContinue(true)]) == [PartA(0)] && Listened(es + [SetContinue(true)], on, true) == [on]
      && Changes(es) == [false] && Changes(es + [SetContinue(true)]) == [false, true]
  {
    var es := [Arrive(PartA(0)), SetContinue(false)];
    var more := es + [SetContinue(true)];
    var two := [SetContinue(false), SetContinue(true)];
    assert es[1..] == [SetContinue(false)] && es[1..][1..] == [];
    assert more[1..] == two && two[1..] == [SetContinue(true)] && two[1..][1..] == [];
    ListenedSteps(more, on, true);
    ListenedSteps(two, on, true);
    ListenedSteps(two[1..], false, true);
    assert Changes(more) == Changes(two);
    assert Changes(es) == Changes(es[1..]);
  }

  const CUT_SHORT := Episode([], [Arrive(PartA(0)), SetContinue(false)], [SetContinue(true)], [])

  lemma CutShortIsExchange(m: Manager)
    ensures Exchange(m, CUT_SHORT, [PartA(0), PartB(0)], End(0)) && !Cancelled(Meanwhile(CUT_SHORT))
    ensures Arrived(Meanwhile(CUT_SHORT)) == [PartA(0)] && Listened(Meanwhile(CUT_SHORT), m.bContinue, true) == [m.bContinue]
  {
    var w := CUT_SHORT;
    CutShort(m.bContinue);
    assert Leftover(m, []) == [] && NoQueryStarts([]);
    assert NoQueryStarts(w.after + w.later) && !Cancelled(w.after + w.later);
    hide Arrived, Listened, NoQueryStarts, Cancelled, Leftover;
    assert Meanwhile(w) == w.after + w.later;
    assert [PartA(0)] <= [PartA(0), PartB(0)] + [End(0)];
  }

  lemma CutShortFlags(m: Manager)
    ensures var s := Start(m, CUT_SHORT.before);
      s.bContinue == m.bContinue && !Leaves(s, CUT_SHORT).bContinue && ReadsFlag(s, CUT_SHORT).bContinue
  {
    var s := Start(m, CUT_SHORT.before);
    assert s.bContinue == m.bContinue;
    FlagOverTime(s, CUT_SHORT.after);
    FlagOverTime(s, CUT_SHORT.after + CUT_SHORT.later);
    CutShort(true);
    hide AfterAll, Changes, Start;
    assert Last([false], m.bContinue) == false && Last([false, true], m.bContinue);
  }

  /** A run in which the flag is cleared while the answer is coming, and set again once the
      caller has left its loop: nothing is missed, nobody cancels, and the query returns the
      beginning of the answer. */
  lemma AnswerCutShort(m: Manager)
    requires m.bContinue
    ensures exists w, answer, prompt ::
      && Exchange(m, w, answer, prompt) && !KeepsWaiting(Leaves(Start(m, w.before), w)) && !Cancelled(Meanwhile(w))
      && FallsShort(Returns(m, w), Answer(answer))
  {
    var answer := [PartA(0), PartB(0)];
    CutShortIsExchange(m);
    CutShortFlags(m);
    PartsAnswer();
    assert answer[..1] == [PartA(0)] && answer[1..] == [PartB(0)];
    hide Start, Leaves, ReadsFlag, Exchange, Meanwhile, Cancelled, Arrived, Listened, Answer, Blank, Returns;
    FallsShortUnbrokenIff(m, CUT_SHORT, answer, End(0));
    assert FallsShort(Returns(m, CUT_SHORT), Answer(answer)) && !KeepsWaiting(Leaves(Start(m, CUT_SHORT.before), CUT_SHORT));
  }

  // ---------- the orders in which the flag changes ----------

  /** Who cancels a query clears the flag before the caller can test it. */
  predicate CancelsAndClears(es: seq<Event>) {
    forall i :: 0 <= i < |es| && es[i].Cancel? ==> exists j :: i < j < |es| && es[j] == SetContinue(false)
  }

  /** A run of the query until it returns, in which the flag changes as given. */
  ghost predicate IsRun(m: Manager, w: Episode, answer: seq<Message>, prompt: Message, cs: seq<bool>) {
    && Exchange(m, w, answer, prompt) && Changes(w.before + Meanwhile(w)) == cs
    && !KeepsWaiting(Leaves(Start(m, w.before), w)) && CancelsAndClears(w.after)
  }

  lemma {:induction false} ChangeIsListed(es: seq<Event>, j: nat)
    requires j < |es| && es[j].SetContinue?
    ensures es[j].flag in Changes(es)
  {
    if j > 0 {
      ChangeIsListed(es[1..], j - 1);
    }
  }

  lemma NobodyCancels(es: seq<Event>)
    requires CancelsAndClears(es) && forall i :: 0 <= i < |Changes(es)| ==> Changes(es)[i]
    ensures !Cancelled(es)
  {
    if Cancelled(es) {
      var i :| 0 <= i < |es| && es[i].Cancel?;
      var j :| i < j < |es| && es[j] == SetContinue(false);
      ChangeIsListed(es, j);
    }
  }

  lemma ListenedAtTheEnd(es: seq<Event>, on: bool, waits: bool)
    requires Arrived(es) == []
    ensures Listened(es, on, waits) == []
  {}

  lemma {:induction false} ListenedWhileSet(es: seq<Event>, on: bool, answer: seq<Message>, prompt: Message)
    requires on && !Cancelled(es) && forall i :: 0 <= i < |Changes(es)| ==> Changes(es)[i]
    requires Reply(Arrived(es), answer, prompt)
    ensures forall i :: 0 <= i < |Listened(es, on, true)| ==> Listened(es, on, true)[i]
    decreases |es|
  {
    if es != [] {
      ListenedSteps(es, on, true);
      ChangesSteps(es);
      assert !es[0].Cancel? && forall i :: 0 <= i < |es| - 1 ==> es[1..][i] == es[i + 1];
      var x := es[0];
      if Ends(x, on) {
        PromptFirst(Arrived(es), answer, prompt);
        ListenedAtTheEnd(es[1..], on, false);
      } else if x.Arrive? {
        ReplySteps(Arrived(es), answer, prompt);
        ListenedWhileSet(es[1..], on, answer[1..], prompt);
      } else {
        ListenedWhileSet(es[1..], FlagAfter(x, on), answer, prompt);
      }
    }
  }

  lemma ChangesSteps(es: seq<Event>)
    requires es != [] && forall i :: 0 <= i < |Changes(es)| ==> Changes(es)[i]
    ensures forall i :: 0 <= i < |Changes(es[1..])| ==> Changes(es[1..])[i]
    ensures es[0].SetContinue? ==> es[0].flag
  {
    var now, later := if es[0].SetContinue? then [es[0].flag] else [], Changes(es[1..]);
    assert Changes(es) == now + later;
    assert forall i :: 0 <= i < |later| ==> later[i] == Changes(es)[|now| + i];
    assert es[0].SetContinue? ==> Changes(es)[0] == es[0].flag;
  }

  lemma PromptFirst(xs: seq<Message>, answer: seq<Message>, prompt: Message)
    requires Reply(xs, answer, prompt) && xs != [] && IsPrompt(xs[0])
    ensures xs[1..] == []
  {
    assert xs[..1][0] == xs[0];
    PromptIsLast(xs[..1], answer, prompt);
  }

  lemma ReplySteps(xs: seq<Message>, answer: seq<Message>, prompt: Message)
    requires Reply(xs, answer, prompt) && xs != [] && !IsPrompt(xs[0])
    ensures answer != [] && Reply(xs[1..], answer[1..], prompt)
  {
    assert (answer + [prompt])[0] == xs[0];
    assert (answer + [prompt])[1..] == answer[1..] + [prompt];
  }

  lemma {:induction false} ListenedBegins(a: seq<Event>, b: seq<Event>, on: bool, waits: bool)
    ensures Listened(a, on, waits) <= Listened(a + b, on, waits)
    decreases |a|
  {
    if a != [] {
      assert (a + b)[1..] == a[1..] + b && (a + b)[0] == a[0];
      ListenedSteps(a, on, waits);
      ListenedSteps(a + b, on, waits);
      hide Listened, Arrived;
      ListenedBegins(a[1..], b, FlagAfter(a[0], on), waits && !Ends(a[0], on));
    }
  }

  /** Once the query is answered with the flag set all the time, the whole answer has been
      heard. */
  lemma HeardWhole(es: seq<Event>, more: seq<Event>, on: bool, answer: seq<Message>, prompt: Message)
    requires Reply(Arrived(es + more), answer, prompt) && Answered(es, on) && !Cancelled(es)
    requires on && forall i :: 0 <= i < |Changes(es)| ==> Changes(es)[i]
    ensures !Gap(PartsOf(Answers, answer + [prompt]), Listened(es + more, on, true))
  {
    AnsweredMeansAll(es, more, on, answer, prompt);
    ListenedWhileSet(es, on, answer, prompt);
    ListenedBegins(es, more, on, true);
    AllMarkedNoGap(PartsOf(Answers, answer + [prompt]), Listened(es + more, on, true));
    hide Arrived, Answered, Cancelled, HasPrompt, Changes, Gap;
  }

  /** What leaving the loop and finding the flag set comes to when it is never set again. */
  lemma LeftWhileSet(m: Manager, w: Episode, answer: seq<Message>, prompt: Message, cs: seq<bool>)
    requires IsRun(m, w, answer, prompt, cs) && !SetAgain(cs, m.bContinue)
    requires ReadsFlag(Start(m, w.before), w).bContinue
    ensures var s := Start(m, w.before);
      && s.bContinue && Answered(w.after, s.bContinue) && !Cancelled(w.after)
      && forall i :: 0 <= i < |Changes(w.after)| ==> Changes(w.after)[i]
  {
    assert OneAtATime(w) && CancelsAndClears(w.after) && !KeepsWaiting(Leaves(Start(m, w.before), w));
    StartIs(m, w.before);
    SetUntilRead(Start(m, w.before), w, m.bContinue);
    hide *;
    NobodyCancels(w.after);
    ReturnsWhatItHeard(m, w);
  }

  lemma NotSetAgain(m: Manager, w: Episode, answer: seq<Message>, prompt: Message, cs: seq<bool>)
    requires IsRun(m, w, answer, prompt, cs) && !SetAgain(cs, m.bContinue)
    ensures !FallsShort(Returns(m, w), Answer(answer))
  {
    var s := Start(m, w.before);
    assert Reply(Arrived(Meanwhile(w)), answer, prompt) && Exchange(m, w, answer, prompt);
    assert w.after + (w.later + w.last) == Meanwhile(w);
    hide *;
    FallsShortIff(m, w, answer, prompt);
    if ReadsFlag(s, w).bContinue {
      LeftWhileSet(m, w, answer, prompt, cs);
      HeardWhole(w.after, w.later + w.last, s.bContinue, answer, prompt);
    }
  }

  lemma {:induction false} SetsBefore(cs: seq<bool>, more: seq<Event>, on: bool)
    ensures Arrived(Sets(cs) + more) == Arrived(more)
    ensures Listened(Sets(cs) + more, on, true) == Listened(more, Last(cs, on), true)
    decreases |cs|
  {
    var es := Sets(cs) + more;
    if cs == [] {
      assert es == more;
    } else {
      assert Sets(cs)[1..] == Sets(cs[1..]) && es[1..] == Sets(cs[1..]) + more && es[0] == SetContinue(cs[0]);
      ListenedSteps(es, on, true);
      SetsBefore(cs[1..], more, cs[0]);
    }
  }

  lemma TwoParts(more: seq<Event>)
    requires Arrived(more) == []
    ensures var es := [Arrive(PartA(0)), SetContinue(true), Arrive(PartB(0))] + more;
      Arrived(es) == [PartA(0), PartB(0)] && Listened(es, false, true) == [false, true]
  {
    var es := [Arrive(PartA(0)), SetContinue(true), Arrive(PartB(0))] + more;
    var two, one := [SetContinue(true), Arrive(PartB(0))] + more, [Arrive(PartB(0))] + more;
    assert es[1..] == two && two[1..] == one && one[1..] == more;
    ListenedSteps(es, false, true);
    ListenedSteps(two, false, true);
    ListenedSteps(one, true, true);
    ListenedAtTheEnd(more, true, true);
  }

  lemma ShortEpisodeStartsNothing(cs: seq<bool>, k: nat)
    requires k < |cs|
    ensures NoQueryStarts(Meanwhile(ShortEpisode(cs, k, 0))) && !Cancelled(ShortEpisode(cs, k, 0).after)
  {}

  lemma ShortEpisodeHears(cs: seq<bool>, k: nat, on: bool)
    requires k < |cs| && !Last(cs[..k], on)
    ensures var w := ShortEpisode(cs, k, 0);
      Arrived(Meanwhile(w)) == [PartA(0), PartB(0)] && Listened(Meanwhile(w), on, true) == [false, true]
  {
    var w := ShortEpisode(cs, k, 0);
    assert Arrived([]) == [];
    hide Arrived, Listened, Sets;
    assert Sets(cs[k + 1..]) + [] == w.last;
    assert w.after + (w.later + w.last) == Meanwhile(w);
    SetsBefore(cs[..k], w.later + w.last, on);
    SetsBefore(cs[k + 1..], [], on);
    TwoParts(w.last);
  }

  lemma ShortEpisodeIs(m: Manager, cs: seq<bool>, k: nat, on: bool)
    requires k < |cs| && cs[k] && !Last(cs[..k], on)
    ensures var w := ShortEpisode(cs, k, 0);
      && Exchange(m, w, [PartA(0), PartB(0)], End(0)) && Changes(w.before + Meanwhile(w)) == cs
      && CancelsAndClears(w.after)
  {
    var w := ShortEpisode(cs, k, 0);
    ShortEpisodeChanges(cs, k, 0);
    ShortEpisodeHears(cs, k, on);
    ShortEpisodeStartsNothing(cs, k);
    assert Leftover(m, []) == [] && NoQueryStarts([]) && CancelsAndClears(w.after);
    hide Arrived, Listened, Changes, Sets, NoQueryStarts, Leftover, CancelsAndClears, Cancelled, Meanwhile;
    assert Meanwhile(w) == w.before + Meanwhile(w);
    assert [PartA(0), PartB(0)] <= [PartA(0), PartB(0)] + [End(0)];
  }

  lemma SecondPartOnly()
    ensures var parts := PartsOf(Answers, [PartA(0), PartB(0)] + [End(0)]);
      !Blank(Picked(parts, [false, true])) && Gap(parts, [false, true])
  {
    var parts := PartsOf(Answers, [PartA(0), PartB(0)] + [End(0)]);
    var more := [PartB(0), End(0)];
    assert ([PartA(0), PartB(0)] + [End(0)])[1..] == more && more[1..] == [End(0)] && more[1..][1..] == [];
    assert PartsOf(Answers, more) == [[0x62]] + PartsOf(Answers, more[1..]);
    assert parts == [[0x61]] + PartsOf(Answers, more) == [[0x61], [0x62], []];
    PickedSecond();
  }

  lemma SetAgainFallsShort(m: Manager, cs: seq<bool>)
    requires SetAgain(cs, m.bContinue)
    ensures exists w, answer, prompt :: IsRun(m, w, answer, prompt, cs) && FallsShort(Returns(m, w), Answer(answer))
  {
    var k := WhereSetAgain(cs, m.bContinue);
    var w, answer := ShortEpisode(cs, k, 0), [PartA(0), PartB(0)];
    var s := Start(m, []);
    assert s.bContinue == m.bContinue;
    ShortEpisodeIs(m, cs, k, m.bContinue);
    ShortEpisodeHears(cs, k, m.bContinue);
    ShortEpisodeChanges(cs, k, 0);
    FlagOverTime(s, w.after);
    FlagOverTime(s, w.after + w.later);
    SecondPartOnly();
    FallsShortIff(m, w, answer, End(0));
    hide Picked, Gap, PartsOf, Blank, Listened, Arrived, Answer, AfterAll, After, Changes, CancelsAndClears, Leftover;
    assert IsRun(m, w, answer, End(0), cs) && FallsShort(Returns(m, w), Answer(answer));
  }

  /** For every order in which the flag may change: every query returns nothing or its whole
      answer if and only if the flag is never set after it has been cleared. */
  lemma WholeOrNothingIff(m: Manager, cs: seq<bool>)
    ensures (forall w, answer, prompt :: IsRun(m, w, answer, prompt, cs) ==> !FallsShort(Returns(m, w), Answer(answer)))
      <==> !SetAgain(cs, m.bContinue)
  {
    hide *;
    if SetAgain(cs, m.bContinue) {
      SetAgainFallsShort(m, cs);
    } else {
      forall w, answer, prompt | IsRun(m, w, answer, prompt, cs) ensures !FallsShort(Returns(m, w), Answer(answer)) {
        NotSetAgain(m, w, answer, prompt, cs);
      }
    }
  }

  lemma {:induction false} AnsweredByPrompt(es: seq<Event>, on: bool)
    requires HasPrompt(Arrived(es)) && forall i :: 0 <= i < |Listened(es, on, true)| ==> Listened(es, on, true)[i]
    ensures Answered(es, on)
    decreases |es|
  {
    var marks, later := Listened(es, on, true), Listened(es[1..], FlagAfter(es[0], on), true);
    if !Ends(es[0], on) {
      ListenedSteps(es, on, true);
      if es[0].Arrive? {
        assert marks[0] == on && marks[1..] == later;
        PromptsJoin([es[0].message], Arrived(es[1..]));
      }
      AnsweredByPrompt(es[1..], FlagAfter(es[0], on));
    }
  }

  /** With the flag always set and nobody cancelling, the caller waits until a prompt has
      come. */
  lemma WaitsWhileSet(m: Manager, w: Episode, answer: seq<Message>, prompt: Message)
    requires Exchange(m, w, answer, prompt) && !Cancelled(w.after)
    requires var s := Start(m, w.before);
      && s.bContinue && Leaves(s, w).bContinue
      && forall i :: 0 <= i < |Changes(w.after)| ==> Changes(w.after)[i]
    ensures KeepsWaiting(Leaves(Start(m, w.before), w)) <==> Arrived(w.after) != answer + [prompt]
  {
    var s := Start(m, w.before);
    assert OneAtATime(w) && Reply(Arrived(Meanwhile(w)), answer, prompt);
    assert w.after + (w.later + w.last) == Meanwhile(w);
    hide Start, Leaves, KeepsWaiting, Listened, Arrived, Heard, HasPrompt, OneAtATime, Meanwhile, Trim, Answered, Changes,
      Cancelled;
    ReturnsWhatItHeard(m, w);
    ArrivedJoins(w.after, w.later + w.last);
    PromptIsLast(Arrived(w.after), answer, prompt);
    ListenedWhileSet(w.after, s.bContinue, answer, prompt);
    if Answered(w.after, s.bContinue) {
      AnsweredMeansAll(w.after, w.later + w.last, s.bContinue, answer, prompt);
    } else if HasPrompt(Arrived(w.after)) {
      AnsweredByPrompt(w.after, s.bContinue);
    }
  }

  /** While the flag stays set and nobody cancels, the query waits until a prompt has come, and
      then returns the whole answer, trimmed. */
  lemma ReturnsTheAnswer(m: Manager, w: Episode, answer: seq<Message>, prompt: Message)
    requires Exchange(m, w, answer, prompt) && m.bContinue && !Cancelled(Meanwhile(w))
    requires var cs := Changes(w.before + Meanwhile(w)); forall i :: 0 <= i < |cs| ==> cs[i]
    ensures var s := Start(m, w.before);
      && (KeepsWaiting(Leaves(s, w)) <==> Arrived(w.after) != answer + [prompt])
      && (!KeepsWaiting(Leaves(s, w)) ==> Returns(m, w) == Trim(Answer(answer)))
  {
    var s := Start(m, w.before);
    assert IsPrompt(prompt) && OneAtATime(w) && Reply(Arrived(Meanwhile(w)), answer, prompt);
    assert !Cancelled(w.after) by {
      assert forall i :: 0 <= i < |w.after| ==> w.after[i] == Meanwhile(w)[i];
    }
    StartIs(m, w.before);
    hide *;
    FlagsUp(s, w, m.bContinue);
    ListenedWhileSet(Meanwhile(w), s.bContinue, answer, prompt);
    WaitsWhileSet(m, w, answer, prompt);
    if !KeepsWaiting(Leaves(s, w)) {
      ReturnsWhatArrived(m, w, answer, prompt);
      AnswerPrompt(answer, prompt);
    }
  }
}
