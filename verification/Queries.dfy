/** What the two kinds of query return.

    A query leaves its loop at one moment, reads `bContinue` once more at a later one, and
    its text at a third; anything may happen in between.
  */
module Queries {
  import opened BitConverter
  import opened Dispatch
  import opened Frames
  import opened Texts

  /** What happens during a query: between its first two steps, until it leaves its loop,
      until it reads `bContinue` again, and until it reads its text. */
  datatype Episode = Episode(before: seq<Event>, after: seq<Event>, later: seq<Event>, last: seq<Event>)

  function Meanwhile(w: Episode): seq<Event> {
    w.after + w.later + w.last
  }

  /** The three moments, for a query that has just started. */
  function Leaves(s: Manager, w: Episode): Manager {
    AfterAll(s, w.after)
  }

  function ReadsFlag(s: Manager, w: Episode): Manager {
    AfterAll(s, w.after + w.later)
  }

  function ReadsText(s: Manager, w: Episode): Manager {
    AfterAll(s, Meanwhile(w))
  }

  /** A text that is neither nothing nor the whole answer. */
  predicate FallsShort(text: seq<byte>, answer: seq<byte>) {
    text != [] && text != Trim(answer)
  }

  predicate IsPrompt(x: Message) {
    x.frameType == Prompt
  }

  /** What the controller sends in reply: no prompt, and then a prompt, as far as it has
      come. */
  predicate Reply(xs: seq<Message>, answer: seq<Message>, prompt: Message) {
    xs <= answer + [prompt] && !HasPrompt(answer) && IsPrompt(prompt)
  }

  // ---------- messages and the text they make ----------

  function PartsOf(f: Message -> seq<byte>, xs: seq<Message>): (r: seq<seq<byte>>)
    ensures |r| == |xs|
  {
    if xs == [] then [] else [f(xs[0])] + PartsOf(f, xs[1..])
  }

  lemma {:induction false} PartsAppend(f: Message -> seq<byte>, xs: seq<Message>, ys: seq<Message>)
    ensures PartsOf(f, xs + ys) == PartsOf(f, xs) + PartsOf(f, ys)
  {
    if xs == [] {
      assert xs + ys == ys;
    } else {
      assert (xs + ys)[1..] == xs[1..] + ys;
      PartsAppend(f, xs[1..], ys);
    }
  }

  lemma {:induction false} CollateIsFlat(xs: seq<Message>)
    ensures Collate(xs) == Flatten(PartsOf(Contribution, xs))
  {
    if xs != [] {
      CollateIsFlat(xs[1..]);
    }
  }

  lemma OneMoreMessage(f: Message -> seq<byte>, whole: seq<Message>, marks: seq<bool>, on: bool)
    requires whole != []
    ensures Picked(PartsOf(f, whole), [on] + marks) ==
      (if on then f(whole[0]) else []) + Picked(PartsOf(f, whole[1..]), marks)
  {
    assert ([on] + marks)[1..] == marks;
    assert PartsOf(f, whole)[1..] == PartsOf(f, whole[1..]);
  }

  lemma {:induction false} CollateAppend(xs: seq<Message>, ys: seq<Message>)
    ensures Collate(xs + ys) == Collate(xs) + Collate(ys)
  {
    if xs == [] {
      assert xs + ys == ys;
    } else {
      assert (xs + ys)[1..] == xs[1..] + ys;
      CollateAppend(xs[1..], ys);
    }
  }

  lemma PromptsJoin(xs: seq<Message>, ys: seq<Message>)
    ensures HasPrompt(xs + ys) <==> HasPrompt(xs) || HasPrompt(ys)
  {
    assert forall i :: 0 <= i < |xs| ==> (xs + ys)[i] == xs[i];
    assert forall i :: 0 <= i < |ys| ==> (xs + ys)[|xs| + i] == ys[i];
  }

  lemma NoPromptInNothing()
    ensures !HasPrompt([])
  {}

  /** The prompt adds nothing to a text. */
  lemma PromptAddsNothing(f: Message -> seq<byte>, answer: seq<Message>, prompt: Message)
    requires f(prompt) == []
    ensures Flatten(PartsOf(f, answer + [prompt])) == Flatten(PartsOf(f, answer))
  {
    PartsAppend(f, answer, [prompt]);
    assert [prompt][1..] == [] && PartsOf(f, [prompt]) == [[]];
    FlattenOneMore(PartsOf(f, answer), []);
    var text := Flatten(PartsOf(f, answer));
    assert text + [] == text;
  }

  lemma PromptIsLast(xs: seq<Message>, answer: seq<Message>, prompt: Message)
    requires Reply(xs, answer, prompt)
    ensures HasPrompt(xs) <==> xs == answer + [prompt]
  {
    var whole := answer + [prompt];
    if xs == whole {
      assert xs[|answer|] == prompt;
    } else {
      assert |xs| <= |answer| && forall i :: 0 <= i < |xs| ==> xs[i] == whole[i] == answer[i];
    }
  }

  // ---------- the flag ----------

  /** The values that `bContinue` is given, in order. */
  function Changes(es: seq<Event>): seq<bool> {
    if es == [] then [] else (if es[0].SetContinue? then [es[0].flag] else []) + Changes(es[1..])
  }

  function Last(cs: seq<bool>, on: bool): bool {
    if cs == [] then on else cs[|cs| - 1]
  }

  /** It is cleared and then set. */
  predicate SetAgain(cs: seq<bool>, on: bool) {
    cs != [] && ((!on && cs[0]) || SetAgain(cs[1..], cs[0]))
  }

  function FlagAfter(e: Event, on: bool): bool {
    if e.SetContinue? then e.flag else on
  }

  lemma LastSteps(es: seq<Event>, on: bool)
    requires es != []
    ensures Last(Changes(es), on) == Last(Changes(es[1..]), FlagAfter(es[0], on))
  {
    var now := if es[0].SetContinue? then [es[0].flag] else [];
    assert Changes(es) == now + Changes(es[1..]);
  }

  lemma {:induction false} FlagOverTime(m: Manager, es: seq<Event>)
    ensures AfterAll(m, es).bContinue == Last(Changes(es), m.bContinue)
    decreases |es|
  {
    if es != [] {
      var m1 := After(m, es[0]);
      assert m1.bContinue == FlagAfter(es[0], m.bContinue);
      LastSteps(es, m.bContinue);
      hide After, Changes, Last;
      FlagOverTime(m1, es[1..]);
    }
  }

  lemma {:induction false} ChangesJoin(a: seq<Event>, b: seq<Event>)
    ensures Changes(a + b) == Changes(a) + Changes(b)
  {
    if a == [] {
      assert a + b == b;
    } else {
      assert (a + b)[1..] == a[1..] + b;
      ChangesJoin(a[1..], b);
      var now := if a[0].SetContinue? then [a[0].flag] else [];
      assert now + (Changes(a[1..]) + Changes(b)) == (now + Changes(a[1..])) + Changes(b);
    }
  }

  /** A flag that is set, and has not been set again, has been set all the time. */
  lemma {:induction false} SetAllAlong(cs: seq<bool>, more: seq<bool>, on: bool)
    requires !SetAgain(cs + more, on) && Last(cs, on)
    ensures on && forall i :: 0 <= i < |cs| ==> cs[i]
  {
    if cs != [] {
      assert (cs + more)[1..] == cs[1..] + more;
      assert Last(cs[1..], cs[0]) == Last(cs, on);
      SetAllAlong(cs[1..], more, cs[0]);
    }
  }

  lemma {:induction false} WhereSetAgain(cs: seq<bool>, on: bool) returns (k: nat)
    requires SetAgain(cs, on)
    ensures k < |cs| && cs[k] && !Last(cs[..k], on)
  {
    if !on && cs[0] {
      k := 0;
    } else {
      var j := WhereSetAgain(cs[1..], cs[0]);
      k := j + 1;
      assert cs[..k][1..] == cs[1..][..j];
      assert Last(cs[..k], on) == Last(cs[1..][..j], cs[0]);
    }
  }

  /** If the flag has never been set again and a query finds it set after its loop, it has been
      set all the time. */
  lemma SetUntilRead(s: Manager, w: Episode, on: bool)
    requires s.bContinue == Last(Changes(w.before), on) && !SetAgain(Changes(w.before + Meanwhile(w)), on)
    requires ReadsFlag(s, w).bContinue
    ensures s.bContinue && Leaves(s, w).bContinue && forall i :: 0 <= i < |Changes(w.after)| ==> Changes(w.after)[i]
  {
    var b, a, l := Changes(w.before), Changes(w.after), Changes(w.later);
    FlagOverTime(s, w.after);
    FlagOverTime(s, w.after + w.later);
    ChangesJoin(w.before, Meanwhile(w));
    ChangesJoin(w.after + w.later, w.last);
    ChangesJoin(w.after, w.later);
    hide AfterAll, Changes, SetAgain;
    assert b + (a + l + Changes(w.last)) == (b + a + l) + Changes(w.last);
    SetAllAlong(b + a + l, Changes(w.last), on);
    assert forall i :: 0 <= i < |b| ==> b[i] == (b + a + l)[i];
    assert forall i :: 0 <= i < |a| ==> a[i] == (b + a + l)[|b| + i];
  }

  function Sets(cs: seq<bool>): seq<Event> {
    seq(|cs|, i requires 0 <= i < |cs| => SetContinue(cs[i]))
  }

  lemma {:induction false} SetsOnlySet(cs: seq<bool>)
    ensures Changes(Sets(cs)) == cs
  {
    if cs != [] {
      assert Sets(cs)[1..] == Sets(cs[1..]);
      SetsOnlySet(cs[1..]);
    }
  }

  /** A flag that is never cleared is set all the time. */
  lemma FlagsUp(s: Manager, w: Episode, on: bool)
    requires on && s.bContinue == Last(Changes(w.before), on)
    requires var cs := Changes(w.before + Meanwhile(w)); forall i :: 0 <= i < |cs| ==> cs[i]
    ensures s.bContinue && Leaves(s, w).bContinue && ReadsFlag(s, w).bContinue
    ensures forall i :: 0 <= i < |Changes(w.after)| ==> Changes(w.after)[i]
    ensures forall i :: 0 <= i < |Changes(Meanwhile(w))| ==> Changes(Meanwhile(w))[i]
  {
    var b, a, l, z := Changes(w.before), Changes(w.after), Changes(w.later), Changes(w.last);
    FlagOverTime(s, w.after);
    FlagOverTime(s, w.after + w.later);
    ChangesJoin(w.before, Meanwhile(w));
    ChangesJoin(w.after + w.later, w.last);
    ChangesJoin(w.after, w.later);
    hide AfterAll, Changes, SetAgain;
    var cs := Changes(w.before + Meanwhile(w));
    assert forall i :: 0 <= i < |b| ==> b[i] == cs[i];
    assert forall i :: 0 <= i < |a + l + z| ==> (a + l + z)[i] == cs[|b| + i];
    assert forall i :: 0 <= i < |a + l| ==> (a + l)[i] == (a + l + z)[i];
    assert forall i :: 0 <= i < |a| ==> a[i] == (a + l)[i];
  }

  // ---------- an answer in two parts ----------

  function PartA(id: int): Message {
    Message(Data, [0x61], id)
  }

  function PartB(id: int): Message {
    Message(Data, [0x62], id)
  }

  function End(id: int): Message {
    Message(Prompt, [], id)
  }

  /** The flag is cleared when the caller tests it and when the first part of the answer
      comes, and set before the second part comes. */
  function ShortEpisode(cs: seq<bool>, k: nat, id: int): Episode
    requires k < |cs|
  {
    Episode([], Sets(cs[..k]), [Arrive(PartA(id)), SetContinue(true), Arrive(PartB(id))], Sets(cs[k + 1..]))
  }

  lemma PartsChangeOnce(id: int)
    ensures Changes([Arrive(PartA(id)), SetContinue(true), Arrive(PartB(id))]) == [true]
  {
    var es := [Arrive(PartA(id)), SetContinue(true), Arrive(PartB(id))];
    assert es[1..][1..] == [Arrive(PartB(id))] && es[1..][1..][1..] == [];
    assert Changes(es) == [true] + Changes(es[1..][1..]);
  }

  lemma ShortEpisodeChanges(cs: seq<bool>, k: nat, id: int)
    requires k < |cs| && cs[k]
    ensures var w := ShortEpisode(cs, k, id);
      && Changes(Meanwhile(w)) == cs && Changes(w.after) == cs[..k] && Changes(w.after + w.later) == cs[..k] + [true]
  {
    var w := ShortEpisode(cs, k, id);
    PartsChangeOnce(id);
    assert cs[..k] + [true] + cs[k + 1..] == cs;
    hide Changes, Sets;
    SetsOnlySet(cs[..k]);
    SetsOnlySet(cs[k + 1..]);
    ChangesJoin(w.after + w.later, w.last);
    ChangesJoin(w.after, w.later);
  }

  lemma PickedSecond()
    ensures !Blank(Picked([[0x61], [0x62], []], [false, true])) && Gap([[0x61], [0x62], []], [false, true])
  {
    var parts: seq<seq<byte>> := [[0x61], [0x62], []];
    assert parts[1..] == [[0x62], []] && Picked(parts[1..], [true])[0] == 0x62;
    assert [false, true][1..] == [true];
    assert Picked(parts, [false, true])[0] == 0x62;
    assert Flatten(parts[..1])[0] == 0x61 && Flatten(parts[0..])[0] == 0x61;
    assert Missing(parts, [false, true], 0);
  }
}
