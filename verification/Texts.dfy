/** Texts put together from parts, and trimmed. */
module Texts {
  import opened BitConverter

  // ---------- putting together ----------

  lemma Grouped<T>(a: seq<T>, b: seq<T>, c: seq<T>)
    ensures (a + b) + c == a + (b + c)
  {}

  function Flatten(parts: seq<seq<byte>>): seq<byte> {
    if parts == [] then [] else parts[0] + Flatten(parts[1..])
  }

  lemma {:induction false} FlattenOneMore(parts: seq<seq<byte>>, part: seq<byte>)
    ensures Flatten(parts + [part]) == Flatten(parts) + part
  {
    if parts == [] {
      assert [part][1..] == [] && parts + [part] == [part];
      assert part + [] == part;
    } else {
      assert (parts + [part])[1..] == parts[1..] + [part];
      FlattenOneMore(parts[1..], part);
    }
  }

  lemma FlattenOne(part: seq<byte>)
    ensures Flatten([part]) == part
  {
    FlattenOneMore([], part);
    assert [] + [part] == [part] && [] + part == part;
  }

  lemma {:induction false} FlattenJoins(a: seq<seq<byte>>, b: seq<seq<byte>>)
    ensures Flatten(a + b) == Flatten(a) + Flatten(b)
  {
    if a == [] {
      assert a + b == b;
    } else {
      assert (a + b)[1..] == a[1..] + b;
      FlattenJoins(a[1..], b);
    }
  }

  predicate Marked(marks: seq<bool>, i: nat) {
    i < |marks| && marks[i]
  }

  function Rest(marks: seq<bool>): seq<bool> {
    if marks == [] then [] else marks[1..]
  }

  /** The parts that are marked, put together. */
  function Picked(parts: seq<seq<byte>>, marks: seq<bool>): seq<byte> {
    if parts == [] then [] else (if Marked(marks, 0) then parts[0] else []) + Picked(parts[1..], Rest(marks))
  }

  lemma {:induction false} PickedNothing(parts: seq<seq<byte>>)
    ensures Picked(parts, []) == []
  {
    if parts != [] {
      PickedNothing(parts[1..]);
    }
  }

  lemma {:induction false} AllPicked(parts: seq<seq<byte>>, marks: seq<bool>)
    requires forall i :: 0 <= i < |parts| ==> Marked(marks, i)
    ensures Picked(parts, marks) == Flatten(parts)
    decreases |parts|
  {
    if parts != [] {
      forall i: nat | i < |parts| - 1 ensures Marked(Rest(marks), i) {
        assert Marked(marks, i + 1);
      }
      AllPicked(parts[1..], Rest(marks));
    }
  }

  // ---------- trimming ----------

  /** Everything up to the space counts as white space. */
  predicate Blank(s: seq<byte>) {
    forall i :: 0 <= i < |s| ==> s[i] <= 0x20
  }

  function Trim(s: seq<byte>): seq<byte> {
    if s != [] && s[0] <= 0x20 then Trim(s[1..])
    else if s != [] && s[|s| - 1] <= 0x20 then Trim(s[..|s| - 1])
    else s
  }

  /** Trimming takes white space off the two ends and leaves none there. */
  lemma {:induction false} TrimSplits(s: seq<byte>) returns (a: seq<byte>, b: seq<byte>)
    ensures s == a + Trim(s) + b && Blank(a) && Blank(b)
    ensures Trim(s) != [] ==> Trim(s)[0] > 0x20 && Trim(s)[|Trim(s)| - 1] > 0x20
  {
    hide Blank;
    if s != [] && s[0] <= 0x20 {
      var a0, b0 := TrimSplits(s[1..]);
      SplitFront(s, a0, Trim(s[1..]), b0);
      a, b := [s[0]] + a0, b0;
    } else if s != [] && s[|s| - 1] <= 0x20 {
      var a0, b0 := TrimSplits(s[..|s| - 1]);
      SplitBack(s, a0, Trim(s[..|s| - 1]), b0);
      a, b := a0, b0 + [s[|s| - 1]];
    } else {
      a, b := [], [];
      SplitNowhere(s);
    }
  }

  lemma SplitNowhere(s: seq<byte>)
    ensures s == [] + s + [] && Blank([])
  {}

  lemma SplitFront(s: seq<byte>, a: seq<byte>, t: seq<byte>, b: seq<byte>)
    requires s != [] && s[1..] == a + t + b && Blank(a) && s[0] <= 0x20
    ensures s == ([s[0]] + a) + t + b && Blank([s[0]] + a)
  {
    assert s == [s[0]] + s[1..];
  }

  lemma SplitBack(s: seq<byte>, a: seq<byte>, t: seq<byte>, b: seq<byte>)
    requires s != [] && s[..|s| - 1] == a + t + b && Blank(b) && s[|s| - 1] <= 0x20
    ensures s == a + t + (b + [s[|s| - 1]]) && Blank(b + [s[|s| - 1]])
  {
    assert s == s[..|s| - 1] + [s[|s| - 1]];
  }

  lemma BlankJoins(s: seq<byte>, t: seq<byte>)
    ensures Blank(s + t) <==> Blank(s) && Blank(t)
  {
    assert forall i :: 0 <= i < |s| ==> (s + t)[i] == s[i];
    assert forall i :: 0 <= i < |t| ==> (s + t)[|s| + i] == t[i];
  }

  // ---------- one end at a time ----------

  function TrimLeft(s: seq<byte>): seq<byte> {
    if s != [] && s[0] <= 0x20 then TrimLeft(s[1..]) else s
  }

  function TrimRight(s: seq<byte>): seq<byte> {
    if s != [] && s[|s| - 1] <= 0x20 then TrimRight(s[..|s| - 1]) else s
  }

  lemma {:induction false} TrimFromLeft(s: seq<byte>)
    ensures Trim(s) == TrimRight(TrimLeft(s))
  {
    if s != [] && s[0] <= 0x20 {
      TrimFromLeft(s[1..]);
    } else {
      OnlyTheRight(s);
    }
  }

  lemma {:induction false} OnlyTheRight(s: seq<byte>)
    requires s != [] ==> s[0] > 0x20
    ensures Trim(s) == TrimRight(s)
  {
    if s != [] && s[|s| - 1] <= 0x20 {
      OnlyTheRight(s[..|s| - 1]);
    }
  }

  /** A text with something in it keeps what follows when trimmed at its front. */
  lemma {:induction false} TrimLeftJoins(s: seq<byte>, t: seq<byte>)
    ensures TrimLeft(s + t) == if Blank(s) then TrimLeft(t) else TrimLeft(s) + t
    ensures Blank(s) <==> TrimLeft(s) == []
  {
    if s == [] {
      assert s + t == t;
    } else {
      assert (s + t)[1..] == s[1..] + t;
      assert s == [s[0]] + s[1..];
      BlankJoins([s[0]], s[1..]);
      assert Blank([s[0]]) <==> s[0] <= 0x20 by {
        assert [s[0]][0] == s[0];
      }
      hide Blank;
      TrimLeftJoins(s[1..], t);
    }
  }

  lemma {:induction false} TrimRightJoins(s: seq<byte>, t: seq<byte>)
    ensures TrimRight(s + t) == if Blank(t) then TrimRight(s) else s + TrimRight(t)
    ensures Blank(t) <==> TrimRight(t) == []
    decreases |t|
  {
    if t == [] {
      assert s + t == s;
    } else {
      var init, last := t[..|t| - 1], t[|t| - 1];
      assert (s + t)[..|s + t| - 1] == s + init;
      assert t == init + [last];
      BlankJoins(init, [last]);
      assert Blank([last]) <==> last <= 0x20 by {
        assert [last][0] == last;
      }
      hide Blank;
      TrimRightJoins(s, init);
    }
  }

  lemma TrimJoins(s: seq<byte>, t: seq<byte>)
    ensures Trim(s + t) == if Blank(s) then Trim(t) else if Blank(t) then Trim(s) else TrimLeft(s) + TrimRight(t)
    ensures Blank(s) <==> Trim(s) == []
    ensures |Trim(s)| <= |TrimRight(s)|
  {
    assert TrimRight([]) == [];
    hide Trim, TrimLeft, TrimRight, Blank;
    TrimFromLeft(s + t);
    TrimFromLeft(s);
    TrimFromLeft(t);
    TrimLeftJoins(s, t);
    TrimLeftShrinks(s);
    TrimRightJoins([], TrimLeft(s));
    TrimRightJoins(TrimLeft(s), t);
  }

  lemma {:induction false} TrimLeftShrinks(s: seq<byte>)
    ensures |TrimRight(TrimLeft(s))| <= |TrimRight(s)|
    ensures Blank(TrimLeft(s)) ==> TrimLeft(s) == []
  {
    if s != [] && s[0] <= 0x20 {
      TrimLeftShrinks(s[1..]);
      TrimRightJoins([s[0]], s[1..]);
      assert s == [s[0]] + s[1..];
    }
  }

  // ---------- parts that are missing ----------

  /** A part that is not marked, and is not just white space at one end of the whole. */
  predicate Missing(parts: seq<seq<byte>>, marks: seq<bool>, p: nat) {
    && p < |parts| && !Marked(marks, p) && parts[p] != []
    && !Blank(Flatten(parts[..p + 1])) && !Blank(Flatten(parts[p..]))
  }

  ghost predicate Gap(parts: seq<seq<byte>>, marks: seq<bool>) {
    exists p :: Missing(parts, marks, p)
  }

  /** The same, behind a text with something in it. */
  predicate MissingBehind(parts: seq<seq<byte>>, marks: seq<bool>, p: nat) {
    p < |parts| && !Marked(marks, p) && parts[p] != [] && !Blank(Flatten(parts[p..]))
  }

  ghost predicate GapBehind(parts: seq<seq<byte>>, marks: seq<bool>) {
    exists p :: MissingBehind(parts, marks, p)
  }

  lemma Later(parts: seq<seq<byte>>, marks: seq<bool>, p: nat)
    requires p < |parts| - 1
    ensures Marked(Rest(marks), p) == Marked(marks, p + 1)
    ensures parts[1..][p] == parts[p + 1] && parts[1..][p..] == parts[p + 1..]
    ensures Flatten(parts[..p + 2]) == parts[0] + Flatten(parts[1..][..p + 1])
    ensures Blank(Flatten(parts[..p + 2])) <==> Blank(parts[0]) && Blank(Flatten(parts[1..][..p + 1]))
  {
    assert parts[..p + 2][1..] == parts[1..][..p + 1];
    BlankJoins(parts[0], Flatten(parts[1..][..p + 1]));
  }

  lemma First(parts: seq<seq<byte>>)
    requires parts != []
    ensures Flatten(parts[..1]) == parts[0] && parts[0..] == parts
    ensures Blank(Flatten(parts)) <==> Blank(parts[0]) && Blank(Flatten(parts[1..]))
  {
    assert parts[..1] == [parts[0]] && parts[..1][1..] == [];
    assert parts[0] + [] == parts[0];
    BlankJoins(parts[0], Flatten(parts[1..]));
  }

  lemma GapBehindSteps(parts: seq<seq<byte>>, marks: seq<bool>)
    requires parts != []
    ensures GapBehind(parts, marks) <==>
      (!Marked(marks, 0) && parts[0] != [] && !Blank(Flatten(parts))) || GapBehind(parts[1..], Rest(marks))
  {
    hide Blank, Flatten, Marked, Rest;
    First(parts);
    if p: nat :| MissingBehind(parts, marks, p) {
      if p > 0 {
        Later(parts, marks, p - 1);
        assert MissingBehind(parts[1..], Rest(marks), p - 1);
      }
    }
    if p: nat :| MissingBehind(parts[1..], Rest(marks), p) {
      Later(parts, marks, p);
      assert MissingBehind(parts, marks, p + 1);
    }
    if !Marked(marks, 0) && parts[0] != [] && !Blank(Flatten(parts)) {
      assert MissingBehind(parts, marks, 0);
    }
  }

  lemma GapSteps(parts: seq<seq<byte>>, marks: seq<bool>)
    requires parts != []
    ensures Gap(parts, marks) <==>
      if Blank(parts[0]) then Gap(parts[1..], Rest(marks))
      else !Marked(marks, 0) || GapBehind(parts[1..], Rest(marks))
  {
    assert !Blank(parts[0]) ==> parts[0] != [];
    hide Blank, Flatten, Marked, Rest;
    First(parts);
    var rest := parts[1..];
    if p: nat :| Missing(parts, marks, p) {
      if p > 0 {
        Later(parts, marks, p - 1);
        assert MissingBehind(rest, Rest(marks), p - 1);
        assert Blank(parts[0]) ==> Missing(rest, Rest(marks), p - 1);
      }
    }
    if p: nat :| Missing(rest, Rest(marks), p) {
      Later(parts, marks, p);
      assert Missing(parts, marks, p + 1);
    }
    if !Blank(parts[0]) {
      if p: nat :| MissingBehind(rest, Rest(marks), p) {
        Later(parts, marks, p);
        assert Missing(parts, marks, p + 1);
      }
      if !Marked(marks, 0) {
        assert Missing(parts, marks, 0);
      }
    }
  }

  lemma {:induction false} NothingToMiss(parts: seq<seq<byte>>, marks: seq<bool>)
    requires Blank(Flatten(parts))
    ensures Blank(Picked(parts, marks)) && !GapBehind(parts, marks)
    decreases |parts|
  {
    if parts != [] {
      First(parts);
      GapBehindSteps(parts, marks);
      NothingToMiss(parts[1..], Rest(marks));
      BlankJoins(if Marked(marks, 0) then parts[0] else [], Picked(parts[1..], Rest(marks)));
    }
  }

  lemma {:induction false} PickedIsShorter(parts: seq<seq<byte>>, marks: seq<bool>)
    ensures |TrimRight(Picked(parts, marks))| <= |TrimRight(Flatten(parts))|
    decreases |parts|
  {
    if parts != [] {
      var head := if Marked(marks, 0) then parts[0] else [];
      var rest, picked := Flatten(parts[1..]), Picked(parts[1..], Rest(marks));
      PickedIsShorter(parts[1..], Rest(marks));
      TrimRightJoins(head, picked);
      TrimRightJoins(parts[0], rest);
      hide TrimRight, Blank;
      TrimRightShrinks(parts[0]);
      if Blank(rest) {
        assert Blank(picked) by {
          NothingToMiss(parts[1..], Rest(marks));
        }
        TrimRightJoins([], []);
      }
    }
  }

  lemma {:induction false} TrimRightShrinks(s: seq<byte>)
    ensures |TrimRight(s)| <= |s|
  {
    if s != [] {
      TrimRightShrinks(s[..|s| - 1]);
    }
  }

  /** Behind a text with something in it, what is picked leaves the trimmed whole as it is
      exactly if there is no gap. */
  lemma {:induction false} PickedBehindIff(s: seq<byte>, parts: seq<seq<byte>>, marks: seq<bool>)
    requires !Blank(s)
    ensures Trim(s + Picked(parts, marks)) == Trim(s + Flatten(parts)) <==> !GapBehind(parts, marks)
    decreases |parts|
  {
    if Blank(Flatten(parts)) {
      NothingToMiss(parts, marks);
      TrimJoins(s, Picked(parts, marks));
      TrimJoins(s, Flatten(parts));
    } else {
      assert parts != [];
      GapBehindSteps(parts, marks);
      var part, picked, rest := parts[0], Picked(parts[1..], Rest(marks)), Flatten(parts[1..]);
      if !Marked(marks, 0) && part != [] {
        PickedIsShorter(parts[1..], Rest(marks));
        MissingShortens(s, part, picked, rest);
        assert [] + picked == picked;
      } else {
        var head := if Marked(marks, 0) then part else [];
        assert s + (head + picked) == (s + head) + picked && s + (part + rest) == (s + part) + rest;
        BlankJoins(s, part);
        PickedBehindIff(s + part, parts[1..], Rest(marks));
      }
    }
  }

  lemma MissingShortens(s: seq<byte>, part: seq<byte>, picked: seq<byte>, rest: seq<byte>)
    requires !Blank(s) && part != [] && !Blank(part + rest) && |TrimRight(picked)| <= |TrimRight(rest)|
    ensures Trim(s + picked) != Trim(s + (part + rest))
  {
    TrimJoins(s, picked);
    TrimJoins(s, part + rest);
    TrimRightJoins(part, rest);
    TrimRightJoins([], part + rest);
    TrimRightJoins([], rest);
    TrimRightJoins([], picked);
    TrimRightShrinks(TrimLeft(s));
    TrimFromLeft(s);
    hide Trim, TrimLeft, TrimRight, Blank;
  }

  /** What is picked of some parts leaves the trimmed whole as it is exactly if nothing is
      missing but white space at the two ends; and it leaves nothing exactly if it is white
      space. */
  lemma {:induction false} PickedIsWholeIff(parts: seq<seq<byte>>, marks: seq<bool>)
    ensures Trim(Picked(parts, marks)) == Trim(Flatten(parts)) <==> !Gap(parts, marks)
    ensures Trim(Picked(parts, marks)) == [] <==> Blank(Picked(parts, marks))
    decreases |parts|
  {
    TrimJoins(Picked(parts, marks), []);
    if parts != [] {
      GapSteps(parts, marks);
      var part, picked, rest := parts[0], Picked(parts[1..], Rest(marks)), Flatten(parts[1..]);
      var head := if Marked(marks, 0) then part else [];
      TrimJoins(head, picked);
      TrimJoins(part, rest);
      if Blank(part) {
        PickedIsWholeIff(parts[1..], Rest(marks));
      } else if Marked(marks, 0) {
        PickedBehindIff(part, parts[1..], Rest(marks));
      } else {
        PickedIsShorter(parts[1..], Rest(marks));
        FirstMissing(part, picked, rest);
      }
    }
  }

  lemma FirstMissing(part: seq<byte>, picked: seq<byte>, rest: seq<byte>)
    requires !Blank(part) && |TrimRight(picked)| <= |TrimRight(rest)|
    ensures Trim([] + picked) != Trim(part + rest)
  {
    assert [] + picked == picked;
    TrimJoins(picked, []);
    TrimJoins(part, rest);
    TrimLeftJoins(part, rest);
    TrimRightJoins([], rest);
    hide Trim, TrimLeft, TrimRight, Blank;
  }

  lemma AllMarkedNoGap(parts: seq<seq<byte>>, marks: seq<bool>)
    requires forall i :: 0 <= i < |parts| ==> Marked(marks, i)
    ensures !Gap(parts, marks)
  {}

  /** The same for a beginning of a text. */
  lemma BeginningIsWholeIff(s: seq<byte>, t: seq<byte>)
    ensures Trim(s) == [] <==> Blank(s)
    ensures !Blank(s) ==> (Trim(s) == Trim(s + t) <==> Blank(t))
  {
    TrimJoins(s, t);
    TrimFromLeft(s);
    TrimRightShrinks(TrimLeft(s));
    TrimRightJoins([], t);
    hide Trim, TrimLeft, TrimRight, Blank;
  }
}
