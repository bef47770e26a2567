/** Canonical form of a URL path, made in place from right to left. */
module UriPath {
  import opened Options
  import opened PathWalk

  /** Whether the canonical form ends with a slash although the walk ends at a segment.

      The path ends with "." or ".." segments.  `parts` is what is left of them, `skip` the
      number of ".." not yet cancelled, `atEnd` tells whether nothing has been scanned yet,
      and `single` whether what has been scanned is a single ".".  A trailing "." keeps
      the slash before it; two of them do not; a trailing ".." keeps the slash before the
      segment that the last of the pending ".." cancels, unless that segment comes first
      in the path and is one or two characters long. */
  predicate KeepsSlash(parts: seq<string>, skip: nat, atEnd: bool, single: bool) {
    if parts == [] then false
    else
      var init, s := parts[..|parts| - 1], parts[|parts| - 1];
      if s == "." then |parts| == 1 || KeepsSlash(init, skip, false, atEnd)
      else if s == ".." then KeepsSlash(init, skip + 1, false, false)
      else if skip > 1 then KeepsSlash(init, skip - 1, false, false)
      else if skip == 1 then |parts| > 1 || |s| == 0 || |s| > 2
      else single
  }

  /** The canonical form in terms of the walk. */
  function Canonical(path: string): Option<string>
    requires Absolute(path)
  {
    var w := Forward(Parts(path));
    if w.ups > 0 then None
    else Some(Render(w.stack + if KeepsSlash(Parts(path), 0, true, false) then [""] else []))
  }

  // ---------- the state of the scan ----------

  function Delete(buf: string, i: nat, j: nat): string
    requires i <= j <= |buf|
  {
    buf[..i] + buf[j..]
  }

  function AddTail(w: Walk, tail: seq<string>): Walk {
    w.(stack := w.stack + tail)
  }

  /** The scan has dealt with everything from `end` on.  `kept` are the segments the walk
      keeps there and `shown` those the buffer shows, which may have a slash more at the
      end. */
  ghost predicate Meaning(
    p: string, end: nat, skip: nat, atEnd: bool, single: bool, shown: seq<string>, kept: seq<string>)
    requires Absolute(p) && end <= |p|
  {
    var slash := KeepsSlash(Parts(p), 0, true, false);
    && Backward(Parts(p), 0) == AddTail(Backward(Parts(p[..end]), skip), kept)
    && (shown == [] ==> kept == [])
    && (Backward(Parts(p), 0).ups == 0 ==>
          && (shown == [] ==> slash == KeepsSlash(Parts(p[..end]), skip, atEnd, single))
          && (shown != [] ==> shown == kept + if slash then [""] else []))
  }

  /** What the buffer holds: the path as it was up to the end of the region waiting to be
      deleted, or up to `end` if there is none, and then what is shown. */
  ghost predicate Shape(
    p: string, buf: string, end: nat, skip: nat, delStart: int, delEnd: int, shown: seq<string>)
  {
    && end <= |p|
    && (delEnd < 0 ==> delEnd == -1 && delStart == -1 && skip == 0 && buf == p[..end] + Render(shown))
    && (delEnd >= 0 ==>
          && 0 < end < delEnd <= |p| && p[end] == '/' && p[delEnd - 1] == '.'
          && buf == p[..delEnd] + Render(shown)
          && (skip == 0 ==> delStart == end || (delStart == end + 1 && shown == [])))
  }

  ghost predicate Inv(
    p: string, buf: string, end: nat, skip: nat, delStart: int, delEnd: int, shown: seq<string>, kept: seq<string>)
  {
    && Absolute(p) && end <= |p|
    && Meaning(p, end, skip, end == |buf|, skip == 0 && delEnd >= 0 && delStart == end + 1, shown, kept)
    && (end > 0 || skip == 0 ==> Shape(p, buf, end, skip, delStart, delEnd, shown))
  }

  /** The slash before the last segment of the unscanned part. */
  function Before(p: string, end: nat): (r: nat)
    requires Absolute(p) && 0 < end <= |p|
    ensures r < end && p[r] == '/' && r == LastSlash(p[..end])
  {
    assert p[..end][0] == '/';
    LastSlash(p[..end])
  }

  /** That segment. */
  function Segment(p: string, end: nat): string
    requires Absolute(p) && 0 < end <= |p|
  {
    p[Before(p, end) + 1..end]
  }

  lemma PartsOfPrefix(p: string, end: nat)
    requires Absolute(p) && 0 < end <= |p|
    ensures Parts(p[..end]) == Parts(p[..Before(p, end)]) + [Segment(p, end)]
  {
    var s := Before(p, end);
    assert p[..end][..s] == p[..s] && p[..end][s + 1..] == p[s + 1..end];
  }

  lemma PartsSplit(p: string, end: nat)
    requires Absolute(p) && 0 < end <= |p|
    ensures var parts := Parts(p[..end]);
      parts != [] && parts[|parts| - 1] == Segment(p, end) && parts[..|parts| - 1] == Parts(p[..Before(p, end)])
      && (|parts| == 1 <==> Before(p, end) == 0)
  {
    PartsOfPrefix(p, end);
    if Before(p, end) > 0 {
      PartsOfPrefix(p, Before(p, end));
    }
  }

  // ---------- the cases ----------

  lemma MeaningOfDot(p: string, end: nat, skip: nat, atEnd: bool, single: bool, shown: seq<string>, kept: seq<string>)
    requires Absolute(p) && 0 < end <= |p| && Segment(p, end) == "." && Before(p, end) > 0
    requires Meaning(p, end, skip, atEnd, single, shown, kept)
    ensures Meaning(p, Before(p, end), skip, false, atEnd, shown, kept)
  {
    PartsSplit(p, end);
    hide Parts, Before, Segment;
  }

  /** A "." at the very start of the path. */
  lemma MeaningOfRootDot(p: string, end: nat, skip: nat, atEnd: bool, single: bool, shown: seq<string>, kept: seq<string>)
    requires Absolute(p) && 0 < end <= |p| && Segment(p, end) == "." && Before(p, end) == 0
    requires Meaning(p, end, skip, atEnd, single, shown, kept)
    ensures Meaning(p, 0, skip, false, false, if shown == [] && skip == 0 then [""] else shown, kept)
  {
    PartsSplit(p, end);
    assert Parts(p[..0]) == [];
    hide Parts, Before, Segment;
  }

  /** With nothing left to scan it does not matter what was scanned last. */
  lemma MeaningAtStart(
    p: string, skip: nat, atEnd: bool, single: bool, atEnd': bool, single': bool, shown: seq<string>, kept: seq<string>)
    requires Absolute(p) && Meaning(p, 0, skip, atEnd, single, shown, kept)
    ensures Meaning(p, 0, skip, atEnd', single', shown, kept)
  {}

  lemma MeaningOfUp(p: string, end: nat, skip: nat, atEnd: bool, single: bool, shown: seq<string>, kept: seq<string>)
    requires Absolute(p) && 0 < end <= |p| && Segment(p, end) == ".."
    requires Meaning(p, end, skip, atEnd, single, shown, kept)
    ensures Meaning(p, Before(p, end), skip + 1, false, false, shown, kept)
  {
    PartsSplit(p, end);
    hide Parts, Before, Segment;
  }

  lemma MeaningOfCancel(p: string, end: nat, skip: nat, atEnd: bool, single: bool, shown: seq<string>, kept: seq<string>)
    requires Absolute(p) && 0 < end <= |p| && !IsDots(Segment(p, end)) && skip > 1
    requires Meaning(p, end, skip, atEnd, single, shown, kept)
    ensures Meaning(p, Before(p, end), skip - 1, false, false, shown, kept)
  {
    PartsSplit(p, end);
    hide Parts, Before, Segment;
  }

  /** The slash before the cancelled segment stays if nothing is shown after it, except
      before a first segment of one or two characters. */
  predicate SlashStays(p: string, end: nat, shown: seq<string>)
    requires Absolute(p) && 0 < end <= |p|
  {
    shown == [] && (Before(p, end) > 0 || |Segment(p, end)| == 0 || |Segment(p, end)| > 2)
  }

  lemma MeaningOfLastCancel(p: string, end: nat, atEnd: bool, single: bool, shown: seq<string>, kept: seq<string>)
    requires Absolute(p) && 0 < end <= |p| && !IsDots(Segment(p, end))
    requires Meaning(p, end, 1, atEnd, single, shown, kept)
    ensures Meaning(p, Before(p, end), 0, false, false, if SlashStays(p, end, shown) then [""] else shown, kept)
  {
    PartsSplit(p, end);
    assert Parts(p[..0]) == [];
    hide Parts, Before, Segment;
  }

  lemma MeaningOfKeep(p: string, end: nat, atEnd: bool, single: bool, shown: seq<string>, kept: seq<string>)
    requires Absolute(p) && 0 < end <= |p| && !IsDots(Segment(p, end))
    requires Meaning(p, end, 0, atEnd, single, shown, kept)
    ensures var shown1 := if shown == [] && single then [""] else shown;
      Meaning(p, Before(p, end), 0, false, false, [Segment(p, end)] + shown1, [Segment(p, end)] + kept)
  {
    hide Parts, Before, Segment, Backward, KeepsSlash, IsDots;
    var parts, s := Parts(p[..end]), Segment(p, end);
    PartsSplit(p, end);
    KeepInWalk(parts, kept);
    KeepEndsSlash(parts, atEnd, single);
    if Backward(Parts(p), 0).ups == 0 {
      KeepInBuffer(s, shown, kept, KeepsSlash(Parts(p), 0, true, false), single);
    }
  }

  lemma KeepEndsSlash(parts: seq<string>, atEnd: bool, single: bool)
    requires parts != [] && !IsDots(parts[|parts| - 1])
    ensures KeepsSlash(parts, 0, atEnd, single) == single
  {}

  lemma KeepInWalk(parts: seq<string>, kept: seq<string>)
    requires parts != [] && !IsDots(parts[|parts| - 1])
    ensures AddTail(Backward(parts, 0), kept) ==
      AddTail(Backward(parts[..|parts| - 1], 0), [parts[|parts| - 1]] + kept)
  {
    var s, w := parts[|parts| - 1], Backward(parts[..|parts| - 1], 0);
    assert (w.stack + [s]) + kept == w.stack + ([s] + kept);
  }

  lemma KeepInBuffer(s: string, shown: seq<string>, kept: seq<string>, slash: bool, single: bool)
    requires shown == [] ==> kept == [] && slash == single
    requires shown != [] ==> shown == kept + if slash then [""] else []
    ensures [s] + (if shown == [] && single then [""] else shown) == ([s] + kept) + if slash then [""] else []
  {}

  // ---------- the cases, with the buffer ----------

  lemma ScanDot(p: string, buf: string, end: nat, skip: nat, delStart: int, delEnd: int, shown: seq<string>, kept: seq<string>)
    requires Inv(p, buf, end, skip, delStart, delEnd, shown, kept)
    requires end > 0 && Segment(p, end) == "." && Before(p, end) > 0
    ensures var s := Before(p, end);
      Inv(p, buf, s, skip, if end == |buf| then s + 1 else s, if delEnd < 0 then end else delEnd, shown, kept)
  {
    MeaningOfDot(p, end, skip, end == |buf|, skip == 0 && delEnd >= 0 && delStart == end + 1, shown, kept);
    assert p[end - 1] == Segment(p, end)[0];
    hide Meaning, Segment;
  }

  lemma RootDotBuffer(p: string, buf: string, e: nat, shown: seq<string>)
    requires 1 < e <= |p| && p[0] == '/' && buf == p[..e] + Render(shown)
    ensures e <= |buf| && (e < |buf| ==> buf[e] == '/') && (e == |buf| <==> shown == [])
    ensures Delete(buf, 1, if e < |buf| then e + 1 else e) == p[..0] + Render(if shown == [] then [""] else shown)
  {
    var t := Render(shown);
    assert buf[..1] == "/";
    RenderOne("");
    hide Render;
    if shown == [] {
      assert t == "" && buf[e..] == [];
      assert Delete(buf, 1, e) == "/";
    } else {
      assert t[0] == '/' && buf[e] == t[0] && buf[e + 1..] == t[1..];
      assert Delete(buf, 1, e + 1) == "/" + t[1..];
      assert t == "/" + t[1..];
    }
  }

  lemma AtRoot(p: string, end: nat)
    requires Absolute(p) && 0 < end <= |p| && Segment(p, end) == "." && Before(p, end) == 0
    ensures end == 2 && p[0] == '/'
  {}

  lemma RootDotBounds(p: string, buf: string, end: nat, skip: nat, delStart: int, delEnd: int, shown: seq<string>, kept: seq<string>)
    requires Inv(p, buf, end, skip, delStart, delEnd, shown, kept)
    requires end > 0 && Segment(p, end) == "." && Before(p, end) == 0
    ensures var e := if delEnd < 0 then end else delEnd;
      1 < e <= |p| && p[0] == '/' && buf == p[..e] + Render(shown)
  {
    AtRoot(p, end);
    hide Meaning, Render, Segment, Before;
  }

  /** A "." at the start of the path, and what the deletion there leaves. */
  lemma ScanRootDot(p: string, buf: string, end: nat, delStart: int, delEnd: int, shown: seq<string>, kept: seq<string>)
    requires Inv(p, buf, end, 0, delStart, delEnd, shown, kept)
    requires end > 0 && Segment(p, end) == "." && Before(p, end) == 0
    ensures var e := if delEnd < 0 then end else delEnd;
      && 1 < e <= |buf| && (e < |buf| ==> buf[e] == '/')
      && Inv(p, Delete(buf, 1, if e < |buf| then e + 1 else e), 0, 0, -1, -1, if shown == [] then [""] else shown, kept)
  {
    RootDotBounds(p, buf, end, 0, delStart, delEnd, shown, kept);
    var e := if delEnd < 0 then end else delEnd;
    RootDotBuffer(p, buf, e, shown);
    MeaningOfRootDot(p, end, 0, end == |buf|, delEnd >= 0 && delStart == end + 1, shown, kept);
    var shown1 := if shown == [] then [""] else shown;
    var buf1 := Delete(buf, 1, if e < |buf| then e + 1 else e);
    MeaningAtStart(p, 0, false, false, 0 == |buf1|, false, shown1, kept);
    hide Meaning, Segment, Before, Delete, Render;
  }

  /** The same with a ".." left over: the path leads above its root. */
  lemma ScanRootDotAbove(
    p: string, buf: string, end: nat, skip: nat, delStart: int, delEnd: int, shown: seq<string>, kept: seq<string>, i: int, j: int)
    requires Inv(p, buf, end, skip, delStart, delEnd, shown, kept)
    requires end > 0 && Segment(p, end) == "." && Before(p, end) == 0 && skip > 0
    ensures Inv(p, buf, 0, skip, i, j, shown, kept)
  {
    MeaningOfRootDot(p, end, skip, end == |buf|, false, shown, kept);
    MeaningAtStart(p, skip, false, false, 0 == |buf|, false, shown, kept);
    hide Meaning, Segment, Before, Render;
  }

  lemma ScanUp(p: string, buf: string, end: nat, skip: nat, delStart: int, delEnd: int, shown: seq<string>, kept: seq<string>)
    requires Inv(p, buf, end, skip, delStart, delEnd, shown, kept)
    requires end > 0 && Segment(p, end) == ".."
    ensures var s := Before(p, end);
      Inv(p, buf, s, skip + 1, s, if delEnd < 0 then end else delEnd, shown, kept)
  {
    MeaningOfUp(p, end, skip, end == |buf|, skip == 0 && delEnd >= 0 && delStart == end + 1, shown, kept);
    assert p[end - 1] == Segment(p, end)[1];
    var s := Before(p, end);
    assert s < end <= |buf| || s == 0;
    if s == 0 {
      MeaningAtStart(p, skip + 1, false, false, s == |buf|, false, shown, kept);
    }
    hide Meaning, Segment;
  }

  lemma ScanCancel(p: string, buf: string, end: nat, skip: nat, delStart: int, delEnd: int, shown: seq<string>, kept: seq<string>)
    requires Inv(p, buf, end, skip, delStart, delEnd, shown, kept)
    requires end > 0 && !IsDots(Segment(p, end)) && skip > 1
    ensures Inv(p, buf, Before(p, end), skip - 1, delStart, delEnd, shown, kept)
  {
    MeaningOfCancel(p, end, skip, end == |buf|, false, shown, kept);
    var s := Before(p, end);
    if s == 0 {
      MeaningAtStart(p, skip - 1, false, false, s == |buf|, false, shown, kept);
    }
    hide Meaning, Segment;
  }

  /** Deleting from the slash before the segment, or from just after it. */
  lemma CutBuffer(p: string, buf: string, s: nat, stays: bool, delEnd: nat, shown: seq<string>)
    requires s < delEnd <= |p| && p[s] == '/' && buf == p[..delEnd] + Render(shown) && (stays ==> shown == [])
    ensures var d := if stays then s + 1 else s;
      d <= delEnd <= |buf| && Delete(buf, d, delEnd) == p[..s] + Render(if stays then [""] else shown)
    ensures delEnd == |buf| <==> shown == []
    ensures buf[delEnd - 1] == p[delEnd - 1]
  {
    RenderOne("");
    hide Render;
    var t := Render(shown);
    assert buf[delEnd..] == t && buf[..s] == p[..s];
    if stays {
      assert buf[..s + 1] == p[..s] + "/" && t == "";
    }
  }

  lemma ScanLastCancel(p: string, buf: string, end: nat, delStart: int, delEnd: int, shown: seq<string>, kept: seq<string>)
    requires Inv(p, buf, end, 1, delStart, delEnd, shown, kept)
    requires end > 0 && !IsDots(Segment(p, end))
    ensures var s := Before(p, end);
      var stays := SlashStays(p, end, shown);
      && s < delEnd <= |buf| && buf[delEnd - 1] == '.'
      && (stays <==> delEnd == |buf| && (s > 0 || |Segment(p, end)| == 0 || |Segment(p, end)| > 2))
      && Inv(p, Delete(buf, if stays then s + 1 else s, delEnd), s, 0, -1, -1, if stays then [""] else shown, kept)
  {
    var s, stays := Before(p, end), SlashStays(p, end, shown);
    MeaningOfLastCancel(p, end, end == |buf|, false, shown, kept);
    CutBuffer(p, buf, s, stays, delEnd, shown);
    var shown1 := if stays then [""] else shown;
    var buf1 := Delete(buf, if stays then s + 1 else s, delEnd);
    if s == 0 {
      MeaningAtStart(p, 0, false, false, s == |buf1|, false, shown1, kept);
    } else {
      assert shown1 != [] && |buf1| > s;
    }
    hide Meaning, Segment, Delete, Render;
  }

  lemma ScanKeep(p: string, buf: string, end: nat, delStart: int, delEnd: int, shown: seq<string>, kept: seq<string>)
    requires Inv(p, buf, end, 0, delStart, delEnd, shown, kept)
    requires end > 0 && !IsDots(Segment(p, end))
    ensures var s, x := Before(p, end), Segment(p, end);
      var stays := delEnd >= 0 && delStart == end + 1;
      && (delEnd >= 0 ==> 0 <= delStart <= delEnd <= |buf|)
      && Inv(p, if delEnd >= 0 then Delete(buf, delStart, delEnd) else buf, s, 0, -1, -1,
             [x] + (if stays then [""] else shown), [x] + kept)
  {
    var s, x := Before(p, end), Segment(p, end);
    var stays := delEnd >= 0 && delStart == end + 1;
    MeaningOfKeep(p, end, end == |buf|, stays, shown, kept);
    if delEnd >= 0 {
      CutBuffer(p, buf, end, stays, delEnd, shown);
    }
    KeepText(p, end, if stays then [""] else shown);
    hide Meaning, Segment, Before, Delete, Render;
  }

  lemma KeepText(p: string, end: nat, shown: seq<string>)
    requires Absolute(p) && 0 < end <= |p|
    ensures var s, x := Before(p, end), Segment(p, end);
      p[..end] + Render(shown) == p[..s] + Render([x] + shown) && |Render([x] + shown)| > 0
  {
    var s, x := Before(p, end), Segment(p, end);
    assert p[..end] == p[..s] + ("/" + x);
    RenderOne(x);
    RenderAppend([x], shown);
    hide Render;
    assert (p[..s] + ("/" + x)) + Render(shown) == p[..s] + (("/" + x) + Render(shown));
  }

  // ---------- the ends of the scan ----------

  lemma PlainSnoc(parts: seq<string>, s: string)
    requires !IsDots(s)
    ensures Backward(parts + [s], 0) == AddTail(Backward(parts, 0), [s])
    ensures !KeepsSlash(parts + [s], 0, true, false)
  {
    assert (parts + [s])[..|parts|] == parts;
    KeepEndsSlash(parts + [s], true, false);
  }

  lemma TailsJoin(w: Walk, a: seq<string>, b: seq<string>)
    ensures AddTail(AddTail(w, a), b) == AddTail(w, a + b)
  {
    assert (w.stack + a) + b == w.stack + (a + b);
  }

  lemma {:induction false} PlainTail(parts: seq<string>, kept: seq<string>)
    requires NoDots(kept)
    ensures Backward(parts + kept, 0) == AddTail(Backward(parts, 0), kept)
    ensures kept != [] ==> !KeepsSlash(parts + kept, 0, true, false)
  {
    hide Backward, KeepsSlash;
    if kept == [] {
      assert parts + kept == parts;
      assert Backward(parts, 0).stack + [] == Backward(parts, 0).stack;
    } else {
      var init, last := kept[..|kept| - 1], kept[|kept| - 1];
      assert !IsDots(last) && init + [last] == kept;
      hide IsDots, NoDots, AddTail;
      PlainTail(parts, init);
      assert (parts + init) + [last] == parts + kept;
      PlainSnoc(parts + init, last);
      TailsJoin(Backward(parts, 0), init, [last]);
    }
  }

  /** What lies behind `end` are plain segments. */
  ghost predicate PlainFrom(path: string, end: nat, kept: seq<string>)
    requires Absolute(path) && end <= |path|
  {
    Parts(path) == Parts(path[..end]) + kept && NoDots(kept) && path == path[..end] + Render(kept)
  }

  lemma ScanStarts(p: string, end: nat, kept: seq<string>)
    requires Absolute(p) && end <= |p|
    requires PlainFrom(p, end, kept)
    ensures Inv(p, p, end, 0, -1, -1, kept, kept)
  {
    var parts := Parts(p[..end]);
    PlainTail(parts, kept);
    assert kept + [] == kept;
    if kept == [] {
      assert p[..end] == p;
    }
    hide Parts, Backward, KeepsSlash, Render, NoDots;
    assert Meaning(p, end, 0, end == |p|, false, kept, kept);
  }

  lemma ScanEnds(p: string, buf: string, skip: nat, delStart: int, delEnd: int, shown: seq<string>, kept: seq<string>)
    requires Inv(p, buf, 0, skip, delStart, delEnd, shown, kept)
    ensures if skip > 0 then Canonical(p) == None else delEnd < 0 && Canonical(p) == Some(buf)
  {
    BackwardIsForward(Parts(p), 0);
    RewindDown(Forward(Parts(p)), "", 0);
    assert Parts(p[..0]) == [];
    var slash := KeepsSlash(Parts(p), 0, true, false);
    assert AddTail(Walk(skip, []), kept) == Walk(skip, kept) by {
      assert [] + kept == kept;
    }
    if skip == 0 {
      assert shown == kept + if slash then [""] else [];
      assert buf == [] + Render(shown) == Render(shown);
    }
  }

  // ---------- the scan ----------

  /** The library's search for the last slash at or before an index. */
  method LastIndexOf(s: string, from: int) returns (i: int)
    requires -1 <= from <= |s|
    ensures i == LastSlash(s[..if from < 0 then 0 else if from < |s| then from + 1 else |s|])
  {
    i := if from < |s| then from else |s| - 1;
    ghost var n := if from < 0 then 0 else if from < |s| then from + 1 else |s|;
    while i >= 0 && s[i] != '/'
      invariant -1 <= i < |s|
      invariant i < n
      invariant forall j :: i < j < n ==> s[j] != '/'
    {
      i := i - 1;
    }
  }

  /** Moves left to the previous slash, or to -1. */
  method StepLeft(buf: string, from: nat, ghost p: string) returns (start: int)
    requires from <= |buf| && from <= |p| && buf[..from] == p[..from]
    ensures start == LastSlash(p[..from])
  {
    start := from - 1;
    while start >= 0 && buf[start] != '/'
      invariant -1 <= start < from
      invariant forall j :: start < j < from ==> buf[j] != '/'
    {
      start := start - 1;
    }
    assert forall j :: 0 <= j < from ==> buf[j] == p[..from][j];
  }

  lemma PlainFromEnd(path: string)
    requires Absolute(path)
    ensures PlainFrom(path, |path|, [])
  {
    assert path[..|path|] == path && path + [] == path;
  }

  lemma OverPlain(path: string, end: nat, kept: seq<string>)
    requires Absolute(path) && 0 < end <= |path| && PlainFrom(path, end, kept) && !IsDots(Segment(path, end))
    ensures PlainFrom(path, Before(path, end), [Segment(path, end)] + kept)
  {
    hide Parts, Render, Segment, Before, NoDots, IsDots;
    PartsOfPrefix(path, end);
    KeepText(path, end, kept);
    OnePlainMore(Parts(path[..Before(path, end)]), Segment(path, end), kept);
  }

  /** The first loop: skips the plain segments at the end of the path. */
  method FindDots(path: string) returns (end: nat, start: int, ghost kept: seq<string>)
    requires Absolute(path) && path != ""
    ensures end <= |path| && start == LastSlash(path[..end])
    ensures PlainFrom(path, end, kept)
    ensures end > 0 ==> IsDots(Segment(path, end))
  {
    hide PlainFrom, Segment, LastSlash;
    end := |path|;
    start := LastIndexOf(path, end);
    kept := [];
    PlainFromEnd(path);
    while end > 0
      invariant 0 <= end <= |path| && start == LastSlash(path[..end])
      invariant PlainFrom(path, end, kept)
    {
      SegmentChars(path, end);
      if end - start == 2 && path[start + 1] == '.' {
        return;
      }
      if end - start == 3 && path[start + 1] == '.' && path[start + 2] == '.' {
        return;
      }
      OverPlain(path, end, kept);
      kept := [Segment(path, end)] + kept;
      end := start;
      start := LastIndexOf(path, end - 1);
    }
  }

  lemma OnePlainMore(parts: seq<string>, s: string, kept: seq<string>)
    requires NoDots(kept) && !IsDots(s)
    ensures NoDots([s] + kept) && (parts + [s]) + kept == parts + ([s] + kept)
  {}

  /** The tests on the length of a segment and its characters tell the dots. */
  lemma SegmentChars(p: string, end: nat)
    requires Absolute(p) && 0 < end <= |p|
    ensures var s := Before(p, end);
      && (Segment(p, end) == "." <==> end - s == 2 && p[s + 1] == '.')
      && (Segment(p, end) == ".." <==> end - s == 3 && p[s + 1] == '.' && p[s + 2] == '.')
      && |Segment(p, end)| == end - s - 1
  {
    var s := Before(p, end);
    assert p[s + 1..end] == "." <==> end - s == 2 && p[s + 1] == '.';
    if end - s == 3 && p[s + 1] == '.' && p[s + 2] == '.' {
      assert p[s + 1..end] == "..";
    }
    if p[s + 1..end] == ".." {
      assert p[s + 1] == p[s + 1..end][0] && p[s + 2] == p[s + 1..end][1];
    }
  }

  /** The unscanned part of the buffer is still as in the path. */
  lemma SameUpTo(p: string, buf: string, end: nat, skip: nat, delStart: int, delEnd: int, shown: seq<string>, kept: seq<string>)
    requires Inv(p, buf, end, skip, delStart, delEnd, shown, kept) && end > 0
    ensures end <= |p| && Absolute(p) && end <= |buf| && buf[..end] == p[..end]
    ensures -1 <= delEnd <= |buf| && (delEnd < 0 ==> delStart == -1 && skip == 0)
  {
    hide Render, Meaning;
    if delEnd < 0 {
      assert buf[..end] == (p[..end] + Render(shown))[..end];
    } else {
      assert buf[..end] == (p[..delEnd] + Render(shown))[..end];
    }
  }

  /** What is to be deleted, and how many ".." are not yet cancelled. */
  datatype Pending = Pending(delStart: int, delEnd: int, skip: nat)

  ghost predicate Scanned(p: string, buf: string, end: nat, d: Pending, shown: seq<string>, kept: seq<string>) {
    Inv(p, buf, end, d.skip, d.delStart, d.delEnd, shown, kept)
  }

  /** The tests on the buffer tell the dots in the path. */
  lemma SegmentInBuffer(p: string, buf: string, end: nat, d: Pending, shown: seq<string>, kept: seq<string>)
    requires Scanned(p, buf, end, d, shown, kept) && end > 0
    ensures end <= |p| && Absolute(p) && end <= |buf| && buf[..end] == p[..end]
    ensures var s := Before(p, end);
      && (Segment(p, end) == "." <==> end - s == 2 && buf[s + 1] == '.')
      && (Segment(p, end) == ".." <==> end - s == 3 && buf[s + 1] == '.' && buf[s + 2] == '.')
  {
    SameUpTo(p, buf, end, d.skip, d.delStart, d.delEnd, shown, kept);
    hide Inv;
    SegmentChars(p, end);
    hide Segment, Before;
    assert forall i :: 0 <= i < end ==> buf[i] == buf[..end][i] == p[..end][i] == p[i];
  }

  /** A segment ".": it joins the region to be deleted; at the start of the path that
      region goes at once, unless a ".." is left over. */
  method OnDot(path: string, buf: string, end: nat, start: nat, d: Pending, ghost shown: seq<string>, ghost kept: seq<string>)
    returns (buf1: string, d1: Pending, ghost shown1: seq<string>)
    requires Scanned(path, buf, end, d, shown, kept) && end > 0
    requires start == Before(path, end) && Segment(path, end) == "."
    ensures Scanned(path, buf1, start, d1, shown1, kept)
    ensures d1.skip == d.skip
  {
    SameUpTo(path, buf, end, d.skip, d.delStart, d.delEnd, shown, kept);
    assert buf[start] == buf[..end][start] == path[..end][start] == '/';
    hide Inv, Segment, Delete, Before, Render;
    buf1, shown1 := buf, shown;
    var delEnd := if d.delEnd < 0 then end else d.delEnd;
    var delStart := start;
    if delStart == 0 && buf[delStart] == '/' {
      RootDotBounds(path, buf, end, d.skip, d.delStart, d.delEnd, shown, kept);
      RootDotBuffer(path, buf, delEnd, shown);
      delStart := delStart + 1;
      if delEnd < |buf| && buf[delEnd] == '/' {
        delEnd := delEnd + 1;
      }
      d1 := Pending(delStart, delEnd, d.skip);
      if d.skip > 0 {
        ScanRootDotAbove(path, buf, end, d.skip, d.delStart, d.delEnd, shown, kept, delStart, delEnd);
      } else if delEnd >= delStart {
        ScanRootDot(path, buf, end, d.delStart, d.delEnd, shown, kept);
        buf1 := Delete(buf, delStart, delEnd);
        d1 := Pending(-1, -1, 0);
        shown1 := if shown == [] then [""] else shown;
      }
    } else {
      ScanDot(path, buf, end, d.skip, d.delStart, d.delEnd, shown, kept);
      if end == |buf| {
        delStart := delStart + 1;
      }
      d1 := Pending(delStart, delEnd, d.skip);
    }
  }

  /** A segment "..": one more to cancel. */
  method OnDotDot(path: string, buf: string, end: nat, start: nat, d: Pending, ghost shown: seq<string>, ghost kept: seq<string>)
    returns (d1: Pending)
    requires Scanned(path, buf, end, d, shown, kept) && end > 0
    requires start == Before(path, end) && Segment(path, end) == ".."
    ensures Scanned(path, buf, start, d1, shown, kept)
    ensures d1.skip == d.skip + 1
  {
    SameUpTo(path, buf, end, d.skip, d.delStart, d.delEnd, shown, kept);
    ScanUp(path, buf, end, d.skip, d.delStart, d.delEnd, shown, kept);
    d1 := Pending(start, if d.delEnd < 0 then end else d.delEnd, d.skip + 1);
  }

  /** Deletes the region marked, unless a ".." is pending. */
  method DeleteMarked(buf: string, d: Pending) returns (buf1: string, d1: Pending)
    requires d.delEnd <= |buf|
    ensures if d.skip == 0 && 0 <= d.delStart <= d.delEnd
      then buf1 == Delete(buf, d.delStart, d.delEnd) && d1 == Pending(-1, -1, 0)
      else buf1 == buf && d1 == d
  {
    if d.skip <= 0 && d.delStart >= 0 && d.delEnd >= d.delStart {
      buf1 := Delete(buf, d.delStart, d.delEnd);
      d1 := Pending(-1, -1, d.skip);
    } else {
      buf1, d1 := buf, d;
    }
  }

  /** A pending ".." cancels the segment; the last one marks the region from the segment on. */
  method CancelPlain(path: string, buf: string, end: nat, start: nat, d: Pending, ghost shown: seq<string>, ghost kept: seq<string>)
    returns (buf1: string, d1: Pending, ghost shown1: seq<string>)
    requires Scanned(path, buf, end, d, shown, kept) && end > 0 && d.skip > 0
    requires start == Before(path, end) && !IsDots(Segment(path, end))
    ensures Scanned(path, buf1, start, d1, shown1, kept) && d1.skip == d.skip - 1
  {
    SegmentChars(path, end);
    SameUpTo(path, buf, end, d.skip, d.delStart, d.delEnd, shown, kept);
    hide Inv, Before, Segment, SlashStays, IsDots, Absolute, Delete;
    shown1 := shown;
    var delStart, delEnd, skip := d.delStart, d.delEnd, d.skip;
    if skip > 1 {
      ScanCancel(path, buf, end, skip, delStart, delEnd, shown, kept);
    } else {
      ScanLastCancel(path, buf, end, delStart, delEnd, shown, kept);
      shown1 := if SlashStays(path, end, shown) then [""] else shown;
    }
    skip := skip - 1;
    if skip == 0 {
      delStart := start;
      if end - start == 2 || end - start == 3 {
        if delStart > 0 && delEnd == |buf| && buf[delEnd - 1] == '.' {
          delStart := delStart + 1;
        }
      } else if delEnd == |buf| && buf[delEnd - 1] == '.' {
        delStart := delStart + 1;
      }
    }
    buf1, d1 := DeleteMarked(buf, Pending(delStart, delEnd, skip));
  }

  /** Any other segment: it is cancelled by a pending "..", or it stays; when nothing is
      left to cancel, the region waiting to be deleted goes. */
  method OnPlain(path: string, buf: string, end: nat, start: nat, d: Pending, ghost shown: seq<string>, ghost kept: seq<string>)
    returns (buf1: string, d1: Pending, ghost shown1: seq<string>, ghost kept1: seq<string>)
    requires Scanned(path, buf, end, d, shown, kept) && end > 0
    requires start == Before(path, end) && !IsDots(Segment(path, end))
    ensures Scanned(path, buf1, start, d1, shown1, kept1)
    ensures d1.skip == if d.skip > 0 then d.skip - 1 else 0
  {
    if d.skip > 0 {
      hide Scanned;
      kept1 := kept;
      buf1, d1, shown1 := CancelPlain(path, buf, end, start, d, shown, kept);
    } else {
      hide Inv, Before, Segment, IsDots, Delete;
      SameUpTo(path, buf, end, 0, d.delStart, d.delEnd, shown, kept);
      ScanKeep(path, buf, end, d.delStart, d.delEnd, shown, kept);
      shown1 := [Segment(path, end)] + (if d.delEnd >= 0 && d.delStart == end + 1 then [""] else shown);
      kept1 := [Segment(path, end)] + kept;
      buf1, d1 := DeleteMarked(buf, d);
    }
  }

  /** The path without "." and ".." segments, or nothing if it leads above its root.  The
      callers pass absolute paths.  The last deletion in the program, after the loop, never
      has anything to delete. */
  method CanonicalInPlace(path: string) returns (r: Option<string>)
    requires Absolute(path)
    ensures r == Canonical(path)
  {
    hide Scanned, Canonical, Parts, Segment, LastSlash, PlainFrom, IsDots;
    if path == "" {
      NothingToScan();
      return Some(path);
    }
    var end, start;
    ghost var kept;
    end, start, kept := FindDots(path);
    var buf := path;
    var d := Pending(-1, -1, 0);
    ghost var shown := kept;
    StartScan(path, end, kept);
    while end > 0
      invariant 0 <= end <= |path| && start == LastSlash(path[..end])
      invariant Scanned(path, buf, end, d, shown, kept)
    {
      SegmentInBuffer(path, buf, end, d, shown, kept);
      assert start == Before(path, end);
      DotsAre(Segment(path, end));
      hide Before;
      if end - start == 2 && buf[start + 1] == '.' {
        buf, d, shown := OnDot(path, buf, end, start, d, shown, kept);
      } else if end - start == 3 && buf[start + 1] == '.' && buf[start + 2] == '.' {
        d := OnDotDot(path, buf, end, start, d, shown, kept);
      } else {
        buf, d, shown, kept := OnPlain(path, buf, end, start, d, shown, kept);
      }
      end := start;
      if end > 0 {
        SegmentInBuffer(path, buf, end, d, shown, kept);
      }
      start := StepLeft(buf, end, path);
    }
    FinishScan(path, buf, d, shown, kept);
    assert d.skip == 0 ==> d.delEnd < 0;
    r := if d.skip > 0 then None else Some(buf);
  }

  lemma DotsAre(s: string)
    ensures IsDots(s) <==> s == "." || s == ".."
  {}

  lemma NothingToScan()
    ensures Canonical("") == Some("")
  {
    assert Parts("") == [] && Forward([]) == Walk(0, []);
    var none: seq<string> := [];
    assert none + none == none && Render(none) == "";
  }

  lemma StartScan(path: string, end: nat, kept: seq<string>)
    requires Absolute(path) && end <= |path| && PlainFrom(path, end, kept)
    ensures Scanned(path, path, end, Pending(-1, -1, 0), kept, kept)
  {
    ScanStarts(path, end, kept);
    hide Inv;
  }

  lemma FinishScan(path: string, buf: string, d: Pending, shown: seq<string>, kept: seq<string>)
    requires Scanned(path, buf, 0, d, shown, kept)
    ensures Absolute(path) && Canonical(path) == (if d.skip > 0 then None else Some(buf))
    ensures d.skip == 0 ==> d.delEnd < 0
  {
    ScanEnds(path, buf, d.skip, d.delStart, d.delEnd, shown, kept);
  }
}
