/** What the canonical form of an absolute path is good for. */
module CanonicalLaws {
  import opened Options
  import opened PathWalk
  import opened UriPath

  lemma CanonicalParts(p: string)
    requires Absolute(p) && Canonical(p).Some?
    ensures var w, q := Forward(Parts(p)), Canonical(p).value;
      && Absolute(q) && NoDots(Parts(q))
      && (Parts(q) == w.stack || Parts(q) == w.stack + [""])
      && (forall i :: 0 <= i < |Parts(q)| ==> Parts(q)[i] == "" || Parts(q)[i] in Parts(p))
  {
    var w := Forward(Parts(p));
    StackHasNoDots(Parts(p));
    var parts := w.stack + if KeepsSlash(Parts(p), 0, true, false) then [""] else [];
    hide Parts, Forward, Render, KeepsSlash;
    PartsOfRender(parts);
    assert w.stack + [] == w.stack;
  }

  /** The canonical form has no "." and no ".." segment. */
  lemma CanonicalHasNoDots(p: string)
    requires Absolute(p) && Canonical(p).Some?
    ensures Absolute(Canonical(p).value) && NoDots(Parts(Canonical(p).value))
  {
    CanonicalParts(p);
  }

  lemma NoSlashToKeep(parts: seq<string>)
    requires NoDots(parts)
    ensures !KeepsSlash(parts, 0, true, false)
  {
    if parts != [] {
      assert !IsDots(parts[|parts| - 1]);
    }
  }

  /** A path without dots is its own canonical form. */
  lemma CanonicalOfPlain(p: string)
    requires Absolute(p) && NoDots(Parts(p))
    ensures Canonical(p) == Some(p)
  {
    ForwardOfPlain(Parts(p));
    NoSlashToKeep(Parts(p));
    RenderParts(p);
    assert Parts(p) + [] == Parts(p);
  }

  /** The canonical form of a canonical form is that form. */
  lemma CanonicalIsFixed(p: string)
    requires Absolute(p) && Canonical(p).Some?
    ensures Absolute(Canonical(p).value) && Canonical(Canonical(p).value) == Canonical(p)
  {
    hide Canonical;
    CanonicalHasNoDots(p);
    CanonicalOfPlain(Canonical(p).value);
  }

  /** The canonical form names the place the walk ends at, up to one trailing slash. */
  lemma CanonicalIsWhereTheWalkEnds(p: string)
    requires Absolute(p)
    ensures Canonical(p).None? <==> Forward(Parts(p)).ups > 0
    ensures Canonical(p).Some? ==>
      var r := Render(Forward(Parts(p)).stack); Canonical(p).value == r || Canonical(p).value == r + "/"
  {
    var w := Forward(Parts(p));
    RenderAppend(w.stack, [""]);
    RenderOne("");
    assert w.stack + [] == w.stack;
  }

  // ---------- leading above the root ----------

  function Height(s: string): int {
    if s == "." then 0 else if s == ".." then -1 else 1
  }

  /** How many levels below the start a path ends, if it may leave the start upwards. */
  function Level(parts: seq<string>): int {
    if parts == [] then 0
    else
      Level(parts[..|parts| - 1]) + Height(parts[|parts| - 1])
  }

  lemma {:induction false} LevelOfWalk(parts: seq<string>)
    ensures Level(parts) == |Forward(parts).stack| - Forward(parts).ups
  {
    if parts != [] {
      LevelOfWalk(parts[..|parts| - 1]);
    }
  }

  lemma UpsSnoc(parts: seq<string>)
    requires parts != []
    ensures Forward(parts).ups > 0 <==> Forward(parts[..|parts| - 1]).ups > 0 || Level(parts) < 0
  {
    LevelOfWalk(parts);
    hide Level;
  }

  lemma NoUpsYet()
    ensures Forward([]).ups == 0 && Level([]) == 0
  {}

  lemma {:induction false} UpsMeansBelowStart(parts: seq<string>)
    ensures Forward(parts).ups > 0 <==> exists k :: 0 <= k <= |parts| && Level(parts[..k]) < 0
  {
    hide *;
    NoUpsYet();
    if parts != [] {
      var init := parts[..|parts| - 1];
      UpsMeansBelowStart(init);
      UpsSnoc(parts);
      assert parts[..|parts|] == parts;
      assert forall k :: 0 <= k <= |init| ==> init[..k] == parts[..k];
    } else {
      assert forall k :: 0 <= k <= |parts| ==> parts[..k] == [];
    }
  }

  /** There is no canonical form exactly when some beginning of the path goes up more often
      than down. */
  lemma NoCanonicalFormAboveRoot(p: string)
    requires Absolute(p)
    ensures Canonical(p).None? <==> exists k :: 0 <= k <= |Parts(p)| && Level(Parts(p)[..k]) < 0
  {
    UpsMeansBelowStart(Parts(p));
  }

  // ---------- the trailing slash ----------

  lemma PartsOfTwo(a: string, b: string)
    requires SlashFree(a) && SlashFree(b)
    ensures Absolute("/" + a + "/" + b) && Parts("/" + a + "/" + b) == [a, b]
  {
    PartsOfRender([a, b]);
    assert [a, b][..1] == [a] && [a][..0] == [];
    assert Render([a, b]) == "/" + a + "/" + b;
  }

  /** Whether a slash stays at the end depends on more than where the walk ends: going
      down and up again leaves "/" or nothing, depending on the length of the segment. */
  lemma SlashAfterDownAndUp(a: string)
    requires SlashFree(a) && !IsDots(a)
    ensures Absolute("/" + a + "/" + "..")
    ensures Canonical("/" + a + "/" + "..") == Some(if 1 <= |a| <= 2 then "" else "/")
  {
    PartsOfTwo(a, "..");
    var parts := [a, ".."];
    assert parts[..1] == [a] && [a][..0] == [];
    assert Forward([a]) == Walk(0, [a]) by {
      assert [] + [a] == [a];
    }
    assert Forward(parts) == Walk(0, []);
    RenderOne("");
    assert KeepsSlash(parts, 0, true, false) == KeepsSlash([a], 1, false, false);
    assert KeepsSlash([a], 1, false, false) == (|a| == 0 || |a| > 2);
    var empty: seq<string> := [];
    assert empty + [""] == [""] && empty + empty == empty;
    assert Render(empty) == "" && Render([""]) == "/" + "" == "/";
  }

  function Dots(n: nat): seq<string> {
    seq(n, i => ".")
  }

  lemma CanonicalIs(p: string)
    requires Absolute(p) && Forward(Parts(p)).ups == 0
    ensures Canonical(p) == Some(Render(Forward(Parts(p)).stack + if KeepsSlash(Parts(p), 0, true, false) then [""] else []))
  {
    hide Parts, Forward, Render, KeepsSlash;
  }

  lemma CanonicalWithSlash(p: string)
    requires Absolute(p) && Forward(Parts(p)).ups == 0
    ensures Canonical(p) == Some(Render(Forward(Parts(p)).stack) + if KeepsSlash(Parts(p), 0, true, false) then "/" else "")
  {
    CanonicalIs(p);
    hide *;
    var stack := Forward(Parts(p)).stack;
    RenderAppend(stack, [""]);
    RenderOne("");
    assert "/" + "" == "/" && stack + [] == stack && Render(stack) + "" == Render(stack);
  }

  lemma DotsSnoc(front: seq<string>, n: nat)
    requires n > 0
    ensures var parts := front + Dots(n); parts[..|parts| - 1] == front + Dots(n - 1) && parts[|parts| - 1] == "."
  {}

  lemma {:induction false} ScanDots(front: seq<string>, n: nat, atEnd: bool, single: bool)
    requires front == [] || !IsDots(front[|front| - 1])
    ensures KeepsSlash(front + Dots(n), 0, atEnd, single) ==
      if front == [] then n > 0 else if n == 0 then single else n == 1 && atEnd
    decreases n
  {
    if n == 0 {
      assert front + Dots(n) == front;
    } else {
      DotsSnoc(front, n);
      ScanDots(front, n - 1, false, atEnd);
    }
  }

  /** A path that ends with single dots, `n` of them: the slash stays after one, and after any
      number if there is nothing before them. */
  lemma SlashAfterDots(p: string, front: seq<string>, n: nat)
    requires Absolute(p) && Parts(p) == front + Dots(n) && Forward(Parts(p)).ups == 0
    requires front == [] || !IsDots(front[|front| - 1])
    ensures Canonical(p) == Some(Render(Forward(Parts(p)).stack) + if n > 0 && (front == [] || n == 1) then "/" else "")
  {
    ScanDots(front, n, true, false);
    CanonicalWithSlash(p);
    hide KeepsSlash, Parts, Forward, Render, Canonical;
  }

  /** What follows a segment goes up to the place before it, and not before its end. */
  predicate Cancels(rest: seq<string>, ups: nat) {
    Level(rest) == ups - 1 && forall k :: 0 <= k < |rest| && !IsDots(rest[k]) ==> Level(rest[k..]) < ups
  }

  lemma HeightOf(s: string)
    ensures Height(s) <= 1 && (Height(s) == 1 <==> !IsDots(s)) && (!IsDots(s) <==> s != "." && s != "..")
  {}

  lemma LevelSnoc(rest: seq<string>, s: string)
    ensures Level(rest + [s]) == Level(rest) + Height(s)
  {
    var more := rest + [s];
    assert more[..|more| - 1] == rest && more[|more| - 1] == s;
  }

  lemma LevelOfEnd(rest: seq<string>, s: string, k: nat)
    requires k <= |rest|
    ensures Level((rest + [s])[k..]) == Level(rest[k..]) + Height(s)
  {
    hide *;
    assert (rest + [s])[k..] == rest[k..] + [s];
    LevelSnoc(rest[k..], s);
  }

  lemma CancelsSnoc(rest: seq<string>, s: string, ups: nat)
    requires s != "." && s != ".." ==> ups > 1
    ensures Cancels(rest + [s], ups) <==> Cancels(rest, ups - Height(s))
  {
    var more := rest + [s];
    LevelSnoc(rest, s);
    forall k | 0 <= k < |rest| ensures more[k] == rest[k] && Level(more[k..]) == Level(rest[k..]) + Height(s) {
      LevelOfEnd(rest, s, k);
    }
    LevelOfEnd(rest, s, |rest|);
    assert more[|rest|] == s;
    assert Level(rest[|rest|..]) == 0 by {
      assert rest[|rest|..] == [];
    }
    assert !IsDots(s) ==> Height(s) == 1;
    hide Level, IsDots;
  }

  lemma CancelsPlain(rest: seq<string>, s: string, ups: nat)
    requires !IsDots(s) && Cancels(rest + [s], ups)
    ensures ups > 1
  {
    assert (rest + [s])[|rest|..] == [s] && [s][..0] == [] && (rest + [s])[|rest|] == s;
    assert Level([s]) == 1;
  }

  /** One step of the scan over a segment behind the one that is cancelled. */
  lemma ScanSnoc(front: seq<string>, s: string, skip: nat, atEnd: bool, single: bool)
    requires front != [] && (!IsDots(s) ==> skip > 1)
    ensures KeepsSlash(front + [s], skip, atEnd, single) ==
      KeepsSlash(front, skip - Height(s), false, s == "." && atEnd)
  {
    var parts := front + [s];
    assert parts[..|parts| - 1] == front && parts[|parts| - 1] == s;
  }

  lemma ScanStop(front: seq<string>, x: string, atEnd: bool, single: bool)
    requires !IsDots(x)
    ensures KeepsSlash(front + [x], 1, atEnd, single) <==> front != [] || |x| == 0 || |x| > 2
  {
    var parts := front + [x];
    assert parts[..|parts| - 1] == front && parts[|parts| - 1] == x;
  }

  lemma CancelsNothing(ups: nat)
    ensures Cancels([], ups) <==> ups == 1
  {}

  lemma {:induction false} ScanUps(front: seq<string>, x: string, rest: seq<string>, skip: nat, atEnd: bool, single: bool)
    requires !IsDots(x) && Cancels(rest, skip)
    ensures KeepsSlash(front + [x] + rest, skip, atEnd, single) <==> front != [] || |x| == 0 || |x| > 2
    decreases |rest|
  {
    if rest == [] {
      hide *;
      CancelsNothing(skip);
      assert front + [x] + rest == front + [x];
      ScanStop(front, x, atEnd, single);
    } else {
      var init, s := rest[..|rest| - 1], rest[|rest| - 1];
      assert rest == init + [s];
      hide *;
      if !IsDots(s) {
        CancelsPlain(init, s, skip);
      }
      assert front + [x] + rest == (front + [x] + init) + [s];
      HeightOf(s);
      CancelsSnoc(init, s, skip);
      ScanSnoc(front + [x] + init, s, skip, atEnd, single);
      ScanUps(front, x, init, skip - Height(s), false, s == "." && atEnd);
    }
  }

  /** A path whose end goes up from a segment `x` to the place before it: the slash stays, unless
      `x` comes first and is one or two characters long. */
  lemma SlashAfterUps(p: string, front: seq<string>, x: string, rest: seq<string>)
    requires Absolute(p) && Parts(p) == front + [x] + rest && Forward(Parts(p)).ups == 0
    requires !IsDots(x) && Cancels(rest, 0)
    ensures Canonical(p) == Some(Render(Forward(Parts(p)).stack) + if front == [] && 1 <= |x| <= 2 then "" else "/")
  {
    ScanUps(front, x, rest, 0, true, false);
    CanonicalWithSlash(p);
    hide KeepsSlash, Parts, Forward, Render, Canonical, Cancels;
  }

  lemma LevelOfNothing(parts: seq<string>)
    ensures Level(parts) > 0 ==> parts != []
  {}

  /** Where the segment is that is cancelled last. */
  lemma {:induction false} LastCancelled(parts: seq<string>, ups: nat) returns (k: nat)
    requires ups > 0 && Level(parts) >= ups
    ensures k < |parts| && !IsDots(parts[k]) && Cancels(parts[k + 1..], ups)
    decreases |parts|
  {
    LevelOfNothing(parts);
    hide *;
    var init, s := parts[..|parts| - 1], parts[|parts| - 1];
    assert init + [s] == parts;
    HeightOf(s);
    LevelSnoc(init, s);
    if Height(s) == 1 && ups == 1 {
      k := |parts| - 1;
      assert parts[k + 1..] == [];
      CancelsNothing(ups);
    } else {
      k := LastCancelled(init, ups - Height(s));
      CancelsSnoc(init[k + 1..], s, ups);
      assert init[k + 1..] + [s] == parts[k + 1..];
    }
  }

  /** How a path ends: with single dots, or none, behind nothing or a segment; or by going up
      from some segment to the place before it. */
  predicate EndsInDots(parts: seq<string>, n: nat) {
    n <= |parts| && parts == parts[..|parts| - n] + Dots(n) && (n == |parts| || !IsDots(parts[|parts| - n - 1]))
  }

  predicate EndsInUps(parts: seq<string>, k: nat) {
    k < |parts| && !IsDots(parts[k]) && Cancels(parts[k + 1..], 0)
  }

  lemma OneMoreDot(parts: seq<string>, n: nat)
    requires EndsInDots(parts, n)
    ensures EndsInDots(parts + ["."], n + 1)
  {
    var more := parts + ["."];
    assert more[..|more| - (n + 1)] == parts[..|parts| - n];
    assert Dots(n) + ["."] == Dots(n + 1);
  }

  lemma OneMoreUp(parts: seq<string>, k: nat, s: string)
    requires s == "." || s == ".."
    requires k < |parts| && !IsDots(parts[k]) && Cancels(parts[k + 1..], if s == "." then 0 else 1)
    ensures EndsInUps(parts + [s], k)
  {
    CancelsSnoc(parts[k + 1..], s, 0);
    hide Cancels, IsDots;
    assert (parts + [s])[k + 1..] == parts[k + 1..] + [s] && (parts + [s])[k] == parts[k];
  }

  lemma {:induction false} EndsSo(parts: seq<string>) returns (k: nat)
    requires Level(parts) >= 0
    ensures EndsInDots(parts, k) || EndsInUps(parts, k)
    decreases |parts|
  {
    if parts != [] && IsDots(parts[|parts| - 1]) {
      var init, s := parts[..|parts| - 1], parts[|parts| - 1];
      assert init + [s] == parts;
      if s == "." {
        k := EndsSo(init);
        hide EndsInDots, Level;
        if EndsInDots(init, k) {
          OneMoreDot(init, k);
          k := k + 1;
        } else {
          OneMoreUp(init, k, s);
        }
      } else {
        k := LastCancelled(init, 1);
        hide EndsInDots, Level;
        OneMoreUp(init, k, s);
      }
    } else {
      k := 0;
      assert parts[..|parts|] + Dots(0) == parts;
    }
  }

  /** Every path that has a canonical form ends in one of the two ways. */
  lemma EveryPathEndsSo(parts: seq<string>)
    requires Forward(parts).ups == 0
    ensures exists k: nat :: EndsInDots(parts, k) || EndsInUps(parts, k)
  {
    LevelOfWalk(parts);
    var k := EndsSo(parts);
  }

  lemma FrontOfDots(parts: seq<string>, k: nat)
    requires EndsInDots(parts, k)
    ensures k <= |parts|
    ensures var front := parts[..|parts| - k];
      && parts == front + Dots(k) && (front == [] || !IsDots(front[|front| - 1]))
      && (front == [] <==> k == |parts|)
  {
    hide IsDots, Dots;
  }

  lemma SlashBehindDots(p: string, k: nat)
    requires Absolute(p) && Forward(Parts(p)).ups == 0 && EndsInDots(Parts(p), k)
    ensures Canonical(p) == Some(Render(Forward(Parts(p)).stack) + if k > 0 && (k == |Parts(p)| || k == 1) then "/" else "")
  {
    var parts := Parts(p);
    var front := parts[..|parts| - k];
    FrontOfDots(parts, k);
    hide *;
    SlashAfterDots(p, front, k);
  }

  lemma AroundUps(parts: seq<string>, k: nat)
    requires EndsInUps(parts, k)
    ensures k < |parts| && !IsDots(parts[k]) && Cancels(parts[k + 1..], 0)
    ensures parts == parts[..k] + [parts[k]] + parts[k + 1..] && (parts[..k] == [] <==> k == 0)
  {
    hide IsDots, Cancels;
  }

  lemma SlashBehindUps(p: string, k: nat)
    requires Absolute(p) && Forward(Parts(p)).ups == 0 && EndsInUps(Parts(p), k)
    ensures Canonical(p) == Some(Render(Forward(Parts(p)).stack) + if k == 0 && 1 <= |Parts(p)[0]| <= 2 then "" else "/")
  {
    var parts := Parts(p);
    AroundUps(parts, k);
    hide *;
    SlashAfterUps(p, parts[..k], parts[k], parts[k + 1..]);
  }

  /** The trailing slash of every canonical form. */
  lemma TrailingSlash(p: string, k: nat)
    requires Absolute(p) && Forward(Parts(p)).ups == 0
    ensures EndsInDots(Parts(p), k) ==>
      Canonical(p) == Some(Render(Forward(Parts(p)).stack) + if k > 0 && (k == |Parts(p)| || k == 1) then "/" else "")
    ensures EndsInUps(Parts(p), k) ==>
      Canonical(p) == Some(Render(Forward(Parts(p)).stack) + if k == 0 && 1 <= |Parts(p)[0]| <= 2 then "" else "/")
  {
    if EndsInDots(Parts(p), k) {
      SlashBehindDots(p, k);
    }
    if EndsInUps(Parts(p), k) {
      SlashBehindUps(p, k);
    }
    hide *;
  }
}
