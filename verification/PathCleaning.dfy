/** The path clean-up borrowed from a well-known framework: works on any string, keeps what
    is above the start.
  */
module PathCleaning {
  import opened PathWalk

  // ---------- the helpers, on values ----------

  /** Backslashes become slashes. */
  function Slashes(s: string): (r: string)
    ensures |r| == |s|
    ensures forall i :: 0 <= i < |s| ==> r[i] == if s[i] == '\\' then '/' else s[i]
  {
    seq(|s|, i requires 0 <= i < |s| => if s[i] == '\\' then '/' else s[i])
  }

  /** The length of the part up to and including the first colon. */
  function PrefixLength(s: string): (r: nat)
    ensures r <= |s|
    ensures r > 0 ==> s[r - 1] == ':' && forall i :: 0 <= i < r - 1 ==> s[i] != ':'
    ensures r == 0 ==> forall i :: 0 <= i < |s| ==> s[i] != ':'
  {
    if s == "" then 0
    else if s[0] == ':' then 1
    else var r := PrefixLength(s[1..]); if r == 0 then 0 else r + 1
  }

  /** The elements between the slashes; the empty string has none. */
  function Elements(s: string): (r: seq<string>)
    ensures forall i :: 0 <= i < |r| ==> SlashFree(r[i])
  {
    if s == "" then [] else Parts("/" + s)
  }

  /** The elements with a slash between any two. */
  function Joined(parts: seq<string>): string {
    if parts == [] then "" else Render(parts)[1..]
  }

  function Ups(n: nat): (r: seq<string>)
    ensures |r| == n && forall i :: 0 <= i < n ==> r[i] == ".."
  {
    seq(n, i => "..")
  }

  /** Where the walk ends, with the steps above the start kept in front. */
  function Resolved(parts: seq<string>): seq<string> {
    var w := Forward(parts);
    Ups(w.ups) + w.stack
  }

  /** The part before the path proper: up to the colon, and a slash if one follows. */
  function Head(s: string): (r: string)
    ensures |r| <= |s| && s[..|r|] == r
  {
    var n := PrefixLength(s);
    if n < |s| && s[n] == '/' then s[..n + 1] else s[..n]
  }

  function Clean(path: string): string {
    var s := Slashes(path);
    var h := Head(s);
    h + Joined(Resolved(Elements(s[|h|..])))
  }

  // ---------- joining and splitting ----------

  lemma RenderIsJoined(parts: seq<string>)
    requires parts != []
    ensures Render(parts) == "/" + Joined(parts)
  {
    var r := Render(parts);
    assert r[0] == '/' && r == [r[0]] + r[1..];
  }

  /** Splitting undoes joining, except that the single empty element is lost. */
  lemma ElementsOfJoined(parts: seq<string>)
    requires forall i :: 0 <= i < |parts| ==> SlashFree(parts[i])
    ensures Elements(Joined(parts)) == if parts == [""] then [] else parts
    ensures Joined(parts) == "" <==> parts == [] || parts == [""]
  {
    if parts != [] {
      RenderIsJoined(parts);
      PartsOfRender(parts);
      if Joined(parts) == "" {
        RenderOne("");
        assert Render(parts) == "/" == Render([""]);
        PartsOfRender([""]);
      }
    }
    RenderOne("");
  }

  // ---------- cleaning twice ----------

  lemma {:induction false} ForwardOfUps(n: nat)
    ensures Forward(Ups(n)) == Walk(n, [])
  {
    if n > 0 {
      ForwardOfUps(n - 1);
      assert Ups(n)[..n - 1] == Ups(n - 1);
    }
  }

  lemma {:induction false} ForwardOfUpsAndPlain(n: nat, plain: seq<string>)
    requires NoDots(plain)
    ensures Forward(Ups(n) + plain) == Walk(n, plain)
  {
    if plain == [] {
      ForwardOfUps(n);
      assert Ups(n) + plain == Ups(n);
    } else {
      var init, s := plain[..|plain| - 1], plain[|plain| - 1];
      ForwardOfUpsAndPlain(n, init);
      assert (Ups(n) + plain)[..|Ups(n) + plain| - 1] == Ups(n) + init;
      assert !IsDots(s) && init + [s] == plain;
    }
  }

  /** What has been resolved resolves to itself. */
  lemma ResolvedTwice(parts: seq<string>)
    requires forall i :: 0 <= i < |parts| ==> SlashFree(parts[i])
    ensures Resolved(Resolved(parts)) == Resolved(parts)
    ensures forall i :: 0 <= i < |Resolved(parts)| ==> SlashFree(Resolved(parts)[i])
  {
    StackHasNoDots(parts);
    ForwardOfUpsAndPlain(Forward(parts).ups, Forward(parts).stack);
  }

  lemma JoinedAgain(parts: seq<string>)
    requires Resolved(parts) == parts
    requires forall i :: 0 <= i < |parts| ==> SlashFree(parts[i])
    ensures Joined(Resolved(Elements(Joined(parts)))) == Joined(parts)
  {
    hide Resolved, Elements, Joined;
    ElementsOfJoined(parts);
    NothingJoined();
  }

  lemma NothingJoined()
    ensures Joined(Resolved([])) == ""
  {
    assert Forward([]) == Walk(0, []);
    assert Ups(0) + [] == [];
  }

  /** A joined string that starts with a slash has an empty first element. */
  lemma JoinedTail(parts: seq<string>)
    requires forall i :: 0 <= i < |parts| ==> SlashFree(parts[i])
    requires Joined(parts) != "" && Joined(parts)[0] == '/'
    ensures |parts| > 1 && parts[0] == "" && Joined(parts) == "/" + Joined(parts[1..])
  {
    var head, rest := [parts[0]], parts[1..];
    assert parts == head + rest;
    RenderAppend(head, rest);
    RenderOne(parts[0]);
    RenderIsJoined(parts);
    var t := Render(rest);
    assert t == "" ==> rest == [];
    hide Render;
    assert "/" + Joined(parts) == ("/" + parts[0]) + t;
    assert Joined(parts) == parts[0] + t by {
      assert ("/" + Joined(parts))[1..] == Joined(parts);
      assert (("/" + parts[0]) + t)[1..] == parts[0] + t;
    }
    FirstOfConcat(parts[0], t);
    assert parts[0] == "" && Joined(parts) == t;
    RenderIsJoined(rest);
  }

  lemma FirstOfConcat(a: string, b: string)
    ensures a != "" ==> (a + b)[0] == a[0]
  {}

  lemma FirstOfUps(n: nat, parts: seq<string>)
    ensures n > 0 ==> (Ups(n) + parts)[0] == ".."
  {}

  lemma TailResolves(parts: seq<string>)
    requires Resolved(parts) == parts && |parts| > 1 && parts[0] == ""
    ensures Resolved(parts[1..]) == parts[1..]
  {
    var w := Forward(parts);
    FirstOfUps(w.ups, w.stack);
    assert Ups(0) + w.stack == w.stack;
    assert parts == w.stack;
    StackPlain(parts);
    hide Forward, Ups;
    assert forall i :: 0 <= i < |parts| - 1 ==> parts[1..][i] == parts[i + 1];
    ForwardOfPlain(parts[1..]);
    assert Ups(0) + parts[1..] == parts[1..];
  }

  lemma {:induction false} StackPlain(parts: seq<string>)
    ensures NoDots(Forward(parts).stack)
  {
    if parts != [] {
      StackPlain(parts[..|parts| - 1]);
    }
  }

  // ---------- characters ----------

  predicate Lacks(s: string, c: char) {
    forall i :: 0 <= i < |s| ==> s[i] != c
  }

  predicate AllLack(parts: seq<string>, c: char) {
    forall i :: 0 <= i < |parts| ==> Lacks(parts[i], c)
  }

  lemma {:induction false} PartsLack(s: string, c: char)
    requires Absolute(s) && Lacks(s, c)
    ensures AllLack(Parts(s), c)
    decreases |s|
  {
    if s != "" {
      PartsLack(s[..LastSlash(s)], c);
    }
  }

  lemma {:induction false} RenderLacks(parts: seq<string>, c: char)
    requires AllLack(parts, c) && c != '/'
    ensures Lacks(Render(parts), c)
  {
    if parts != [] {
      RenderLacks(parts[..|parts| - 1], c);
    }
  }

  lemma ResolvedLacks(parts: seq<string>, c: char)
    requires AllLack(parts, c) && c != '.' && forall i :: 0 <= i < |parts| ==> SlashFree(parts[i])
    ensures AllLack(Resolved(parts), c)
  {
    StackHasNoDots(parts);
    var w := Forward(parts);
    forall i | 0 <= i < |Resolved(parts)| ensures Lacks(Resolved(parts)[i], c) {
      if i < w.ups {
        assert Resolved(parts)[i] == "..";
      } else {
        assert Resolved(parts)[i] == w.stack[i - w.ups] && w.stack[i - w.ups] in parts;
      }
    }
  }

  /** Cleaning brings in no character but dots and slashes. */
  lemma BodyLacks(s: string, c: char)
    requires Lacks(s, c) && c != '.' && c != '/'
    ensures Lacks(Joined(Resolved(Elements(s))), c)
  {
    if s != "" {
      PartsLack("/" + s, c);
    }
    var es := Elements(s);
    ResolvedLacks(es, c);
    RenderLacks(Resolved(es), c);
  }

  // ---------- the laws ----------

  lemma {:induction false} PrefixUnique(r: string, n: nat)
    requires 0 < n <= |r| && r[n - 1] == ':' && forall i :: 0 <= i < n - 1 ==> r[i] != ':'
    ensures PrefixLength(r) == n
  {
    if n > 1 {
      assert r[0] != ':';
      PrefixUnique(r[1..], n - 1);
    }
  }

  lemma SamePrefix(s: string, r: string)
    requires PrefixLength(s) <= |r| && s[..PrefixLength(s)] == r[..PrefixLength(s)]
    requires PrefixLength(s) == 0 ==> Lacks(r, ':')
    ensures PrefixLength(r) == PrefixLength(s)
  {
    var n := PrefixLength(s);
    assert forall i :: 0 <= i < n ==> r[i] == r[..n][i] == s[..n][i] == s[i];
    if n > 0 {
      PrefixUnique(r, n);
    }
  }

  lemma NothingToReplace(r: string)
    requires Lacks(r, '\\')
    ensures Slashes(r) == r
  {}

  lemma HeadSize(s: string)
    ensures var h, n := Head(s), PrefixLength(s);
      |h| == n || (|h| == n + 1 && h[n] == '/')
  {}

  lemma LacksBoth(a: string, b: string, c: char)
    requires Lacks(a, c) && Lacks(b, c)
    ensures Lacks(a + b, c)
  {}

  lemma HeadStays(s: string, h: string, body: string, n: nat)
    requires n <= |h| <= |s| && s[..|h|] == h
    ensures s[..n] == (h + body)[..n]
  {
    assert s[..n] == s[..|h|][..n] == h[..n];
  }

  /** The parts a clean path is made of. */
  lemma CleanShape(path: string)
    ensures var s := Slashes(path);
      var es := Resolved(Elements(s[|Head(s)|..]));
      && Clean(path) == Head(s) + Joined(es)
      && Resolved(es) == es && (forall i :: 0 <= i < |es| ==> SlashFree(es[i]))
      && Lacks(Clean(path), '\\')
      && PrefixLength(Clean(path)) == PrefixLength(s)
  {
    var s := Slashes(path);
    var h := Head(s);
    var n := PrefixLength(s);
    HeadSize(s);
    hide Elements, Joined, Resolved, Head, PrefixLength, Slashes;
    var tail := s[|h|..];
    var body := Joined(Resolved(Elements(tail)));
    ResolvedTwice(Elements(tail));
    BodyLacks(tail, '\\');
    LacksBoth(h, body, '\\');
    HeadStays(s, h, body, n);
    if n == 0 {
      BodyLacks(tail, ':');
      LacksBoth(h, body, ':');
    }
    SamePrefix(s, h + body);
  }

  /** The head of a clean path: as before, or longer by a slash the body starts with. */
  lemma HeadAgain(h: string, n: nat, body: string)
    requires PrefixLength(h + body) == n
    requires |h| == n || (|h| == n + 1 && h[n] == '/')
    ensures var r := h + body;
      if |h| == n && body != "" && body[0] == '/' then Head(r) == h + "/" && r[|Head(r)|..] == body[1..]
      else Head(r) == h && r[|Head(r)|..] == body
  {
    var r := h + body;
    HeadOf(r);
    hide PrefixLength, Head;
    assert r[..|h|] == h && r[|h|..] == body;
    if |h| == n && body != "" {
      assert r[n] == body[0];
      assert r[n + 1..] == body[1..];
      assert body[0] == '/' ==> r[..n + 1] == h + "/";
    }
  }

  /** The body without the slash it starts with. */
  lemma TailAgain(es: seq<string>)
    requires Resolved(es) == es && forall i :: 0 <= i < |es| ==> SlashFree(es[i])
    requires Joined(es) != "" && Joined(es)[0] == '/'
    ensures "/" + Joined(Resolved(Elements(Joined(es)[1..]))) == Joined(es)
  {
    JoinedTail(es);
    TailResolves(es);
    hide Elements, Resolved, Joined, SlashFree;
    var rest := es[1..];
    assert forall i :: 0 <= i < |rest| ==> rest[i] == es[i + 1];
    JoinedAgain(rest);
    assert Joined(es)[1..] == Joined(rest);
  }

  lemma CleanBody(r: string, h: string, es: seq<string>)
    requires Slashes(r) == r && r == h + Joined(es)
    requires |h| == PrefixLength(r) || (|h| == PrefixLength(r) + 1 && h[PrefixLength(r)] == '/')
    requires Resolved(es) == es && forall i :: 0 <= i < |es| ==> SlashFree(es[i])
    ensures Clean(r) == r
  {
    hide Clean, Elements, Resolved, Joined, Slashes, Head, PrefixLength;
    var body := Joined(es);
    HeadAgain(h, PrefixLength(r), body);
    CleanOf(r, Head(r), r[|Head(r)|..]);
    if |h| == PrefixLength(r) && body != "" && body[0] == '/' {
      TailAgain(es);
      assert (h + "/") + Joined(Resolved(Elements(body[1..]))) == h + ("/" + Joined(Resolved(Elements(body[1..]))));
    } else {
      JoinedAgain(es);
    }
  }

  /** Cleaning a clean path changes nothing, for every string. */
  lemma CleanIsIdempotent(path: string)
    ensures Clean(Clean(path)) == Clean(path)
  {
    hide Clean, Elements, Resolved, Joined, Slashes, Head;
    CleanShape(path);
    var s := Slashes(path);
    HeadSize(s);
    NothingToReplace(Clean(path));
    CleanBody(Clean(path), Head(s), Resolved(Elements(s[|Head(s)|..])));
  }

  lemma HeadOf(r: string)
    ensures var n := PrefixLength(r);
      Head(r) == (if n < |r| && r[n] == '/' then r[..n + 1] else r[..n])
  {}

  lemma CleanOf(r: string, h: string, tail: string)
    requires Slashes(r) == r && h == Head(r) && tail == r[|h|..]
    ensures Clean(r) == h + Joined(Resolved(Elements(tail)))
  {}
}
