/** How the two path normalisers compare. */
module NormaliserLaws {
  import opened PathWalk
  import opened UriPath
  import opened PathCleaning
  import CanonicalLaws

  lemma NoColonNoPrefix(p: string)
    requires Absolute(p) && p != "" && Lacks(p, ':') && Lacks(p, '\\')
    ensures Slashes(p) == p && PrefixLength(p) == 0 && Head(p) == "/" && p == "/" + p[1..]
  {
    hide PrefixLength;
    assert p[..1] == "/";
  }

  lemma ResolvedOfPlain(parts: seq<string>)
    requires NoDots(parts)
    ensures Resolved(parts) == parts
  {
    ForwardOfPlain(parts);
    hide Forward;
    assert Ups(0) + parts == parts;
  }

  lemma ResolvedOfRoot()
    ensures Joined(Resolved([])) == "" == Joined(Resolved([""]))
  {
    NothingJoined();
    ResolvedOfPlain([""]);
    ElementsOfJoined([""]);
  }

  lemma PartsOfRoot()
    ensures Parts("/") == [""]
  {
    RenderOne("");
    PartsOfRender([""]);
  }

  /** What cleaning makes of an absolute path that has no prefix. */
  lemma CleanOfAbsolute(p: string)
    requires Absolute(p) && p != "" && Lacks(p, ':') && Lacks(p, '\\')
    ensures Clean(p) == "/" + Joined(Resolved(Parts(p)))
  {
    NoColonNoPrefix(p);
    CleanOf(p, "/", p[1..]);
    ResolvedOfRoot();
    PartsOfRoot();
    hide Clean, Joined, Resolved, Parts;
    assert p[1..] == "" ==> p == "/";
  }

  lemma PlainClean(p: string)
    requires Absolute(p) && NoDots(Parts(p)) && Lacks(p, ':') && Lacks(p, '\\')
    ensures Clean(p) == p
  {
    if p == "" {
      ResolvedOfRoot();
      assert Slashes("") == "";
    } else {
      CleanOfAbsolute(p);
      ResolvedOfPlain(Parts(p));
      RenderIsJoined(Parts(p));
      RenderParts(p);
    }
  }

  lemma CanonicalLacks(p: string, c: char)
    requires Absolute(p) && Canonical(p).Some? && Lacks(p, c) && c != '/'
    ensures Lacks(Canonical(p).value, c)
  {
    var q := Canonical(p).value;
    PartsLack(p, c);
    CanonicalLaws.CanonicalParts(p);
    hide Canonical, Parts, Render;
    forall i | 0 <= i < |Parts(q)| ensures Lacks(Parts(q)[i], c) {
      assert Parts(q)[i] == "" || Parts(q)[i] in Parts(p);
    }
    RenderLacks(Parts(q), c);
    RenderParts(q);
  }

  /** Cleaning leaves a canonical path as it is. */
  lemma CleanKeepsCanonical(p: string)
    requires Absolute(p) && Lacks(p, ':') && Lacks(p, '\\')
    ensures Canonical(p).Some? ==> Clean(Canonical(p).value) == Canonical(p).value
  {
    if Canonical(p).Some? {
      CanonicalLacks(p, ':');
      CanonicalLacks(p, '\\');
      CanonicalLaws.CanonicalHasNoDots(p);
      PlainClean(Canonical(p).value);
    }
  }

  lemma JoinedUps(n: nat, stack: seq<string>)
    requires n > 0
    ensures StartsAbove("/" + Joined(Ups(n) + stack))
  {
    hide Render, Joined;
    var parts := Ups(n) + stack;
    assert parts[0] == "..";
    RenderIsJoined(parts);
    RenderFirst(parts);
    var tail := Render(parts[1..]);
    assert tail != "" ==> "/.." + tail == "/../" + tail[1..];
  }

  lemma RenderFirst(parts: seq<string>)
    requires parts != []
    ensures Render(parts) == ("/" + parts[0]) + Render(parts[1..])
  {
    var first := [parts[0]];
    assert parts == first + parts[1..];
    RenderAppend(first, parts[1..]);
    RenderOne(parts[0]);
  }

  lemma JoinedPlain(stack: seq<string>)
    requires NoDots(stack) && forall i :: 0 <= i < |stack| ==> SlashFree(stack[i])
    ensures !StartsAbove("/" + Joined(stack))
    ensures stack != [] ==> "/" + Joined(stack) == Render(stack)
    ensures stack == [] ==> "/" + Joined(stack) == "/" && Render(stack) == ""
  {
    if stack != [] {
      hide Render, Joined;
      RenderIsJoined(stack);
      RenderFirst(stack);
      FirstSegment(stack[0], Render(stack[1..]));
    }
  }

  lemma FirstSegment(first: string, tail: string)
    requires SlashFree(first) && first != ".." && Absolute(tail)
    ensures !StartsAbove(("/" + first) + tail)
  {
    var r := ("/" + first) + tail;
    if |first| < 2 {
      assert tail != "" ==> r[|first| + 1] == '/';
    } else {
      assert r[1] == first[0] && r[2] == first[1];
      assert |first| > 2 ==> r[3] == first[2];
    }
  }

  predicate StartsAbove(path: string) {
    path == "/.." || "/../" <= path
  }

  predicate SameUpToSlash(q: string, r: string) {
    q == r || q == r + "/" || q + "/" == r
  }

  lemma JoinedWalk(ups: nat, stack: seq<string>)
    requires NoDots(stack) && forall i :: 0 <= i < |stack| ==> SlashFree(stack[i])
    ensures var r := "/" + Joined(Ups(ups) + stack);
      && (ups > 0 <==> StartsAbove(r))
      && (ups == 0 ==> r == if stack == [] then "/" else Render(stack))
  {
    if ups > 0 {
      JoinedUps(ups, stack);
    } else {
      assert Ups(0) + stack == stack;
      JoinedPlain(stack);
    }
  }

  lemma OneSlashApart(q: string, stack: seq<string>)
    requires q == Render(stack) || q == Render(stack) + "/"
    ensures SameUpToSlash(q, if stack == [] then "/" else Render(stack))
  {}

  /** Both normalisers agree on absolute paths without backslash and colon, up to one slash
      at the end; where there is no canonical form, the clean path starts with "..". */
  lemma NormalisersAgree(p: string)
    requires Absolute(p) && p != "" && Lacks(p, ':') && Lacks(p, '\\')
    ensures Canonical(p).None? <==> StartsAbove(Clean(p))
    ensures Canonical(p).Some? ==> SameUpToSlash(Canonical(p).value, Clean(p))
  {
    CleanOfAbsolute(p);
    CanonicalLaws.CanonicalIsWhereTheWalkEnds(p);
    var w := Forward(Parts(p));
    StackHasNoDots(Parts(p));
    hide Clean, Canonical, Parts, Forward, Render, Joined, SameUpToSlash, StartsAbove;
    JoinedWalk(w.ups, w.stack);
    if Canonical(p).Some? {
      OneSlashApart(Canonical(p).value, w.stack);
    }
  }

  // ---------- prefixes and backslashes ----------

  /** Backslashes count as slashes, and none is left. */
  lemma BackslashesAreSlashes(path: string, other: string)
    requires |path| == |other|
    requires forall i :: 0 <= i < |path| ==> path[i] == other[i] || (path[i] == '\\' && other[i] == '/')
    ensures Clean(path) == Clean(other) && Lacks(Clean(path), '\\')
  {
    assert Slashes(path) == Slashes(other);
    CleanShape(path);
    hide Slashes, Head, Elements, Resolved, Joined;
  }

  /** What stands before the first colon is kept, and the rest is cleaned by itself. */
  lemma PrefixIsKept(prefix: string, rest: string)
    requires Lacks(prefix, ':') && Lacks(prefix, '\\') && Lacks(rest, ':')
    ensures Clean(prefix + ":" + rest) == prefix + ":" + Clean(rest)
  {
    var front, s := prefix + ":", Slashes(rest);
    assert Slashes(front + rest) == front + s;
    assert (front + s)[|prefix|] == ':' && forall i :: 0 <= i < |prefix| ==> (front + s)[i] == prefix[i];
    PrefixUnique(front + s, |front|);
    NoPrefix(s);
    assert (front + s)[..|front|] == front;
    HeadBehind(front, s);
    assert (front + s)[|front + Head(s)|..] == s[|Head(s)|..];
    hide Slashes, Elements, Resolved, Joined, Head;
    Regrouped(front, Head(s), Joined(Resolved(Elements(s[|Head(s)|..]))));
  }

  lemma Regrouped(a: string, b: string, c: string)
    ensures (a + b) + c == a + (b + c)
  {}

  lemma NoPrefix(s: string)
    requires Lacks(s, ':')
    ensures PrefixLength(s) == 0
    ensures Head(s) == if s != "" && s[0] == '/' then "/" else ""
  {}

  lemma HeadBehind(front: string, s: string)
    requires PrefixLength(front + s) == |front| && PrefixLength(s) == 0 && (front + s)[..|front|] == front
    ensures Head(front + s) == front + Head(s)
  {
    var n := |front|;
    hide PrefixLength;
    if s != "" && s[0] == '/' {
      assert (front + s)[n] == '/' && (front + s)[..n + 1] == front + s[..1];
    } else if s != "" {
      assert (front + s)[n] == s[0];
    }
    assert front + s[..0] == front;
  }

  /** A relative path is cleaned as the absolute one is, without the slash in front. */
  lemma RelativeAsAbsolute(rest: string)
    requires Lacks(rest, ':') && (rest == "" || (rest[0] != '/' && rest[0] != '\\'))
    ensures Clean("/" + rest) == "/" + Clean(rest)
  {
    var s := Slashes(rest);
    assert Slashes("/" + rest) == "/" + s;
    NoPrefix(s);
    NoPrefix("/" + s);
    assert ("/" + s)[1..] == s && s[0..] == s;
    hide Slashes, Elements, Resolved, Joined, Head, PrefixLength;
    var body := Joined(Resolved(Elements(s)));
    assert "" + body == body;
  }
}
