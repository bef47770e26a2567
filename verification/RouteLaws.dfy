/** Which paths a route matches, and that filling in a route and taking its paths apart undo
    each other.
  */
module RouteLaws {
  import opened Options
  import PathCleaning
  import opened PathWalk
  import opened RouteEntry
  import opened RoutePaths
  import opened Routes
  import StringUtils

  // ---------- routes without wildcards ----------

  /** Unless a route ends with a star, it matches only paths that end with a slash just when it
      does. */
  lemma EndingsAgree(pattern: string, path: string)
    requires !EndsWith(pattern, '*') && RoutePaths.Matches(pattern, path)
    ensures (path != "" && path[|path| - 1] == '/') <==> (pattern != "" && pattern[|pattern| - 1] == '/')
  {}

  /** No segment is a parameter or a star. */
  predicate Literal(pattern: string) {
    !EndsWith(pattern, '*') && forall s :: s in Segments(pattern) ==> s != "" && s[0] != ':' && s != "*"
  }

  /** A route without parameters and stars matches exactly the paths with the same segments and
      the same ending. */
  lemma LiteralMatchesIff(pattern: string, path: string)
    requires Literal(pattern)
    ensures RoutePaths.Matches(pattern, path) <==>
      Segments(path) == Segments(pattern) && (EndsWith(path, '/') <==> EndsWith(pattern, '/'))
  {
    var t, p := Segments(pattern), Segments(path);
    hide Segments;
    if |p| == |t| && AllMatch(t, p) {
      forall i | 0 <= i < |t| ensures t[i] == p[i] {
        assert t[i] in t && PartMatches(t[i], p[i]);
      }
      assert t == p;
    }
    if p == t {
      assert forall i :: 0 <= i < |t| ==> PartMatches(t[i], p[i]);
    }
  }

  /** A route that ends with a star as its last segment, or as the last character of a parameter,
      matches exactly the paths that begin like it and go on: with another segment, or with a
      slash at the end. */
  lemma StarMatchesIff(pattern: string, path: string)
    requires EndsWith(pattern, '*') && Segments(pattern) != []
    requires var last := Segments(pattern)[|Segments(pattern)| - 1]; last == "*" || last[0] == ':'
    ensures var t, p := Segments(pattern), Segments(path); var n := |t| - 1;
      RoutePaths.Matches(pattern, path) <==>
        |p| >= n && AllMatch(t[..n], p) && (|p| > n || EndsWith(path, '/'))
  {
    var t, p := Segments(pattern), Segments(path);
    var n := |t| - 1;
    hide Segments;
    assert forall i :: 0 <= i < n ==> t[..n][i] == t[i];
    if |p| > n {
      assert PartMatches(t[n], p[n]);
      assert AllMatch(t[..n], p) <==> AllMatch(t, p);
    } else if |p| == n {
      assert t[..|p|] == t[..n];
    }
  }

  /** A star behind a name is one more character of the name, but what follows in the path does
      not matter. */
  lemma NameStarMatchesIff(pattern: string, path: string)
    requires EndsWith(pattern, '*') && Segments(pattern) != []
    requires var last := Segments(pattern)[|Segments(pattern)| - 1]; last != "*" && last[0] != ':'
    ensures var t, p := Segments(pattern), Segments(path); var n := |t| - 1;
      RoutePaths.Matches(pattern, path) <==> |p| > n && AllMatch(t[..n], p) && p[n] == t[n]
  {
    var t, p := Segments(pattern), Segments(path);
    var n := |t| - 1;
    hide Segments;
    assert forall i :: 0 <= i < n ==> t[..n][i] == t[i];
    if |p| > n {
      assert PartMatches(t[n], p[n]) <==> p[n] == t[n];
      assert AllMatch(t[..n], p) && PartMatches(t[n], p[n]) <==> AllMatch(t, p);
    }
  }

  // ---------- filling in ----------

  predicate IsSegment(s: string) {
    s != "" && SlashFree(s)
  }

  /** A segment for every parameter, and one for every splat. */
  predicate Values(fold: Fold, t: seq<string>, params: map<string, string>, splats: seq<string>)
    decreases |t|
  {
    if t == [] then splats == []
    else if IsParam(t[0]) then
      fold(t[0]) in params && IsSegment(params[fold(t[0])]) && Values(fold, t[1..], params, splats)
    else if IsSplat(t[0]) then
      splats != [] && IsSegment(splats[0]) && Values(fold, t[1..], params, splats[1..])
    else Values(fold, t[1..], params, splats)
  }

  /** What is filled in stands at its place, and everything else is as in the route. */
  predicate InPlace(fold: Fold, t: seq<string>, params: map<string, string>, p: seq<string>) {
    && |p| == |t| && AllMatch(t, p)
    && (forall i :: 0 <= i < |t| && IsParam(t[i]) ==> fold(t[i]) in params && p[i] == params[fold(t[i])])
    && (forall i :: 0 <= i < |t| && !IsParam(t[i]) && !IsSplat(t[i]) ==> p[i] == t[i])
  }

  lemma InPlaceInFront(fold: Fold, t: seq<string>, params: map<string, string>, x: string, q: seq<string>)
    requires t != [] && InPlace(fold, t[1..], params, q)
    requires if IsParam(t[0]) then fold(t[0]) in params && x == params[fold(t[0])] else IsSplat(t[0]) || x == t[0]
    ensures InPlace(fold, t, params, [x] + q)
  {
    var p := [x] + q;
    assert forall i :: 1 <= i < |t| ==> t[i] == t[1..][i - 1] && p[i] == q[i - 1];
    forall i | 0 <= i < |t| ensures PartMatches(t[i], p[i]) {
      if i > 0 {
        assert PartMatches(t[1..][i - 1], q[i - 1]);
      }
    }
  }

  lemma {:induction false} FilledIn(fold: Fold, t: seq<string>, params: map<string, string>, splats: seq<string>)
    requires Values(fold, t, params, splats)
    ensures InPlace(fold, t, params, Fill(fold, t, params, splats))
    decreases |t|
  {
    if t != [] {
      var rest := if !IsParam(t[0]) && IsSplat(t[0]) then splats[1..] else splats;
      var x := if IsParam(t[0]) then params[fold(t[0])] else if IsSplat(t[0]) then splats[0] else t[0];
      FillFirst(fold, t, params, splats);
      FilledIn(fold, t[1..], params, rest);
      hide Fill, Values, InPlace;
      InPlaceInFront(fold, t, params, x, Fill(fold, t[1..], params, rest));
    }
  }

  lemma FillFirst(fold: Fold, t: seq<string>, params: map<string, string>, splats: seq<string>)
    requires t != [] && Values(fold, t, params, splats)
    ensures Fill(fold, t, params, splats) ==
      if IsParam(t[0]) then [params[fold(t[0])]] + Fill(fold, t[1..], params, splats)
      else if IsSplat(t[0]) then [splats[0]] + Fill(fold, t[1..], params, splats[1..])
      else [t[0]] + Fill(fold, t[1..], params, splats)
  {
    if !IsParam(t[0]) && IsSplat(t[0]) {
      OneSegment(splats[0]);
    }
    hide Segments;
  }

  /** A route whose parameters and splats have been filled in matches the path that results, if
      the endings agree. */
  lemma FilledMatches(
    fold: Fold, pattern: string, path: string, params: map<string, string>, splats: seq<string>)
    requires Values(fold, Segments(pattern), params, splats)
    requires Segments(path) == Fill(fold, Segments(pattern), params, splats)
    requires EndsWith(pattern, '*') || (EndsWith(path, '/') <==> EndsWith(pattern, '/'))
    ensures RoutePaths.Matches(pattern, path)
  {
    FilledIn(fold, Segments(pattern), params, splats);
    hide Segments, Fill, Values;
  }

  /** And taking the path apart gives back what was filled in. */
  lemma FilledReadsBack(fold: Fold, t: seq<string>, params: map<string, string>, splats: seq<string>)
    requires Values(fold, t, params, splats) && DistinctParams(fold, t)
    ensures var p := Fill(fold, t, params, splats);
      && |p| == |t|
      && (forall i :: 0 <= i < |t| && IsParam(t[i]) ==>
            fold(t[i]) in params && fold(t[i]) in Params(fold, p, t) && Params(fold, p, t)[fold(t[i])] == params[fold(t[i])])
      && SplatParts(p, t) == splats
  {
    var p := Fill(fold, t, params, splats);
    FilledIn(fold, t, params, splats);
    forall i | 0 <= i < |t| && IsParam(t[i])
      ensures fold(t[i]) in Params(fold, p, t) && Params(fold, p, t)[fold(t[i])] == params[fold(t[i])]
    {
      ParamsAt(fold, p, t, i);
    }
    FilledSplats(fold, t, params, splats);
    assert t[..|t|] == t;
    hide Fill, Values, Params, Splats;
  }

  /** The segments at the splats, from the front. */
  lemma {:induction false} SplatsFromFront(p: seq<string>, t: seq<string>)
    requires t != [] && |t| <= |p|
    ensures Splats(p, t) == (if IsSplat(t[0]) then [p[0]] else []) + Splats(p[1..], t[1..])
    decreases |t|
  {
    var n := |t| - 1;
    if n > 0 {
      SplatsFromFront(p, t[..n]);
      assert t[..n][1..] == t[1..][..n - 1] && p[1..][n - 1] == p[n];
    } else {
      assert t[..0] == [] && t[1..] == [];
    }
  }

  lemma {:induction false} FilledSplats(fold: Fold, t: seq<string>, params: map<string, string>, splats: seq<string>)
    requires Values(fold, t, params, splats)
    ensures var p := Fill(fold, t, params, splats); |p| == |t| && Splats(p, t) == splats
    decreases |t|
  {
    FilledIn(fold, t, params, splats);
    if t != [] {
      var splat := !IsParam(t[0]) && IsSplat(t[0]);
      var rest := if splat then splats[1..] else splats;
      var p, q := Fill(fold, t, params, splats), Fill(fold, t[1..], params, rest);
      FillFirst(fold, t, params, splats);
      FilledSplats(fold, t[1..], params, rest);
      assert splat ==> splats != [] && p[0] == splats[0] && splats == [splats[0]] + splats[1..];
      assert IsSplat(t[0]) ==> splat;
      hide Fill, Values, Splats, InPlace;
      assert |p| == |t| && p[1..] == q;
      SplatsFromFront(p, t);
      assert [] + splats == splats;
    }
  }

  // ---------- paths ----------

  /** The path with given segments, with or without a slash at its end. */
  function PathOf(parts: seq<string>, slash: bool): string {
    "/" + StringUtils.Join(parts, "/") + if slash then "/" else ""
  }

  /** Every list of segments is that of a path with either ending. */
  lemma PathOfHas(parts: seq<string>, slash: bool)
    requires parts != [] && Plain(parts)
    ensures Segments(PathOf(parts, slash)) == parts && (EndsWith(PathOf(parts, slash), '/') <==> slash)
  {
    var all := [""] + parts + if slash then [""] else [];
    JoinAround(parts, slash);
    forall i | 0 <= i < |all| ensures PathCleaning.Lacks(all[i], '/') {
      assert all[i] == "" || all[i] in parts;
    }
    StringUtils.SplitOfJoin(all, '/');
    NonEmptyAround(parts, slash);
    LastOfJoin(parts);
  }

  lemma JoinAround(parts: seq<string>, slash: bool)
    requires parts != []
    ensures StringUtils.Join([""] + parts + if slash then [""] else [], "/") == PathOf(parts, slash)
  {
    var front := [""] + parts;
    assert front[1..] == parts;
    var text := StringUtils.Join(front, "/");
    assert text == "" + "/" + StringUtils.Join(parts, "/") == "/" + StringUtils.Join(parts, "/");
    if slash {
      StringUtils.JoinSnoc(front, "", "/");
      assert text + "/" + "" == text + "/";
    } else {
      assert front + [] == front && text + "" == text;
    }
  }

  lemma {:induction false} NonEmptyBehind(parts: seq<string>)
    requires Plain(parts)
    ensures NonEmpty([""] + parts) == parts
  {
    var all := [""] + parts;
    if parts == [] {
      assert all[..0] == [];
    } else {
      var n := |parts| - 1;
      assert all[..n + 1] == [""] + parts[..n] && all[n + 1] == parts[n];
      NonEmptyBehind(parts[..n]);
      assert parts == parts[..n] + [parts[n]];
    }
  }

  lemma NonEmptyAround(parts: seq<string>, slash: bool)
    requires Plain(parts)
    ensures NonEmpty([""] + parts + if slash then [""] else []) == parts
  {
    NonEmptyBehind(parts);
    var front := [""] + parts;
    assert (front + [""])[..|front|] == front && parts + [] == parts && front + [] == front;
  }

  lemma {:induction false} LastOfJoin(parts: seq<string>)
    requires parts != [] && Plain(parts)
    ensures var text := StringUtils.Join(parts, "/"); text != "" && text[|text| - 1] != '/'
  {
    if |parts| == 1 {
      assert SlashFree(parts[0]);
    } else {
      LastOfJoin(parts[1..]);
    }
  }

  // ---------- entries ----------

  /** A filter for all paths matches every path, under its own method and no other. */
  lemma FilterMatchesAll(e: RouteEntry, httpMethod: HttpMethod, path: string)
    requires e.path == "+/*paths" && e.httpMethod in [BEFORE, AFTER, AFTERAFTER]
    ensures EntryMatches(e, httpMethod, path) <==> httpMethod == e.httpMethod
  {}

  /** Every other entry matches by its method and its route. */
  lemma EntryMatchesByRoute(e: RouteEntry, httpMethod: HttpMethod, path: string)
    requires e.path != "+/*paths" || e.httpMethod !in [BEFORE, AFTER, AFTERAFTER]
    ensures EntryMatches(e, httpMethod, path) <==> httpMethod == e.httpMethod && RoutePaths.Matches(e.path, path)
  {
    hide RoutePaths.Matches;
  }

  /** Whether an entry is for a path, whatever its method. */
  predicate Serves(e: RouteEntry, path: string) {
    (e.path == "+/*paths" && e.httpMethod in [BEFORE, AFTER, AFTERAFTER]) || RoutePaths.Matches(e.path, path)
  }

  /** Removing takes out exactly the entries for the path, of the method if one is given. */
  lemma KeptIff(routes: seq<RouteEntry>, httpMethod: Option<HttpMethod>, path: string, e: RouteEntry)
    ensures e in Kept(routes, httpMethod, path) <==>
      e in routes && !(Serves(e, path) && (httpMethod.None? || httpMethod.value == e.httpMethod))
  {
    hide RoutePaths.Matches;
    FilterHas(routes, x => !Removed(x, httpMethod, path), e);
    hide Filter;
  }

  /** And a request finds exactly the entries for its path of its method. */
  lemma MatchingIff(routes: seq<RouteEntry>, httpMethod: HttpMethod, path: string, e: RouteEntry)
    ensures e in Matching(routes, httpMethod, path) <==> e in routes && Serves(e, path) && e.httpMethod == httpMethod
  {
    hide RoutePaths.Matches;
    FilterHas(routes, x => EntryMatches(x, httpMethod, path), e);
    hide Filter;
  }
}
