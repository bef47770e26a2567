/** Route patterns and the paths they stand for.

    A pattern is a list of segments: a name, a parameter (":id"), or a splat ("*"), which
    stands for one segment, or for all that follow when it comes last.
  */
module RoutePaths {
  import opened PathWalk
  import PathCleaning
  import StringUtils

  predicate EndsWith(s: string, c: char) {
    s != "" && s[|s| - 1] == c
  }

  predicate IsParam(part: string) {
    part != "" && part[0] == ':'
  }

  predicate IsSplat(part: string) {
    part == "*"
  }

  function NonEmpty(parts: seq<string>): (r: seq<string>)
    ensures forall i :: 0 <= i < |r| ==> r[i] != "" && r[i] in parts
  {
    if parts == [] then []
    else NonEmpty(parts[..|parts| - 1]) + if parts[|parts| - 1] == "" then [] else [parts[|parts| - 1]]
  }

  /** The segments of a route: what lies between slashes, without the empty pieces. */
  function Segments(route: string): (r: seq<string>)
    ensures forall i :: 0 <= i < |r| ==> r[i] != ""
  {
    NonEmpty(StringUtils.Split(route, "/"))
  }

  // ---------- matching ----------

  predicate PartMatches(pattern: string, part: string) {
    IsParam(pattern) || IsSplat(pattern) || pattern == part
  }

  predicate AllMatch(patterns: seq<string>, parts: seq<string>)
    requires |patterns| <= |parts|
  {
    forall i :: 0 <= i < |patterns| ==> PartMatches(patterns[i], parts[i])
  }

  /** Which paths a pattern matches.  One that does not end with a star matches segment by
      segment, and both or none of the two end with a slash.  One that ends with a star
      matches any path that has at least as many segments and starts with matching ones; a
      path that ends with a slash may also lack the last segment, if the pattern has a splat
      or a parameter there. */
  predicate Matches(pattern: string, path: string) {
    var t, p := Segments(pattern), Segments(path);
    if EndsWith(pattern, '*') then
      if |p| >= |t| then AllMatch(t, p)
      else
        && |p| == |t| - 1 && EndsWith(path, '/')
        && AllMatch(t[..|p|], p) && (IsSplat(t[|p|]) || IsParam(t[|p|]))
    else
      (EndsWith(path, '/') <==> EndsWith(pattern, '/')) && |p| == |t| && AllMatch(t, p)
  }

  lemma SelfMatches(pattern: string)
    ensures Matches(pattern, pattern)
  {}

  // ---------- taking a path apart ----------

  type Fold = string -> string

  /** Parameter names that differ, whatever the case they are written in. */
  predicate DistinctParams(fold: Fold, t: seq<string>) {
    forall i, j :: 0 <= i < j < |t| && IsParam(t[i]) && IsParam(t[j]) ==> fold(t[i]) != fold(t[j])
  }

  /** The segments at the parameters; a name that occurs twice has its last value. */
  function Params(fold: Fold, p: seq<string>, t: seq<string>): map<string, string>
    requires |t| <= |p|
  {
    if t == [] then map[]
    else
      var n := |t| - 1;
      var init := Params(fold, p, t[..n]);
      if IsParam(t[n]) then init[fold(t[n]) := p[n]] else init
  }

  /** The segments at the splats. */
  function Splats(p: seq<string>, t: seq<string>): seq<string>
    requires |t| <= |p|
  {
    if t == [] then []
    else
      var n := |t| - 1;
      Splats(p, t[..n]) + if IsSplat(t[n]) then [p[n]] else []
  }

  /** How many segments of the pattern have a counterpart. */
  function Common(p: seq<string>, t: seq<string>): (r: nat)
    ensures r <= |p| && r <= |t|
  {
    if |p| < |t| then |p| else |t|
  }

  /** A splat that comes last takes the rest of the path. */
  function SplatParts(p: seq<string>, t: seq<string>): seq<string> {
    var n := |t| - 1;
    if t != [] && |p| > |t| && IsSplat(t[n]) then Splats(p, t[..n]) + [StringUtils.Join(p[n..], "/")]
    else Splats(p, t[..Common(p, t)])
  }

  // ---------- putting it together again ----------

  /** A pattern with values for its parameters and splats.  What has no value is left
      out. */
  function Fill(fold: Fold, t: seq<string>, params: map<string, string>, splats: seq<string>): seq<string> {
    if t == [] then []
    else if IsParam(t[0]) then
      (if fold(t[0]) in params then [params[fold(t[0])]] else []) + Fill(fold, t[1..], params, splats)
    else if IsSplat(t[0]) then
      if splats == [] then Fill(fold, t[1..], params, splats)
      else Segments(splats[0]) + Fill(fold, t[1..], params, splats[1..])
    else [t[0]] + Fill(fold, t[1..], params, splats)
  }

  lemma SegmentsSlashFree(s: string)
    ensures forall i :: 0 <= i < |Segments(s)| ==> Segments(s)[i] != "" && SlashFree(Segments(s)[i])
  {
    StringUtils.SplitIsElements(s);
    var parts := StringUtils.Split(s, "/");
    if s != "" {
      forall i | 0 <= i < |Segments(s)| ensures SlashFree(Segments(s)[i]) {
        assert Segments(s)[i] in parts;
      }
    } else {
      assert parts == [""];
    }
  }

  predicate Plain(parts: seq<string>) {
    forall i :: 0 <= i < |parts| ==> parts[i] != "" && SlashFree(parts[i])
  }

  lemma {:induction false} NonEmptyOfPlain(parts: seq<string>)
    requires Plain(parts)
    ensures NonEmpty(parts) == parts
  {
    if parts != [] {
      NonEmptyOfPlain(parts[..|parts| - 1]);
      assert parts == parts[..|parts| - 1] + [parts[|parts| - 1]];
    }
  }

  /** Segments are found again in the route that they make up. */
  lemma SegmentsOfJoin(parts: seq<string>)
    requires parts != [] && Plain(parts)
    ensures Segments(StringUtils.Join(parts, "/")) == parts
  {
    forall i | 0 <= i < |parts| ensures PathCleaning.Lacks(parts[i], '/') {}
    StringUtils.SplitOfJoin(parts, '/');
    NonEmptyOfPlain(parts);
  }

  lemma {:induction false} ParamsKeys(fold: Fold, p: seq<string>, t: seq<string>, x: string)
    requires |t| <= |p| && x in Params(fold, p, t)
    ensures exists i :: 0 <= i < |t| && IsParam(t[i]) && fold(t[i]) == x
    decreases |t|
  {
    var n := |t| - 1;
    if IsParam(t[n]) && fold(t[n]) == x {
    } else {
      ParamsKeys(fold, p, t[..n], x);
    }
  }

  /** With distinct names each parameter has the segment at its place. */
  lemma {:induction false} ParamsAt(fold: Fold, p: seq<string>, t: seq<string>, i: nat)
    requires |t| <= |p| && DistinctParams(fold, t) && i < |t| && IsParam(t[i])
    ensures fold(t[i]) in Params(fold, p, t) && Params(fold, p, t)[fold(t[i])] == p[i]
    decreases |t|
  {
    var n := |t| - 1;
    if i < n {
      ParamsAt(fold, p, t[..n], i);
      assert t[..n][i] == t[i];
    }
  }

  lemma SplatsSnoc(p: seq<string>, t: seq<string>, k: nat)
    requires k < |t| <= |p|
    ensures Splats(p, t[..k + 1]) == Splats(p, t[..k]) + (if IsSplat(t[k]) then [p[k]] else [])
  {
    assert t[..k + 1][..k] == t[..k];
  }

  lemma {:induction false} SplatsPrefix(p: seq<string>, t: seq<string>, k: nat, c: nat)
    requires k <= c <= |t| && c <= |p|
    ensures Splats(p, t[..k]) <= Splats(p, t[..c])
    decreases c
  {
    if k < c {
      SplatsPrefix(p, t, k, c - 1);
      assert t[..c][..c - 1] == t[..c - 1];
    }
  }

  lemma OneSegment(s: string)
    requires s != "" && SlashFree(s)
    ensures Segments(s) == [s]
  {
    SegmentsOfJoin([s]);
  }

  /** The splats that the first `k` segments of a pattern leave. */
  function Left(p: seq<string>, t: seq<string>, splats: seq<string>, k: nat): seq<string>
    requires k <= |t| && k <= |p|
  {
    var n := |Splats(p, t[..k])|;
    if n <= |splats| then splats[n..] else []
  }

  lemma FillOne(fold: Fold, p: seq<string>, t: seq<string>, params: map<string, string>, splats: seq<string>, k: nat, c: nat)
    requires k < c <= |t| && c <= |p| && Plain(p) && PartMatches(t[k], p[k])
    requires IsParam(t[k]) ==> fold(t[k]) in params && params[fold(t[k])] == p[k]
    requires Splats(p, t[..c]) <= splats
    ensures Fill(fold, t[k..], params, Left(p, t, splats, k)) == [p[k]] + Fill(fold, t[k + 1..], params, Left(p, t, splats, k + 1))
  {
    assert t[..c][..k] == t[..k] && t[..c][..k + 1] == t[..k + 1] && t[..c][k] == t[k];
    SplatHere(p, t[..c], splats, k);
    FillStep(fold, t, params, Left(p, t, splats, k), k);
    PlainAt(p, k);
    OneSegment(p[k]);
    hide Fill, Splats, Segments, Plain;
  }

  /** The part of a pattern from segment `k` to segment `c`, with the values that come with
      it, is that part of the path, followed by what the rest of the pattern makes of the
      splats that are left. */
  lemma {:induction false} FillFrom(
    fold: Fold, p: seq<string>, t: seq<string>, params: map<string, string>, splats: seq<string>, k: nat, c: nat)
    requires k <= c <= |t| && c <= |p| && Plain(p)
    requires forall i :: 0 <= i < c ==> PartMatches(t[i], p[i])
    requires forall i :: 0 <= i < c && IsParam(t[i]) ==> fold(t[i]) in params && params[fold(t[i])] == p[i]
    requires Splats(p, t[..c]) <= splats
    ensures Fill(fold, t[k..], params, Left(p, t, splats, k)) == p[k..c] + Fill(fold, t[c..], params, Left(p, t, splats, c))
    decreases c - k
  {
    hide Fill, Splats, Segments, Plain, Left, PartMatches;
    if k < c {
      FillFrom(fold, p, t, params, splats, k + 1, c);
      FillOne(fold, p, t, params, splats, k, c);
      FrontOf(p, k, c, Fill(fold, t[c..], params, Left(p, t, splats, c)));
    } else {
      assert p[k..c] == [];
    }
  }

  lemma FrontOf(p: seq<string>, k: nat, c: nat, rest: seq<string>)
    requires k < c <= |p|
    ensures [p[k]] + (p[k + 1..c] + rest) == p[k..c] + rest
  {}

  lemma PlainAt(parts: seq<string>, k: nat)
    requires Plain(parts) && k < |parts|
    ensures parts[k] != "" && SlashFree(parts[k])
  {}

  lemma FillStep(fold: Fold, t: seq<string>, params: map<string, string>, splats: seq<string>, k: nat)
    requires k < |t|
    ensures Fill(fold, t[k..], params, splats) ==
      if IsParam(t[k]) then
        (if fold(t[k]) in params then [params[fold(t[k])]] else []) + Fill(fold, t[k + 1..], params, splats)
      else if IsSplat(t[k]) then
        if splats == [] then Fill(fold, t[k + 1..], params, splats)
        else Segments(splats[0]) + Fill(fold, t[k + 1..], params, splats[1..])
      else [t[k]] + Fill(fold, t[k + 1..], params, splats)
  {
    assert t[k..][0] == t[k] && t[k..][1..] == t[k + 1..];
  }

  lemma SplatHere(p: seq<string>, t: seq<string>, splats: seq<string>, k: nat)
    requires k < |t| <= |p| && Splats(p, t) <= splats
    ensures |Splats(p, t[..k])| <= |splats| && |Splats(p, t[..k + 1])| <= |splats|
    ensures var s, s1 := splats[|Splats(p, t[..k])|..], splats[|Splats(p, t[..k + 1])|..];
      if IsSplat(t[k]) then s != [] && s[0] == p[k] && s1 == s[1..] else s1 == s
  {
    SplatsPrefix(p, t, k + 1, |t|);
    assert t[..|t|] == t;
    SplatsSnoc(p, t, k);
  }

  /** A path that is not longer than the pattern, or one whose rest a splat has taken. */
  predicate Captured(t: seq<string>, p: seq<string>) {
    |p| <= |t| || (t != [] && IsSplat(t[|t| - 1]))
  }

  ghost predicate Agree(t: seq<string>, p: seq<string>) {
    && Plain(p)
    && (forall i :: 0 <= i < Common(p, t) ==> PartMatches(t[i], p[i]))
    && (|p| < |t| ==> |p| == |t| - 1 && (IsSplat(t[|p|]) || IsParam(t[|p|])))
  }

  lemma WholePath(p: seq<string>)
    ensures p[..|p|] == p
  {}

  lemma AllParams(fold: Fold, t: seq<string>, p: seq<string>)
    requires DistinctParams(fold, t)
    ensures var c := Common(p, t);
      var params := Params(fold, p, t[..c]);
      && (forall i :: 0 <= i < c && IsParam(t[i]) ==> fold(t[i]) in params && params[fold(t[i])] == p[i])
      && (c < |t| && IsParam(t[c]) ==> fold(t[c]) !in params)
  {
    var c := Common(p, t);
    var params := Params(fold, p, t[..c]);
    forall i | 0 <= i < c && IsParam(t[i]) ensures fold(t[i]) in params && params[fold(t[i])] == p[i] {
      ParamsAt(fold, p, t[..c], i);
    }
    if c < |t| && IsParam(t[c]) && fold(t[c]) in params {
      ParamsKeys(fold, p, t[..c], fold(t[c]));
      assert false;
    }
  }

  /** The path is as long as the pattern's part it agrees with. */
  lemma FillShort(fold: Fold, t: seq<string>, p: seq<string>)
    requires Agree(t, p) && DistinctParams(fold, t)
    requires |p| <= |t| || t == [] || !IsSplat(t[|t| - 1])
    ensures var c := Common(p, t);
      Fill(fold, t, Params(fold, p, t[..c]), SplatParts(p, t)) == p[..c]
  {
    var c := Common(p, t);
    var params, splats := Params(fold, p, t[..c]), SplatParts(p, t);
    assert splats == Splats(p, t[..c]);
    AllParams(fold, t, p);
    assert t[..0] == [] && t[0..] == t && splats[0..] == splats && splats[|splats|..] == [];
    FillFrom(fold, p, t, params, splats, 0, c);
    NoSplats(p, t);
    hide Splats, SplatParts, Params, Segments, Plain;
    assert Fill(fold, t[c..], params, []) == [] by {
      if c < |t| {
        FillStep(fold, t, params, [], c);
        assert t[c + 1..] == [];
      }
    }
    assert p[0..c] == p[..c] && p[0..c] + [] == p[0..c];
  }

  lemma NoSplats(p: seq<string>, t: seq<string>)
    ensures Splats(p, t[..0]) == []
  {}

  /** A splat at the end takes what is left. */
  lemma FillLong(fold: Fold, t: seq<string>, p: seq<string>)
    requires Agree(t, p) && DistinctParams(fold, t)
    requires t != [] && |p| > |t| && IsSplat(t[|t| - 1])
    ensures Fill(fold, t, Params(fold, p, t), SplatParts(p, t)) == p
  {
    var n := |t| - 1;
    var params, splats := Params(fold, p, t), SplatParts(p, t);
    var rest := StringUtils.Join(p[n..], "/");
    assert t[..|t|] == t;
    AllParams(fold, t, p);
    assert Plain(p[n..]);
    SegmentsOfJoin(p[n..]);
    assert splats == Splats(p, t[..n]) + [rest];
    hide Splats, SplatParts, Params, Segments, Plain, Fill, DistinctParams;
    FillFrom(fold, p, t, params, splats, 0, n);
    NoSplats(p, t);
    FillLast(fold, t, params, rest);
    Around(t, p, n, Splats(p, t[..n]), rest);
  }

  lemma FillLast(fold: Fold, t: seq<string>, params: map<string, string>, rest: string)
    requires t != [] && IsSplat(t[|t| - 1])
    ensures Fill(fold, t[|t| - 1..], params, [rest]) == Segments(rest)
  {
    hide Segments;
    FillStep(fold, t, params, [rest], |t| - 1);
    assert t[|t|..] == [] && [rest][1..] == [];
  }

  lemma Around(t: seq<string>, p: seq<string>, n: nat, taken: seq<string>, rest: string)
    requires n <= |p|
    ensures (taken + [rest])[|taken|..] == [rest] && (taken + [rest])[0..] == taken + [rest]
    ensures t[0..] == t && p[0..n] + p[n..] == p
  {}

  /** The values taken from a path that matches, put back into the pattern, give the path's
      segments, exactly when nothing is left over that no splat has taken. */
  lemma FillGivesPathIff(fold: Fold, t: seq<string>, p: seq<string>)
    requires Agree(t, p) && DistinctParams(fold, t)
    ensures Fill(fold, t, Params(fold, p, t[..Common(p, t)]), SplatParts(p, t)) == p <==> Captured(t, p)
  {
    hide Fill, Params, SplatParts, Agree;
    if |p| > |t| && t != [] && IsSplat(t[|t| - 1]) {
      assert t[..|t|] == t;
      FillLong(fold, t, p);
    } else {
      FillShort(fold, t, p);
      WholePath(p);
    }
  }

  lemma MatchesAgree(pattern: string, path: string)
    requires Matches(pattern, path)
    ensures Agree(Segments(pattern), Segments(path))
    ensures EndsWith(pattern, '*') || |Segments(path)| == |Segments(pattern)|
  {
    SegmentsSlashFree(path);
    var t, p := Segments(pattern), Segments(path);
    assert |p| == |t| - 1 && AllMatch(t[..|p|], p) ==> forall i :: 0 <= i < |p| ==> t[..|p|][i] == t[i];
    hide Segments;
  }

  /** For every pattern and every path that it matches: the path can be put together again
      from its parameters and splats, unless the pattern ends with a star that is not a
      segment of its own and the path has more segments than the pattern. */
  lemma RebuildIff(fold: Fold, pattern: string, path: string)
    requires Matches(pattern, path) && DistinctParams(fold, Segments(pattern))
    ensures var t, p := Segments(pattern), Segments(path);
      Fill(fold, t, Params(fold, p, t[..Common(p, t)]), SplatParts(p, t)) == p <==> Captured(t, p)
  {
    MatchesAgree(pattern, path);
    FillGivesPathIff(fold, Segments(pattern), Segments(path));
  }

  // ---------- stars that are not segments ----------

  lemma SegmentsOfTwo(a: string, b: string)
    requires Plain([a, b])
    ensures Segments("/" + a) == [a] && Segments("/" + a + "/" + b) == [a, b]
  {
    var parts := ["", a, b];
    assert PathCleaning.AllLack(parts, '/');
    StringUtils.SplitOfJoin(parts, '/');
    StringUtils.SplitOfJoin(["", a], '/');
    JoinOfThree(a, b);
    NonEmptyOfTwo(a, b);
    hide StringUtils.Join, StringUtils.Split, NonEmpty;
  }

  lemma JoinOfThree(a: string, b: string)
    ensures StringUtils.Join(["", a], "/") == "/" + a
    ensures StringUtils.Join(["", a, b], "/") == "/" + a + "/" + b
  {
    StringUtils.JoinSnoc([""], a, "/");
    StringUtils.JoinSnoc(["", a], b, "/");
    assert [""] + [a] == ["", a] && ["", a] + [b] == ["", a, b];
    assert StringUtils.Join([""], "/") == "";
    hide StringUtils.Join;
    assert "" + "/" + a == "/" + a;
  }

  lemma NonEmptyOfTwo(a: string, b: string)
    requires a != "" && b != ""
    ensures NonEmpty(["", a]) == [a] && NonEmpty(["", a, b]) == [a, b]
  {
    assert ["", a, b][..2] == ["", a] && ["", a][..1] == [""] && [""][..0] == [];
    assert NonEmpty([""]) == [];
    assert [a] + [b] == [a, b] && [] + [a] == [a];
  }

  /** A star at the end of a longer segment is no wildcard for that segment, but lets the
      pattern match longer paths, of which it captures nothing. */
  lemma StarInsideSegment(name: string, more: string)
    requires name != "" && SlashFree(name) && name[0] != ':' && more != "" && SlashFree(more)
    ensures var pattern, path := "/" + (name + "*"), "/" + (name + "*") + "/" + more;
      Matches(pattern, path) && !Captured(Segments(pattern), Segments(path))
  {
    var star := name + "*";
    assert star[|star| - 1] == '*' && star != "*";
    SegmentsOfTwo(star, more);
    var pattern := "/" + star;
    assert pattern[|pattern| - 1] == '*';
  }
}
