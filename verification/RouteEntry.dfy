/** Route entries: taking routes apart, matching them, and reading parameters and splats from
    a path that matches.
  */
module RouteEntry {
  import StringUtils
  import opened RoutePaths

  const ALL_PATHS := "+/*paths"

  datatype HttpMethod =
    | GET | POST | PUT | PATCH | DELETE | HEAD | TRACE | CONNECT | OPTIONS
    | BEFORE | AFTER | AFTERAFTER | UNSUPPORTED

  datatype RouteEntry = RouteEntry(httpMethod: HttpMethod, path: string, acceptedType: string, target: int)

  predicate IsFilter(m: HttpMethod) {
    m == BEFORE || m == AFTER || m == AFTERAFTER
  }

  /** A filter for all paths matches whatever the path is. */
  predicate EntryMatches(e: RouteEntry, httpMethod: HttpMethod, path: string) {
    e.httpMethod == httpMethod && ((IsFilter(httpMethod) && e.path == ALL_PATHS) || RoutePaths.Matches(e.path, path))
  }

  method ConvertRouteToList(route: string) returns (path: seq<string>)
    ensures path == Segments(route)
  {
    var pathArray := StringUtils.Split(route, "/");
    path := [];
    for i := 0 to |pathArray|
      invariant path == NonEmpty(pathArray[..i])
    {
      assert pathArray[..i + 1][..i] == pathArray[..i];
      var p := pathArray[i];
      if |p| > 0 {
        path := path + [p];
      }
    }
    assert pathArray[..|pathArray|] == pathArray;
  }

  lemma SegmentsOfStar(pattern: string)
    requires EndsWith(pattern, '*')
    ensures Segments(pattern) != []
  {
    StringUtils.SplitIsElements(pattern);
    var parts := StringUtils.Split(pattern, "/");
    StringUtils.JoinOfSplit(pattern, "/");
    if Segments(pattern) == [] {
      AllEmpty(parts);
      SlashesOnly(parts);
      assert false;
    }
  }

  lemma {:induction false} AllEmpty(parts: seq<string>)
    requires NonEmpty(parts) == []
    ensures forall i :: 0 <= i < |parts| ==> parts[i] == ""
  {
    if parts != [] {
      AllEmpty(parts[..|parts| - 1]);
      assert forall i :: 0 <= i < |parts| - 1 ==> parts[..|parts| - 1][i] == parts[i];
    }
  }

  lemma {:induction false} SlashesOnly(parts: seq<string>)
    requires forall i :: 0 <= i < |parts| ==> parts[i] == ""
    ensures var s := StringUtils.Join(parts, "/"); forall i :: 0 <= i < |s| ==> s[i] == '/'
  {
    if parts != [] {
      assert parts[0] == "";
      if |parts| > 1 {
        SlashesOnly(parts[1..]);
        assert StringUtils.Join(parts, "/") == "/" + StringUtils.Join(parts[1..], "/");
      }
    }
  }

  /** The loop over both lists, which stops at the first segment that does not match, and at a
      splat that comes last. */
  method MatchParts(thisPathList: seq<string>, pathList: seq<string>, thisPath: string) returns (r: bool)
    requires |thisPathList| <= |pathList|
    ensures r == AllMatch(thisPathList, pathList)
  {
    for i := 0 to |thisPathList|
      invariant AllMatch(thisPathList[..i], pathList)
    {
      var thisPathPart := thisPathList[i];
      var pathPart := pathList[i];
      if i == |thisPathList| - 1 && thisPathPart == "*" && EndsWith(thisPath, '*') {
        return true;
      }
      if !IsParam(thisPathPart) && thisPathPart != pathPart && thisPathPart != "*" {
        assert !PartMatches(thisPathList[i], pathList[i]);
        return false;
      }
    }
    return true;
  }

  method MatchPath(thisPath: string, path: string) returns (r: bool)
    ensures r == RoutePaths.Matches(thisPath, path)
  {
    if !EndsWith(thisPath, '*') && ((EndsWith(path, '/') && !EndsWith(thisPath, '/')) || (EndsWith(thisPath, '/') && !EndsWith(path, '/'))) {
      return false;
    }
    if thisPath == path {
      SelfMatches(path);
      return true;
    }
    var thisPathList := ConvertRouteToList(thisPath);
    var pathList := ConvertRouteToList(path);
    var thisPathSize := |thisPathList|;
    var pathSize := |pathList|;
    hide Segments, AllMatch;
    if thisPathSize == pathSize {
      r := MatchParts(thisPathList, pathList, thisPath);
    } else {
      r := false;
      if EndsWith(thisPath, '*') {
        SegmentsOfStar(thisPath);
        if pathSize == thisPathSize - 1 && EndsWith(path, '/') {
          pathList := pathList + [""];
          pathList := pathList + [""];
          pathSize := pathSize + 2;
        }
        if thisPathSize < pathSize {
          NotEmptySegments(thisPath);
          assert [""] + [""] == ["", ""];
          LongerMatches(thisPathList, Segments(path), pathList);
          r := MatchParts(thisPathList, pathList, thisPath);
        }
      }
    }
  }

  lemma NotEmptySegments(route: string)
    ensures forall i :: 0 <= i < |Segments(route)| ==> Segments(route)[i] != ""
  {}

  /** With two empty segments appended, a path that lacks the last one matches if a splat or a
      parameter is there. */
  lemma LongerMatches(t: seq<string>, p: seq<string>, longer: seq<string>)
    requires t != [] && forall i :: 0 <= i < |t| ==> t[i] != ""
    requires (longer == p && |p| > |t|) || (longer == p + ["", ""] && |p| == |t| - 1)
    ensures AllMatch(t, longer) <==>
      if |p| > |t| then AllMatch(t, p)
      else AllMatch(t[..|p|], p) && (IsSplat(t[|p|]) || IsParam(t[|p|]))
  {
    if |p| == |t| - 1 {
      assert forall i :: 0 <= i < |p| ==> longer[i] == p[i] && t[..|p|][i] == t[i];
      assert longer[|p|] == "";
    }
  }

  method Matches(e: RouteEntry, httpMethod: HttpMethod, path: string) returns (r: bool)
    ensures r == EntryMatches(e, httpMethod, path)
  {
    if (httpMethod == BEFORE || httpMethod == AFTER || httpMethod == AFTERAFTER)
       && e.httpMethod == httpMethod && e.path == ALL_PATHS {
      return true;
    }
    var match_ := false;
    if e.httpMethod == httpMethod {
      match_ := MatchPath(e.path, path);
    }
    return match_;
  }

  // ---------- what a request reads from its path ----------

  method GetParams(fold: Fold, request: seq<string>, matched: seq<string>) returns (params: map<string, string>)
    ensures params == Params(fold, request, matched[..Common(request, matched)])
  {
    params := map[];
    var i := 0;
    while i < |request| && i < |matched|
      invariant i <= |request| && i <= |matched|
      invariant params == Params(fold, request, matched[..i])
    {
      assert matched[..i + 1][..i] == matched[..i];
      var matchedPart := matched[i];
      if IsParam(matchedPart) {
        params := params[fold(matchedPart) := request[i]];
      }
      i := i + 1;
    }
  }

  method GetSplat(request: seq<string>, matched: seq<string>) returns (splat: seq<string>)
    ensures splat == SplatParts(request, matched)
  {
    var nbrOfRequestParts := |request|;
    var nbrOfMatchedParts := |matched|;
    var sameLength := nbrOfRequestParts == nbrOfMatchedParts;
    splat := [];
    var i := 0;
    hide Splats, SplatParts, StringUtils.Join;
    NoSplats(request, matched);
    WholeSplats(request, matched);
    while i < nbrOfRequestParts && i < nbrOfMatchedParts
      invariant i <= |request| && i <= |matched|
      invariant splat ==
        if i == |matched| && |request| > |matched| then SplatParts(request, matched) else Splats(request, matched[..i])
    {
      SplatsSnocTo(request, matched, i);
      var matchedPart := matched[i];
      if IsSplat(matchedPart) {
        var splatParam := request[i];
        if !sameLength && i == nbrOfMatchedParts - 1 {
          assert request[i..i + 1] == [request[i]];
          JoinOne(request[i]);
          for j := i + 1 to nbrOfRequestParts
            invariant splatParam == StringUtils.Join(request[i..j], "/")
          {
            StringUtils.JoinSnoc(request[i..j], request[j], "/");
            assert request[i..j] + [request[j]] == request[i..j + 1];
            splatParam := splatParam + "/";
            splatParam := splatParam + request[j];
          }
          assert request[i..|request|] == request[i..];
        }
        splat := splat + [splatParam];
      }
      i := i + 1;
    }
  }

  lemma WholeSplats(p: seq<string>, t: seq<string>)
    ensures |p| <= |t| || t == [] ==> SplatParts(p, t) == Splats(p, t[..Common(p, t)])
  {}

  lemma JoinOne(s: string)
    ensures StringUtils.Join([s], "/") == s
  {}

  lemma SplatsSnocTo(p: seq<string>, t: seq<string>, k: nat)
    requires k < |t| && k < |p|
    ensures Splats(p, t[..k + 1]) == Splats(p, t[..k]) + (if IsSplat(t[k]) then [p[k]] else [])
    ensures k + 1 == |t| && |p| > |t| && !IsSplat(t[k]) ==> SplatParts(p, t) == Splats(p, t[..k])
    ensures k + 1 == |t| && |p| > |t| && IsSplat(t[k]) ==>
      SplatParts(p, t) == Splats(p, t[..k]) + [StringUtils.Join(p[k..], "/")]
  {
    assert t[..k + 1][..k] == t[..k];
    assert t[..|t|] == t;
  }
}
