/** The table of routes, in the order in which they were added. */
module Routes {
  import opened Options
  import Entry = RouteEntry
  import opened RouteEntry
  import opened MimeParse

  type Choice = RouteEntry -> bool

  /** The chosen entries, in their order. */
  function Filter(entries: seq<RouteEntry>, choice: Choice): seq<RouteEntry> {
    if entries == [] then []
    else
      var last := entries[|entries| - 1];
      Filter(entries[..|entries| - 1], choice) + if choice(last) then [last] else []
  }

  lemma {:induction false} FilterHas(entries: seq<RouteEntry>, choice: Choice, e: RouteEntry)
    ensures e in Filter(entries, choice) <==> e in entries && choice(e)
  {
    if entries != [] {
      var init := entries[..|entries| - 1];
      FilterHas(init, choice, e);
      assert e in entries <==> e in init || e == entries[|entries| - 1];
    }
  }

  lemma FilterSnoc(entries: seq<RouteEntry>, e: RouteEntry, choice: Choice)
    ensures Filter(entries + [e], choice) == Filter(entries, choice) + if choice(e) then [e] else []
  {
    assert (entries + [e])[..|entries|] == entries;
  }

  lemma {:induction false} FiltersCommute(entries: seq<RouteEntry>, a: Choice, b: Choice)
    ensures Filter(Filter(entries, a), b) == Filter(Filter(entries, b), a)
  {
    if entries != [] {
      var init, last := entries[..|entries| - 1], entries[|entries| - 1];
      FiltersCommute(init, a, b);
      assert init + [last] == entries;
      FilterSnoc(init, last, a);
      FilterSnoc(init, last, b);
      FilterSnoc(Filter(init, a), last, b);
      FilterSnoc(Filter(init, b), last, a);
      hide Filter;
      Nothing(Filter(init, a));
      Nothing(Filter(init, b));
      Nothing(Filter(Filter(init, a), b));
    }
  }

  lemma Nothing(entries: seq<RouteEntry>)
    ensures entries + [] == entries
  {}

  function Matching(routes: seq<RouteEntry>, httpMethod: HttpMethod, path: string): seq<RouteEntry> {
    Filter(routes, e => EntryMatches(e, httpMethod, path))
  }

  /** Whether an entry is removed; without a method the path alone decides. */
  predicate Removed(e: RouteEntry, httpMethod: Option<HttpMethod>, path: string) {
    EntryMatches(e, if httpMethod.None? then e.httpMethod else httpMethod.value, path)
  }

  /** What is left after removing, in the same order. */
  function Kept(routes: seq<RouteEntry>, httpMethod: Option<HttpMethod>, path: string): seq<RouteEntry> {
    Filter(routes, e => !Removed(e, httpMethod, path))
  }

  /** Removing routes and looking for those that match any path can be done in either
      order. */
  lemma MatchingOfKept(
    routes: seq<RouteEntry>, removed: Option<HttpMethod>, gone: string, httpMethod: HttpMethod, path: string)
    ensures Matching(Kept(routes, removed, gone), httpMethod, path) == Kept(Matching(routes, httpMethod, path), removed, gone)
  {
    hide Filter;
    FiltersCommute(routes, e => !Removed(e, removed, gone), e => EntryMatches(e, httpMethod, path));
  }

  /** Once a route has been removed, nothing matches its method and path any more; without a
      method, nothing matches the path under any. */
  lemma RemovedIsGone(routes: seq<RouteEntry>, removed: Option<HttpMethod>, path: string, httpMethod: HttpMethod)
    requires removed.None? || removed.value == httpMethod
    ensures Matching(Kept(routes, removed, path), httpMethod, path) == []
  {
    var left := Matching(Kept(routes, removed, path), httpMethod, path);
    forall e ensures e !in left {
      MatchesItsMethod(e, httpMethod, path);
      FilterHas(routes, x => !Removed(x, removed, path), e);
      FilterHas(Kept(routes, removed, path), x => EntryMatches(x, httpMethod, path), e);
    }
    hide Filter, EntryMatches;
    FirstIn(left);
  }

  lemma FirstIn(entries: seq<RouteEntry>)
    ensures entries != [] ==> entries[0] in entries
  {}

  lemma MatchesItsMethod(e: RouteEntry, httpMethod: HttpMethod, path: string)
    ensures EntryMatches(e, httpMethod, path) ==> e.httpMethod == httpMethod
  {}

  // ---------- what is found ----------

  function Types(entries: seq<RouteEntry>): set<string> {
    set e | e in entries :: e.acceptedType
  }

  /** The first entry with an accepted type that fits the header best, and that the header
      does not rule out. */
  ghost predicate BestEntry(parse: Parser, ranges: seq<Range>, entries: seq<RouteEntry>, e: RouteEntry) {
    && Maximal(parse, ranges, Types(entries), e.acceptedType)
    && FitOf(parse, ranges, e.acceptedType).quality != 0.0
    && FirstOfType(entries, e)
  }

  ghost predicate FirstOfType(entries: seq<RouteEntry>, e: RouteEntry) {
    exists i :: 0 <= i < |entries| && entries[i] == e && forall j :: 0 <= j < i ==> entries[j].acceptedType != e.acceptedType
  }

  /** The best accepted type is ruled out by the header, or is the empty string. */
  ghost predicate BestRuledOut(parse: Parser, ranges: seq<Range>, entries: seq<RouteEntry>) {
    exists s :: Maximal(parse, ranges, Types(entries), s) && (FitOf(parse, ranges, s).quality == 0.0 || s == NO_MIME_TYPE)
  }

  /** The header does not rule out the accepted type of an entry. */
  predicate Accepted(parse: Parser, ranges: seq<Range>, e: RouteEntry) {
    FitOf(parse, ranges, e.acceptedType).quality != 0.0 && e.acceptedType != NO_MIME_TYPE
  }

  lemma AcceptedIs(parse: Parser, ranges: seq<Range>, e: RouteEntry, best: string)
    requires best == NO_MIME_TYPE ==>
      exists s :: Maximal(parse, ranges, {e.acceptedType}, s) && (FitOf(parse, ranges, s).quality == 0.0 || s == NO_MIME_TYPE)
    requires best != NO_MIME_TYPE ==>
      Maximal(parse, ranges, {e.acceptedType}, best) && FitOf(parse, ranges, best).quality != 0.0
    ensures Accepted(parse, ranges, e) <==> best != NO_MIME_TYPE
  {
    hide FitOf;
  }

  ghost predicate First(accepted: map<string, RouteEntry>, entries: seq<RouteEntry>) {
    && accepted.Keys == Types(entries)
    && forall t :: t in accepted ==> accepted[t].acceptedType == t && FirstOfType(entries, accepted[t])
  }

  lemma FirstStep(accepted: map<string, RouteEntry>, entries: seq<RouteEntry>, e: RouteEntry)
    requires First(accepted, entries)
    ensures First(if e.acceptedType in accepted then accepted else accepted[e.acceptedType := e], entries + [e])
  {
    var more := entries + [e];
    var next := if e.acceptedType in accepted then accepted else accepted[e.acceptedType := e];
    assert forall i :: 0 <= i < |entries| ==> more[i] == entries[i];
    assert more[|entries|] == e;
    assert forall x :: x in more <==> x in entries || x == e;
    assert next.Keys == Types(more);
    forall t | t in next ensures next[t].acceptedType == t && FirstOfType(more, next[t]) {
      if t in accepted {
        assert FirstOfType(entries, accepted[t]);
      } else {
        forall j | 0 <= j < |entries| ensures more[j].acceptedType != e.acceptedType {
          assert entries[j] in entries && entries[j].acceptedType in Types(entries);
        }
      }
    }
  }

  class Routes {
    var routes: seq<RouteEntry>

    constructor ()
      ensures routes == []
    {
      routes := [];
    }

    method Add(entry: RouteEntry)
      modifies this
      ensures routes == old(routes) + [entry]
    {
      routes := routes + [entry];
    }

    method Clear()
      modifies this
      ensures routes == []
    {
      routes := [];
    }

    method FindTargetsForRequestedRoute(httpMethod: HttpMethod, path: string) returns (matchSet: seq<RouteEntry>)
      ensures matchSet == Matching(routes, httpMethod, path)
    {
      hide EntryMatches;
      matchSet := [];
      for i := 0 to |routes|
        invariant matchSet == Matching(routes[..i], httpMethod, path)
      {
        assert routes[..i + 1][..i] == routes[..i];
        var m := Entry.Matches(routes[i], httpMethod, path);
        if m {
          matchSet := matchSet + [routes[i]];
        }
      }
      assert routes[..|routes|] == routes;
    }

    method GetAcceptedMimeTypes(entries: seq<RouteEntry>) returns (acceptedTypes: map<string, RouteEntry>)
      ensures First(acceptedTypes, entries)
    {
      acceptedTypes := map[];
      for i := 0 to |entries|
        invariant First(acceptedTypes, entries[..i])
      {
        var routeEntry := entries[i];
        FirstStep(acceptedTypes, entries[..i], routeEntry);
        assert entries[..i] + [entries[i]] == entries[..i + 1];
        if routeEntry.acceptedType !in acceptedTypes {
          acceptedTypes := acceptedTypes[routeEntry.acceptedType := routeEntry];
        }
      }
      assert entries[..|entries|] == entries;
    }

    method FindTargetWithGivenAcceptType(routeMatches: seq<RouteEntry>, parse: Parser, acceptType: Option<seq<Range>>)
      returns (r: Option<RouteEntry>)
      requires HasQ(parse)
      ensures acceptType.None? ==> r == if routeMatches == [] then None else Some(routeMatches[0])
      ensures acceptType.Some? && r.Some? ==> BestEntry(parse, acceptType.value, routeMatches, r.value)
      ensures acceptType.Some? && r.None? ==> routeMatches == [] || BestRuledOut(parse, acceptType.value, routeMatches)
    {
      if acceptType.Some? && |routeMatches| > 0 {
        var acceptedMimeTypes := GetAcceptedMimeTypes(routeMatches);
        assert routeMatches[0].acceptedType in Types(routeMatches);
        var bestMatch := BestMatch(parse, acceptedMimeTypes.Keys, acceptType.value);
        if bestMatch != NO_MIME_TYPE {
          return Some(acceptedMimeTypes[bestMatch]);
        } else {
          return None;
        }
      } else {
        if |routeMatches| > 0 {
          return Some(routeMatches[0]);
        }
      }
      return None;
    }

    /** The target of a requested route: the first entry that matches, or among those that
        match the first with the best accepted type. */
    method Find(httpMethod: HttpMethod, path: string, parse: Parser, acceptType: Option<seq<Range>>)
      returns (r: Option<RouteEntry>)
      requires HasQ(parse)
      ensures var found := Matching(routes, httpMethod, path);
        && (acceptType.None? ==> r == if found == [] then None else Some(found[0]))
        && (acceptType.Some? && r.Some? ==> BestEntry(parse, acceptType.value, found, r.value))
        && (acceptType.Some? && r.None? ==> found == [] || BestRuledOut(parse, acceptType.value, found))
    {
      var routeEntries := FindTargetsForRequestedRoute(httpMethod, path);
      r := FindTargetWithGivenAcceptType(routeEntries, parse, acceptType);
    }

    /** All targets of a requested route that the header does not rule out, in order. */
    method FindMultiple(httpMethod: HttpMethod, path: string, parse: Parser, acceptType: Option<seq<Range>>)
      returns (matchSet: seq<RouteEntry>)
      requires HasQ(parse)
      ensures matchSet == Filter(Matching(routes, httpMethod, path), e => acceptType.None? || Accepted(parse, acceptType.value, e))
    {
      var routeEntries := FindTargetsForRequestedRoute(httpMethod, path);
      ghost var choice := e => acceptType.None? || Accepted(parse, acceptType.value, e);
      hide Matching, Accepted;
      matchSet := [];
      for i := 0 to |routeEntries|
        invariant matchSet == Filter(routeEntries[..i], choice)
      {
        var routeEntry := routeEntries[i];
        assert routeEntries[..i] + [routeEntry] == routeEntries[..i + 1];
        FilterSnoc(routeEntries[..i], routeEntry, choice);
        if acceptType.Some? {
          var bestMatch := BestMatch(parse, {routeEntry.acceptedType}, acceptType.value);
          AcceptedIs(parse, acceptType.value, routeEntry, bestMatch);
          if bestMatch != NO_MIME_TYPE {
            matchSet := matchSet + [routeEntry];
          }
        } else {
          matchSet := matchSet + [routeEntry];
        }
      }
      assert routeEntries[..|routeEntries|] == routeEntries;
    }

    method RemoveRoute(httpMethod: Option<HttpMethod>, path: string) returns (removed: bool)
      modifies this
      ensures routes == Kept(old(routes), httpMethod, path)
      ensures removed <==> exists e :: e in old(routes) && Removed(e, httpMethod, path)
    {
      hide Removed, Filter;
      var forRemoval: set<RouteEntry> := {};
      ghost var was := routes;
      for i := 0 to |routes|
        invariant routes == was
        invariant forall e :: e in forRemoval <==> e in was[..i] && Removed(e, httpMethod, path)
      {
        var routeEntry := routes[i];
        var httpMethodToMatch := if httpMethod.None? then routeEntry.httpMethod else httpMethod.value;
        var m := Entry.Matches(routeEntry, httpMethodToMatch, path);
        RemovedIs(routeEntry, httpMethod, path);
        assert was[..i + 1] == was[..i] + [was[i]];
        if m {
          forRemoval := forRemoval + {routeEntry};
        }
      }
      assert was[..|was|] == was;
      removed := RemoveAll(forRemoval);
      SameChoice(was, e => e !in forRemoval, e => !Removed(e, httpMethod, path));
    }

    /** The library's removal of all elements of a list that are in a collection. */
    method RemoveAll(gone: set<RouteEntry>) returns (changed: bool)
      modifies this
      ensures routes == Filter(old(routes), e => e !in gone)
      ensures changed <==> exists e :: e in old(routes) && e in gone
    {
      changed := false;
      ghost var was := routes;
      var left: seq<RouteEntry> := [];
      ghost var choice := e => e !in gone;
      for i := 0 to |routes|
        invariant routes == was && left == Filter(was[..i], choice)
        invariant changed <==> exists e :: e in was[..i] && e in gone
      {
        assert was[..i + 1] == was[..i] + [was[i]];
        FilterSnoc(was[..i], was[i], choice);
        assert was[i] in was[..i + 1];
        if routes[i] in gone {
          changed := true;
        } else {
          left := left + [routes[i]];
        }
      }
      assert was[..|was|] == was;
      routes := left;
    }
  }

  lemma RemovedIs(e: RouteEntry, httpMethod: Option<HttpMethod>, path: string)
    ensures Removed(e, httpMethod, path) == EntryMatches(e, if httpMethod.None? then e.httpMethod else httpMethod.value, path)
  {}

  lemma {:induction false} SameChoice(entries: seq<RouteEntry>, a: Choice, b: Choice)
    requires forall e :: e in entries ==> a(e) == b(e)
    ensures Filter(entries, a) == Filter(entries, b)
  {
    if entries != [] {
      SameChoice(entries[..|entries| - 1], a, b);
    }
  }
}
