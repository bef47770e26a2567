/** Handlers by exception class, looked up through the superclasses and cached. */
module ExceptionMapper {
  import opened Options

  /** A class and its superclasses, up to the one that has none. */
  datatype Class = Top | Sub(name: string, superclass: Class)

  type Handler = int

  /** Handlers by class; a handler may be null. */
  type Mapping = map<Class, Option<Handler>>

  /** The handler of the nearest class at or above `c` that is mapped. */
  function Nearest(m: Mapping, c: Class): Option<Handler> {
    if c in m then m[c] else if c.Top? then None else Nearest(m, c.superclass)
  }

  /** The cache has what was mapped, and answers nothing else than the mapping would. */
  ghost predicate Faithful(cache: Mapping, mapped: Mapping) {
    && (forall c :: c in mapped ==> c in cache)
    && (forall c :: c in cache ==> cache[c] == Nearest(mapped, c))
  }

  /** Looking in the cache is as good as looking in the mapping. */
  lemma {:induction false} NearestThroughCache(cache: Mapping, mapped: Mapping, c: Class)
    requires Faithful(cache, mapped)
    ensures Nearest(cache, c) == Nearest(mapped, c)
  {
    if c !in cache && !c.Top? {
      NearestThroughCache(cache, mapped, c.superclass);
    }
  }

  lemma CachingIsFaithful(cache: Mapping, mapped: Mapping, c: Class)
    requires Faithful(cache, mapped)
    ensures Faithful(cache[c := Nearest(cache, c)], mapped)
  {
    NearestThroughCache(cache, mapped, c);
  }

  lemma ItselfIsFaithful(mapped: Mapping)
    ensures Faithful(mapped, mapped)
  {}

  /** The cache after a sequence of lookups. */
  function Looked(cache: Mapping, lookups: seq<Class>): Mapping {
    if lookups == [] then cache
    else
      var before := Looked(cache, lookups[..|lookups| - 1]);
      var c := lookups[|lookups| - 1];
      if c in before then before else before[c := Nearest(before, c)]
  }

  /** Whatever has been looked up before, every lookup gives the handler of the nearest
      mapped class. */
  lemma {:induction false} LookupsStayRight(mapped: Mapping, lookups: seq<Class>, c: Class)
    ensures Faithful(Looked(mapped, lookups), mapped)
    ensures Nearest(Looked(mapped, lookups), c) == Nearest(mapped, c)
    decreases |lookups|
  {
    if lookups == [] {
      ItselfIsFaithful(mapped);
    } else {
      var init, last := lookups[..|lookups| - 1], lookups[|lookups| - 1];
      LookupsStayRight(mapped, init, last);
      CachingIsFaithful(Looked(mapped, init), mapped, last);
    }
    NearestThroughCache(Looked(mapped, lookups), mapped, c);
  }

  /** Nothing is mapped from `c` up to `x`. */
  predicate Exposed(mapped: Mapping, c: Class, x: Class) {
    c == x || (c !in mapped && c.Sub? && Exposed(mapped, c.superclass, x))
  }

  /** On the way from `c` up to `x` nothing is mapped, but something has been looked up. */
  predicate Hidden(cache: Mapping, mapped: Mapping, c: Class, x: Class) {
    && c != x && c !in mapped
    && if c in cache then Exposed(mapped, c, x) else c.Sub? && Hidden(cache, mapped, c.superclass, x)
  }

  lemma {:induction false} NearestExposed(mapped: Mapping, c: Class, x: Class, h: Option<Handler>)
    ensures Nearest(mapped[x := h], c) == if Exposed(mapped, c, x) then h else Nearest(mapped, c)
  {
    if c != x && c !in mapped && c.Sub? {
      NearestExposed(mapped, c.superclass, x, h);
    }
  }

  /** A handler that is mapped after lookups is missed exactly by the classes whose answer is
      hidden by a lookup, if it would have been a different one. */
  lemma {:induction false} LateMappingIsSeenIff(cache: Mapping, mapped: Mapping, c: Class, x: Class, h: Option<Handler>)
    requires Faithful(cache, mapped)
    ensures Nearest(cache[x := h], c) == Nearest(mapped[x := h], c) <==>
      !Hidden(cache, mapped, c, x) || Nearest(mapped, c) == h
    decreases c
  {
    NearestExposed(mapped, c, x, h);
    if c != x && c !in cache && c.Sub? {
      LateMappingIsSeenIff(cache, mapped, c.superclass, x, h);
    }
  }

  lemma LookedOnce(cache: Mapping, c: Class)
    ensures Looked(cache, [c]) == if c in cache then cache else cache[c := Nearest(cache, c)]
  {
    assert [c][..0] == [];
  }

  /** The simplest such class: looked up before anything is mapped above it. */
  lemma LateMappingIsMissed(name: string, h: Handler)
    ensures var c := Sub(name, Top);
      var late := Looked(map[], [c])[Top := Some(h)];
      Nearest(late, c) == None && Nearest(map[Top := Some(h)], c) == Some(h)
  {
    var c := Sub(name, Top);
    var none: Mapping := map[];
    LookedOnce(none, c);
    ItselfIsFaithful(none);
    assert c !in none && Top !in none;
    assert Nearest(none, Top) == None && Nearest(none, c) == None;
  }

  class ExceptionMapper {
    var exceptionMap: Mapping

    constructor ()
      ensures exceptionMap == map[]
    {
      exceptionMap := map[];
    }

    method Map(exceptionClass: Class, handler: Option<Handler>)
      modifies this
      ensures exceptionMap == old(exceptionMap)[exceptionClass := handler]
    {
      exceptionMap := exceptionMap[exceptionClass := handler];
    }

    /** Walks up the superclasses of a class that is not in the map, and remembers what it
        finds, or that it finds nothing. */
    method GetHandler(exceptionClass: Class) returns (handler: Option<Handler>)
      requires exceptionClass.Sub?
      modifies this
      ensures handler == Nearest(old(exceptionMap), exceptionClass)
      ensures exceptionMap == Looked(old(exceptionMap), [exceptionClass])
    {
      ghost var was := exceptionMap;
      LookedOnce(was, exceptionClass);
      if exceptionClass !in exceptionMap {
        var superclass := exceptionClass.superclass;
        while true
          invariant exceptionMap == was
          invariant Nearest(was, exceptionClass) == Nearest(was, superclass)
          decreases superclass
        {
          if superclass in exceptionMap {
            handler := exceptionMap[superclass];
            exceptionMap := exceptionMap[exceptionClass := handler];
            return;
          }
          if superclass.Top? {
            break;
          }
          superclass := superclass.superclass;
        }
        exceptionMap := exceptionMap[exceptionClass := None];
        return None;
      }
      return exceptionMap[exceptionClass];
    }
  }
}
