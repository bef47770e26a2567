/** Splitting, joining and replacing, and the path clean-up built from them. */
module StringUtils {
  import opened PathWalk
  import opened PathCleaning

  const FOLDER_SEPARATOR := "/"
  const WINDOWS_FOLDER_SEPARATOR := "\\"
  const TOP_PATH := ".."
  const CURRENT_PATH := "."

  predicate OccursAt(s: string, p: string, i: int) {
    0 <= i && i + |p| <= |s| && s[i..i + |p|] == p
  }

  /** The first occurrence at or after `from`, or -1. */
  function IndexOf(s: string, p: string, from: nat): (r: int)
    requires from <= |s|
    ensures r == -1 || (from <= r && OccursAt(s, p, r))
    ensures forall i :: from <= i < (if r < 0 then |s| + 1 else r) ==> !OccursAt(s, p, i)
    decreases |s| - from
  {
    if OccursAt(s, p, from) then from
    else if from == |s| then -1
    else IndexOf(s, p, from + 1)
  }

  lemma OccursShift(s: string, p: string, pos: nat, i: nat)
    requires pos <= |s|
    ensures OccursAt(s[pos..], p, i) <==> OccursAt(s, p, pos + i)
  {
    if pos + i + |p| <= |s| {
      assert s[pos..][i..i + |p|] == s[pos + i..pos + i + |p|];
    }
  }

  lemma IndexShift(s: string, p: string, pos: nat)
    requires pos <= |s|
    ensures var i := IndexOf(s[pos..], p, 0);
      IndexOf(s, p, pos) == if i < 0 then -1 else pos + i
  {
    hide IndexOf;
    var i, j := IndexOf(s[pos..], p, 0), IndexOf(s, p, pos);
    if i >= 0 {
      OccursShift(s, p, pos, i);
    }
    if j >= 0 {
      OccursShift(s, p, pos, j - pos);
    }
  }

  /** What lies between the occurrences of a delimiter, taken from left to right. */
  function Split(s: string, d: string): (r: seq<string>)
    requires d != ""
    ensures r != []
    decreases |s|
  {
    var i := IndexOf(s, d, 0);
    if i < 0 then [s] else [s[..i]] + Split(s[i + |d|..], d)
  }

  function Join(parts: seq<string>, d: string): string {
    if parts == [] then "" else if |parts| == 1 then parts[0] else parts[0] + d + Join(parts[1..], d)
  }

  // ---------- laws ----------

  lemma SplitStep(s: string, d: string)
    requires d != "" && IndexOf(s, d, 0) >= 0
    ensures var i := IndexOf(s, d, 0); Split(s, d) == [s[..i]] + Split(s[i + |d|..], d)
  {}

  lemma JoinPair(first: string, rest: seq<string>, d: string)
    requires rest != []
    ensures Join([first] + rest, d) == first + d + Join(rest, d)
  {
    assert ([first] + rest)[1..] == rest;
  }

  lemma JoinStep(s: string, d: string, e: string, pos: nat)
    requires d != "" && pos <= |s| && IndexOf(s, d, pos) >= 0
    ensures var i := IndexOf(s, d, pos);
      && Split(s[pos..], d) == [s[pos..i]] + Split(s[i + |d|..], d)
      && Join(Split(s[pos..], d), e) == s[pos..i] + e + Join(Split(s[i + |d|..], d), e)
  {
    hide Split, Join, IndexOf;
    IndexShift(s, d, pos);
    var i := IndexOf(s, d, pos);
    SplitStep(s[pos..], d);
    assert s[pos..][..i - pos] == s[pos..i];
    assert s[pos..][i - pos + |d|..] == s[i + |d|..];
    JoinPair(s[pos..i], Split(s[i + |d|..], d), e);
  }

  lemma JoinLast(s: string, d: string, e: string, pos: nat)
    requires d != "" && pos <= |s| && IndexOf(s, d, pos) < 0
    ensures Split(s[pos..], d) == [s[pos..]] && Join(Split(s[pos..], d), e) == s[pos..]
  {
    IndexShift(s, d, pos);
  }

  /** Joining what was split gives the string back. */
  lemma {:induction false} JoinOfSplit(s: string, d: string)
    requires d != ""
    ensures Join(Split(s, d), d) == s
    decreases |s|
  {
    hide Split, Join, IndexOf;
    assert s[0..] == s;
    var i := IndexOf(s, d, 0);
    if i < 0 {
      JoinLast(s, d, d, 0);
    } else {
      JoinStep(s, d, d, 0);
      JoinOfSplit(s[i + |d|..], d);
      assert s == s[..i] + d + s[i + |d|..];
    }
  }

  lemma OccursInFront(s: string, d: string, j: nat, i: nat)
    requires d != "" && j <= |s| && OccursAt(s[..j], d, i)
    ensures i < j && OccursAt(s, d, i)
  {
    assert s[..j][i..i + |d|] == s[i..i + |d|];
  }

  /** No part contains the delimiter. */
  lemma {:induction false} PartsLackDelimiter(s: string, d: string, k: nat, i: nat)
    requires d != "" && k < |Split(s, d)|
    ensures !OccursAt(Split(s, d)[k], d, i)
    decreases |s|
  {
    var j := IndexOf(s, d, 0);
    if j >= 0 {
      if k == 0 {
        if OccursAt(s[..j], d, i) {
          OccursInFront(s, d, j, i);
          assert false;
        }
      } else {
        PartsLackDelimiter(s[j + |d|..], d, k - 1, i);
      }
    }
  }

  lemma IndexOfFirst(a: string, c: char, rest: string)
    requires Lacks(a, c)
    ensures IndexOf(a, [c], 0) == -1
    ensures IndexOf(a + [c] + rest, [c], 0) == |a|
  {
    hide IndexOf;
    var s := a + [c] + rest;
    assert s[|a|..|a| + 1] == [c];
    assert OccursAt(s, [c], |a|);
    forall i | 0 <= i < |a| ensures !OccursAt(s, [c], i) && !OccursAt(a, [c], i) {
      assert s[i..i + 1][0] == a[i] && a[i..i + 1][0] == a[i];
    }
  }

  /** Splitting what was joined with a single character that no part contains gives the
      parts back. */
  lemma {:induction false} SplitOfJoin(parts: seq<string>, c: char)
    requires parts != [] && AllLack(parts, c)
    ensures Split(Join(parts, [c]), [c]) == parts
  {
    if |parts| == 1 {
      IndexOfFirst(parts[0], c, "");
    } else {
      var rest := Join(parts[1..], [c]);
      SplitOfJoin(parts[1..], c);
      IndexOfFirst(parts[0], c, rest);
      var s := Join(parts, [c]);
      assert s[..|parts[0]|] == parts[0] && s[|parts[0]| + 1..] == rest;
    }
  }

  lemma SlashesAround(s: string, i: nat)
    requires i < |s| && Lacks(s[..i], '\\') && s[i] == '\\'
    ensures Slashes(s) == s[..i] + "/" + Slashes(s[i + 1..])
  {
    assert forall k :: 0 <= k < i ==> s[k] == s[..i][k];
  }

  /** Splitting at one character and joining with another exchanges the characters. */
  lemma {:induction false} SlashesBySplitting(s: string)
    ensures Join(Split(s, "\\"), "/") == Slashes(s)
    decreases |s|
  {
    hide Split, Join, IndexOf, Slashes;
    assert s[0..] == s;
    var i := IndexOf(s, "\\", 0);
    var n := if i < 0 then |s| else i;
    forall k | 0 <= k < n ensures s[k] != '\\' {
      assert s[k..k + 1][0] == s[k];
      assert !OccursAt(s, "\\", k);
    }
    if i < 0 {
      JoinLast(s, "\\", "/", 0);
      NothingToReplace(s);
    } else {
      JoinStep(s, "\\", "/", 0);
      SlashesBySplitting(s[i + 1..]);
      assert s[i..i + 1][0] == '\\';
      SlashesAround(s, i);
    }
  }

  lemma {:induction false} JoinIsRender(parts: seq<string>)
    requires parts != []
    ensures "/" + Join(parts, "/") == Render(parts)
  {
    var first, rest := [parts[0]], parts[1..];
    assert parts == first + rest;
    RenderAppend(first, rest);
    RenderOne(parts[0]);
    if rest != [] {
      JoinIsRender(rest);
    }
  }

  lemma JoinIsJoined(parts: seq<string>)
    ensures Join(parts, "/") == Joined(parts)
  {
    if parts != [] {
      JoinIsRender(parts);
      RenderIsJoined(parts);
      hide Join, Joined, Render;
      assert ("/" + Join(parts, "/"))[1..] == Join(parts, "/");
      assert ("/" + Joined(parts))[1..] == Joined(parts);
    }
  }

  /** Splitting at slashes from the left finds the segments that splitting from the right
      does. */
  lemma SplitIsElements(s: string)
    ensures Elements(s) == if s == "" then [] else Split(s, "/")
  {
    if s != "" {
      var parts := Parts("/" + s);
      RenderParts("/" + s);
      JoinIsRender(parts);
      assert ("/" + Join(parts, "/"))[1..] == Join(parts, "/") && ("/" + s)[1..] == s;
      SplitOfJoin(parts, '/');
    }
  }

  // ---------- the methods ----------

  lemma Regroup(a: string, b: string, c: string, d: string)
    ensures a + (b + c + d) == a + b + c + d
  {}

  /** Replaces every occurrence, leftmost first. */
  method Replace(inString: string, oldPattern: string, newPattern: string) returns (r: string)
    ensures r == if oldPattern == "" then inString else Join(Split(inString, oldPattern), newPattern)
  {
    hide Split, Join, IndexOf;
    if oldPattern != "" {
      JoinLast("", oldPattern, newPattern, 0);
    }
    if inString == "" || oldPattern == "" {
      return inString;
    }
    assert inString[0..] == inString;
    var sb := "";
    var pos := 0;
    var index := IndexOf(inString, oldPattern, 0);
    while index >= 0
      invariant pos <= |inString| && index == IndexOf(inString, oldPattern, pos)
      invariant sb + Join(Split(inString[pos..], oldPattern), newPattern) == Join(Split(inString, oldPattern), newPattern)
      decreases |inString| - pos, index
    {
      JoinStep(inString, oldPattern, newPattern, pos);
      Regroup(sb, inString[pos..index], newPattern, Join(Split(inString[index + |oldPattern|..], oldPattern), newPattern));
      sb := sb + inString[pos..index];
      sb := sb + newPattern;
      pos := index + |oldPattern|;
      index := IndexOf(inString, oldPattern, pos);
    }
    JoinLast(inString, oldPattern, newPattern, pos);
    sb := sb + inString[pos..];
    return sb;
  }

  /** The single characters of a string. */
  function Characters(s: string): (r: seq<string>)
    ensures |r| == |s| && forall i :: 0 <= i < |s| ==> r[i] == [s[i]]
  {
    seq(|s|, i requires 0 <= i < |s| => [s[i]])
  }

  method DelimitedListToStringArray(str: string, delimiter: string) returns (result: seq<string>)
    ensures result ==
      if delimiter == "" then Characters(str) else if str == "" then [] else Split(str, delimiter)
  {
    hide Split, Join, IndexOf;
    result := [];
    if delimiter == "" {
      for i := 0 to |str|
        invariant result == Characters(str)[..i]
      {
        result := result + [str[i..i + 1]];
        assert str[i..i + 1] == [str[i]];
      }
    } else {
      var pos := 0;
      var delPos := IndexOf(str, delimiter, pos);
      while delPos != -1
        invariant pos <= |str| && delPos == IndexOf(str, delimiter, pos)
        invariant result + Split(str[pos..], delimiter) == Split(str, delimiter)
        invariant str == "" ==> result == []
        decreases |str| - pos, delPos + 1
      {
        JoinStep(str, delimiter, "", pos);
        result := result + [str[pos..delPos]];
        pos := delPos + |delimiter|;
        delPos := IndexOf(str, delimiter, pos);
      }
      JoinLast(str, delimiter, "", pos);
      if |str| > 0 && pos <= |str| {
        result := result + [str[pos..]];
      }
    }
  }

  lemma {:induction false} JoinSnoc(parts: seq<string>, s: string, d: string)
    requires parts != []
    ensures Join(parts + [s], d) == Join(parts, d) + d + s
  {
    assert (parts + [s])[1..] == parts[1..] + [s];
    if |parts| > 1 {
      JoinSnoc(parts[1..], s, d);
    } else {
      assert parts[1..] + [s] == [s];
    }
  }

  method CollectionToDelimitedString(coll: seq<string>, delim: string) returns (r: string)
    ensures r == Join(coll, delim)
  {
    if coll == [] {
      return "";
    }
    var sb := "";
    for i := 0 to |coll|
      invariant sb == if i == 0 then "" else if i < |coll| then Join(coll[..i], delim) + delim else Join(coll, delim)
    {
      if i > 0 {
        JoinSnoc(coll[..i], coll[i], delim);
      }
      assert coll[..i] + [coll[i]] == coll[..i + 1];
      sb := sb + coll[i];
      if i + 1 < |coll| {
        sb := sb + delim;
      } else {
        assert coll[..i + 1] == coll;
      }
    }
    return sb;
  }

  /** The segments scanned so far, read from the right, and the tops seen among them. */
  lemma ScanStep(parts: seq<string>, i: nat, tops: nat, kept: seq<string>)
    requires i < |parts|
    ensures var s := parts[i];
      var w := Backward(parts[..i + 1], tops);
      var after :=
        if s == "." then Backward(parts[..i], tops).(stack := Backward(parts[..i], tops).stack + kept)
        else if s == ".." then Backward(parts[..i], tops + 1).(stack := Backward(parts[..i], tops + 1).stack + kept)
        else if tops > 0 then Backward(parts[..i], tops - 1).(stack := Backward(parts[..i], tops - 1).stack + kept)
        else Backward(parts[..i], 0).(stack := Backward(parts[..i], 0).stack + ([s] + kept));
      w.(stack := w.stack + kept) == after
  {
    assert parts[..i + 1][..i] == parts[..i];
    var w := Backward(parts[..i], 0);
    assert w.stack + [parts[i]] + kept == w.stack + ([parts[i]] + kept);
  }

  lemma ScanEnd(parts: seq<string>, tops: nat, kept: seq<string>)
    requires var w := Backward(parts[..0], tops); Backward(parts, 0) == w.(stack := w.stack + kept)
    ensures Resolved(parts) == Ups(tops) + kept
  {
    BackwardIsForward(parts, 0);
    RewindDown(Forward(parts), "", 0);
    assert [] + kept == kept;
  }

  method Resolve(pathArray: seq<string>) returns (pathElements: seq<string>)
    ensures pathElements == Resolved(pathArray)
  {
    hide Resolved, Backward;
    pathElements := [];
    var tops := 0;
    var i := |pathArray| - 1;
    ghost var all := Backward(pathArray, 0);
    assert pathArray[..|pathArray|] == pathArray && all.stack + [] == all.stack;
    while i >= 0
      invariant -1 <= i < |pathArray| && 0 <= tops
      invariant var w := Backward(pathArray[..i + 1], tops); all == w.(stack := w.stack + pathElements)
    {
      var element := pathArray[i];
      ScanStep(pathArray, i, tops, pathElements);
      if element == CURRENT_PATH {
      } else if element == TOP_PATH {
        tops := tops + 1;
      } else {
        if tops > 0 {
          tops := tops - 1;
        } else {
          pathElements := [element] + pathElements;
        }
      }
      i := i - 1;
    }
    ScanEnd(pathArray, tops, pathElements);
    ghost var kept := pathElements;
    assert Ups(0) + kept == kept;
    for k := 0 to tops
      invariant pathElements == Ups(k) + kept
    {
      pathElements := [TOP_PATH] + pathElements;
      assert [TOP_PATH] + Ups(k) == Ups(k + 1);
      assert [TOP_PATH] + (Ups(k) + kept) == ([TOP_PATH] + Ups(k)) + kept;
    }
  }

  lemma ColonIs(s: string)
    ensures PrefixLength(s) == IndexOf(s, ":", 0) + 1
  {
    hide IndexOf, PrefixLength;
    var n, i := PrefixLength(s), IndexOf(s, ":", 0);
    if n > 0 {
      assert s[n - 1..n] == ":";
      assert OccursAt(s, ":", n - 1);
    }
    if i >= 0 {
      assert s[i..i + 1][0] == ':';
    }
  }

  method CleanPath(path: string) returns (r: string)
    ensures r == Clean(path)
  {
    var pathToUse := Replace(path, WINDOWS_FOLDER_SEPARATOR, FOLDER_SEPARATOR);
    SlashesBySplitting(path);
    ghost var s := Slashes(path);
    ColonIs(s);
    hide Clean, IndexOf, Elements, Resolved, Joined, Slashes;
    var prefixIndex := IndexOf(pathToUse, ":", 0);
    var prefix := "";
    if prefixIndex != -1 {
      prefix := pathToUse[..prefixIndex + 1];
      pathToUse := pathToUse[prefixIndex + 1..];
    }
    if FOLDER_SEPARATOR <= pathToUse {
      prefix := prefix + FOLDER_SEPARATOR;
      pathToUse := pathToUse[1..];
    }
    HeadSplit(s, prefix, pathToUse);
    var pathArray := DelimitedListToStringArray(pathToUse, FOLDER_SEPARATOR);
    SplitIsElements(pathToUse);
    var pathElements := Resolve(pathArray);
    var body := CollectionToDelimitedString(pathElements, FOLDER_SEPARATOR);
    JoinIsJoined(pathElements);
    CleanIs(path, prefix, pathToUse);
    return prefix + body;
  }

  lemma HeadSplit(s: string, prefix: string, tail: string)
    requires var n := PrefixLength(s);
      if n < |s| && s[n] == '/' then prefix == s[..n] + "/" && tail == s[n..][1..] else prefix == s[..n] && tail == s[n..]
    ensures prefix == Head(s) && tail == s[|prefix|..]
  {}

  lemma CleanIs(path: string, prefix: string, tail: string)
    requires prefix == Head(Slashes(path)) && tail == Slashes(path)[|prefix|..]
    ensures Clean(path) == prefix + Joined(Resolved(Elements(tail)))
  {}
}
