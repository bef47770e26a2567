/** Query parameters with structured keys, as a tree: `user[info][name]` leads through three
    nodes.
  */
module QueryParams {
  import opened Options

  // ---------- keys ----------

  predicate IsBracket(c: char) {
    c == '[' || c == ']'
  }

  predicate Plain(s: string) {
    forall i :: 0 <= i < |s| ==> !IsBracket(s[i])
  }

  /** How many characters of a kind a string starts with. */
  function Run(s: string, kind: char -> bool): (r: nat)
    ensures r <= |s| && (forall i :: 0 <= i < r ==> kind(s[i])) && (r < |s| ==> !kind(s[r]))
  {
    if s == "" || !kind(s[0]) then 0 else 1 + Run(s[1..], kind)
  }

  lemma {:induction false} RunOf(a: string, b: string, kind: char -> bool)
    requires (forall i :: 0 <= i < |a| ==> kind(a[i])) && (b != "" ==> !kind(b[0]))
    ensures Run(a + b, kind) == |a|
  {
    if a == "" {
      assert a + b == b;
    } else {
      assert (a + b)[1..] == a[1..] + b;
      RunOf(a[1..], b, kind);
    }
  }

  function CleanKey(group: string): string
    requires |group| > 1 || (group != "" && group[0] != '[')
  {
    if group[0] == '[' then group[1..|group| - 1] else group
  }

  /** The first name in a key and what follows it: any brackets, a name, and closing
      brackets.  The remainder is shorter than the key. */
  function ParseKey(key: string): (r: Option<(string, string)>)
    ensures r.Some? ==> |r.value.1| < |key|
  {
    var k := Run(key, c => IsBracket(c));
    var n := Run(key[k..], c => !IsBracket(c));
    if n == 0 then None
    else
      var end := k + n + Run(key[k + n..], c => c == ']');
      assert k == 0 ==> key[..end][0] == key[k..][0];
      Some((CleanKey(key[..end]), key[end..]))
  }

  /** The names in a key, and whether they use it up. */
  function KeyPath(key: string): (r: (seq<string>, bool))
    ensures r.1 ==> r.0 != []
    decreases |key|
  {
    match ParseKey(key)
    case None => ([], false)
    case Some((name, rest)) =>
      if rest == "" then ([name], true) else var (names, all) := KeyPath(rest); ([name] + names, all)
  }

  /** The key of a path: the first name as it is, the others in brackets. */
  function Format(path: seq<string>): string {
    if path == [] then "" else path[0] + InBrackets(path[1..])
  }

  function InBrackets(names: seq<string>): string {
    if names == [] then "" else "[" + names[0] + "]" + InBrackets(names[1..])
  }

  predicate WellFormed(path: seq<string>) {
    path != [] && forall i :: 0 <= i < |path| ==> path[i] != "" && Plain(path[i])
  }

  lemma Pieces(open: string, name: string, close: string, rest: string)
    ensures var key := open + name + close + rest;
      var n := |open| + |name|;
      && key == open + (name + (close + rest))
      && key[|open|..] == name + (close + rest) && key[n..] == close + rest
      && key[..n + |close|] == open + name + close && key[n + |close|..] == rest
  {}

  /** A key that is put together from its four pieces. */
  lemma ParsePieces(open: string, name: string, close: string, rest: string)
    requires forall i :: 0 <= i < |open| ==> IsBracket(open[i])
    requires name != "" && Plain(name)
    requires forall i :: 0 <= i < |close| ==> close[i] == ']'
    requires rest != "" ==> rest[0] == '['
    ensures ParseKey(open + name + close + rest) == Some((CleanKey(open + name + close), rest))
  {
    hide Run, CleanKey;
    var tail := close + rest;
    assert tail != "" ==> tail[0] == (if close != "" then close[0] else rest[0]);
    Pieces(open, name, close, rest);
    RunOf(open, name + tail, c => IsBracket(c));
    RunOf(name, tail, c => !IsBracket(c));
    RunOf(close, rest, c => c == ']');
  }

  lemma PathStep(key: string, name: string, rest: string)
    requires ParseKey(key) == Some((name, rest))
    ensures KeyPath(key) == if rest == "" then ([name], true) else ([name] + KeyPath(rest).0, KeyPath(rest).1)
  {}

  lemma InBracketsStep(names: seq<string>)
    requires names != []
    ensures InBrackets(names) == "[" + names[0] + "]" + InBrackets(names[1..])
    ensures InBrackets(names)[0] == '['
    ensures CleanKey("[" + names[0] + "]") == names[0]
  {}

  lemma {:induction false} PathInBrackets(names: seq<string>)
    requires WellFormed(names)
    ensures KeyPath(InBrackets(names)) == (names, true)
  {
    hide KeyPath, ParseKey, InBrackets, CleanKey;
    var rest := InBrackets(names[1..]);
    InBracketsStep(names);
    RestOf(names);
    ParsePieces("[", names[0], "]", rest);
    PathStep(InBrackets(names), names[0], rest);
    assert names == [names[0]] + names[1..];
    assert names[1..] == [] ==> names == [names[0]];
    if names[1..] != [] {
      PathInBrackets(names[1..]);
    }
  }

  lemma RestOf(names: seq<string>)
    requires WellFormed(names)
    ensures var rest := InBrackets(names[1..]); (rest == "" <==> names[1..] == []) && (rest != "" ==> rest[0] == '[')
  {}

  /** A well-formed key names exactly its path. */
  lemma PathOfFormat(path: seq<string>)
    requires WellFormed(path)
    ensures KeyPath(Format(path)) == (path, true)
  {
    hide KeyPath, ParseKey, InBrackets;
    var rest := InBrackets(path[1..]);
    RestOf(path);
    assert "" + path[0] + "" == path[0];
    ParsePieces("", path[0], "", rest);
    PathStep(Format(path), path[0], rest);
    assert path == [path[0]] + path[1..];
    assert path[1..] == [] ==> path == [path[0]];
    assert "" + path[0] + "" + rest == Format(path);
    if path[1..] != [] {
      PathInBrackets(path[1..]);
    }
  }

  /** The name in a group of brackets and letters survives exactly when it stands alone or
      between one opening and one closing bracket. */
  lemma NameSurvivesIff(open: string, name: string, close: string)
    requires forall i :: 0 <= i < |open| ==> IsBracket(open[i])
    requires name != "" && Plain(name)
    requires forall i :: 0 <= i < |close| ==> close[i] == ']'
    ensures CleanKey(open + name + close) == name <==>
      (open == "" && close == "") || (open == "[" && close == "]")
  {
    var group := open + name + close;
    if open != "" && open[0] == '[' {
      InsideOf(open, name, close);
    } else {
      WholeOf(open, name, close);
    }
  }

  lemma InsideOf(open: string, name: string, close: string)
    requires open != "" && open[0] == '[' && name != "" && Plain(name)
    requires (forall i :: 0 <= i < |open| ==> IsBracket(open[i])) && (forall i :: 0 <= i < |close| ==> close[i] == ']')
    ensures (open + name + close)[1..|open + name + close| - 1] == name <==> open == "[" && close == "]"
  {
    var group := open + name + close;
    var inside := group[1..|group| - 1];
    if |open| > 1 {
      assert inside[0] == open[1];
    } else if close == "" {
      assert |inside| == |name| - 1;
    } else {
      assert inside == name + close[..|close| - 1];
    }
  }

  lemma WholeOf(open: string, name: string, close: string)
    requires name != "" && Plain(name) && (open != "" ==> IsBracket(open[0]))
    ensures open + name + close == name <==> open == "" && close == ""
  {
    var group := open + name + close;
    assert open != "" ==> group[0] == open[0];
    assert open == "" && close == "" ==> group == name;
    assert |group| == |open| + |name| + |close|;
  }

  /** A name whose bracket is not closed loses its last character. */
  lemma UnclosedLosesLast(name: string)
    requires name != "" && Plain(name)
    ensures KeyPath("[" + name) == ([name[..|name| - 1]], true)
  {
    var group := "[" + name;
    assert group + "" + "" == group && group + "" == group;
    assert CleanKey(group) == name[..|name| - 1];
    hide KeyPath, ParseKey, CleanKey;
    ParsePieces("[", name, "", "");
    PathStep(group, name[..|name| - 1], "");
  }

  // ---------- the tree ----------

  datatype Node = Node(queryMap: map<string, Node>, values: Option<seq<string>>)

  const NULL := Node(map[], None)

  function Child(t: Node, name: string): Node {
    if name in t.queryMap then t.queryMap[name] else NULL
  }

  /** With a child of that name, an empty one if there was none. */
  function Touched(t: Node, name: string): Node {
    t.(queryMap := t.queryMap[name := Child(t, name)])
  }

  function LoadKeys(t: Node, key: string, value: seq<string>): Node
    decreases |key|, 0
  {
    match ParseKey(key)
    case None => t
    case Some((name, rest)) =>
      var u := Touched(t, name);
      u.(queryMap := u.queryMap[name := LoadedChild(u.queryMap[name], rest, value)])
  }

  function LoadedChild(child: Node, rest: string, value: seq<string>): Node
    decreases |rest|, 1
  {
    if rest != "" then LoadKeys(child, rest, value) else child.(values := Some(value))
  }

  function Find(t: Node, keys: seq<string>): Node
    decreases |keys|
  {
    if keys == [] then t else Find(Child(t, keys[0]), keys[1..])
  }

  /** Loading a key sets the values of its path, if the key is used up, and those of no other
      path. */
  lemma {:induction false} LoadThenFind(t: Node, key: string, value: seq<string>, path: seq<string>)
    ensures Find(LoadKeys(t, key, value), path).values ==
      if KeyPath(key) == (path, true) then Some(value) else Find(t, path).values
    decreases |key|
  {
    var parsed := ParseKey(key);
    if parsed.Some? && path != [] {
      var (name, rest) := parsed.value;
      assert path == [path[0]] + path[1..];
      if rest != "" {
        LoadThenFind(Child(t, name), rest, value, path[1..]);
      }
      hide Find, LoadKeys, ParseKey;
      var names := KeyPath(key).0;
      assert names[0] == name && names[1..] == (if rest == "" then [] else KeyPath(rest).0);
      assert names == path ==> names[1..] == path[1..];
    }
  }

  datatype Entry = Entry(key: string, values: seq<string>)

  predicate Names(e: Entry, path: seq<string>) {
    KeyPath(e.key) == (path, true)
  }

  function LoadAll(t: Node, entries: seq<Entry>): Node {
    if entries == [] then t
    else
      var last := entries[|entries| - 1];
      LoadKeys(LoadAll(t, entries[..|entries| - 1]), last.key, last.values)
  }

  /** The values that come last for a path. */
  function LastFor(entries: seq<Entry>, path: seq<string>): Option<seq<string>> {
    if entries == [] then None
    else
      var last := entries[|entries| - 1];
      if Names(last, path) then Some(last.values) else LastFor(entries[..|entries| - 1], path)
  }

  /** Whatever the keys look like, the tree has at each path what was loaded last for it. */
  lemma {:induction false} LoadAllThenFind(entries: seq<Entry>, path: seq<string>)
    ensures Find(LoadAll(NULL, entries), path).values == LastFor(entries, path)
    decreases |entries|
  {
    if entries == [] {
      NothingThere(path);
    } else {
      var init, last := entries[..|entries| - 1], entries[|entries| - 1];
      LoadAllThenFind(init, path);
      LoadThenFind(LoadAll(NULL, init), last.key, last.values, path);
    }
  }

  lemma {:induction false} NothingThere(path: seq<string>)
    ensures Find(NULL, path) == NULL
    decreases |path|
  {
    if path != [] {
      NothingThere(path[1..]);
    }
  }

  lemma {:induction false} LastForNone(entries: seq<Entry>, path: seq<string>)
    requires forall i :: 0 <= i < |entries| ==> !Names(entries[i], path)
    ensures LastFor(entries, path) == None
    decreases |entries|
  {
    if entries != [] {
      assert !Names(entries[|entries| - 1], path);
      LastForNone(entries[..|entries| - 1], path);
    }
  }

  lemma {:induction false} LastForOnly(entries: seq<Entry>, k: nat, path: seq<string>)
    requires k < |entries| && Names(entries[k], path)
    requires forall i :: 0 <= i < |entries| && i != k ==> !Names(entries[i], path)
    ensures LastFor(entries, path) == Some(entries[k].values)
    decreases |entries|
  {
    hide Names;
    if k < |entries| - 1 {
      assert !Names(entries[|entries| - 1], path);
      LastForOnly(entries[..|entries| - 1], k, path);
    }
  }

  predicate Distinct(paths: seq<seq<string>>) {
    forall i, j :: 0 <= i < j < |paths| ==> paths[i] != paths[j]
  }

  function Entries(paths: seq<seq<string>>, values: seq<seq<string>>): (r: seq<Entry>)
    requires |paths| == |values|
    ensures |r| == |paths| && forall i :: 0 <= i < |r| ==> r[i] == Entry(Format(paths[i]), values[i])
  {
    seq(|paths|, i requires 0 <= i < |paths| => Entry(Format(paths[i]), values[i]))
  }

  lemma EntriesName(paths: seq<seq<string>>, values: seq<seq<string>>, path: seq<string>)
    requires |paths| == |values| && forall i :: 0 <= i < |paths| ==> WellFormed(paths[i])
    ensures forall i :: 0 <= i < |paths| ==> (Names(Entries(paths, values)[i], path) <==> paths[i] == path)
  {
    forall i | 0 <= i < |paths| ensures Names(Entries(paths, values)[i], path) <==> paths[i] == path {
      PathOfFormat(paths[i]);
    }
  }

  /** Distinct well-formed keys, in any order, give each path its own values ... */
  lemma TreeHasItsKeys(paths: seq<seq<string>>, values: seq<seq<string>>, k: nat)
    requires |paths| == |values| && Distinct(paths) && forall i :: 0 <= i < |paths| ==> WellFormed(paths[i])
    requires k < |paths|
    ensures Find(LoadAll(NULL, Entries(paths, values)), paths[k]).values == Some(values[k])
  {
    EntriesName(paths, values, paths[k]);
    hide Names, KeyPath, Format;
    LastForOnly(Entries(paths, values), k, paths[k]);
    LoadAllThenFind(Entries(paths, values), paths[k]);
  }

  /** ... and no other path any. */
  lemma TreeHasNothingElse(paths: seq<seq<string>>, values: seq<seq<string>>, path: seq<string>)
    requires |paths| == |values| && forall i :: 0 <= i < |paths| ==> WellFormed(paths[i])
    requires path !in paths
    ensures Find(LoadAll(NULL, Entries(paths, values)), path).values == None
  {
    EntriesName(paths, values, path);
    hide Names, KeyPath, Format;
    LastForNone(Entries(paths, values), path);
    LoadAllThenFind(Entries(paths, values), path);
  }
}
