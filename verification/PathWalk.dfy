/** Slash-separated paths, and the walk along their segments that both path normalisers
    are measured against.
  */
module PathWalk {

  /** The index of the last slash, or -1. */
  function LastSlash(s: string): (r: int)
    ensures -1 <= r < |s|
    ensures r >= 0 ==> s[r] == '/'
    ensures forall i :: r < i < |s| ==> s[i] != '/'
  {
    if s == "" then -1
    else if s[|s| - 1] == '/' then |s| - 1
    else LastSlash(s[..|s| - 1])
  }

  predicate SlashFree(s: string) {
    forall i :: 0 <= i < |s| ==> s[i] != '/'
  }

  /** Empty, or starting with a slash. */
  predicate Absolute(s: string) {
    s == "" || s[0] == '/'
  }

  /** The segments of an absolute path: what follows each slash. */
  function Parts(s: string): (r: seq<string>)
    requires Absolute(s)
    ensures forall i :: 0 <= i < |r| ==> SlashFree(r[i])
    decreases |s|
  {
    if s == "" then [] else var i := LastSlash(s); Parts(s[..i]) + [s[i + 1..]]
  }

  /** Every segment after a slash. */
  function Render(parts: seq<string>): (r: string)
    ensures Absolute(r)
    ensures r == "" <==> parts == []
  {
    if parts == [] then "" else Render(parts[..|parts| - 1]) + "/" + parts[|parts| - 1]
  }

  lemma {:induction false} RenderParts(s: string)
    requires Absolute(s)
    ensures Render(Parts(s)) == s
    decreases |s|
  {
    if s != "" {
      var i := LastSlash(s);
      RenderParts(s[..i]);
      assert Parts(s)[..|Parts(s)| - 1] == Parts(s[..i]);
      hide LastSlash;
      assert s == s[..i] + "/" + s[i + 1..];
    }
  }

  lemma LastSlashIs(s: string, i: nat)
    requires i < |s| && s[i] == '/' && forall j :: i < j < |s| ==> s[j] != '/'
    ensures LastSlash(s) == i
  {}

  lemma JoinIndices(a: string, b: string)
    ensures var s := a + "/" + b;
      |s| == |a| + 1 + |b| && s[..|a|] == a && s[|a|] == '/' && s[|a| + 1..] == b
  {}

  lemma LastSlashOf(a: string, b: string)
    requires SlashFree(b)
    ensures LastSlash(a + "/" + b) == |a|
  {
    hide LastSlash;
    var s := a + "/" + b;
    JoinIndices(a, b);
    forall j | |a| < j < |s| ensures s[j] != '/' {
      assert s[j] == s[|a| + 1..][j - |a| - 1];
    }
    LastSlashIs(s, |a|);
  }

  lemma PartsOfJoin(a: string, b: string)
    requires Absolute(a) && SlashFree(b)
    ensures Absolute(a + "/" + b) && Parts(a + "/" + b) == Parts(a) + [b]
  {
    hide LastSlash;
    JoinIndices(a, b);
    LastSlashOf(a, b);
  }

  lemma {:induction false} PartsOfRender(parts: seq<string>)
    requires forall i :: 0 <= i < |parts| ==> SlashFree(parts[i])
    ensures Parts(Render(parts)) == parts
  {
    if parts != [] {
      var init, last := parts[..|parts| - 1], parts[|parts| - 1];
      PartsOfRender(init);
      assert Render(parts) == Render(init) + "/" + last;
      hide Parts, Render;
      PartsOfJoin(Render(init), last);
      assert parts == init + [last];
    }
  }

  lemma {:induction false} RenderAppend(a: seq<string>, b: seq<string>)
    ensures Render(a + b) == Render(a) + Render(b)
  {
    if b == [] {
      assert a + b == a;
    } else {
      assert (a + b)[..|a + b| - 1] == a + b[..|b| - 1];
      RenderAppend(a, b[..|b| - 1]);
    }
  }

  lemma RenderOne(s: string)
    ensures Render([s]) == "/" + s
  {
    assert [s][..0] == [];
  }

  // ---------- walking ----------

  predicate IsDots(s: string) {
    s == "." || s == ".."
  }

  predicate NoDots(parts: seq<string>) {
    forall i :: 0 <= i < |parts| ==> !IsDots(parts[i])
  }

  /** How often the walk has left its start upwards, and where it is below that. */
  datatype Walk = Walk(ups: nat, stack: seq<string>)

  function Up(w: Walk): Walk {
    if w.stack == [] then w.(ups := w.ups + 1) else w.(stack := w.stack[..|w.stack| - 1])
  }

  /** The walk from left to right: "." stays, ".." goes up, anything else goes down. */
  function Forward(parts: seq<string>): Walk {
    if parts == [] then Walk(0, [])
    else
      var w, s := Forward(parts[..|parts| - 1]), parts[|parts| - 1];
      if s == "." then w
      else if s == ".." then Up(w)
      else w.(stack := w.stack + [s])
  }

  /** The scan from right to left: ".." is remembered and cancels the next segment that is
      neither "." nor "..". */
  function Backward(parts: seq<string>, skip: nat): Walk {
    if parts == [] then Walk(skip, [])
    else
      var init, s := parts[..|parts| - 1], parts[|parts| - 1];
      if s == "." then Backward(init, skip)
      else if s == ".." then Backward(init, skip + 1)
      else if skip > 0 then Backward(init, skip - 1)
      else var w := Backward(init, 0); w.(stack := w.stack + [s])
  }

  /** A walk after `skip` more steps up. */
  function Rewind(w: Walk, skip: nat): Walk {
    if skip <= |w.stack| then Walk(w.ups, w.stack[..|w.stack| - skip]) else Walk(w.ups + skip - |w.stack|, [])
  }

  lemma RewindUp(w: Walk, skip: nat)
    ensures Rewind(Up(w), skip) == Rewind(w, skip + 1)
  {
    if w.stack != [] && skip + 1 <= |w.stack| {
      assert w.stack[..|w.stack| - 1][..|w.stack| - 1 - skip] == w.stack[..|w.stack| - (skip + 1)];
    }
  }

  lemma RewindDown(w: Walk, s: string, skip: nat)
    ensures Rewind(w.(stack := w.stack + [s]), skip + 1) == Rewind(w, skip)
    ensures Rewind(w, 0) == w
  {
    assert w.stack[..|w.stack|] == w.stack;
    if skip <= |w.stack| {
      assert (w.stack + [s])[..|w.stack| - skip] == w.stack[..|w.stack| - skip];
    }
  }

  /** The scan finds what the walk finds. */
  lemma {:induction false} BackwardIsForward(parts: seq<string>, skip: nat)
    ensures Backward(parts, skip) == Rewind(Forward(parts), skip)
  {
    if parts != [] {
      var init, s := parts[..|parts| - 1], parts[|parts| - 1];
      var w := Forward(init);
      if s == "." {
        BackwardIsForward(init, skip);
      } else if s == ".." {
        BackwardIsForward(init, skip + 1);
        RewindUp(w, skip);
      } else if skip > 0 {
        BackwardIsForward(init, skip - 1);
        RewindDown(w, s, skip - 1);
      } else {
        BackwardIsForward(init, 0);
        RewindDown(w, s, 0);
        RewindDown(w.(stack := w.stack + [s]), s, 0);
      }
    }
  }

  lemma {:induction false} StackHasNoDots(parts: seq<string>)
    requires forall i :: 0 <= i < |parts| ==> SlashFree(parts[i])
    ensures NoDots(Forward(parts).stack)
    ensures forall i :: 0 <= i < |Forward(parts).stack| ==> Forward(parts).stack[i] in parts && SlashFree(Forward(parts).stack[i])
  {
    if parts != [] {
      var init := parts[..|parts| - 1];
      StackHasNoDots(init);
      assert forall i :: 0 <= i < |init| ==> init[i] == parts[i];
    }
  }

  /** Without dots there is nothing to walk. */
  lemma {:induction false} ForwardOfPlain(parts: seq<string>)
    requires NoDots(parts)
    ensures Forward(parts) == Walk(0, parts)
  {
    if parts != [] {
      ForwardOfPlain(parts[..|parts| - 1]);
      assert parts == parts[..|parts| - 1] + [parts[|parts| - 1]];
    }
  }
}
