/** The tree of query parameters as objects that are updated in place. */
module QueryParamsMap {
  import opened Options
  import opened QueryParams

  class QueryParamsMap {
    var queryMap: map<string, QueryParamsMap>
    var values: Option<seq<string>>
    ghost var Repr: set<object>

    /** The objects below a node are its own, and no two children share any. */
    ghost predicate Valid()
      reads this, Repr
      decreases Repr
    {
      && this in Repr
      && (forall k :: k in queryMap ==>
            && queryMap[k] in Repr && queryMap[k].Repr <= Repr && this !in queryMap[k].Repr
            && queryMap[k].Valid())
      && (forall k, l :: k in queryMap && l in queryMap && k != l ==> queryMap[k].Repr !! queryMap[l].Repr)
    }

    ghost function Tree(): Node
      requires Valid()
      reads this, Repr
      decreases Repr
    {
      Node(map k | k in queryMap :: queryMap[k].Tree(), values)
    }

    constructor ()
      ensures Valid() && fresh(Repr) && Tree() == NULL
    {
      queryMap, values, Repr := map[], None, {this};
    }

    /** Nothing below a node has changed. */
    twostate lemma Kept()
      requires old(Valid()) && unchanged(old(Repr))
      ensures Repr == old(Repr) && Valid() && Tree() == old(Tree())
    {
      assert this in old(Repr);
    }

    lemma TreeIs(t: Node)
      requires Valid() && values == t.values && queryMap.Keys == t.queryMap.Keys
      requires forall k :: k in queryMap ==> queryMap[k].Tree() == t.queryMap[k]
      ensures Tree() == t
    {
      assert Tree().queryMap == t.queryMap;
    }

    /** One child may have changed; the others have not. */
    twostate predicate OthersKept(name: string)
      reads *
    {
      && old(Valid()) && name in queryMap && queryMap[name].Valid()
      && queryMap.Keys == old(queryMap.Keys) + {name} && values == old(values)
      && Repr == old(Repr) + queryMap[name].Repr && this !in queryMap[name].Repr
      && (forall k :: k in queryMap && k != name ==>
            && queryMap[k] == old(queryMap[k]) && unchanged(old(queryMap[k].Repr))
            && old(queryMap[k].Repr) !! queryMap[name].Repr)
    }

    twostate lemma ThisChild(name: string)
      requires OthersKept(name)
      ensures old(Valid()) && this in Repr && name in queryMap && queryMap[name].Valid()
      ensures queryMap[name] in Repr && queryMap[name].Repr <= Repr && this !in queryMap[name].Repr
    {
      hide Tree;
    }

    /** The children that have not changed are as good as before, and share nothing with the
        one that has. */
    twostate lemma OtherChildren(name: string)
      requires OthersKept(name)
      ensures forall k :: k in queryMap && k != name ==>
        && k in old(queryMap) && queryMap[k] == old(queryMap[k])
        && queryMap[k].Repr == old(queryMap[k].Repr) && queryMap[k].Valid()
        && queryMap[k] in Repr && queryMap[k].Repr <= Repr && this !in queryMap[k].Repr
        && queryMap[k].Repr !! queryMap[name].Repr
    {
      hide Tree;
      forall k | k in queryMap && k != name ensures queryMap[k].Repr == old(queryMap[k].Repr) && queryMap[k].Valid() {
        queryMap[k].Kept();
      }
    }

    twostate lemma ChildrenApart(name: string)
      requires OthersKept(name)
      ensures forall k, l :: k in queryMap && l in queryMap && k != l ==> queryMap[k].Repr !! queryMap[l].Repr
    {
      OtherChildren(name);
      hide Tree;
    }

    twostate lemma OneChildValid(name: string)
      requires OthersKept(name)
      ensures Valid()
    {
      ThisChild(name);
      OtherChildren(name);
      ChildrenApart(name);
      hide Tree, OthersKept;
    }

    twostate lemma OtherTrees(name: string)
      requires OthersKept(name)
      ensures forall k :: k in queryMap && k != name ==>
        queryMap[k].Valid() && k in old(queryMap) && queryMap[k].Tree() == old(queryMap[k].Tree())
    {
      hide Tree;
      forall k | k in queryMap && k != name
        ensures queryMap[k].Valid() && k in old(queryMap) && queryMap[k].Tree() == old(queryMap[k].Tree())
      {
        queryMap[k].Kept();
      }
    }

    /** The tree after a change of one child. */
    twostate lemma OneChild(name: string)
      requires OthersKept(name)
      ensures Valid() && old(Valid())
      ensures Tree() == old(Tree()).(queryMap := old(Tree()).queryMap[name := queryMap[name].Tree()])
    {
      OneChildValid(name);
      OtherTrees(name);
      OldTree();
      assert queryMap.Keys == old(queryMap.Keys) + {name} && values == old(values) && name in queryMap;
      hide Tree, Valid, OthersKept;
      var t := old(Tree()).(queryMap := old(Tree()).queryMap[name := queryMap[name].Tree()]);
      forall k | k in queryMap ensures k in t.queryMap && queryMap[k].Tree() == t.queryMap[k] {
        if k != name {
          OldTreeAt(k);
        }
      }
      TreeIs(t);
    }

    twostate lemma OldTreeAt(k: string)
      requires old(Valid()) && k in old(queryMap)
      ensures old(queryMap[k].Valid())
      ensures k in old(Tree()).queryMap && old(Tree()).queryMap[k] == old(queryMap[k].Tree())
    {}

    twostate lemma OldTree()
      requires old(Valid())
      ensures old(Tree()).queryMap.Keys == old(queryMap.Keys) && old(Tree()).values == old(values)
    {}

    method SetValues(value: seq<string>)
      requires Valid()
      modifies this`values
      ensures Valid() && Repr == old(Repr) && Tree() == old(Tree()).(values := Some(value))
    {
      ghost var t := Tree();
      values := Some(value);
      assert Tree().queryMap == t.queryMap;
    }

    /** Makes the child of that name, unless it is there. */
    method Touch(name: string)
      requires Valid()
      modifies this
      ensures Valid() && fresh(Repr - old(Repr)) && name in queryMap
      ensures Tree() == Touched(old(Tree()), name)
    {
      OldTree();
      hide Tree;
      if name in queryMap {
        assert Tree().queryMap == Tree().queryMap[name := Tree().queryMap[name]];
        return;
      }
      var node := new QueryParamsMap();
      queryMap := queryMap[name := node];
      Repr := Repr + node.Repr;
      OneChild(name);
    }

    /** Loads what is left of a key. */
    method LoadOrSet(rest: string, value: seq<string>)
      requires Valid()
      modifies Repr
      ensures Valid() && fresh(Repr - old(Repr)) && Tree() == LoadedChild(old(Tree()), rest, value)
      decreases |rest|, 1
    {
      assert this in Repr;
      hide Tree, Valid;
      if rest != "" {
        LoadKeys(rest, value);
      } else {
        SetValues(value);
      }
    }

    /** Loads the rest of a key into the child of that name, whose objects become its own. */
    method UpdateChild(name: string, rest: string, value: seq<string>)
      requires Valid() && name in queryMap
      modifies Repr
      ensures fresh(Repr - old(Repr)) && OthersKept(name) && name in old(queryMap) && old(queryMap[name].Valid())
      ensures queryMap[name].Tree() == LoadedChild(old(queryMap[name].Tree()), rest, value)
      decreases |rest|, 2
    {
      hide Tree, LoadedChild;
      var child := queryMap[name];
      child.LoadOrSet(rest, value);
      assert queryMap == old(queryMap) && values == old(values) && Repr == old(Repr) && this !in child.Repr;
      Repr := Repr + child.Repr;
      forall k | k in queryMap && k != name
        ensures unchanged(old(queryMap[k].Repr)) && old(queryMap[k].Repr) !! child.Repr
      {
        assert old(queryMap[k].Repr) !! old(child.Repr) && this !in old(queryMap[k].Repr);
      }
    }

    method LoadBelow(name: string, rest: string, value: seq<string>)
      requires Valid() && name in queryMap
      modifies Repr
      ensures Valid() && fresh(Repr - old(Repr)) && name in old(Tree()).queryMap
      ensures Tree() == old(Tree()).(queryMap :=
                old(Tree()).queryMap[name := LoadedChild(old(Tree()).queryMap[name], rest, value)])
      decreases |rest|, 3
    {
      OldTreeAt(name);
      hide Tree, LoadedChild, OthersKept;
      UpdateChild(name, rest, value);
      hide Valid;
      OneChild(name);
    }

    /** Follows the names in a key down the tree, making the nodes that are not there, and
        sets the values at its end. */
    method LoadKeys(key: string, value: seq<string>)
      requires Valid()
      modifies Repr
      ensures Valid() && fresh(Repr - old(Repr))
      ensures Tree() == QueryParams.LoadKeys(old(Tree()), key, value)
      decreases |key|, 0
    {
      assert this in Repr;
      hide Tree, Valid;
      var parsed := ParseKey(key);
      if parsed.None? {
        return;
      }
      var (name, rest) := parsed.value;
      Touch(name);
      LoadBelow(name, rest, value);
    }

    /** Loads the entries of a parameter map, in whatever order they come. */
    method LoadQueryString(entries: seq<Entry>)
      requires Valid()
      modifies Repr
      ensures Valid() && fresh(Repr - old(Repr)) && Tree() == LoadAll(old(Tree()), entries)
    {
      assert this in Repr;
      hide Tree, Valid, QueryParams.LoadKeys;
      assert entries[..|entries|] == entries;
      for i := 0 to |entries|
        invariant Valid() && fresh(Repr - old(Repr)) && Tree() == LoadAll(old(Tree()), entries[..i])
      {
        assert entries[..i + 1][..i] == entries[..i];
        LoadKeys(entries[i].key, entries[i].values);
      }
    }

    /** The node that a path leads to; null stands for the empty node that is shared by all
        paths that lead nowhere. */
    method Get(keys: seq<string>) returns (ret: QueryParamsMap?)
      requires Valid()
      ensures ret != null ==> ret in Repr && ret.Repr <= Repr && ret.Valid()
      ensures Find(Tree(), keys) == if ret == null then NULL else ret.Tree()
    {
      ret := this;
      assert keys[0..] == keys;
      for i := 0 to |keys|
        invariant ret != null ==> ret in Repr && ret.Repr <= Repr && ret.Valid()
        invariant Find(Tree(), keys) == Find(if ret == null then NULL else ret.Tree(), keys[i..])
      {
        hide Valid, Tree;
        FindStep(if ret == null then NULL else ret.Tree(), keys, i);
        if ret != null {
          ret.ChildOf(keys[i]);
          if keys[i] in ret.queryMap {
            ret := ret.queryMap[keys[i]];
          } else {
            ret := null;
          }
        }
      }
    }

    lemma ChildOf(k: string)
      requires Valid()
      ensures k !in queryMap ==> Child(Tree(), k) == NULL
      ensures k in queryMap ==>
        && queryMap[k] in Repr && queryMap[k].Repr <= Repr && queryMap[k].Valid()
        && Child(Tree(), k) == queryMap[k].Tree()
    {}
  }

  lemma FindStep(t: Node, keys: seq<string>, i: nat)
    requires i < |keys|
    ensures Find(t, keys[i..]) == Find(Child(t, keys[i]), keys[i + 1..])
    ensures Child(NULL, keys[i]) == NULL
  {
    assert keys[i..][1..] == keys[i + 1..];
  }
}
