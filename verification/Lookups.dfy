/** Point lookups down the path of a key (tree.go:153-231). */
module Lookups {
  import opened Seqs
  import opened Messages
  import opened Leaves
  import opened Trees
  import opened Nodes

  /** Looks only into the leaf (tree.go:157-164). */
  method ExistsInLeaf(n: Node, key: K, ghost p: Params, ghost r: Range, ghost h: nat, ghost min: nat, ghost max: nat)
    returns (found: bool)
    requires n.Valid() && Arity(n.view) && Shape(p, n.view, r, h, min, max)
    ensures found == Base(n.view, key).Some?
    decreases h
  {
    if n.leaf {
      var _, there := n.LeafSearch(key);
      return there;
    }
    var childIdx := n.FindChildIndex(key);
    found := ExistsInLeaf(n.children[childIdx], key,
                          p, KidSpan(r, n.view.pivots, childIdx), h - 1, p.Half(), p.fanout);
  }

  /** Upsert functions collected newest first, applied oldest first. */
  function Chain(fns: seq<UpsertFn>, base: Option<V>): Option<V> {
    if fns == [] then base else Chain(fns[..|fns| - 1], Some(fns[|fns| - 1](base)))
  }

  /** tree.go:218-231 */
  method ApplyUpsertChain(start: Option<V>, fns: seq<UpsertFn>) returns (base: Option<V>)
    ensures base == Chain(fns, start)
  {
    base := start;
    var i := |fns| - 1;
    TakeAll(fns);
    while i >= 0
      invariant -1 <= i < |fns| && Chain(fns[..i + 1], base) == Chain(fns, start)
    {
      ChainLast(fns, i, base);
      base := Some(fns[i](base));
      i := i - 1;
    }
  }

  lemma LookupLeaf(t: Tree, key: K)
    requires Arity(t)
    ensures t.Leaf? ==> Lookup(t, key) == Val(t.page, key)
  {}

  lemma ChainNone()
    ensures Chain([], None) == None
  {}

  lemma ChainLast(fns: seq<UpsertFn>, i: nat, base: Option<V>)
    requires i < |fns|
    ensures Chain(fns[..i + 1], base) == Chain(fns[..i], Some(fns[i](base)))
  {
    assert fns[..i + 1][..i] == fns[..i];
  }

  lemma ChainMore(fns: seq<UpsertFn>, fn: UpsertFn, base: Option<V>)
    ensures Chain(fns + [fn], base) == Chain(fns, Some(fn(base)))
  {
    assert (fns + [fn])[..|fns|] == fns;
  }

  /** The lookup: from the root down and in each buffer from the newest message, upserts are
      put aside until a put, a delete or the leaf tells what they apply to. It agrees with
      folding the whole path from the leaf up. */
  method GetWithUpserts(n: Node, key: K, soFar: seq<UpsertFn>,
                        ghost p: Params, ghost r: Range, ghost h: nat, ghost min: nat, ghost max: nat)
    returns (value: Option<V>)
    requires n.Valid() && Arity(n.view) && Shape(p, n.view, r, h, min, max)
    ensures value == Chain(soFar, Lookup(n.view, key))
    decreases h
  {
    hide Chain, Fold, At, Path, Base, Lookup;
    ChainNone();
    LookupLeaf(n.view, key);
    if n.leaf {
      var i, found := n.LeafSearch(key);
      if found {
        value := ApplyUpsertChain(Some(n.values[i]), soFar);
      } else if |soFar| > 0 {
        value := ApplyUpsertChain(None, soFar);
      } else {
        value := None;
      }
      return;
    }
    var msgs := n.BufferMessagesForKey(key);
    var childIdx := n.FindChildIndex(key);
    var fns := soFar;
    ghost var below := Lookup(n.view.kids[childIdx], key);
    LookupNode(n.view, key);
    TakeAll(msgs);
    var i := |msgs| - 1;
    while i >= 0
      invariant -1 <= i < |msgs|
      invariant Chain(fns, Fold(msgs[..i + 1], below)) == Chain(soFar, Lookup(n.view, key))
    {
      TakeSlice(msgs, i, i + 1);
      assert msgs[i..i + 1] == [msgs[i]];
      FoldSnoc(msgs[..i], msgs[i], below);
      match msgs[i] {
        case Put(_, v, _) =>
          value := ApplyUpsertChain(Some(v), fns);
          return;
        case Delete(_) =>
          if |fns| > 0 {
            value := ApplyUpsertChain(None, fns);
          } else {
            value := None;
          }
          return;
        case Upsert(_, fn) =>
          ChainMore(fns, fn, Fold(msgs[..i], below));
          fns := fns + [fn];
        case DeleteRange(_, _) =>
      }
      i := i - 1;
    }
    FoldNone(below);
    assert msgs[..i + 1] == [];
    value := GetWithUpserts(n.children[childIdx], key, fns,
                            p, KidSpan(r, n.view.pivots, childIdx), h - 1, p.Half(), p.fanout);
  }

  /** getFromNode (tree.go:177-179). */
  method GetFromNode(n: Node, key: K, ghost p: Params, ghost r: Range, ghost h: nat, ghost min: nat, ghost max: nat)
    returns (value: Option<V>)
    requires n.Valid() && Arity(n.view) && Shape(p, n.view, r, h, min, max)
    ensures value == Lookup(n.view, key)
  {
    value := GetWithUpserts(n, key, [], p, r, h, min, max);
  }
}
