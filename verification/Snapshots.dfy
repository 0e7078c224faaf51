/** Range queries on a whole tree: what All, Range and DescendRange list is exactly the live
    pairs asked for (iterator.go:24-121). */
module Snapshots {
  import opened Seqs
  import opened Messages
  import opened Leaves
  import opened Trees
  import opened Contents
  import opened Runs
  import opened Iteration
  import opened Listing
  import opened Nodes
  import opened Collectors
  import opened LeafBatches

  ghost predicate KeysAscend(ps: seq<Pair>) {
    forall i, j :: 0 <= i < j < |ps| ==> ps[i].key < ps[j].key
  }

  /** The pairs of m with keys in r, each once, in ascending order of key. */
  ghost predicate Lists(ps: seq<Pair>, m: map<K, V>, r: Range) {
    && KeysAscend(ps)
    && (forall i :: 0 <= i < |ps| ==> r.Has(ps[i].key) && ps[i].key in m && m[ps[i].key] == ps[i].value)
    && (forall k :: k in m && r.Has(k) ==> exists i :: 0 <= i < |ps| && ps[i].key == k)
  }

  lemma PairsList(ps: seq<Pair>, m: map<K, V>, r: Range)
    requires Sound(PairsPage(ps))
    requires forall k :: Val(PairsPage(ps), k) == if r.Has(k) then Get(m, k) else None
    ensures Lists(ps, m, r)
  {
    var pg := PairsPage(ps);
    forall i, j | 0 <= i < j < |ps| ensures ps[i].key < ps[j].key {
      assert pg.keys[i] < pg.keys[j];
    }
    forall i | 0 <= i < |ps| ensures r.Has(ps[i].key) && ps[i].key in m && m[ps[i].key] == ps[i].value {
      ValAt(pg, i);
      assert Val(pg, ps[i].key) == if r.Has(ps[i].key) then Get(m, ps[i].key) else None;
    }
    forall k | k in m && r.Has(k) ensures exists i :: 0 <= i < |ps| && ps[i].key == k {
      assert Val(pg, k) == Get(m, k);
      PresentIn(pg.keys, k);
      var i :| 0 <= i < |pg.keys| && pg.keys[i] == k;
      assert ps[i].key == k;
    }
  }

  /** There is only one such list. */
  lemma ListsUnique(a: seq<Pair>, b: seq<Pair>, m: map<K, V>, r: Range)
    requires Lists(a, m, r) && Lists(b, m, r)
    ensures a == b
  {
    var x, y := PairsPage(a), PairsPage(b);
    forall k ensures k in x.keys <==> k in y.keys {
      ListedKeys(a, m, r, k);
      ListedKeys(b, m, r, k);
    }
    KeysUnique(x.keys, y.keys);
    forall i | 0 <= i < |a| ensures a[i] == b[i] {
      assert x.keys[i] == y.keys[i];
    }
  }

  lemma ListedKeys(ps: seq<Pair>, m: map<K, V>, r: Range, k: K)
    requires Lists(ps, m, r)
    ensures k in PairsPage(ps).keys <==> k in m && r.Has(k)
  {
    if k in m && r.Has(k) {
      var i :| 0 <= i < |ps| && ps[i].key == k;
      assert PairsPage(ps).keys[i] == k;
    }
  }

  lemma ListsAll(ps: seq<Pair>, m: map<K, V>)
    requires Lists(ps, m, EVERYTHING)
    ensures forall i, j :: 0 <= i < j < |ps| ==> ps[i].key < ps[j].key
    ensures forall x: Pair :: x in ps <==> x.key in m && x.value == m[x.key]
  {
    forall x: Pair | x.key in m && x.value == m[x.key] ensures x in ps {
      var i :| 0 <= i < |ps| && ps[i].key == x.key;
      assert ps[i] == x;
    }
  }

  /** What is listed for each kind of range, in comparisons. */
  lemma ListsMeans(ps: seq<Pair>, m: map<K, V>, r: Range, k: K)
    requires Lists(ps, m, r)
    ensures r.lo.None? && r.hi.None? ==> (k in PairsPage(ps).keys <==> k in m)
    ensures r.lo.Some? && r.hi.Some? && r.loInc && !r.hiInc ==>
      (k in PairsPage(ps).keys <==> k in m && r.lo.value <= k < r.hi.value)
    ensures r.lo.Some? && r.hi.Some? && !r.loInc && r.hiInc ==>
      (k in PairsPage(ps).keys <==> k in m && r.lo.value < k <= r.hi.value)
  {
    ListedKeys(ps, m, r, k);
    HasMeans(r, k);
  }

  /** The collected entries of each key come root first and fold to its value. */
  lemma EntriesMean(p: Params, t: Tree, r: Range)
    requires GoodTree(p, t)
    ensures var es := Collect(t, r, 0);
      && Layered(es)
      && forall k :: ResolveRuns(EntriesAt(es, k), None) == (if r.Has(k) then Get(Live(t), k) else None)
  {
    var es := Collect(t, r, 0);
    forall k
      ensures ByDepth(EntriesAt(es, k))
      ensures ResolveRuns(EntriesAt(es, k), None) == if r.Has(k) then Get(Live(t), k) else None
    {
      CollectAt(p, t, r, EVERYTHING, Height(t), 2, p.fanout, 0, k);
      PathDepths(t, k, 0);
      ResolvePath(t, k, 0, p, EVERYTHING, Height(t), 2, p.fanout);
      LiveIsLookup(p, t, EVERYTHING, Height(t), 2, p.fanout, k);
    }
  }

  method ListEntries(entries: seq<Entry>, ghost p: Params, ghost t: Tree, ghost r: Range)
    returns (pairs: seq<Pair>)
    requires GoodTree(p, t) && entries == Collect(t, r, 0)
    ensures Lists(pairs, Live(t), r)
  {
    EntriesMean(p, t, r);
    pairs := ResolveEntries(entries);
    PairsList(pairs, Live(t), r);
  }

  /** iterator.go:94-98 */
  method MaterializeAll(root: Node, ghost p: Params) returns (pairs: seq<Pair>)
    requires root.Valid() && GoodTree(p, root.view)
    ensures Lists(pairs, Live(root.view), EVERYTHING)
    ensures forall i :: 0 <= i < |pairs| ==> pairs[i].key in Live(root.view)
    ensures forall k :: k in Live(root.view) ==> exists i :: 0 <= i < |pairs| && pairs[i].key == k
  {
    var entries := CollectAll(root, 0, [], p, EVERYTHING, Height(root.view), 2, p.fanout);
    assert entries == Collect(root.view, EVERYTHING, 0);
    pairs := ListEntries(entries, p, root.view, EVERYTHING);
  }

  /** The live pairs of [lo, hi) (iterator.go:102-109). */
  method MaterializeRange(root: Node, lo: K, hi: K, ghost p: Params) returns (pairs: seq<Pair>)
    requires root.Valid() && GoodTree(p, root.view)
    ensures Lists(pairs, Live(root.view), Slice(lo, hi))
    ensures forall i :: 0 <= i < |pairs| ==> lo <= pairs[i].key < hi
    ensures forall k :: k in Live(root.view) && lo <= k < hi ==> exists i :: 0 <= i < |pairs| && pairs[i].key == k
  {
    if Cmp(lo, hi) >= 0 {
      return [];
    }
    pairs := LivePairs(root, lo, hi, true, false, p);
  }

  method LivePairs(root: Node, lo: K, hi: K, loInc: bool, hiInc: bool, ghost p: Params) returns (pairs: seq<Pair>)
    requires root.Valid() && GoodTree(p, root.view) && lo < hi
    ensures Lists(pairs, Live(root.view), Range(Some(lo), loInc, Some(hi), hiInc))
  {
    ghost var r := Range(Some(lo), loInc, Some(hi), hiInc);
    var entries := CollectRange(root, lo, hi, loInc, hiInc, 0, [], p, EVERYTHING, Height(root.view), 2, p.fanout);
    assert entries == Collect(root.view, r, 0);
    pairs := ListEntries(entries, p, root.view, r);
  }

  /** The live pairs of (lo, hi] (iterator.go:114-121). */
  method MaterializeDescendRange(root: Node, hi: K, lo: K, ghost p: Params) returns (pairs: seq<Pair>)
    requires root.Valid() && GoodTree(p, root.view)
    ensures Lists(pairs, Live(root.view), Range(Some(lo), false, Some(hi), true))
    ensures forall i :: 0 <= i < |pairs| ==> lo < pairs[i].key <= hi
    ensures forall k :: k in Live(root.view) && lo < k <= hi ==> exists i :: 0 <= i < |pairs| && pairs[i].key == k
  {
    if Cmp(lo, hi) >= 0 {
      return [];
    }
    pairs := LivePairs(root, lo, hi, false, true, p);
  }

  function Reverse(ps: seq<Pair>): (q: seq<Pair>)
    ensures |q| == |ps| && forall i :: 0 <= i < |ps| ==> q[i] == ps[|ps| - 1 - i]
  {
    if ps == [] then [] else Reverse(ps[1..]) + [ps[0]]
  }

  /** A list read backwards has the same pairs, descending. */
  lemma ReverseLists(ps: seq<Pair>, out: seq<Pair>)
    requires out == Reverse(ps) && KeysAscend(ps)
    ensures forall i, j :: 0 <= i < j < |out| ==> out[j].key < out[i].key
    ensures forall x :: x in out <==> x in ps
    ensures Reverse(out) == ps
  {
    forall x ensures x in out <==> x in ps {
      if x in ps {
        var i :| 0 <= i < |ps| && ps[i] == x;
        assert out[|ps| - 1 - i] == x;
      }
    }
  }

  /** What a descending iterator yields from a materialized list (iterator.go:53-57,
      iterator.go:84-88). */
  method Backwards(pairs: seq<Pair>) returns (out: seq<Pair>)
    ensures out == Reverse(pairs)
  {
    out := [];
    var i := |pairs| - 1;
    while i >= 0
      invariant -1 <= i < |pairs| && |out| == |pairs| - 1 - i
      invariant out == Reverse(pairs)[..|out|]
    {
      out := out + [pairs[i]];
      i := i - 1;
    }
  }

  // ---------- Deleting a range from a leaf ----------

  /** A leaf's page once its entries after i have been visited. */
  ghost predicate Thinned(pg: Page, now: Page, i: int, lo: K, hi: K) {
    && Sound(pg) && Sound(now)
    && -1 <= i < |pg.keys| && i < |now.keys| && now.keys[..i + 1] == pg.keys[..i + 1]
    && (forall k :: Val(now, k) == (if lo <= k < hi && k in pg.keys[i + 1..] then None else Val(pg, k)))
  }

  lemma ThinStart(pg: Page, lo: K, hi: K)
    requires Sound(pg)
    ensures Thinned(pg, pg, |pg.keys| - 1, lo, hi)
  {}

  lemma ThinStep(pg: Page, now: Page, now': Page, i: nat, lo: K, hi: K)
    requires Thinned(pg, now, i, lo, hi) && Sound(now')
    requires if lo <= now.keys[i] < hi
      then now'.keys == RemoveAt(now.keys, i)
           && forall k :: Val(now', k) == if k == now.keys[i] then None else Val(now, k)
      else now' == now
    ensures Thinned(pg, now', i - 1, lo, hi)
  {
    var x := pg.keys[i];
    assert now.keys[i] == now.keys[..i + 1][i] == x;
    assert now'.keys[..i] == now.keys[..i + 1][..i];
    assert pg.keys[i..] == [x] + pg.keys[i + 1..];
    forall k ensures Val(now', k) == if lo <= k < hi && k in pg.keys[i..] then None else Val(pg, k) {
      assert Val(now, k) == if lo <= k < hi && k in pg.keys[i + 1..] then None else Val(pg, k);
    }
  }

  lemma ThinEnd(pg: Page, now: Page, lo: K, hi: K)
    requires Thinned(pg, now, -1, lo, hi)
    ensures Sound(now) && forall k :: Val(now, k) == if lo <= k < hi then None else Val(pg, k)
  {
    assert pg.keys[0..] == pg.keys;
    forall k ensures Val(now, k) == if lo <= k < hi then None else Val(pg, k) {
      PresentIn(pg.keys, k);
    }
  }

  /** The reverse loop over a leaf root (tree.go:310-321). */
  method DeleteFromLeaf(leaf: Node, lo: K, hi: K) returns (count: nat)
    requires GoodLeaf(leaf)
    modifies leaf
    ensures GoodLeaf(leaf) && leaf.Repr == old(leaf.Repr)
    ensures forall k :: Val(leaf.view.page, k) == if lo <= k < hi then None else Val(old(leaf.view.page), k)
    ensures count == |old(leaf.view.page.keys)| - |leaf.view.page.keys|
  {
    ghost var pg := leaf.view.page;
    count := 0;
    var i := |leaf.keys| - 1;
    ThinStart(pg, lo, hi);
    while i >= 0
      invariant GoodLeaf(leaf) && leaf.Repr == old(leaf.Repr)
      invariant Thinned(pg, leaf.view.page, i, lo, hi)
      invariant count == |pg.keys| - |leaf.keys|
    {
      ghost var now := leaf.view.page;
      if Cmp(leaf.keys[i], lo) >= 0 && Cmp(leaf.keys[i], hi) < 0 {
        RemoveEntry(leaf, i);
        count := count + 1;
      }
      ThinStep(pg, now, leaf.view.page, i, lo, hi);
      i := i - 1;
    }
    ThinEnd(pg, leaf.view.page, lo, hi);
  }

  method RemoveEntry(leaf: Node, i: nat)
    requires GoodLeaf(leaf) && i < |leaf.keys|
    modifies leaf
    ensures GoodLeaf(leaf) && leaf.Repr == old(leaf.Repr)
    ensures leaf.keys == RemoveAt(old(leaf.keys), i)
    ensures forall k :: Val(leaf.view.page, k) == if k == old(leaf.keys[i]) then None else Val(old(leaf.view.page), k)
  {
    ghost var pg := leaf.view.page;
    LocateUnique(leaf.keys, leaf.keys[i], i);
    forall k
      ensures Sound(PageRemove(pg, pg.keys[i]))
      ensures Val(PageRemove(pg, pg.keys[i]), k) == if k == pg.keys[i] then None else Val(pg, k)
    {
      ValRemove(pg, pg.keys[i], k);
    }
    leaf.SetEntries(RemoveAt(leaf.keys, i), RemoveAt(leaf.values, i));
  }
}
