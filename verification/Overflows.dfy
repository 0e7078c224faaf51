/** Runs that end with a node over its capacity. */
module Overflows {
  import opened Seqs
  import opened Messages
  import opened Leaves
  import opened Trees
  import opened Flushing
  import opened Ledgers
  import opened Contents
  import opened KeySets
  import opened Batches
  import opened Nodes
  import opened Runs
  import opened Laws
  import opened Capacities
  import opened Bounds

  /** The root over two leaves that ascending puts leave once they split the first leaf. */
  ghost function TwoLeaves(keys: seq<K>, v: V): (t: Tree)
    requires |keys| >= 2
    ensures t.Node? && Arity(t)
  {
    var pg, mid := Page(keys, Same(|keys|, v)), |keys| / 2;
    Tree.Node([keys[mid]], [Leaf(Cut(pg, 0, mid)), Leaf(Cut(pg, mid, |keys|))], [], false)
  }

  lemma PutsSplitTree(p: Params, keys: seq<K>, v: V)
    requires p.Valid() && Increasing(keys) && |keys| == p.leafCap + 1
    ensures var s := Run(p, Puts(keys, v)).0; s.tree == TwoLeaves(keys, v) && s.pending == 0
  {
    hide Run, GrowRoot, PagePut, Same, Next, TwoLeaves;
    var keys', k := keys[..|keys| - 1], keys[|keys| - 1];
    var pg := Page(keys', Same(|keys'|, v));
    PutsFill(p, keys', v);
    RunSnoc(p, Puts(keys', v), DoPut(k, v));
    PutOnLeaf(p, Run(p, Puts(keys', v)).0, k, v);
    PutLast(pg, k, v);
    SameNext(|keys'|, v);
    assert keys == keys' + [k];
    LeafSplits(p, keys, v);
  }

  lemma SameNext(n: nat, v: V)
    ensures Same(n + 1, v) == Same(n, v) + [v]
  {}

  lemma PutOnLeaf(p: Params, s: State, k: K, v: V)
    requires p.Valid() && Arity(s.tree) && s.tree.Leaf?
    ensures var s' := Next(p, s, DoPut(k, v)).0;
      s'.tree == GrowRoot(p, Leaf(PagePut(s.tree.page, k, v))) && s'.pending == s.pending
  {}

  lemma LeafSplits(p: Params, keys: seq<K>, v: V)
    requires p.Valid() && |keys| == p.leafCap + 1
    ensures GrowRoot(p, Leaf(Page(keys, Same(|keys|, v)))) == TwoLeaves(keys, v)
  {
    hide Same;
    SplitRootIs(Leaf(Page(keys, Same(|keys|, v))));
  }

  lemma SplitRootIs(t: Tree)
    requires Splittable(t)
    ensures SplitRoot(t) == Tree.Node([Split(t).1], [Split(t).0, Split(t).2], [], false)
  {
    hide Split;
  }

  // ---------- A buffer ----------

  lemma {:induction false} DeletingIndex(keys: seq<K>, i: nat)
    requires i < |keys|
    ensures |Deleting(keys)| == |keys| && Deleting(keys)[i] == Delete(keys[i])
  {
    DeletingLength(keys);
    DeletingLength(keys[..|keys| - 1]);
    if i < |keys| - 1 {
      DeletingIndex(keys[..|keys| - 1], i);
    }
  }

  /** The deletes of the keys before and from a pivot. */
  lemma DeletingParts(keys: seq<K>, mid: nat, t: Tree)
    requires Increasing(keys) && 0 < mid < |keys|
    requires t.Node? && t.pivots == [keys[mid]] && t.buf == Deleting(keys)
    ensures |t.buf| == |keys| && Bucket(t, 0) == t.buf[0..mid] && Bucket(t, 1) == t.buf[mid..|keys|]
    ensures forall m :: m in t.buf ==> m.Delete?
  {
    hide Sel, Deleting;
    DeletingLength(keys);
    forall i | 0 <= i < |keys| ensures t.buf[i] == Delete(keys[i]) {
      DeletingIndex(keys, i);
    }
    SortedSlice(t.buf, KidSpan(EVERYTHING, t.pivots, 0), 0, mid);
    SortedSlice(t.buf, KidSpan(EVERYTHING, t.pivots, 1), mid, |keys|);
  }

  lemma {:induction false} DeletesShrink(pg: Page, ms: seq<Message>)
    requires Sound(pg) && forall m :: m in ms ==> m.Delete?
    ensures |PageRun(pg, ms).keys| <= |pg.keys|
  {
    if ms != [] {
      DeletesShrink(pg, ms[..|ms| - 1]);
      RunSound(pg, ms[..|ms| - 1]);
      StepLength(PageRun(pg, ms[..|ms| - 1]), ms[|ms| - 1]);
    }
  }

  /** Flushing the deletes of all keys leaves half of them in the root. */
  lemma DeletesFlushed(p: Params, keys: seq<K>, v: V)
    requires p.Valid() && Increasing(keys) && |keys| == p.leafCap + 1
    ensures var t := Flush(p, OnTop(TwoLeaves(keys, v), Deleting(keys))).tree;
      |t.kids| == 2 && |t.buf| == |keys| / 2
  {
    hide Flush, Deleting, Bucket, Heaviest, PageRun;
    var t, mid := OnTop(TwoLeaves(keys, v), Deleting(keys)), |keys| / 2;
    DeletingParts(keys, mid, t);
    var h := Heaviest(t, 2);
    assert |Bucket(t, 0)| <= |Bucket(t, h)| && |Bucket(t, 1)| <= |Bucket(t, h)|;
    FlushBuffer(p, t);
    LeavesSound(keys, v, h);
    assert forall m :: m in Bucket(t, h) ==> m in t.buf;
    DeletesShrink(t.kids[h].page, Bucket(t, h));
    TwoStay(p, t);
  }

  lemma LeavesSound(keys: seq<K>, v: V, i: nat)
    requires Increasing(keys) && |keys| >= 2 && i <= 1
    ensures Sound(TwoLeaves(keys, v).kids[i].page) && |TwoLeaves(keys, v).kids[i].page.keys| < |keys|
  {
    hide Same;
  }

  lemma LowerLeaf(p: Params, t: Tree)
    requires p.Valid() && Arity(t) && t.Node? && t.kids[Heaviest(t, |t.kids|)].Leaf?
    ensures var h := Heaviest(t, |t.kids|);
      Lower(p, t).tree == Leaf(PageRun(t.kids[h].page, Bucket(t, h)))
  {
    hide PageRun, Bucket;
  }

  lemma TwoStay(p: Params, t: Tree)
    requires p.Valid() && Arity(t) && t.Node? && t.buf != [] && t.kids[Heaviest(t, |t.kids|)].Leaf?
    requires var h := Heaviest(t, |t.kids|);
      Sound(t.kids[h].page) && |PageRun(t.kids[h].page, Bucket(t, h)).keys| <= p.leafCap
    ensures |Flush(p, t).tree.kids| == |t.kids|
  {
    hide PageRun, Bucket, Heaviest, Lower, Lowered;
    LowerLeaf(p, t);
    LoweredParts(p, t);
  }

  /** The keys a range deletion over all of them meets. */
  lemma AllDoomed(p: Params, keys: seq<K>, v: V, lo: K, hi: K)
    requires p.Valid() && Increasing(keys) && forall k :: k in keys ==> lo <= k < hi
    ensures Ascending(LiveIn(Run(p, Puts(keys, v)).0.tree, Slice(lo, hi))) == keys
  {
    hide Run, MapRun;
    var s := Run(p, Puts(keys, v)).0;
    RunRefines(p, Puts(keys, v));
    PutsMap(keys, v);
    forall k ensures k in LiveIn(s.tree, Slice(lo, hi)) <==> k in keys {}
    KeysUnique(Ascending(LiveIn(s.tree, Slice(lo, hi))), keys);
  }

  /** Put enough ascending keys to split the first leaf and delete them all in one call: if that
      is more than a buffer holds, half of the deletes stay in the root. */
  lemma RangeOverfillsRoot(p: Params, keys: seq<K>, v: V, lo: K, hi: K)
    requires p.Valid() && Increasing(keys) && |keys| == p.leafCap + 1 && |keys| > p.bufferCap
    requires forall k :: k in keys ==> lo <= k < hi
    ensures var t := Run(p, Puts(keys, v) + [DoDeleteRange(lo, hi)]).0.tree;
      && t.Node? && |t.buf| == (p.leafCap + 1) / 2
      && (RootFits(p, t) <==> (p.leafCap + 1) / 2 <= p.bufferCap)
  {
    var s := Run(p, Puts(keys, v)).0;
    PutsSplitTree(p, keys, v);
    RunSnoc(p, Puts(keys, v), DoDeleteRange(lo, hi));
    AllDoomed(p, keys, v, lo, hi);
    assert lo < hi by {
      assert keys[0] in keys;
    }
    DeletesFlushed(p, keys, v);
    DeletingLength(keys);
    RangeSent(p, s, lo, hi, keys);
  }

  /** With the default options, 4097 puts and one range deletion leave 2048 deletes in a root
      buffer for 64. */
  lemma DefaultOverfillsRoot(keys: seq<K>, v: V, lo: K, hi: K)
    requires Increasing(keys) && |keys| == 4097 && forall k :: k in keys ==> lo <= k < hi
    ensures var p := Params(64, 64, 4096);
      var t := Run(p, Puts(keys, v) + [DoDeleteRange(lo, hi)]).0.tree;
      t.Node? && |t.buf| == 2048 && !RootFits(p, t)
  {
    RangeOverfillsRoot(Params(64, 64, 4096), keys, v, lo, hi);
  }

  lemma RangeSent(p: Params, s: State, lo: K, hi: K, keys: seq<K>)
    requires p.Valid() && Arity(s.tree) && s.tree.Node? && lo < hi && keys != []
    requires Ascending(LiveIn(s.tree, Slice(lo, hi))) == keys && |s.tree.buf + Deleting(keys)| > p.bufferCap
    ensures Next(p, s, DoDeleteRange(lo, hi)).0.tree == GrowRoot(p, Flush(p, OnTop(s.tree, Deleting(keys))).tree)
  {
    hide Flush, GrowRoot, LiveIn, Ascending, Deleting, Arity, Height;
  }

  // ---------- A leaf ----------

  /** The messages of puts that were counted. */
  ghost predicate CountedPuts(ms: seq<Message>, keys: seq<K>, v: V) {
    |ms| == |keys| && forall i :: 0 <= i < |ms| ==> ms[i] == Put(keys[i], v, true)
  }

  /** The state once the first leaf has split and more ascending puts wait in the root. */
  ghost predicate Waiting(p: Params, s: State, keys: seq<K>, v: V)
    requires p.Valid() && |keys| > p.leafCap
  {
    && s.tree.Node? && s.pending == 0
    && s.tree.pivots == TwoLeaves(keys[..p.leafCap + 1], v).pivots
    && s.tree.kids == TwoLeaves(keys[..p.leafCap + 1], v).kids
    && CountedPuts(s.tree.buf, keys[p.leafCap + 1..], v)
  }

  /** A key beyond all others is not in a leaf. */
  lemma BeyondAll(p: Params, s: State, keys: seq<K>, v: V, k: K)
    requires p.Valid() && |keys| > p.leafCap && Increasing(keys) && Waiting(p, s, keys, v)
    requires forall i :: 0 <= i < |keys| ==> keys[i] < k
    ensures Arity(s.tree) && Base(s.tree, k) == None && TakenForNew(s, k, false)
  {
    var first := keys[..p.leafCap + 1];
    assert Increasing(first);
    RouteUnique(s.tree.pivots, k, 1);
    var pg := s.tree.kids[1].page;
    assert forall i :: 0 <= i < |pg.keys| ==> pg.keys[i] in first;
    PresentIn(pg.keys, k);
  }

  /** A put of a new key that finds room in the root's buffer, and one that does not. */
  lemma PutWaits(p: Params, s: State, k: K, v: V)
    requires p.Valid() && Arity(s.tree) && s.tree.Node? && TakenForNew(s, k, false)
    ensures var s', t := Next(p, s, DoPut(k, v)).0, OnTop(s.tree, [Put(k, v, true)]);
      && (|s.tree.buf| < p.bufferCap ==> s'.tree == t && s'.pending == s.pending)
      && (|s.tree.buf| >= p.bufferCap ==> s'.tree == GrowRoot(p, Flush(p, t).tree))
  {
    hide Flush, GrowRoot, TakenForNew, Height;
  }

  lemma WaitingMore(p: Params, s: State, s': State, keys: seq<K>, v: V, k: K)
    requires p.Valid() && |keys| > p.leafCap && Waiting(p, s, keys, v)
    requires s'.tree == OnTop(s.tree, [Put(k, v, true)]) && s'.pending == s.pending
    ensures Waiting(p, s', keys + [k], v)
  {
    hide TwoLeaves;
    assert (keys + [k])[..p.leafCap + 1] == keys[..p.leafCap + 1];
    assert (keys + [k])[p.leafCap + 1..] == keys[p.leafCap + 1..] + [k];
  }

  lemma {:induction false} MorePuts(p: Params, keys: seq<K>, v: V)
    requires p.Valid() && Increasing(keys) && p.leafCap < |keys| <= p.leafCap + 1 + p.bufferCap
    ensures Waiting(p, Run(p, Puts(keys, v)).0, keys, v)
  {
    hide Run, Next, OnTop, TwoLeaves;
    var keys', k := keys[..|keys| - 1], keys[|keys| - 1];
    if |keys| == p.leafCap + 1 {
      PutsSplitTree(p, keys, v);
      TakeAll(keys);
      TwoEmpty(keys, v);
    } else {
      MorePuts(p, keys', v);
      var s := Run(p, Puts(keys', v)).0;
      BeyondAll(p, s, keys', v, k);
      RunSnoc(p, Puts(keys', v), DoPut(k, v));
      PutWaits(p, s, k, v);
      WaitingMore(p, s, Run(p, Puts(keys, v)).0, keys', v, k);
      assert keys == keys' + [k];
    }
  }

  lemma TwoEmpty(keys: seq<K>, v: V)
    requires |keys| >= 2
    ensures TwoLeaves(keys, v).buf == []
  {}

  /** Ascending puts all go to the last leaf. */
  lemma AllToLast(p: Params, t: Tree, keys: seq<K>, v: V)
    requires t.Node? && Arity(t) && |t.pivots| == 1 && CountedPuts(t.buf, keys, v) && keys != []
    requires forall i :: 0 <= i < |keys| ==> t.pivots[0] <= keys[i]
    ensures Bucket(t, 0) == [] && Bucket(t, 1) == t.buf && Heaviest(t, 2) == 1
  {
    FilterNone(t.buf, Within(KidSpan(EVERYTHING, t.pivots, 0)));
    FilterAll(t.buf, Within(KidSpan(EVERYTHING, t.pivots, 1)));
  }

  lemma AppendLength(pg: Page, ms: seq<Message>, keys: seq<K>, v: V)
    requires Sound(pg) && |pg.keys| > 0 && |keys| > 0 && Increasing(keys) && CountedPuts(ms, keys, v)
    requires pg.keys[|pg.keys| - 1] < keys[0]
    ensures |PageRun(pg, ms).keys| == |pg.keys| + |keys| && |PageRun(pg, ms).vals| == |pg.keys| + |keys|
  {
    AppendEffect(pg, ms);
  }

  /** Whether the leaves fit after a flush to a last leaf that all of the buffer goes to. */
  lemma LastLeafFits(p: Params, t: Tree)
    requires p.Valid() && Arity(t) && t.Node? && |t.kids| == 2 && t.kids[0].Leaf? && t.kids[1].Leaf?
    requires Sound(t.kids[1].page) && |t.kids[0].page.keys| <= p.leafCap
    requires t.buf != [] && Heaviest(t, 2) == 1 && Bucket(t, 1) == t.buf
    ensures var t' := Flush(p, t).tree;
      && Arity(t') && t'.Node? && (Overfull(p, t') ==> Splittable(t'))
      && (LeavesFit(p, t') <==> |PageRun(t.kids[1].page, t.buf).keys| <= 2 * p.leafCap)
  {
    hide PageRun, Bucket, Heaviest, Lower, Lowered, Split;
    LowerLeaf(p, t);
    LoweredParts(p, t);
    LeafFits(p, t.kids[1].page, t.buf);
    var low, c, t' := Lowered(p, t), Lower(p, t).tree, Flush(p, t).tree;
    if Overfull(p, c) {
      SplitKidAt(low, 1, 0);
      SplitKidAt(low, 1, 1);
      SplitKidAt(low, 1, 2);
      assert t' == SplitKid(low, 1);
      LeafHalves(c);
      assert LeavesFit(p, t') <==> LeavesFit(p, t'.kids[0]) && LeavesFit(p, t'.kids[1]) && LeavesFit(p, t'.kids[2]);
    } else {
      assert t' == low;
      assert LeavesFit(p, t') <==> LeavesFit(p, t'.kids[0]) && LeavesFit(p, t'.kids[1]);
    }
  }

  lemma LeafHalves(t: Tree)
    requires t.Leaf? && Splittable(t)
    ensures Split(t).0.Leaf? && Split(t).2.Leaf?
  {}

  lemma GrowLeaves(p: Params, t: Tree)
    requires p.Valid() && Arity(t) && t.Node? && (Overfull(p, t) ==> Splittable(t))
    ensures LeavesFit(p, GrowRoot(p, t)) <==> LeavesFit(p, t)
  {
    hide Split;
    if Overfull(p, t) {
      SplitRootIs(t);
      HalvesLeaves(p, t);
      var s := GrowRoot(p, t);
      assert LeavesFit(p, s) <==> LeavesFit(p, s.kids[0]) && LeavesFit(p, s.kids[1]);
    }
  }

  lemma HalvesLeaves(p: Params, t: Tree)
    requires t.Node? && Splittable(t)
    ensures LeavesFit(p, t) <==> LeavesFit(p, Split(t).0) && LeavesFit(p, Split(t).2)
  {
    var i := |t.pivots| / 2 + 1;
    KidsFit(p, t.kids, i);
  }

  lemma KidsFit(p: Params, kids: seq<Tree>, i: nat)
    requires i <= |kids|
    ensures (forall x :: 0 <= x < |kids| ==> LeavesFit(p, kids[x])) <==>
      (forall x :: 0 <= x < |kids[..i]| ==> LeavesFit(p, kids[..i][x])) &&
      (forall x :: 0 <= x < |kids[i..]| ==> LeavesFit(p, kids[i..][x]))
  {
    hide LeavesFit;
    assert forall x :: 0 <= x < i ==> kids[..i][x] == kids[x];
    assert forall x :: i <= x < |kids| ==> kids[x] == kids[i..][x - i];
  }

  /** Ascending puts alone: once the first leaf has split, they wait in the root until they
      overflow it and then go down together. The last leaf splits once, so all leaves fit exactly
      when it received no more than twice its capacity; the options, which keep bufferCap within
      leafCap, always see to that when leafCap is more than 2. */
  lemma AscendingPuts(p: Params, keys: seq<K>, v: V)
    requires p.Valid() && Increasing(keys) && |keys| == p.leafCap + p.bufferCap + 2
    ensures var t := Run(p, Puts(keys, v)).0.tree;
      var last := |keys| - (p.leafCap + 1) / 2;
      && (LeavesFit(p, t) <==> last <= 2 * p.leafCap)
      && (p.bufferCap <= p.leafCap && p.leafCap > 2 ==> LeavesFit(p, t))
  {
    var keys', k := keys[..|keys| - 1], keys[|keys| - 1];
    MorePuts(p, keys', v);
    var s := Run(p, Puts(keys', v)).0;
    BeyondAll(p, s, keys', v, k);
    RunSnoc(p, Puts(keys', v), DoPut(k, v));
    LastPut(p, s, keys, v);
  }

  lemma LastPut(p: Params, s: State, keys: seq<K>, v: V)
    requires p.Valid() && Increasing(keys) && |keys| == p.leafCap + p.bufferCap + 2 && Arity(s.tree)
    requires Waiting(p, s, keys[..|keys| - 1], v) && TakenForNew(s, keys[|keys| - 1], false)
    ensures var t := Next(p, s, DoPut(keys[|keys| - 1], v)).0.tree;
      var last := |keys| - (p.leafCap + 1) / 2;
      LeavesFit(p, t) <==> last <= 2 * p.leafCap
  {
    hide Flush, Next, PageRun, Bucket, Heaviest, GrowRoot, TakenForNew, LeavesFit;
    var k := keys[|keys| - 1];
    var t := OnTop(s.tree, [Put(k, v, true)]);
    PutWaits(p, s, k, v);
    LastBuffer(p, s, keys, v);
    LastLeafFits(p, t);
    GrowLeaves(p, Flush(p, t).tree);
  }

  /** The overflowing root: everything goes to the last leaf. */
  lemma LastBuffer(p: Params, s: State, keys: seq<K>, v: V)
    requires p.Valid() && Increasing(keys) && |keys| == p.leafCap + p.bufferCap + 2 && Arity(s.tree)
    requires Waiting(p, s, keys[..|keys| - 1], v)
    ensures var t := OnTop(s.tree, [Put(keys[|keys| - 1], v, true)]);
      && |s.tree.buf| == p.bufferCap && |t.buf| == p.bufferCap + 1
      && |t.kids| == 2 && t.kids[0].Leaf? && t.kids[1].Leaf?
      && Sound(t.kids[1].page) && |t.kids[0].page.keys| <= p.leafCap
      && Heaviest(t, 2) == 1 && Bucket(t, 1) == t.buf
      && |PageRun(t.kids[1].page, t.buf).keys| == |keys| - (p.leafCap + 1) / 2
  {
    hide PageRun, Bucket, Heaviest, Same;
    var n, k, s' := p.leafCap + 1, keys[|keys| - 1], s.(tree := OnTop(s.tree, [Put(keys[|keys| - 1], v, true)]));
    var t, first, rest := s'.tree, keys[..n], keys[n..];
    WaitingMore(p, s, s', keys[..|keys| - 1], v, k);
    assert keys[..|keys| - 1] + [k] == keys;
    FirstSound(keys, n, v);
    AllToLast(p, t, rest, v);
    AppendLength(t.kids[1].page, t.buf, rest, v);
  }

  lemma FirstSound(keys: seq<K>, n: nat, v: V)
    requires Increasing(keys) && 2 <= n < |keys|
    ensures var t := TwoLeaves(keys[..n], v);
      && |t.kids| == 2 && t.kids[0].Leaf? && t.kids[1].Leaf? && |t.pivots| == 1
      && |t.kids[0].page.keys| == n / 2
      && var last := t.kids[1].page;
        && Sound(last) && |last.keys| == n - n / 2 > 0
        && last.keys[|last.keys| - 1] < keys[n..][0]
    ensures Increasing(keys[n..])
    ensures forall i :: 0 <= i < |keys| - n ==> TwoLeaves(keys[..n], v).pivots[0] <= keys[n..][i]
  {
    hide Same;
  }
}
