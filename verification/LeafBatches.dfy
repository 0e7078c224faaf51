/** Applying a whole batch to a leaf object: each of the fast paths of applyToLeaf leaves what
    applying the messages one by one would (flush.go:102-131, flush.go:235-355). */
module LeafBatches {
  import opened Seqs
  import opened Messages
  import opened Leaves
  import opened Trees
  import opened Batches
  import opened Slices
  import opened Merging
  import opened Resolving
  import opened Nodes

  ghost predicate GoodLeaf(n: Node)
    reads n, n.Repr
  {
    n.Valid() && n.leaf && Sound(n.view.page)
  }

  /** All messages go after the leaf's last key. */
  method AppendToLeaf(leaf: Node, msgs: seq<Message>)
    requires GoodLeaf(leaf) && AllPuts(msgs) && Strict(msgs) && |msgs| > 0
    requires |leaf.keys| > 0 && leaf.keys[|leaf.keys| - 1] < msgs[0].key
    modifies leaf
    ensures GoodLeaf(leaf) && leaf.Repr == old(leaf.Repr)
    ensures leaf.view == Leaf(PageRun(old(leaf.view.page), msgs))
  {
    ghost var pg, q := leaf.view.page, PutsPage(msgs);
    var i := 0;
    while i < |msgs|
      invariant i <= |msgs| && leaf.Repr == {leaf}
      invariant leaf.keys == pg.keys + q.keys[..i] && leaf.values == pg.vals + q.vals[..i]
    {
      leaf.keys := leaf.keys + [msgs[i].key];
      leaf.values := leaf.values + [msgs[i].value];
      assert q.keys[..i + 1] == q.keys[..i] + [msgs[i].key];
      assert q.vals[..i + 1] == q.vals[..i] + [msgs[i].value];
      i := i + 1;
    }
    assert q.keys[..i] == q.keys && q.vals[..i] == q.vals;
    leaf.SetEntries(leaf.keys, leaf.values);
    hide PageRun, PutsPage;
    AppendEffect(pg, msgs);
    RunSound(pg, msgs);
  }

  method MergeLeafPuts(leaf: Node, msgs: seq<Message>)
    requires GoodLeaf(leaf) && AllPuts(msgs) && Strict(msgs)
    modifies leaf
    ensures GoodLeaf(leaf) && leaf.Repr == old(leaf.Repr)
    ensures leaf.view == Leaf(PageRun(old(leaf.view.page), msgs))
  {
    ghost var pg := leaf.view.page;
    OverEffect(pg, msgs);
    RunSound(pg, msgs);
    hide Over, PutsPage, PageRun;
    var oldLen := |leaf.keys|;
    var keys := Grow(leaf.keys, |msgs|);
    var vals := Grow(leaf.values, |msgs|);
    var len := MergePuts(keys, vals, oldLen, msgs);
    leaf.SetEntries(keys[..len], vals[..len]);
  }

  method MergeLeafWithDeletes(leaf: Node, msgs: array<Message>, n: nat)
    requires GoodLeaf(leaf) && n <= msgs.Length && PutsAndDeletes(msgs[..n]) && Strict(msgs[..n])
    modifies leaf, msgs
    ensures GoodLeaf(leaf) && leaf.Repr == old(leaf.Repr)
    ensures leaf.view == Leaf(PageRun(old(leaf.view.page), old(msgs[..n])))
  {
    ghost var pg, ms := leaf.view.page, msgs[..n];
    var keys := Grow(leaf.keys, 0);
    var vals := Grow(leaf.values, 0);
    assert keys[..] == keys[..|pg.keys|] && vals[..] == vals[..|pg.vals|];
    CompactSound(pg, ms);
    CompactRun(pg, ms);
    ghost var c := Compact(pg, ms);
    OverEffect(c.kept, c.news);
    assert c.news == [] ==> PageRun(c.kept, c.news) == c.kept;
    hide Over, PutsPage, PageRun, Compact;
    var w, numNew := CompactInPlace(keys, vals, msgs, n);
    leaf.SetEntries(keys[..w], vals[..w]);
    if numNew > 0 {
      MergeLeafPuts(leaf, msgs[..numNew]);
    } else {
      assert c.news == [];
    }
  }

  // ---------- Upserts against the leaf ----------

  /** A message with its upsert function applied to what the leaf holds (flush.go:106-118). */
  function Settle(pg: Page, m: Message): Message
    requires |pg.keys| == |pg.vals|
  {
    if m.Upsert? then Put(m.key, m.fn(Val(pg, m.key)), false) else m
  }

  method ResolveUpserts(leaf: Node, msgs: array<Message>, n: nat)
    requires GoodLeaf(leaf) && n <= msgs.Length
    modifies msgs
    ensures forall i :: 0 <= i < n ==> msgs[i] == Settle(leaf.view.page, old(msgs[i]))
  {
    ghost var pg := leaf.view.page;
    var i := 0;
    while i < n
      invariant i <= n
      invariant forall x :: 0 <= x < i ==> msgs[x] == Settle(pg, old(msgs[x]))
      invariant forall x :: i <= x < msgs.Length ==> msgs[x] == old(msgs[x])
    {
      var m := msgs[i];
      if m.Upsert? {
        var idx, found := leaf.LeafSearch(m.key);
        if found {
          msgs[i] := Put(m.key, m.fn(Some(leaf.values[idx])), false);
        } else {
          msgs[i] := Put(m.key, m.fn(None), false);
        }
      }
      i := i + 1;
    }
  }

  /** Settling a batch with one message per key changes nothing of its effect on the leaf. */
  lemma SettleEffect(pg: Page, ms: seq<Message>, settled: seq<Message>)
    requires Sound(pg) && Strict(ms) && |settled| == |ms|
    requires forall i :: 0 <= i < |ms| ==> settled[i] == Settle(pg, ms[i])
    ensures Strict(settled) && PageRun(pg, settled) == PageRun(pg, ms)
  {
    forall k ensures Fold(At(settled, k), Val(pg, k)) == Fold(At(ms, k), Val(pg, k)) {
      if i :| 0 <= i < |ms| && ms[i].key == k {
        StrictAt(ms, i);
        StrictAt(settled, i);
        FoldOne(ms[i], Val(pg, k));
        FoldOne(settled[i], Val(pg, k));
      } else {
        NoneAt(ms, k);
        NoneAt(settled, k);
      }
    }
    SameRun(pg, ms, settled);
  }

  /** Batches that give every key of the leaf the same value leave the same leaf. */
  lemma SameRun(pg: Page, a: seq<Message>, b: seq<Message>)
    requires Sound(pg)
    requires forall k :: Fold(At(b, k), Val(pg, k)) == Fold(At(a, k), Val(pg, k))
    ensures PageRun(pg, b) == PageRun(pg, a)
  {
    RunSound(pg, a);
    RunSound(pg, b);
    forall k ensures Val(PageRun(pg, b), k) == Val(PageRun(pg, a), k) {
      ValRun(pg, a, k);
      ValRun(pg, b, k);
    }
    PageUnique(PageRun(pg, b), PageRun(pg, a));
  }

  /** The merge phases of applyToLeaf on a batch that has been counted: resolve, settle, and
      merge by whichever path fits (flush.go:102-131). */
  method MergeBatch(leaf: Node, msgs: array<Message>, numDeletes: nat)
    requires GoodLeaf(leaf) && msgs.Length > 0 && Point(msgs[..])
    requires numDeletes == Deletes(msgs[..])
    modifies leaf, msgs
    ensures GoodLeaf(leaf) && leaf.Repr == old(leaf.Repr)
    ensures leaf.view == Leaf(PageRun(old(leaf.view.page), old(msgs[..])))
  {
    ghost var pg, ms := leaf.view.page, msgs[..];
    NoDeletes(ms);
    var n := ResolveMessages(msgs);
    ghost var resolved := msgs[..n];
    ResolveUpserts(leaf, msgs, n);
    ghost var settled := msgs[..n];
    BatchSame(pg, ms, resolved, settled);
    var oldLen := |leaf.keys|;
    if numDeletes == 0 && oldLen > 0 && Cmp(msgs[0].key, leaf.keys[oldLen - 1]) > 0 {
      AppendToLeaf(leaf, msgs[..n]);
    } else if numDeletes == 0 {
      MergeLeafPuts(leaf, msgs[..n]);
    } else {
      MergeLeafWithDeletes(leaf, msgs, n);
    }
  }

  lemma BatchSame(pg: Page, ms: seq<Message>, resolved: seq<Message>, settled: seq<Message>)
    requires Sound(pg) && Strict(resolved) && Point(resolved) && SameEffect(resolved, ms)
    requires (exists m :: m in resolved && m.Delete?) ==> exists m :: m in ms && m.Delete?
    requires |settled| == |resolved| && forall i :: 0 <= i < |settled| ==> settled[i] == Settle(pg, resolved[i])
    ensures Strict(settled) && PutsAndDeletes(settled)
    ensures (forall m :: m in ms ==> !m.Delete?) ==> AllPuts(settled)
    ensures PageRun(pg, settled) == PageRun(pg, ms)
  {
    forall i | 0 <= i < |settled| ensures resolved[i] in resolved {}
    SettleEffect(pg, resolved, settled);
    forall k ensures Fold(At(resolved, k), Val(pg, k)) == Fold(At(ms, k), Val(pg, k)) {}
    SameRun(pg, ms, resolved);
  }
}
