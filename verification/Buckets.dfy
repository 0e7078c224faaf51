/** What flushNode does to one node object around the delivery itself: it sorts the buffer into
    buckets, keeps all but the heaviest, and splits a child that outgrew its bounds
    (flush.go:11-64). */
module Buckets {
  import opened Seqs
  import opened Messages
  import opened Leaves
  import opened Trees
  import opened Flushing
  import opened Ledgers
  import opened Nodes
  import opened Splits

  // ---------- Choosing what to flush (flush.go:24-46) ----------

  /** The buffer sorted into one bucket per child, each in buffer order. */
  method Partition(n: Node) returns (buckets: seq<seq<Message>>)
    requires n.Valid() && !n.leaf && Increasing(n.pivots) && |n.children| == |n.pivots| + 1
    ensures |buckets| == |n.children|
    ensures forall c :: 0 <= c < |buckets| ==> buckets[c] == Bucket(n.view, c)
  {
    buckets := seq(|n.children|, _ => []);
    ghost var buf := n.buffer;
    var i := 0;
    while i < |n.buffer|
      invariant i <= |n.buffer| && |buckets| == |n.children|
      invariant forall c :: 0 <= c < |buckets| ==> buckets[c] == Sel(buf[..i], KidSpan(EVERYTHING, n.pivots, c))
    {
      var msg := n.buffer[i];
      var idx := n.FindChildIndex(msg.key);
      buckets := buckets[idx := buckets[idx] + [msg]];
      forall c | 0 <= c < |buckets| ensures buckets[c] == Sel(buf[..i + 1], KidSpan(EVERYTHING, n.pivots, c)) {
        TakeSlice(buf, i, i + 1);
        FilterSnoc(buf[..i], msg, Within(KidSpan(EVERYTHING, n.pivots, c)));
        KidSpanHas(EVERYTHING, n.pivots, c, msg.key);
      }
      i := i + 1;
    }
    TakeAll(buf);
  }

  /** The first of the fullest buckets. */
  method ChooseHeaviest(buckets: seq<seq<Message>>, ghost t: Tree) returns (heaviest: nat)
    requires t.Node? && |buckets| == |t.pivots| + 1
    requires forall c :: 0 <= c < |buckets| ==> buckets[c] == Bucket(t, c)
    ensures heaviest == Heaviest(t, |buckets|)
  {
    heaviest := 0;
    var i := 1;
    while i < |buckets|
      invariant 1 <= i <= |buckets| && heaviest == Heaviest(t, i)
    {
      if |buckets[i]| > |buckets[heaviest]| {
        heaviest := i;
      }
      i := i + 1;
    }
  }

  /** Copies the other buckets back to the front of the buffer, which has room for them, and
      cuts it there. */
  method CompactBuffer(buffer: seq<Message>, buckets: seq<seq<Message>>, heaviest: nat, ghost t: Tree)
    returns (kept: seq<Message>)
    requires t.Node? && t.buf == buffer && |buckets| == |t.pivots| + 1 && Increasing(t.pivots)
    requires forall c :: 0 <= c < |buckets| ==> buckets[c] == Bucket(t, c)
    requires heaviest < |buckets|
    ensures kept == Unflushed(t, heaviest, |buckets|)
  {
    UnflushedNone(t, heaviest);
    hide Unflushed, Bucket, Increasing;
    var a := new Message[|buffer|](i requires 0 <= i < |buffer| => buffer[i]);
    var k, i := 0, 0;
    while i < |buckets|
      invariant i <= |buckets| && 0 <= k <= a.Length == |buffer|
      invariant a[..k] == Unflushed(t, heaviest, i)
    {
      UnflushedNext(t, heaviest, i);
      if i != heaviest {
        UnflushedFits(t, heaviest, i + 1);
        k := CopyIn(a, k, buckets[i]);
      }
      i := i + 1;
    }
    kept := a[..k];
  }

  /** copy of a separate slice to position k. */
  method CopyIn(a: array<Message>, k: nat, s: seq<Message>) returns (k': nat)
    requires k + |s| <= a.Length
    modifies a
    ensures k' == k + |s| && a[..k'] == old(a[..k]) + s
  {
    forall i | 0 <= i < |s| {
      a[k + i] := s[i];
    }
    k' := k + |s|;
  }

  /** The first buckets together are no longer than the buffer they came from. */
  lemma UnflushedFits(t: Tree, h: nat, n: nat)
    requires t.Node? && Increasing(t.pivots) && h <= |t.pivots| && 0 < n <= |t.pivots| + 1
    ensures |Unflushed(t, h, n)| <= |t.buf|
  {
    UnflushedWeigh(Work, t, h, n, 1);
    FilterMembers(t.buf, Within(Upto(t.pivots, n)));
  }

  /** Takes the heaviest bucket out of a node's buffer. */
  method TakeHeaviest(n: Node) returns (heaviest: nat, bucket: seq<Message>)
    requires n.Valid() && !n.leaf && Increasing(n.pivots) && |n.children| == |n.pivots| + 1
    modifies n
    ensures n.Valid() && n.Repr == old(n.Repr) && n.children == old(n.children) && n.pivots == old(n.pivots)
    ensures var t := old(n.view);
      && heaviest == Heaviest(t, |t.pivots| + 1)
      && bucket == Bucket(t, heaviest)
      && n.view == Tree.Node(t.pivots, t.kids, Unflushed(t, heaviest, |t.pivots| + 1), false)
      && !n.bufferSorted
  {
    ghost var t := n.view;
    var buckets := Partition(n);
    heaviest := ChooseHeaviest(buckets, t);
    bucket := buckets[heaviest];
    var kept := CompactBuffer(n.buffer, buckets, heaviest, t);
    assert n.view == t;
    n.SetBuffer(kept, false);
  }

  /** Splits a child that outgrew its bounds (flush.go:51-53, flush.go:60-62). */
  method SplitOvergrown(p: Params, n: Node, i: nat)
    requires n.Valid() && !n.leaf && |n.view.kids| == |n.view.pivots| + 1 && i < |n.children|
    requires Overfull(p, n.view.kids[i]) ==> Splittable(n.view.kids[i])
    modifies n, n.children[i]
    ensures n.Valid() && fresh(n.Repr - old(n.Repr))
    ensures n.view == if Overfull(p, old(n.view.kids[i])) then SplitKid(old(n.view), i) else old(n.view)
  {
    var child := n.children[i];
    if child.leaf {
      if |child.keys| > p.leafCap {
        SplitChild(n, i);
      }
    } else if |child.children| > p.fanout {
      SplitChild(n, i);
    }
  }

  /** The heaviest bucket may be handed to its child. */
  lemma LowerReady(p: Params, t: Tree, r: Range, h: nat, min: nat)
    requires p.Valid() && HalfOpen(r) && t.Node? && Arity(t) && TreeHist(t) && Shape(p, t, r, h, min, p.fanout)
    ensures var i := Heaviest(t, |t.kids|);
      && h > 0
      && HalfOpen(KidSpan(r, t.pivots, i))
      && Shape(p, t.kids[i], KidSpan(r, t.pivots, i), h - 1, p.Half(), p.fanout)
      && AllWithin(Bucket(t, i), KidSpan(r, t.pivots, i)) && Point(Bucket(t, i)) && HistOn(t.kids[i], Bucket(t, i))
  {
    var i := Heaviest(t, |t.kids|);
    BucketShape(t, i, r, min, p.fanout);
    BucketHist(p, t, i, r, h, min, p.fanout);
  }

  /** A child over its bounds can be split, which ends the flush. */
  lemma LowerSplits(p: Params, t: Tree, r: Range, h: nat, min: nat)
    requires p.Valid() && HalfOpen(r) && t.Node? && Arity(t) && Shape(p, t, r, h, min, p.fanout) && t.buf != []
    ensures var f, t', i := Lower(p, t), Lowered(p, t), Heaviest(t, |t.kids|);
      && (Overfull(p, f.tree) ==> Splittable(f.tree))
      && Flush(p, t) == Flushed(if Overfull(p, f.tree) then SplitKid(t', i) else t',
                                f.size, f.pending, f.moves, f.calls + 1)
  {
    hide Shape, Deliver;
    LowerShape(p, t, r, h, min);
    if Overfull(p, Lower(p, t).tree) {
      SplitShape(p, Lower(p, t).tree, KidSpan(r, t.pivots, Heaviest(t, |t.kids|)), h - 1, p.Half());
    }
  }

  lemma LeafHist(t: Tree, ms: seq<Message>)
    requires t.Leaf? && Arity(t) && HistOn(t, ms)
    ensures PageHist(t.page, ms)
  {
    forall k ensures Hist(At(ms, k), Val(t.page, k)) {
      assert Hist(Path(t, k) + At(ms, k), Base(t, k));
      assert [] + At(ms, k) == At(ms, k);
    }
  }

  lemma RunSnoc(pg: Page, ms: seq<Message>, m: Message)
    requires |pg.keys| == |pg.vals|
    ensures PageRun(pg, ms + [m]) == PageStep(PageRun(pg, ms), m)
    ensures SizeRun(pg, ms + [m]) == SizeRun(pg, ms) + SizeStep(PageRun(pg, ms), m)
    ensures Deletes(ms + [m]) == Deletes(ms) + if m.Delete? then 1 else 0
  {
    assert (ms + [m])[..|ms|] == ms;
  }
}
