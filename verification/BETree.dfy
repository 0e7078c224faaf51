/** The tree object (tree.go) and its flushes (flush.go). Every method is proved to do to the
    whole state what the corresponding step on values does. */
module BETrees {
  import opened Seqs
  import opened Messages
  import opened Leaves
  import opened Trees
  import opened Flushing
  import opened Ledgers
  import opened Contents
  import opened KeySets
  import opened Runs
  import opened Iteration
  import opened Listing
  import opened Nodes
  import opened Splits
  import opened Buckets
  import opened LeafBatches
  import opened Lookups
  import opened Snapshots
  import Cursors

  class BETree {
    const p: Params
    var root: Node
    var size: int
    var pendingDeletes: int
    // The account of the work done.
    ghost var moves: nat
    ghost var calls: nat
    ghost var credit: int
    ghost var lost: int

    ghost function St(): State
      reads this, root
    {
      State(root.view, size, pendingDeletes, moves, calls, credit, lost)
    }

    ghost predicate Valid()
      reads this, root, root.Repr
    {
      root.Valid() && Good(p, St())
    }

    /** The logical map. */
    ghost function Model(): map<K, V>
      requires Valid()
      reads this, root, root.Repr
    {
      Live(root.view)
    }

    /** An empty tree (tree.go:82-99). */
    constructor (p: Params)
      requires p.Valid()
      ensures Valid() && fresh(root.Repr) && this.p == p && St() == START && Model() == map[]
    {
      this.p := p;
      root := new Node.OfLeaf([], []);
      size, pendingDeletes := 0, 0;
      moves, calls, credit, lost := 0, 0, 0, 0;
      new;
      StartGood(p);
    }

    // ---------- Applying a batch to a leaf ----------

    /** One message after the other (flush.go:141-164). */
    method ApplyToLeafSmall(leaf: Node, msgs: seq<Message>)
      requires GoodLeaf(leaf)
      modifies leaf, this`size, this`pendingDeletes
      ensures GoodLeaf(leaf) && leaf.Repr == old(leaf.Repr)
      ensures leaf.view == Leaf(PageRun(old(leaf.view.page), msgs))
      ensures size == old(size) + SizeRun(old(leaf.view.page), msgs)
      ensures pendingDeletes == old(pendingDeletes) - Deletes(msgs)
    {
      ghost var pg := leaf.view.page;
      var i := 0;
      while i < |msgs|
        invariant i <= |msgs| && GoodLeaf(leaf) && leaf.Repr == old(leaf.Repr)
        invariant leaf.view == Leaf(PageRun(pg, msgs[..i]))
        invariant size == old(size) + SizeRun(pg, msgs[..i])
        invariant pendingDeletes == old(pendingDeletes) - Deletes(msgs[..i])
      {
        TakeSlice(msgs, i, i + 1);
        RunSnoc(pg, msgs[..i], msgs[i]);
        assert msgs[i..i + 1] == [msgs[i]];
        ApplyOne(leaf, msgs[i]);
        i := i + 1;
      }
      TakeAll(msgs);
    }

    /** The body of that loop. */
    method ApplyOne(leaf: Node, m: Message)
      requires GoodLeaf(leaf)
      modifies leaf, this`size, this`pendingDeletes
      ensures GoodLeaf(leaf) && leaf.Repr == old(leaf.Repr)
      ensures leaf.view == Leaf(PageStep(old(leaf.view.page), m))
      ensures size == old(size) + SizeStep(old(leaf.view.page), m)
      ensures pendingDeletes == old(pendingDeletes) - if m.Delete? then 1 else 0
    {
      match m {
        case Put(key, value, counted) =>
          var newKey := leaf.LeafInsert(key, value);
          if newKey && !counted {
            size := size + 1;
          } else if !newKey && counted {
            size := size - 1;
          }
        case Delete(key) =>
          var _ := leaf.LeafDelete(key);
          pendingDeletes := pendingDeletes - 1;
        case DeleteRange(_, _) =>
        case Upsert(key, fn) =>
          var newKey := UpsertLeaf(leaf, key, fn);
          if newKey {
            size := size + 1;
          }
      }
    }

    /** applyToLeaf: whichever path is taken, the leaf, the size and the pending deletes end up
        as if the messages had been applied one by one in their order of arrival
        (flush.go:77-138). */
    method ApplyToLeaf(leaf: Node, msgs: array<Message>)
      requires GoodLeaf(leaf) && Point(msgs[..]) && PageHist(leaf.view.page, msgs[..])
      modifies leaf, msgs, this`size, this`pendingDeletes
      ensures GoodLeaf(leaf) && leaf.Repr == old(leaf.Repr)
      ensures leaf.view == Leaf(PageRun(old(leaf.view.page), old(msgs[..])))
      ensures size == old(size) + SizeRun(old(leaf.view.page), old(msgs[..]))
      ensures pendingDeletes == old(pendingDeletes) - Deletes(old(msgs[..]))
    {
      ghost var pg, ms := leaf.view.page, msgs[..];
      if msgs.Length == 0 {
        return;
      }
      if msgs.Length <= 3 {
        ApplyToLeafSmall(leaf, msgs[..]);
        return;
      }
      var preCounted, numDeletes := TallyBatch(msgs);
      pendingDeletes := pendingDeletes - numDeletes;
      var oldLen := |leaf.keys|;
      MergeBatch(leaf, msgs, numDeletes);
      size := size + (|leaf.keys| - oldLen) - preCounted + numDeletes;
      BatchSizeGap(pg, ms);
      NoneMissed(pg, ms);
    }

    /** The first phase: counting before anything is deduplicated (flush.go:91-99). */
    method TallyBatch(msgs: array<Message>) returns (preCounted: nat, numDeletes: nat)
      ensures preCounted == Counted(msgs[..]) && numDeletes == Deletes(msgs[..])
    {
      preCounted, numDeletes := 0, 0;
      var i := 0;
      while i < msgs.Length
        invariant i <= msgs.Length
        invariant preCounted == Counted(msgs[..i]) && numDeletes == Deletes(msgs[..i])
      {
        assert msgs[..i + 1] == msgs[..i] + [msgs[i]];
        TallySnoc(msgs[..i], msgs[i]);
        if msgs[i].Put? && msgs[i].counted {
          preCounted := preCounted + 1;
        } else if msgs[i].Delete? {
          numDeletes := numDeletes + 1;
        }
        i := i + 1;
      }
      assert msgs[..i] == msgs[..];
    }

    // ---------- Flushing ----------

    /** Hands a bucket to a child, and flushes the child if that is too much for it
        (flush.go:48-59). */
    method DeliverTo(child: Node, bucket: seq<Message>, ghost r: Range, ghost h: nat, ghost min: nat)
      requires p.Valid() && HalfOpen(r) && child.Valid() && Arity(child.view)
      requires Shape(p, child.view, r, h, min, p.fanout)
      requires AllWithin(bucket, r) && Point(bucket) && HistOn(child.view, bucket)
      modifies child.Repr, this`size, this`pendingDeletes, this`moves, this`calls
      ensures child.Valid() && fresh(child.Repr - old(child.Repr))
      ensures var f := Deliver(p, old(child.view), bucket);
        child.view == f.tree && Counts(f, old(size), old(pendingDeletes), old(moves), old(calls))
      decreases h, 2
    {
      moves := moves + |bucket|;
      if child.leaf {
        LeafHist(child.view, bucket);
        var msgs := new Message[|bucket|](i requires 0 <= i < |bucket| => bucket[i]);
        assert msgs[..] == bucket;
        ApplyToLeaf(child, msgs);
      } else {
        OnTopHist(child.view, bucket);
        ghost var c := child.view;
        child.SetBuffer(child.buffer + bucket, false);
        assert child.view == Tree.Node(c.pivots, c.kids, c.buf + bucket, false);
        if |child.buffer| > p.bufferCap {
          FlushNode(child, r, h, min);
        }
      }
    }

    /** What a flush does to the counters. */
    ghost predicate Counts(f: Flushed, size: int, pending: int, moves: nat, calls: nat)
      reads this
    {
      && this.size == size + f.size && pendingDeletes == pending + f.pending
      && this.moves == moves + f.moves && this.calls == calls + f.calls
    }

    /** The same for one member of a family, which stays one. */
    method DeliverMember(nodes: seq<Node>, i: nat, bucket: seq<Message>, ghost kids: seq<Tree>, ghost below: set<Node>,
                         ghost r: Range, ghost h: nat, ghost min: nat)
      returns (ghost below': set<Node>)
      requires Family(nodes, kids, below) && i < |nodes|
      requires p.Valid() && HalfOpen(r) && Arity(kids[i]) && Shape(p, kids[i], r, h, min, p.fanout)
      requires AllWithin(bucket, r) && Point(bucket) && HistOn(kids[i], bucket)
      modifies nodes[i].Repr, this`size, this`pendingDeletes, this`moves, this`calls
      ensures fresh(below' - below)
      ensures var f := Deliver(p, kids[i], bucket);
        Family(nodes, kids[i := f.tree], below')
        && Counts(f, old(size), old(pendingDeletes), old(moves), old(calls))
      decreases h, 3
    {
      DeliverTo(nodes[i], bucket, r, h, min);
      below' := below + nodes[i].Repr;
    }

    /** Everything flushNode does before any split (flush.go:12-56). */
    method LowerNode(n: Node, ghost r: Range, ghost h: nat, ghost min: nat) returns (heaviest: nat)
      requires p.Valid() && HalfOpen(r) && n.Valid() && !n.leaf && Arity(n.view) && TreeHist(n.view)
      requires Shape(p, n.view, r, h, min, p.fanout)
      modifies n.Repr, this`size, this`pendingDeletes, this`moves, this`calls
      ensures n.Valid() && !n.leaf && fresh(n.Repr - old(n.Repr))
      ensures heaviest == Heaviest(old(n.view), |old(n.view.kids)|)
      ensures n.view == Lowered(p, old(n.view))
      ensures Counts(Lower(p, old(n.view)), old(size), old(pendingDeletes), old(moves), old(calls))
      decreases h, 0
    {
      ghost var t := n.view;
      var bucket;
      heaviest, bucket := TakeHeaviest(n);
      LowerReady(p, t, r, h, min);
      PassDown(n, heaviest, bucket, KidSpan(r, t.pivots, heaviest), h - 1, p.Half());
    }

    /** Replaces a child by what the bucket makes of it. */
    method PassDown(n: Node, i: nat, bucket: seq<Message>, ghost r: Range, ghost h: nat, ghost min: nat)
      requires p.Valid() && n.Valid() && !n.leaf && HalfOpen(r) && i < |n.children|
      requires Arity(n.view.kids[i]) && Shape(p, n.view.kids[i], r, h, min, p.fanout)
      requires AllWithin(bucket, r) && Point(bucket) && HistOn(n.view.kids[i], bucket)
      modifies n.Repr, this`size, this`pendingDeletes, this`moves, this`calls
      ensures n.Valid() && !n.leaf && fresh(n.Repr - old(n.Repr))
      ensures var t, f := old(n.view), Deliver(p, old(n.view.kids[i]), bucket);
        && n.view == Tree.Node(t.pivots, t.kids[i := f.tree], t.buf, t.sorted)
        && Counts(f, old(size), old(pendingDeletes), old(moves), old(calls))
      decreases h, 4
    {
      ghost var t := n.view;
      ValidFamily(n);
      ghost var below := DeliverMember(n.children, i, bucket, t.kids, n.Repr - {n}, r, h, min);
      n.Refill(n.pivots, n.children, n.buffer, n.bufferSorted,
               t.kids[i := Deliver(p, t.kids[i], bucket).tree], below);
    }

    /** flushNode: the node's heaviest bucket goes down one level, and a child that outgrew
        its bounds is split (flush.go:11-64). */
    method FlushNode(n: Node, ghost r: Range, ghost h: nat, ghost min: nat)
      requires p.Valid() && HalfOpen(r) && n.Valid() && Arity(n.view) && TreeHist(n.view)
      requires Shape(p, n.view, r, h, min, p.fanout)
      modifies n.Repr, this`size, this`pendingDeletes, this`moves, this`calls
      ensures n.Valid() && fresh(n.Repr - old(n.Repr))
      ensures var f := Flush(p, old(n.view));
        n.view == f.tree && Counts(f, old(size), old(pendingDeletes), old(moves), old(calls))
      decreases h, 1
    {
      if |n.buffer| == 0 || n.leaf {
        return;
      }
      ghost var t := n.view;
      var heaviest := LowerNode(n, r, h, min);
      calls := calls + 1;
      LowerSplits(p, t, r, h, min);
      SplitOvergrown(p, n, heaviest);
    }

    // ---------- Growing ----------

    /** flush.go:431-442 */
    method SplitRoot()
      requires root.Valid() && Splittable(root.view)
      modifies this`root, root.Repr
      ensures root.Valid() && fresh(root.Repr - old(root.Repr))
      ensures root.view == Flushing.SplitRoot(old(root.view))
    {
      ghost var t := root.view;
      var newRoot := new Node.OfChildren([], [root], [], false, [t], root.Repr);
      root := newRoot;
      SplitChild(newRoot, 0);
    }

    /** A root over its bounds is split. */
    method GrowIfFull()
      requires p.Valid() && root.Valid() && Arity(root.view)
      requires Overfull(p, root.view) ==> Splittable(root.view)
      modifies this`root, root.Repr
      ensures root.Valid() && fresh(root.Repr - old(root.Repr))
      ensures root.view == GrowRoot(p, old(root.view))
    {
      if (root.leaf && |root.keys| > p.leafCap) || (!root.leaf && |root.children| > p.fanout) {
        SplitRoot();
      }
    }

    /** The end of every buffered write (tree.go:145-150). */
    method SpillRoot()
      requires root.Valid() && GoodTree(p, root.view) && !root.leaf
      modifies this, root.Repr
      ensures root.Valid() && fresh(root.Repr - old(root.Repr))
      ensures St() == Spill(p, old(St()))
    {
      hide Flush, GrowRoot, Shape, TreeHist, Arity, Height;
      if |root.buffer| > p.bufferCap {
        SpillEnds(p, St());
        FlushNode(root, EVERYTHING, Height(root.view), 2);
        GrowIfFull();
      }
    }

    /** Appends a message to the root's buffer and flushes if it is full. */
    method SendOne(m: Message)
      requires root.Valid() && GoodTree(p, root.view) && !root.leaf
      requires HistOn(root.view, [m]) && Point([m])
      modifies this, root.Repr
      ensures root.Valid() && fresh(root.Repr - old(root.Repr))
      ensures St() == Send(p, old(St()), [m], 0, 0)
    {
      OnTopTree(p, root.view, [m]);
      credit := credit + Height(root.view);
      root.AppendToBuffer(m);
      SpillRoot();
    }

    // ---------- Reading ----------

    /** Get agrees with the logical map (tree.go:167-171). */
    method Get(key: K) returns (value: Option<V>)
      requires Valid()
      ensures (St(), Found(value)) == Next(p, St(), DoGet(key))
      ensures value == if key in Model() then Some(Model()[key]) else None
    {
      LiveGet(p, root.view);
      value := GetFromNode(root, key, p, EVERYTHING, Height(root.view), 2, p.fanout);
      assert Contents.Get(Live(root.view), key) == Lookup(root.view, key);
    }

    method Contains(key: K) returns (found: bool)
      requires Valid()
      ensures (St(), Flag(found)) == Next(p, St(), DoContains(key))
      ensures found <==> key in Model()
    {
      var value := Get(key);
      found := value.Some?;
    }

    /** The counter, which may be off by what the buffers hide (tree.go:272-276). */
    method Len() returns (n: int)
      requires Valid()
      ensures n == |Model()| + Off(Twice, root.view) - Off(Missed, root.view)
    {
      SizeLaw(p, root.view, EVERYTHING, Height(root.view), 2, p.fanout);
      n := size;
    }

    /** What All and Ascend yield. */
    method All() returns (pairs: seq<Pair>)
      requires Valid()
      ensures forall i, j :: 0 <= i < j < |pairs| ==> pairs[i].key < pairs[j].key
      ensures forall x :: x in pairs <==> x.key in Model() && x.value == Model()[x.key]
    {
      pairs := MaterializeAll(root, p);
    }

    /** What Range yields: the live pairs of [lo, hi), ascending. */
    method Range(lo: K, hi: K) returns (pairs: seq<Pair>)
      requires Valid()
      ensures forall i, j :: 0 <= i < j < |pairs| ==> pairs[i].key < pairs[j].key
      ensures forall x :: x in pairs <==> x.key in Model() && x.value == Model()[x.key] && lo <= x.key < hi
    {
      pairs := MaterializeRange(root, lo, hi, p);
    }

    /** What DescendRange yields: the live pairs of (lo, hi], descending. */
    method DescendRange(hi: K, lo: K) returns (out: seq<Pair>)
      requires Valid()
      ensures forall i, j :: 0 <= i < j < |out| ==> out[j].key < out[i].key
      ensures forall x :: x in out <==> x.key in Model() && x.value == Model()[x.key] && lo < x.key <= hi
    {
      var pairs := MaterializeDescendRange(root, hi, lo, p);
      out := Backwards(pairs);
      ReverseLists(pairs, out);
    }

    /** What Descend yields. */
    method Descend() returns (out: seq<Pair>)
      requires Valid()
      ensures forall i, j :: 0 <= i < j < |out| ==> out[j].key < out[i].key
      ensures forall x :: x in out <==> x.key in Model() && x.value == Model()[x.key]
    {
      var pairs := MaterializeAll(root, p);
      out := Backwards(pairs);
      ReverseLists(pairs, out);
    }

    /** A cursor over what All yields now; later changes of the tree do not reach it. */
    method Cursor() returns (c: Cursors.Cursor)
      requires Valid()
      ensures fresh(c) && c.Ok() && !c.valid && Lists(c.pairs, Model(), EVERYTHING)
      ensures forall x :: x in c.pairs <==> x.key in Model() && x.value == Model()[x.key]
    {
      var pairs := MaterializeAll(root, p);
      c := new Cursors.Cursor(pairs);
    }

    // ---------- Writing ----------

    /** putLocked (tree.go:111-151). */
    method PutLocked(key: K, value: V, knownNew: bool)
      requires Valid() && (knownNew ==> Lookup(root.view, key).None?)
      modifies this, root.Repr
      ensures root.Valid() && fresh(root.Repr - old(root.Repr))
      ensures St() == PutStep(p, old(St()), key, value, knownNew)
    {
      hide Lookup, TakenForNew, Shape, TreeHist, Arity, Height, Accounts, Spill;
      if root.leaf {
        PutInLeaf(key, value);
        return;
      }
      var isNew := CheckNew(key, knownNew);
      PutReady(p, St(), key, value, knownNew);
      if isNew {
        size := size + 1;
      }
      SendOne(Messages.Put(key, value, isNew));
    }

    method PutInLeaf(key: K, value: V)
      requires Valid() && root.leaf
      modifies this, root.Repr
      ensures root.Valid() && fresh(root.Repr - old(root.Repr))
      ensures St() == PutStep(p, old(St()), key, value, false)
    {
      var isNew := root.LeafInsert(key, value);
      if isNew {
        size := size + 1;
      }
      GrowIfFull();
    }

    /** Whether a put counts as new (tree.go:129-139). */
    method CheckNew(key: K, knownNew: bool) returns (isNew: bool)
      requires Valid()
      ensures isNew == TakenForNew(St(), key, knownNew)
    {
      if knownNew {
        isNew := true;
      } else if pendingDeletes > 0 {
        var value := GetFromNode(root, key, p, EVERYTHING, Height(root.view), 2, p.fanout);
        isNew := value.None?;
      } else {
        var there := ExistsInLeaf(root, key, p, EVERYTHING, Height(root.view), 2, p.fanout);
        isNew := !there;
      }
    }

    method Put(key: K, value: V)
      requires Valid()
      modifies this, root.Repr
      ensures Valid() && fresh(root.Repr - old(root.Repr))
      ensures (St(), Done) == Next(p, old(St()), DoPut(key, value))
      ensures Model() == old(Model())[key := value]
    {
      NextRefines(p, St(), DoPut(key, value));
      PutLocked(key, value, false);
    }

    /** tree.go:384-393 */
    method PutIfAbsent(key: K, value: V) returns (inserted: bool)
      requires Valid()
      modifies this, root.Repr
      ensures Valid() && fresh(root.Repr - old(root.Repr))
      ensures (St(), Flag(inserted)) == Next(p, old(St()), DoPutIfAbsent(key, value))
      ensures inserted <==> key !in old(Model())
      ensures Model() == if inserted then old(Model())[key := value] else old(Model())
    {
      NextRefines(p, St(), DoPutIfAbsent(key, value));
      var there := GetFromNode(root, key, p, EVERYTHING, Height(root.view), 2, p.fanout);
      if there.Some? {
        return false;
      }
      PutLocked(key, value, true);
      inserted := true;
    }

    /** deleteLocked (tree.go:241-263). */
    method DeleteLocked(key: K) returns (existed: bool)
      requires Valid()
      modifies this, root.Repr
      ensures root.Valid() && fresh(root.Repr - old(root.Repr))
      ensures (St(), existed) == DeleteStep(p, old(St()), key)
    {
      hide TreeHist, Height, Accounts, Spill;
      if root.leaf {
        existed := root.LeafDelete(key);
        if existed {
          size := size - 1;
        }
        return;
      }
      var there := GetFromNode(root, key, p, EVERYTHING, Height(root.view), 2, p.fanout);
      if there.None? {
        return false;
      }
      DeleteReady(p, St(), key);
      size := size - 1;
      pendingDeletes := pendingDeletes + 1;
      SendOne(Messages.Delete(key));
      existed := true;
    }

    method Delete(key: K) returns (existed: bool)
      requires Valid()
      modifies this, root.Repr
      ensures Valid() && fresh(root.Repr - old(root.Repr))
      ensures (St(), Flag(existed)) == Next(p, old(St()), DoDelete(key))
      ensures existed <==> key in old(Model())
      ensures Model() == old(Model()) - {key}
    {
      NextRefines(p, St(), DoDelete(key));
      existed := DeleteLocked(key);
    }

    /** tree.go:355-381 */
    method UpsertLocked(key: K, fn: UpsertFn)
      requires Valid()
      modifies this, root.Repr
      ensures root.Valid() && fresh(root.Repr - old(root.Repr))
      ensures St() == UpsertStep(p, old(St()), key, fn)
    {
      if root.leaf {
        var isNew := UpsertLeaf(root, key, fn);
        if isNew {
          size := size + 1;
        }
        GrowIfFull();
        return;
      }
      UpsertReady(p, St(), key, fn);
      SendOne(Messages.Upsert(key, fn));
    }

    method Upsert(key: K, fn: UpsertFn)
      requires Valid()
      modifies this, root.Repr
      ensures Valid() && fresh(root.Repr - old(root.Repr))
      ensures (St(), Done) == Next(p, old(St()), DoUpsert(key, fn))
      ensures Model() == old(Model())[key := fn(if key in old(Model()) then Some(old(Model())[key]) else None)]
    {
      NextRefines(p, St(), DoUpsert(key, fn));
      UpsertLocked(key, fn);
    }

    /** tree.go:279-285 */
    method Clear()
      requires Valid()
      modifies this
      ensures Valid() && fresh(root.Repr)
      ensures (St(), Done) == Next(p, old(St()), DoClear)
      ensures Model() == map[]
    {
      NextRefines(p, St(), DoClear);
      lost := lost + Total(Work, root.view, Height(root.view));
      root := new Node.OfLeaf([], []);
      size := 0;
      pendingDeletes := 0;
    }

    /** Deletes every live key of [lo, hi) (tree.go:301-347). */
    method DeleteRange(lo: K, hi: K) returns (count: nat)
      requires Valid()
      modifies this, root.Repr
      ensures Valid() && fresh(root.Repr - old(root.Repr))
      ensures (St(), Removed(count)) == Next(p, old(St()), DoDeleteRange(lo, hi))
      ensures count == |set k | k in old(Model()) && lo <= k < hi|
      ensures Model() == old(Model()) - set k | k in old(Model()) && lo <= k < hi
    {
      hide DeleteRangeStep, Accounts, GoodTree;
      NextRefines(p, St(), DoDeleteRange(lo, hi));
      count := DeleteRangeLocked(lo, hi);
    }

    method DeleteRangeLocked(lo: K, hi: K) returns (count: nat)
      requires Valid()
      modifies this, root.Repr
      ensures root.Valid() && fresh(root.Repr - old(root.Repr))
      ensures (St(), count) == DeleteRangeStep(p, old(St()), lo, hi)
    {
      if Cmp(lo, hi) >= 0 {
        return 0;
      }
      if root.leaf {
        count := RangeOfLeaf(lo, hi);
      } else {
        count := RangeOfNode(lo, hi);
      }
    }

    method RangeOfLeaf(lo: K, hi: K) returns (count: nat)
      requires Valid() && root.leaf && lo < hi
      modifies this`size, root
      ensures root.Valid() && root.Repr == old(root.Repr)
      ensures (St(), count) == DeleteRangeStep(p, old(St()), lo, hi)
    {
      hide Accounts, TreeHist, Ascending, PageRun;
      ghost var s := St();
      count := DeleteFromLeaf(root, lo, hi);
      size := size - count;
      RangeFromLeaf(p, s, lo, hi, root.view.page);
    }

    method RangeOfNode(lo: K, hi: K) returns (count: nat)
      requires Valid() && !root.leaf && lo < hi
      modifies this, root.Repr
      ensures root.Valid() && fresh(root.Repr - old(root.Repr))
      ensures (St(), count) == DeleteRangeStep(p, old(St()), lo, hi)
    {
      hide DeleteRangeStep, Shape, TreeHist, Height, Accounts, Spill;
      var pairs := LivePairs(root, lo, hi, true, false, p);
      RangeStep(p, St(), lo, hi, pairs);
      RangeLive(p, root.view, Slice(lo, hi), pairs);
      count := |pairs|;
      if |pairs| > 0 {
        SendDeletes(pairs);
      }
    }

    /** Buffers one delete for each of the pairs, then flushes once (tree.go:331-346). */
    method SendDeletes(pairs: seq<Pair>)
      requires Valid() && !root.leaf && pairs != [] && KeysAscend(pairs)
      requires forall i :: 0 <= i < |pairs| ==> Lookup(root.view, pairs[i].key).Some?
      modifies this, root.Repr
      ensures root.Valid() && fresh(root.Repr - old(root.Repr))
      ensures St() == Send(p, old(St()), Deleting(PairsPage(pairs).keys), 0 - |pairs|, |pairs|)
    {
      BufferDeletes(pairs);
      SpillRoot();
    }

    method BufferDeletes(pairs: seq<Pair>)
      requires Valid() && !root.leaf && pairs != [] && KeysAscend(pairs)
      requires forall i :: 0 <= i < |pairs| ==> Lookup(root.view, pairs[i].key).Some?
      modifies this`size, this`pendingDeletes, this`credit, root
      ensures root.Valid() && root.Repr == old(root.Repr) && GoodTree(p, root.view)
      ensures St() == Sent(old(St()), Deleting(PairsPage(pairs).keys), 0 - |pairs|, |pairs|)
    {
      hide Accounts, Shape, TreeHist, Lookup, Arity;
      DeletesReady(p, root.view, PairsPage(pairs).keys);
      credit := credit + |pairs| * Height(root.view);
      size := size - |pairs|;
      pendingDeletes := pendingDeletes + |pairs|;
      AppendDeletes(root, pairs);
    }
  }

  method AppendDeletes(root: Node, pairs: seq<Pair>)
    requires root.Valid() && !root.leaf && pairs != []
    modifies root
    ensures root.Valid() && root.Repr == old(root.Repr)
    ensures root.view == OnTop(old(root.view), Deleting(PairsPage(pairs).keys))
  {
    ghost var t, keys := root.view, PairsPage(pairs).keys;
    var i := 0;
    while i < |pairs|
      invariant i <= |pairs| && root.Valid() && root.Repr == old(root.Repr)
      invariant root.view == if i == 0 then t else OnTop(t, Deleting(keys[..i]))
    {
      DeletingMore(t, keys, i);
      root.AppendToBuffer(Messages.Delete(pairs[i].key));
      i := i + 1;
    }
    TakeAll(keys);
  }

  lemma DeletesReady(p: Params, t: Tree, keys: seq<K>)
    requires GoodTree(p, t) && t.Node? && Increasing(keys)
    requires forall i :: 0 <= i < |keys| ==> Lookup(t, keys[i]).Some?
    ensures GoodTree(p, OnTop(t, Deleting(keys))) && |Deleting(keys)| == |keys|
  {
    DeletesOnTop(p, t, keys);
    DeletingAt(keys, 0.0);
    OnTopTree(p, t, Deleting(keys));
    DeletingLength(keys);
  }

  method UpsertLeaf(leaf: Node, key: K, fn: UpsertFn) returns (isNew: bool)
    requires GoodLeaf(leaf)
    modifies leaf
    ensures GoodLeaf(leaf) && leaf.Repr == old(leaf.Repr)
    ensures leaf.view == Leaf(PageStep(old(leaf.view.page), Messages.Upsert(key, fn)))
    ensures isNew == !Present(old(leaf.keys), key)
  {
    var idx, found := leaf.LeafSearch(key);
    ValPut(leaf.view.page, key, fn(Val(leaf.view.page, key)), key);
    if found {
      leaf.SetEntries(leaf.keys, leaf.values[idx := fn(Some(leaf.values[idx]))]);
      isNew := false;
    } else {
      var _ := leaf.LeafInsert(key, fn(None));
      isNew := true;
    }
  }

  /** A spill is a flush, after which a root over its bounds can be split. */
  lemma SpillEnds(p: Params, s: State)
    requires GoodTree(p, s.tree) && s.tree.Node? && |s.tree.buf| > p.bufferCap
    ensures var f := Flush(p, s.tree);
      && (Overfull(p, f.tree) ==> Splittable(f.tree))
      && Spill(p, s) == State(GrowRoot(p, f.tree), s.size + f.size, s.pending + f.pending,
                              s.moves + f.moves, s.calls + f.calls, s.credit, s.lost)
  {
    FlushShape(p, s.tree, EVERYTHING, Height(s.tree), 2);
  }

  lemma PutReady(p: Params, s: State, k: K, v: V, knownNew: bool)
    requires Good(p, s) && s.tree.Node? && (knownNew ==> Lookup(s.tree, k).None?)
    ensures HistOn(s.tree, [Put(k, v, TakenForNew(s, k, knownNew))])
  {
    if !TakenForNew(s, k, knownNew) {
      UncountedIsLive(p, s, k, knownNew);
    }
    OneOnTop(p, s, Put(k, v, TakenForNew(s, k, knownNew)));
  }

  lemma DeleteReady(p: Params, s: State, k: K)
    requires Good(p, s) && s.tree.Node? && Lookup(s.tree, k).Some?
    ensures HistOn(s.tree, [Messages.Delete(k)])
  {
    OneOnTop(p, s, Messages.Delete(k));
  }

  lemma UpsertReady(p: Params, s: State, k: K, fn: UpsertFn)
    requires Good(p, s) && s.tree.Node?
    ensures HistOn(s.tree, [Messages.Upsert(k, fn)])
  {
    OneOnTop(p, s, Messages.Upsert(k, fn));
  }

  /** The listed keys of a range are those a range deletion deletes. */
  lemma RangeKeys(p: Params, t: Tree, lo: K, hi: K, pairs: seq<Pair>)
    requires GoodTree(p, t) && Lists(pairs, Live(t), Slice(lo, hi))
    ensures PairsPage(pairs).keys == Ascending(LiveIn(t, Slice(lo, hi)))
  {
    var keys := PairsPage(pairs).keys;
    forall k ensures k in keys <==> k in LiveIn(t, Slice(lo, hi)) {
      ListedKeys(pairs, Live(t), Slice(lo, hi), k);
    }
    KeysUnique(keys, Ascending(LiveIn(t, Slice(lo, hi))));
  }

  lemma RangeLive(p: Params, t: Tree, r: Messages.Range, pairs: seq<Pair>)
    requires GoodTree(p, t) && Lists(pairs, Live(t), r)
    ensures forall i :: 0 <= i < |pairs| ==> Lookup(t, pairs[i].key).Some?
  {
    LiveGet(p, t);
    forall i | 0 <= i < |pairs| ensures Lookup(t, pairs[i].key).Some? {
      assert Contents.Get(Live(t), pairs[i].key) == Lookup(t, pairs[i].key);
    }
  }

  lemma NodeRange(p: Params, s: State, lo: K, hi: K, keys: seq<K>)
    requires p.Valid() && Arity(s.tree) && s.tree.Node? && lo < hi
    requires keys == Ascending(LiveIn(s.tree, Slice(lo, hi)))
    ensures DeleteRangeStep(p, s, lo, hi)
      == (if keys == [] then s else Send(p, s, Deleting(keys), 0 - |keys|, |keys|), |keys|)
  {
    hide Send, LiveIn, Ascending, Arity, Spill, Flush;
  }

  lemma RangeStep(p: Params, s: State, lo: K, hi: K, pairs: seq<Pair>)
    requires GoodTree(p, s.tree) && s.tree.Node? && lo < hi && Lists(pairs, Live(s.tree), Slice(lo, hi))
    ensures DeleteRangeStep(p, s, lo, hi)
      == (if pairs == [] then s else Send(p, s, Deleting(PairsPage(pairs).keys), 0 - |pairs|, |pairs|), |pairs|)
  {
    hide Send, LiveIn, Ascending, Arity, Spill, Flush, DeleteRangeStep, Lists;
    RangeKeys(p, s.tree, lo, hi, pairs);
    NodeRange(p, s, lo, hi, PairsPage(pairs).keys);
  }

  /** A leaf whose keys of the range are gone is what deleting them one by one leaves. */
  lemma RangeFromLeaf(p: Params, s: State, lo: K, hi: K, pg: Page)
    requires Good(p, s) && s.tree.Leaf? && Sound(pg)
    requires forall k :: Val(pg, k) == if lo <= k < hi then None else Val(s.tree.page, k)
    ensures var keys := Ascending(LiveIn(s.tree, Slice(lo, hi)));
      pg == PageRun(s.tree.page, Deleting(keys)) && |keys| == |s.tree.page.keys| - |pg.keys|
  {
    var keys := Ascending(LiveIn(s.tree, Slice(lo, hi)));
    DoomedKeys(p, s.tree, lo, hi);
    DeletingLeaf(s.tree.page, keys);
    var pg' := PageRun(s.tree.page, Deleting(keys));
    forall k ensures Val(pg, k) == Val(pg', k) {
      assert k in keys <==> lo <= k < hi && Lookup(s.tree, k).Some?;
    }
    PageUnique(pg, pg');
  }

  lemma DeletingMore(t: Tree, keys: seq<K>, i: nat)
    requires t.Node? && i < |keys|
    ensures OnTop(if i == 0 then t else OnTop(t, Deleting(keys[..i])), [Messages.Delete(keys[i])])
      == OnTop(t, Deleting(keys[..i + 1]))
  {
    assert keys[..i + 1][..i] == keys[..i];
    Assoc(t.buf, Deleting(keys[..i]), [Messages.Delete(keys[i])]);
  }
}
