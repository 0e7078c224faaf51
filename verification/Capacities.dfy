/** The capacities of buffers and leaves (options.go:69-70). The code does not keep nodes within
    them: a child is flushed at most once and split at most once per delivery. Here is when one
    flush does, by how much a run may exceed them, and runs that do. */
module Capacities {
  import opened Seqs
  import opened Messages
  import opened Leaves
  import opened Trees
  import opened Flushing
  import opened Ledgers
  import opened Contents
  import opened Runs
  import opened KeySets
  import opened Batches
  import opened Nodes
  import opened Buckets
  import opened Laws

  /** A node within its own capacity. */
  ghost predicate Fits(p: Params, t: Tree) {
    match t
    case Leaf(pg) => |pg.keys| <= p.leafCap
    case Node(_, _, buf, _) => |buf| <= p.bufferCap
  }

  // ---------- When a delivery splits the child ----------

  /** Whether child c is over its bounds after receiving b: a leaf with too many keys, or a full
      node that gets another child in the flush. */
  ghost predicate Splits(p: Params, c: Tree, b: seq<Message>)
    requires p.Valid() && Arity(c)
    decreases c
  {
    match c
    case Leaf(pg) => |PageRun(pg, b).keys| > p.leafCap
    case Node(pivots, kids, buf, _) =>
      |buf + b| > p.bufferCap && |kids| == p.fanout && Grows(p, Node(pivots, kids, buf + b, false))
  }

  /** Whether a flush of t adds a child to it. */
  ghost predicate Grows(p: Params, t: Tree)
    requires p.Valid() && Arity(t) && t.Node?
    decreases t.kids, 0
  {
    t.buf != [] && Splits(p, t.kids[Heaviest(t, |t.kids|)], Bucket(t, Heaviest(t, |t.kids|)))
  }

  lemma {:induction false} DeliverSplits(p: Params, c: Tree, b: seq<Message>, r: Range, h: nat, min: nat)
    requires p.Valid() && HalfOpen(r) && Shape(p, c, r, h, min, p.fanout) && Arity(c)
    requires AllWithin(b, r) && Point(b)
    ensures Overfull(p, Deliver(p, c, b).tree) <==> Splits(p, c, b)
    decreases c
  {
    if c.Node? && |c.buf + b| > p.bufferCap {
      FlushGrows(p, Node(c.pivots, c.kids, c.buf + b, false), r, h, min);
    }
  }

  /** A flush adds a child exactly when every node down the heaviest path is full and overflows
      and the leaf at its end does too. */
  lemma {:induction false} FlushGrows(p: Params, t: Tree, r: Range, h: nat, min: nat)
    requires p.Valid() && HalfOpen(r) && Shape(p, t, r, h, min, p.fanout) && Arity(t) && t.Node?
    ensures |Flush(p, t).tree.kids| == |t.kids| + if Grows(p, t) then 1 else 0
    decreases t.kids, 0
  {
    if t.buf != [] {
      var i := Heaviest(t, |t.kids|);
      BucketShape(t, i, r, min, p.fanout);
      DeliverSplits(p, t.kids[i], Bucket(t, i), KidSpan(r, t.pivots, i), h - 1, p.Half());
    }
  }

  // ---------- The root ----------

  /** A flush empties a node's buffer by its heaviest bucket, which is not empty. */
  lemma FlushBuffer(p: Params, t: Tree)
    requires p.Valid() && Arity(t) && t.Node? && Increasing(t.pivots) && t.buf != []
    ensures var b := |Bucket(t, Heaviest(t, |t.kids|))|;
      b > 0 && |t.buf| <= |t.kids| * b && |Flush(p, t).tree.buf| == |t.buf| - b
  {
    var i := Heaviest(t, |t.kids|);
    BucketsWeigh(Work, t, i, 1);
    Pigeonhole(t, |t.kids|, |Bucket(t, i)|);
    FilterAll(t.buf, Within(EVERYTHING));
  }

  /** After a buffered write the root's buffer is within capacity exactly when the heaviest
      bucket takes all of the excess, or the root is full and the flush adds a child to it. */
  lemma SpillFits(p: Params, s: State)
    requires GoodTree(p, s.tree) && s.tree.Node?
    ensures var t := s.tree;
      var room := p.bufferCap + |Bucket(t, Heaviest(t, |t.kids|))|;
      |Spill(p, s).tree.buf| <= p.bufferCap <==> |t.buf| <= room || (|t.kids| == p.fanout && Grows(p, t))
  {
    var t := s.tree;
    if |t.buf| > p.bufferCap {
      FlushBuffer(p, t);
      FlushGrows(p, t, EVERYTHING, Height(t), 2);
    }
  }

  // ---------- Every other node ----------

  /** How many of the children's buckets go to the left half when a flush has filled the node. */
  ghost function LeftBuckets(t: Tree): (n: nat)
    requires t.Node? && |t.kids| == |t.pivots| + 1
    ensures n <= |t.kids|
  {
    if Heaviest(t, |t.kids|) <= |t.kids| / 2 then |t.kids| / 2 else |t.kids| / 2 + 1
  }

  /** Children before n, but for h, only hold keys below pv, and children from n on, but for h,
      only keys from pv on. */
  ghost predicate Parts(t: Tree, h: nat, n: nat, pv: K)
    requires t.Node?
  {
    && (forall j :: 0 <= j < |t.pivots| && j < n && j != h ==> t.pivots[j] <= pv)
    && (forall j :: 0 <= j < |t.pivots| && n <= j + 1 && j + 1 != h ==> pv <= t.pivots[j])
    && (n == 0 ==> h == 0)
    && (n > |t.pivots| ==> h == |t.pivots|)
  }

  /** What waits below pv, if pv parts the first n children, the flushed one aside, from the
      others. */
  lemma {:induction false} KeptBelow(t: Tree, h: nat, m: nat, n: nat, pv: K)
    requires t.Node? && |t.kids| == |t.pivots| + 1 && n <= |t.kids| && m <= |t.kids|
    requires Parts(t, h, n, pv)
    ensures Sel(Unflushed(t, h, m), Below(pv)) == Unflushed(t, h, if m <= n then m else n)
  {
    hide Bucket, Unflushed;
    UnflushedNone(t, h);
    if m == 0 {
      FilterNone(Unflushed(t, h, 0), Within(Below(pv)));
    } else {
      var j := m - 1;
      KeptBelow(t, h, j, n, pv);
      UnflushedNext(t, h, j);
      if j != h {
        FilterConcat(Unflushed(t, h, j), Bucket(t, j), Within(Below(pv)));
        BucketBelow(t, j, pv, j < n);
        PlusNil(Unflushed(t, h, n));
      }
    }
  }

  lemma BucketBelow(t: Tree, j: nat, pv: K, below: bool)
    requires t.Node? && |t.kids| == |t.pivots| + 1 && j < |t.kids|
    requires below ==> j < |t.pivots| && t.pivots[j] <= pv
    requires !below ==> j > 0 && pv <= t.pivots[j - 1]
    ensures Sel(Bucket(t, j), Below(pv)) == if below then Bucket(t, j) else []
  {
    FilterMembers(t.buf, Within(KidSpan(EVERYTHING, t.pivots, j)));
    if below {
      FilterAll(Bucket(t, j), Within(Below(pv)));
    } else {
      FilterNone(Bucket(t, j), Within(Below(pv)));
    }
  }

  /** The promoted pivot parts the children that way. */
  lemma PivotParts(t: Tree, kp: K)
    requires t.Node? && |t.kids| == |t.pivots| + 1 && |t.kids| >= 2 && Increasing(t.pivots)
    requires Inside(KidSpan(EVERYTHING, t.pivots, Heaviest(t, |t.kids|)), kp)
    ensures var h, n := Heaviest(t, |t.kids|), LeftBuckets(t);
      Parts(t, h, n, InsertAt(t.pivots, h, kp)[(|t.pivots| + 1) / 2])
  {
    hide Heaviest;
  }

  lemma PartLengths(ms: seq<Message>, pv: K)
    ensures |Sel(ms, Below(pv))| + |Sel(ms, From(pv))| == |ms|
  {
    WeighParts(Work, ms, EVERYTHING, Below(pv), From(pv), 1);
    WeighWhole(Work, ms, 1);
  }

  /** The buffers of the two halves of a node that a flush has filled: the children's buckets up
      to the middle, and the rest. */
  lemma SplitShares(p: Params, t: Tree, r: Range, h: nat, min: nat)
    requires p.Valid() && HalfOpen(r) && Shape(p, t, r, h, min, p.fanout) && Arity(t) && t.Node?
    requires |t.kids| == p.fanout && Grows(p, t)
    ensures var t', i := Flush(p, t).tree, Heaviest(t, |t.kids|);
      var left := |Unflushed(t, i, LeftBuckets(t))|;
      && Overfull(p, t') && Splittable(t')
      && |Split(t').0.buf| == left
      && |Split(t').2.buf| == |t.buf| - |Bucket(t, i)| - left
  {
    hide Shape, Bucket, Unflushed, Heaviest, Flush, Sel, Deliver, Splits, Lower, Parts;
    var i, f := Heaviest(t, |t.kids|), Lower(p, t);
    GrownSplit(p, t, r, h, min);
    ShapeArms(p, t, r, h, min, p.fanout);
    var kp := Split(f.tree).1;
    var pv := InsertAt(t.pivots, i, kp)[(|t.pivots| + 1) / 2];
    PivotParts(t, kp);
    KeptBelow(t, i, |t.kids|, LeftBuckets(t), pv);
    PartLengths(Unflushed(t, i, |t.kids|), pv);
    BucketsWeigh(Work, t, i, 1);
  }

  lemma GrownSplit(p: Params, t: Tree, r: Range, h: nat, min: nat)
    requires p.Valid() && HalfOpen(r) && Shape(p, t, r, h, min, p.fanout) && Arity(t) && t.Node?
    requires Grows(p, t)
    ensures var i, f := Heaviest(t, |t.kids|), Lower(p, t);
      && Increasing(t.pivots)
      && Splittable(f.tree)
      && Inside(KidSpan(EVERYTHING, t.pivots, i), Split(f.tree).1)
      && Flush(p, t).tree == SplitKid(Lowered(p, t), i)
  {
    hide Deliver, Flush, Splits, Bucket, Split, Lowered;
    var i := Heaviest(t, |t.kids|);
    BucketShape(t, i, r, min, p.fanout);
    DeliverSplits(p, t.kids[i], Bucket(t, i), KidSpan(r, t.pivots, i), h - 1, p.Half());
    LowerSplits(p, t, r, h, min);
    LowerShape(p, t, r, h, min);
    SplitShape(p, Lower(p, t).tree, KidSpan(r, t.pivots, i), h - 1, p.Half());
  }

  /** Whether child c, and its halves if it is split, will be within capacity once it has received
      b. A leaf: if the batch leaves at most twice the capacity. An inner child: if its heaviest
      bucket holds all of the excess or, if it splits, if the buckets on either side of the middle
      fit. */
  ghost predicate WillFit(p: Params, c: Tree, b: seq<Message>)
    requires p.Valid() && Arity(c)
  {
    match c
    case Leaf(pg) => |PageRun(pg, b).keys| <= 2 * p.leafCap
    case Node(pivots, kids, buf, _) =>
      var t := Tree.Node(pivots, kids, buf + b, false);
      var i := Heaviest(t, |kids|);
      var moved, left := |Bucket(t, i)|, |Unflushed(t, i, LeftBuckets(t))|;
      if Splits(p, c, b) then left <= p.bufferCap && |t.buf| - moved - left <= p.bufferCap
      else |t.buf| <= p.bufferCap + moved
  }

  /** A delivery leaves the child within capacity exactly when it could be told before. */
  lemma DeliverFits(p: Params, c: Tree, b: seq<Message>, r: Range, h: nat, min: nat)
    requires p.Valid() && HalfOpen(r) && Shape(p, c, r, h, min, p.fanout) && Arity(c)
    requires AllWithin(b, r) && Point(b)
    ensures var c' := Deliver(p, c, b).tree;
      && (Overfull(p, c') ==> Splittable(c'))
      && ((if Overfull(p, c') then Fits(p, Split(c').0) && Fits(p, Split(c').2) else Fits(p, c')) <==> WillFit(p, c, b))
  {
    hide Bucket, Unflushed, Heaviest, LeftBuckets, Sel;
    if c.Leaf? {
      LeafFits(p, c.page, b);
    } else {
      var t := Tree.Node(c.pivots, c.kids, c.buf + b, false);
      assert Shape(p, t, r, h, min, p.fanout);
      DeliverSplits(p, c, b, r, h, min);
      if Splits(p, c, b) {
        SplitShares(p, t, r, h, min);
      } else if |t.buf| > p.bufferCap {
        FlushBuffer(p, t);
      }
    }
  }

  lemma LeafFits(p: Params, pg: Page, b: seq<Message>)
    requires p.Valid() && Sound(pg)
    ensures var c' := Deliver(p, Leaf(pg), b).tree;
      && (Overfull(p, c') ==> Splittable(c'))
      && ((if Overfull(p, c') then Fits(p, Split(c').0) && Fits(p, Split(c').2) else Fits(p, c'))
          <==> |PageRun(pg, b).keys| <= 2 * p.leafCap)
  {
    RunSound(pg, b);
  }
}
