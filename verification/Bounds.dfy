/** How far a run may exceed the capacities: every buffer and every leaf is bounded by its depth
    and by the largest number of messages one operation sends. */
module Bounds {
  import opened Seqs
  import opened Messages
  import opened Leaves
  import opened Trees
  import opened Flushing
  import opened Ledgers
  import opened Numbers
  import opened KeySets
  import opened Runs
  import opened Buckets
  import opened Laws
  import opened Capacities

  function Max(a: nat, b: nat): nat { if a < b then b else a }

  // ---------- The bounds ----------

  /** What the root's buffer may hold between operations that send at most m messages each. */
  function Reserve(p: Params, m: nat): nat
    requires p.Valid() && m > 0
  {
    Max(p.bufferCap, (m - 1) * (p.fanout - 1))
  }

  /** So just before the root is flushed it holds at most this and one message. */
  function Excess(p: Params, m: nat): nat
    requires p.Valid() && m > 0
  {
    Reserve(p, m) + m - 1
  }

  /** The same for a node at depth d. */
  function Share(p: Params, e: nat, d: nat): nat {
    if d == 0 then e else p.fanout * Share(p, e, d - 1)
  }

  lemma {:induction false} ShareIs(p: Params, e: nat, d: nat)
    ensures Share(p, e, d) == Power(p.fanout, d) * e
  {
    if d > 0 {
      ShareIs(p, e, d - 1);
    }
  }

  lemma ShareNext(p: Params, e: nat, d: nat)
    requires d > 0
    ensures Share(p, e, d) == p.fanout * Share(p, e, d - 1)
  {}

  lemma {:induction false} ShareGrows(p: Params, e: nat, d: nat)
    requires p.Valid()
    ensures Share(p, e, d) >= e
    ensures Share(p, e, d + 1) >= Share(p, e, d)
  {
    if d > 0 {
      ShareGrows(p, e, d - 1);
    }
    MulMono(1, p.fanout, Share(p, e, d));
  }

  function LeafBound(p: Params, e: nat, d: nat): nat
    requires d > 0
  {
    Max(p.leafCap, Share(p, e, d - 1) + 1)
  }

  function BufferBound(p: Params, e: nat, d: nat): nat
    requires p.Valid() && d > 0
  {
    (p.fanout - 1) * Share(p, e, d - 1)
  }

  /** A tree whose top is at depth d >= 1 keeps the bounds everywhere. */
  ghost predicate Bounded(p: Params, t: Tree, e: nat, d: nat)
    requires p.Valid() && d > 0
    decreases t
  {
    match t
    case Leaf(pg) => |pg.keys| <= LeafBound(p, e, d)
    case Node(_, kids, buf, _) =>
      |buf| <= BufferBound(p, e, d) && forall i :: 0 <= i < |kids| ==> Bounded(p, kids[i], e, d + 1)
  }

  ghost predicate AllBounded(p: Params, kids: seq<Tree>, e: nat, d: nat)
    requires p.Valid() && d > 0
  {
    forall i :: 0 <= i < |kids| ==> Bounded(p, kids[i], e, d)
  }

  /** A child after a delivery, before any split. */
  ghost predicate Unsplit(p: Params, t: Tree, e: nat, d: nat)
    requires p.Valid() && d > 0
  {
    if t.Leaf? then |t.page.keys| <= 2 * LeafBound(p, e, d) else Bounded(p, t, e, d)
  }

  // ---------- Splits ----------

  lemma {:induction false} BoundedDeeper(p: Params, t: Tree, e: nat, d: nat)
    requires p.Valid() && d > 0 && Bounded(p, t, e, d)
    ensures Bounded(p, t, e, d + 1)
    decreases t
  {
    hide Share;
    ShareGrows(p, e, d - 1);
    if t.Node? {
      MulMono(Share(p, e, d - 1), Share(p, e, d), p.fanout - 1);
      MulFlip(Share(p, e, d - 1), p.fanout - 1);
      MulFlip(Share(p, e, d), p.fanout - 1);
      forall i | 0 <= i < |t.kids| ensures Bounded(p, t.kids[i], e, d + 2) {
        BoundedDeeper(p, t.kids[i], e, d + 1);
      }
    }
  }

  lemma SplitBounded(p: Params, t: Tree, e: nat, d: nat)
    requires p.Valid() && d > 0 && Arity(t) && Splittable(t) && Unsplit(p, t, e, d)
    ensures Bounded(p, Split(t).0, e, d) && Bounded(p, Split(t).2, e, d)
  {
    if t.Node? {
      var pv := Split(t).1;
      FilterMembers(t.buf, Within(Below(pv)));
      FilterMembers(t.buf, Within(From(pv)));
    }
  }

  lemma SplitKidBounded(p: Params, t: Tree, i: nat, e: nat, d: nat)
    requires p.Valid() && d > 0 && t.Node? && |t.kids| == |t.pivots| + 1 && i < |t.kids|
    requires Arity(t.kids[i]) && Splittable(t.kids[i]) && Unsplit(p, t.kids[i], e, d)
    requires forall j :: 0 <= j < |t.kids| && j != i ==> Bounded(p, t.kids[j], e, d)
    ensures AllBounded(p, SplitKid(t, i).kids, e, d)
  {
    hide Bounded, Unsplit, Split;
    SplitBounded(p, t.kids[i], e, d);
    var s := SplitKid(t, i);
    forall j | 0 <= j < |s.kids| ensures Bounded(p, s.kids[j], e, d) {
      SplitKidAt(t, i, j);
    }
  }

  // ---------- Flushes ----------

  lemma {:induction false} RunLength(pg: Page, ms: seq<Message>)
    requires Sound(pg)
    ensures |PageRun(pg, ms).keys| <= |pg.keys| + |ms|
  {
    if ms != [] {
      var ms', m := ms[..|ms| - 1], ms[|ms| - 1];
      RunLength(pg, ms');
      var q := PageRun(pg, ms');
      RunSound(pg, ms');
      StepLength(q, m);
    }
  }

  lemma StepLength(pg: Page, m: Message)
    requires Sound(pg)
    ensures |PageStep(pg, m).keys| <= |pg.keys| + if m.Delete? then 0 else 1
  {
    match m
    case Put(k, v, _) => ValPut(pg, k, v, k);
    case Delete(k) => ValRemove(pg, k, k);
    case DeleteRange(_, _) =>
    case Upsert(k, fn) => ValPut(pg, k, fn(Val(pg, k)), k);
  }

  /** What stays behind when the heaviest of n <= f buckets goes. */
  lemma Remainder(f: nat, n: nat, total: nat, top: nat, x: nat)
    requires 0 < n <= f && top <= total <= n * top && total <= f * x + 1
    ensures total - top <= (f - 1) * x
  {
    MulNext(f, x);
    if top <= x {
      MulMono(n, f, top);
      MulNext(f, top);
      MulMono(top, x, f - 1);
      MulFlip(top, f - 1);
      MulFlip(x, f - 1);
    }
  }

  lemma {:induction false} DeliverBounded(p: Params, c: Tree, b: seq<Message>, r: Range, h: nat, min: nat,
                                          e: nat, d: nat)
    requires p.Valid() && HalfOpen(r) && Shape(p, c, r, h, min, p.fanout) && Arity(c)
    requires AllWithin(b, r) && Point(b)
    requires d > 0 && p.bufferCap <= e && Bounded(p, c, e, d) && |b| <= Share(p, e, d - 1) + 1
    ensures Unsplit(p, Deliver(p, c, b).tree, e, d)
    decreases c
  {
    hide Share, Flush, Bucket;
    match c
    case Leaf(pg) =>
      RunLength(pg, b);
    case Node(pivots, kids, buf, _) =>
      var t := Tree.Node(pivots, kids, buf + b, false);
      ShareGrows(p, e, d - 1);
      ShareNext(p, e, d);
      var x := Share(p, e, d - 1);
      MulNext(p.fanout, x);
      if |t.buf| > p.bufferCap {
        FlushBounded(p, t, r, h, min, e, d);
        FlushBuffer(p, t);
        Remainder(p.fanout, |kids|, |t.buf|, |Bucket(t, Heaviest(t, |kids|))|, x);
      } else {
        MulMono(1, p.fanout - 1, x);
      }
  }

  /** A flush of a node at depth d keeps the bounds below it. */
  lemma {:induction false} FlushBounded(p: Params, t: Tree, r: Range, h: nat, min: nat, e: nat, d: nat)
    requires p.Valid() && HalfOpen(r) && Shape(p, t, r, h, min, p.fanout) && Arity(t) && t.Node?
    requires p.bufferCap <= e && |t.buf| <= Share(p, e, d) + 1 && AllBounded(p, t.kids, e, d + 1)
    ensures AllBounded(p, Flush(p, t).tree.kids, e, d + 1)
    decreases t.kids, 2
  {
    if t.buf != [] {
      LowerBounded(p, t, r, h, min, e, d);
      LowerSplits(p, t, r, h, min);
      hide Bounded, Unsplit, Share, Flush, Lower;
      var i, f, t' := Heaviest(t, |t.kids|), Lower(p, t), Lowered(p, t);
      LoweredParts(p, t);
      if Overfull(p, f.tree) {
        SplitKidBounded(p, t', i, e, d + 1);
      } else {
        UnsplitFits(p, f.tree, e, d + 1);
      }
    }
  }

  lemma LoweredParts(p: Params, t: Tree)
    requires p.Valid() && Arity(t) && t.Node?
    ensures Lowered(p, t).pivots == t.pivots
    ensures Lowered(p, t).kids == t.kids[Heaviest(t, |t.kids|) := Lower(p, t).tree]
  {}

  lemma UnsplitFits(p: Params, t: Tree, e: nat, d: nat)
    requires p.Valid() && d > 0 && Unsplit(p, t, e, d) && !Overfull(p, t)
    ensures Bounded(p, t, e, d)
  {}

  lemma {:induction false} LowerBounded(p: Params, t: Tree, r: Range, h: nat, min: nat, e: nat, d: nat)
    requires p.Valid() && HalfOpen(r) && Shape(p, t, r, h, min, p.fanout) && Arity(t) && t.Node?
    requires p.bufferCap <= e && |t.buf| <= Share(p, e, d) + 1 && AllBounded(p, t.kids, e, d + 1)
    ensures Unsplit(p, Lower(p, t).tree, e, d + 1)
    decreases t.kids, 1
  {
    var i := Heaviest(t, |t.kids|);
    BucketShape(t, i, r, min, p.fanout);
    FilterMembers(t.buf, Within(KidSpan(EVERYTHING, t.pivots, i)));
    DeliverBounded(p, t.kids[i], Bucket(t, i), KidSpan(r, t.pivots, i), h - 1, p.Half(), e, d + 1);
  }

  // ---------- Whole trees ----------

  /** The bounds on a whole tree, after operations of at most m messages each. */
  ghost predicate RootBounded(p: Params, t: Tree, m: nat)
    requires p.Valid() && m > 0
  {
    t.Node? ==> |t.buf| <= Reserve(p, m) && AllBounded(p, t.kids, Excess(p, m), 1)
  }

  lemma GrowNodeBounded(p: Params, t: Tree, h: nat, m: nat)
    requires p.Valid() && m > 0 && Arity(t) && t.Node? && Shape(p, t, EVERYTHING, h, 2, p.fanout + 1)
    requires RootBounded(p, t, m)
    ensures RootBounded(p, GrowRoot(p, t), m)
  {
    if Overfull(p, t) {
      var e := Excess(p, m);
      forall i | 0 <= i < |t.kids| ensures Bounded(p, t.kids[i], e, 2) {
        BoundedDeeper(p, t.kids[i], e, 1);
      }
      MulMono(1, p.fanout - 1, e);
      assert Bounded(p, t, e, 1);
      SplitKidBounded(p, Tree.Node([], [t], [], false), 0, e, 1);
    }
  }

  lemma GrowLeafBounded(p: Params, pg: Page, m: nat)
    requires p.Valid() && m > 0 && |pg.keys| == |pg.vals| && |pg.keys| <= p.leafCap + 1
    ensures RootBounded(p, GrowRoot(p, Leaf(pg)), m)
  {
    var t, e := Leaf(pg), Excess(p, m);
    if Overfull(p, t) {
      SplitKidBounded(p, Tree.Node([], [t], [], false), 0, e, 1);
    }
  }

  /** The root's own buffer after a flush. */
  lemma RootRemainder(p: Params, n: nat, total: nat, top: nat, m: nat)
    requires p.Valid() && m > 0 && 0 < n <= p.fanout
    requires top <= total <= n * top && total <= Reserve(p, m) + m
    ensures total - top <= Reserve(p, m)
  {
    if top < m {
      MulMono(n, p.fanout, top);
      MulNext(p.fanout, top);
      MulMono(top, m - 1, p.fanout - 1);
      MulFlip(top, p.fanout - 1);
    }
  }

  lemma SpillBounded(p: Params, s: State, m: nat)
    requires GoodTree(p, s.tree) && s.tree.Node? && m > 0
    requires |s.tree.buf| <= Reserve(p, m) + m && AllBounded(p, s.tree.kids, Excess(p, m), 1)
    ensures RootBounded(p, Spill(p, s).tree, m)
  {
    hide Flush, GrowRoot, AllBounded, TreeHist, Bucket;
    var t, h := s.tree, Height(s.tree);
    if |t.buf| > p.bufferCap {
      FlushBounded(p, t, EVERYTHING, h, 2, Excess(p, m), 0);
      FlushBuffer(p, t);
      RootRemainder(p, |t.kids|, |t.buf|, |Bucket(t, Heaviest(t, |t.kids|))|, m);
      FlushShape(p, t, EVERYTHING, h, 2);
      GrowNodeBounded(p, Flush(p, t).tree, h, m);
    }
  }

  lemma SendBounded(p: Params, s: State, ms: seq<Message>, size: int, pending: int, m: nat)
    requires Good(p, s) && s.tree.Node? && Point(ms) && HistOn(s.tree, ms)
    requires 0 < m && |ms| <= m && RootBounded(p, s.tree, m)
    ensures RootBounded(p, Send(p, s, ms, size, pending).tree, m)
  {
    OnTopTree(p, s.tree, ms);
    SpillBounded(p, Sent(s, ms, size, pending), m);
  }

  // ---------- Every run ----------

  lemma PutBounded(p: Params, s: State, k: K, v: V, knownNew: bool, m: nat)
    requires Good(p, s) && m > 0 && RootBounded(p, s.tree, m) && (knownNew ==> Lookup(s.tree, k).None?)
    ensures RootBounded(p, PutStep(p, s, k, v, knownNew).tree, m)
  {
    if s.tree.Leaf? {
      ValPut(s.tree.page, k, v, k);
      GrowLeafBounded(p, PagePut(s.tree.page, k, v), m);
    } else {
      var isNew := TakenForNew(s, k, knownNew);
      if !isNew {
        UncountedIsLive(p, s, k, knownNew);
      }
      OneOnTop(p, s, Put(k, v, isNew));
      SendBounded(p, s, [Put(k, v, isNew)], if isNew then 1 else 0, 0, m);
    }
  }

  lemma UpsertBounded(p: Params, s: State, k: K, fn: UpsertFn, m: nat)
    requires Good(p, s) && m > 0 && RootBounded(p, s.tree, m)
    ensures RootBounded(p, UpsertStep(p, s, k, fn).tree, m)
  {
    if s.tree.Leaf? {
      var v := fn(Val(s.tree.page, k));
      ValPut(s.tree.page, k, v, k);
      GrowLeafBounded(p, PagePut(s.tree.page, k, v), m);
    } else {
      OneOnTop(p, s, Upsert(k, fn));
      SendBounded(p, s, [Upsert(k, fn)], 0, 0, m);
    }
  }

  lemma DeleteBounded(p: Params, s: State, k: K, m: nat)
    requires Good(p, s) && m > 0 && RootBounded(p, s.tree, m)
    ensures RootBounded(p, DeleteStep(p, s, k).0.tree, m)
  {
    if s.tree.Node? && Lookup(s.tree, k).Some? {
      OneOnTop(p, s, Delete(k));
      SendBounded(p, s, [Delete(k)], -1, 1, m);
    }
  }

  lemma DeleteKeysBounded(p: Params, s: State, keys: seq<K>, m: nat)
    requires Good(p, s) && m > 0 && RootBounded(p, s.tree, m) && |keys| <= m && Increasing(keys)
    requires forall k :: k in keys ==> Lookup(s.tree, k).Some?
    ensures RootBounded(p, DeleteKeys(p, s, keys).tree, m)
  {
    hide Deleting, HistOn, Lookup, RootBounded, Point, Send, Accounts;
    if s.tree.Leaf? {
      StillLeaf(p, s, keys, m);
    } else if keys != [] {
      DeletingReady(p, s, keys);
      DeletingLength(keys);
      SendBounded(p, s, Deleting(keys), -|keys|, |keys|, m);
    }
  }

  lemma StillLeaf(p: Params, s: State, keys: seq<K>, m: nat)
    requires p.Valid() && Arity(s.tree) && s.tree.Leaf? && m > 0
    ensures RootBounded(p, DeleteKeys(p, s, keys).tree, m)
  {}

  lemma NextBounded(p: Params, s: State, op: Op, m: nat)
    requires Good(p, s) && m > 0 && RootBounded(p, s.tree, m)
    requires var out := Next(p, s, op).1; out.Removed? ==> out.count <= m
    ensures RootBounded(p, Next(p, s, op).0.tree, m)
  {
    hide PutStep, UpsertStep, DeleteStep, DeleteRangeStep, RootBounded, Accounts, Lookup;
    match op
    case DoPut(k, v) => PutBounded(p, s, k, v, false, m);
    case DoPutIfAbsent(k, v) =>
      if Lookup(s.tree, k).None? {
        PutBounded(p, s, k, v, true, m);
      }
    case DoUpsert(k, fn) => UpsertBounded(p, s, k, fn, m);
    case DoDelete(k) => DeleteBounded(p, s, k, m);
    case DoDeleteRange(lo, hi) => DeleteRangeBounded(p, s, lo, hi, m);
    case DoGet(k) =>
    case DoContains(k) =>
    case DoClear => EmptyBounded(p, m);
  }

  lemma DeleteRangeBounded(p: Params, s: State, lo: K, hi: K, m: nat)
    requires Good(p, s) && m > 0 && RootBounded(p, s.tree, m) && DeleteRangeStep(p, s, lo, hi).1 <= m
    ensures RootBounded(p, DeleteRangeStep(p, s, lo, hi).0.tree, m)
  {
    hide DeleteKeys, RootBounded, Accounts, Lookup;
    if lo < hi {
      DoomedKeys(p, s.tree, lo, hi);
      DeleteKeysBounded(p, s, Ascending(LiveIn(s.tree, Slice(lo, hi))), m);
    }
  }

  lemma EmptyBounded(p: Params, m: nat)
    requires p.Valid() && m > 0
    ensures RootBounded(p, Leaf(EMPTY), m)
  {}

  /** After every run whose range deletions removed at most m keys each: the root's buffer holds
      at most Reserve(p, m) messages; with e = Excess(p, m), the buffer of a node at depth
      d >= 1 at most (fanout - 1) * fanout^(d-1) * e, and a leaf there at most leafCap or
      fanout^(d-1) * e + 1 keys, whichever is more. */
  lemma {:induction false} RunBounded(p: Params, ops: seq<Op>, m: nat)
    requires p.Valid() && m > 0
    requires forall out :: out in Run(p, ops).1 && out.Removed? ==> out.count <= m
    ensures RootBounded(p, Run(p, ops).0.tree, m)
  {
    hide Next, RootBounded, Good, MapRun;
    if ops == [] {
      EmptyBounded(p, m);
    } else {
      var ops', op := ops[..|ops| - 1], ops[|ops| - 1];
      var s := Run(p, ops').0;
      RunRefines(p, ops');
      assert Run(p, ops).1 == Run(p, ops').1 + [Next(p, s, op).1];
      assert Next(p, s, op).1 in Run(p, ops).1;
      RunBounded(p, ops', m);
      NextBounded(p, s, op, m);
    }
  }

  /** The node that a path of child indices leads to. */
  ghost predicate LeadsTo(t: Tree, path: seq<nat>, n: Tree)
    decreases path
  {
    if path == [] then n == t
    else t.Node? && path[0] < |t.kids| && LeadsTo(t.kids[path[0]], path[1..], n)
  }

  lemma {:induction false} BoundedAt(p: Params, t: Tree, e: nat, d: nat, path: seq<nat>, n: Tree)
    requires p.Valid() && d > 0 && Bounded(p, t, e, d) && LeadsTo(t, path, n)
    ensures Bounded(p, n, e, d + |path|)
    decreases path
  {
    if path != [] {
      BoundedAt(p, t.kids[path[0]], e, d + 1, path[1..], n);
    }
  }

  /** The same for one node below the root, the bounds written out. */
  lemma RunNodeBounded(p: Params, ops: seq<Op>, m: nat, path: seq<nat>, n: Tree)
    requires p.Valid() && m > 0 && path != [] && LeadsTo(Run(p, ops).0.tree, path, n)
    requires forall out :: out in Run(p, ops).1 && out.Removed? ==> out.count <= m
    ensures var root, f := Run(p, ops).0.tree, p.fanout;
      var reserve := if p.bufferCap < (m - 1) * (f - 1) then (m - 1) * (f - 1) else p.bufferCap;
      var share := Power(f, |path| - 1) * (reserve + m - 1);
      && root.Node? && |root.buf| <= reserve
      && if n.Node? then |n.buf| <= (f - 1) * share else |n.page.keys| <= p.leafCap || |n.page.keys| <= share + 1
  {
    hide Run, Bounded;
    RunBounded(p, ops, m);
    var t, e := Run(p, ops).0.tree, Excess(p, m);
    BoundedAt(p, t.kids[path[0]], e, 1, path[1..], n);
    ShareIs(p, e, |path| - 1);
    BoundedMeans(p, n, e, |path|);
  }

  lemma BoundedMeans(p: Params, n: Tree, e: nat, d: nat)
    requires p.Valid() && d > 0 && Bounded(p, n, e, d)
    ensures var share := Share(p, e, d - 1);
      if n.Node? then |n.buf| <= (p.fanout - 1) * share else |n.page.keys| <= p.leafCap || |n.page.keys| <= share + 1
  {}

  lemma {:induction false} NoneRemoved(p: Params, ops: seq<Op>)
    requires p.Valid() && forall op :: op in ops ==> !op.DoDeleteRange?
    ensures forall out :: out in Run(p, ops).1 ==> !out.Removed?
  {
    hide PutStep, UpsertStep, DeleteStep, DeleteRangeStep, Lookup;
    if ops != [] {
      NoneRemoved(p, ops[..|ops| - 1]);
    }
  }

  ghost predicate RootFits(p: Params, t: Tree) { t.Node? ==> Fits(p, t) }

  /** Without range deletions the root's buffer is within capacity after every operation. */
  lemma RunFits(p: Params, ops: seq<Op>)
    requires p.Valid() && forall op :: op in ops ==> !op.DoDeleteRange?
    ensures RootFits(p, Run(p, ops).0.tree)
  {
    NoneRemoved(p, ops);
    RunBounded(p, ops, 1);
  }

  // ---------- When all leaves are within capacity ----------

  ghost predicate LeavesFit(p: Params, t: Tree)
    decreases t
  {
    match t
    case Leaf(_) => Fits(p, t)
    case Node(_, kids, _, _) => forall i :: 0 <= i < |kids| ==> LeavesFit(p, kids[i])
  }

  lemma {:induction false} BoundedLeaves(p: Params, t: Tree, r: Range, h: nat, min: nat, max: nat, e: nat, d: nat)
    requires p.Valid() && d > 0 && Shape(p, t, r, h, min, max) && Bounded(p, t, e, d)
    requires Share(p, e, d + h - 1) < p.leafCap
    ensures LeavesFit(p, t)
    decreases t
  {
    if t.Node? {
      forall i | 0 <= i < |t.kids| ensures LeavesFit(p, t.kids[i]) {
        BoundedLeaves(p, t.kids[i], KidSpan(r, t.pivots, i), h - 1, p.Half(), p.fanout, e, d + 1);
      }
    }
  }

  /** All leaves of a tree of height h are within capacity if fanout^(h-1) * e is less. */
  lemma RunLeavesFit(p: Params, ops: seq<Op>, m: nat)
    requires p.Valid() && m > 0
    requires forall out :: out in Run(p, ops).1 && out.Removed? ==> out.count <= m
    requires var h := Height(Run(p, ops).0.tree);
      h > 0 ==> Power(p.fanout, h - 1) * Excess(p, m) < p.leafCap
    ensures LeavesFit(p, Run(p, ops).0.tree)
  {
    var t := Run(p, ops).0.tree;
    RunBounded(p, ops, m);
    RunRefines(p, ops);
    if t.Node? {
      RootLeaves(p, t, m);
    }
  }

  lemma RootLeaves(p: Params, t: Tree, m: nat)
    requires GoodTree(p, t) && t.Node? && m > 0 && RootBounded(p, t, m)
    requires Power(p.fanout, Height(t) - 1) * Excess(p, m) < p.leafCap
    ensures LeavesFit(p, t)
  {
    var h, e := Height(t), Excess(p, m);
    ShareIs(p, e, h - 1);
    forall i | 0 <= i < |t.kids| ensures LeavesFit(p, t.kids[i]) {
      BoundedLeaves(p, t.kids[i], KidSpan(EVERYTHING, t.pivots, i), h - 1, p.Half(), p.fanout, e, 1);
    }
  }

  /** Without range deletions these bounds are in terms of bufferCap alone. */
  lemma NoRangeBounded(p: Params, ops: seq<Op>)
    requires p.Valid() && forall op :: op in ops ==> !op.DoDeleteRange?
    ensures Excess(p, 1) == Reserve(p, 1) == p.bufferCap
    ensures var t := Run(p, ops).0.tree;
      && RootBounded(p, t, 1)
      && ((Height(t) > 0 ==> Power(p.fanout, Height(t) - 1) * p.bufferCap < p.leafCap) ==> LeavesFit(p, t))
  {
    hide Run, LeavesFit, RootBounded;
    NoneRemoved(p, ops);
    RunBounded(p, ops, 1);
    var t := Run(p, ops).0.tree;
    if Height(t) > 0 ==> Power(p.fanout, Height(t) - 1) * p.bufferCap < p.leafCap {
      RunLeavesFit(p, ops, 1);
    }
  }
}
