/** Quantities summed over a whole tree, and how a flush changes them: the keys and optimistic
    adjustments behind the size counter, the pending deletes, and the work still to be done. */
module Ledgers {
  import opened Numbers
  import opened Seqs
  import opened Messages
  import opened Leaves
  import opened Trees
  import opened Flushing

  /** Size: leaf keys, plus buffered counted puts, minus buffered deletes.
      Pending: buffered deletes.
      Work: for every buffered message, the height of the node holding it. */
  datatype Account = Size | Pending | Work

  function Weigh(g: Account, ms: seq<Message>, h: int): int {
    match g
    case Size => Counted(ms) - Deletes(ms)
    case Pending => Deletes(ms)
    case Work => |ms| * h
  }

  ghost function Total(g: Account, t: Tree, h: int): int
    decreases t
  {
    match t
    case Leaf(pg) => if g.Size? then |pg.keys| else 0
    case Node(_, kids, buf, _) => Totals(g, kids, h - 1) + Weigh(g, buf, h)
  }

  ghost function Totals(g: Account, kids: seq<Tree>, h: int): int
    decreases kids
  {
    if kids == [] then 0
    else Totals(g, kids[..|kids| - 1], h) + Total(g, kids[|kids| - 1], h)
  }

  /** What a flush did to an account. */
  function Change(g: Account, f: Flushed): int {
    match g
    case Size => f.size
    case Pending => f.pending
    case Work => 0 - f.moves
  }

  // ---------- Sums ----------

  lemma WeighConcat(g: Account, a: seq<Message>, b: seq<Message>, h: int)
    ensures Weigh(g, a + b, h) == Weigh(g, a, h) + Weigh(g, b, h)
  {
    TallyConcat(a, b);
    assert (|a| + |b|) * h == |a| * h + |b| * h;
  }

  lemma {:induction false} TotalsConcat(g: Account, a: seq<Tree>, b: seq<Tree>, h: int)
    ensures Totals(g, a + b, h) == Totals(g, a, h) + Totals(g, b, h)
  {
    if b == [] {
      assert a + b == a;
    } else {
      assert (a + b)[..|a + b| - 1] == a + b[..|b| - 1];
      TotalsConcat(g, a, b[..|b| - 1], h);
    }
  }

  lemma TotalsOne(g: Account, c: Tree, h: int)
    ensures Totals(g, [c], h) == Total(g, c, h)
  {
    assert [c][..0] == [];
  }

  lemma TotalsAt(g: Account, kids: seq<Tree>, i: nat, h: int)
    requires i < |kids|
    ensures Totals(g, kids, h) == Totals(g, kids[..i], h) + Total(g, kids[i], h) + Totals(g, kids[i + 1..], h)
  {
    assert kids == kids[..i] + ([kids[i]] + kids[i + 1..]);
    TotalsConcat(g, kids[..i], [kids[i]] + kids[i + 1..], h);
    TotalsConcat(g, [kids[i]], kids[i + 1..], h);
    TotalsOne(g, kids[i], h);
  }

  lemma TotalsUpdate(g: Account, kids: seq<Tree>, i: nat, c: Tree, h: int)
    requires i < |kids|
    ensures Totals(g, kids[i := c], h) == Totals(g, kids, h) - Total(g, kids[i], h) + Total(g, c, h)
  {
    TotalsAt(g, kids, i, h);
    TotalsAt(g, kids[i := c], i, h);
    assert kids[i := c][..i] == kids[..i];
    assert kids[i := c][i + 1..] == kids[i + 1..];
  }

  lemma TotalsInsert(g: Account, kids: seq<Tree>, i: nat, c: Tree, h: int)
    requires i <= |kids|
    ensures Totals(g, InsertAt(kids, i, c), h) == Totals(g, kids, h) + Total(g, c, h)
  {
    assert InsertAt(kids, i, c) == kids[..i] + ([c] + kids[i..]);
    assert kids == kids[..i] + kids[i..];
    TotalsConcat(g, kids[..i], [c] + kids[i..], h);
    TotalsConcat(g, [c], kids[i..], h);
    TotalsConcat(g, kids[..i], kids[i..], h);
    TotalsOne(g, c, h);
  }

  /** Messages sorted into two disjoint ranges are all there. */
  lemma {:induction false} WeighParts(g: Account, ms: seq<Message>, r: Range, a: Range, b: Range, h: int)
    requires forall k :: r.Has(k) <==> a.Has(k) || b.Has(k)
    requires forall k :: !(a.Has(k) && b.Has(k))
    ensures Weigh(g, Sel(ms, r), h) == Weigh(g, Sel(ms, a), h) + Weigh(g, Sel(ms, b), h)
  {
    if ms == [] {
    } else {
      var ms', m := ms[..|ms| - 1], ms[|ms| - 1];
      WeighParts(g, ms', r, a, b, h);
      assert ms == ms' + [m];
      FilterSnoc(ms', m, Within(r));
      FilterSnoc(ms', m, Within(a));
      FilterSnoc(ms', m, Within(b));
      WeighConcat(g, Sel(ms', r), [m], h);
      WeighConcat(g, Sel(ms', a), [m], h);
      WeighConcat(g, Sel(ms', b), [m], h);
      assert r.Has(m.key) <==> a.Has(m.key) || b.Has(m.key);
    }
  }

  lemma WeighWhole(g: Account, ms: seq<Message>, h: int)
    ensures Weigh(g, Sel(ms, EVERYTHING), h) == Weigh(g, ms, h)
  {
    FilterAll(ms, Within(EVERYTHING));
  }

  // ---------- Buckets ----------

  /** The keys of the first n children. */
  function Upto(pivots: seq<K>, n: nat): Range
    requires 0 < n <= |pivots| + 1
  {
    Range(None, true, if n == |pivots| + 1 then None else Some(pivots[n - 1]), false)
  }

  /** The keys of the first n children are those of the first n - 1 and of the n-th. */
  lemma UptoParts(g: Account, ms: seq<Message>, pivots: seq<K>, n: nat, h: int)
    requires Increasing(pivots) && 1 < n <= |pivots| + 1
    ensures Weigh(g, Sel(ms, Upto(pivots, n)), h)
      == Weigh(g, Sel(ms, Upto(pivots, n - 1)), h) + Weigh(g, Sel(ms, KidSpan(EVERYTHING, pivots, n - 1)), h)
  {
    assert n <= |pivots| ==> pivots[n - 2] < pivots[n - 1];
    WeighParts(g, ms, Upto(pivots, n), Upto(pivots, n - 1), KidSpan(EVERYTHING, pivots, n - 1), h);
  }

  lemma {:induction false} UnflushedWeigh(g: Account, t: Tree, i: nat, n: nat, h: int)
    requires t.Node? && Increasing(t.pivots) && i <= |t.pivots| && 0 < n <= |t.pivots| + 1
    ensures Weigh(g, Unflushed(t, i, n), h) + (if i < n then Weigh(g, Bucket(t, i), h) else 0)
      == Weigh(g, Sel(t.buf, Upto(t.pivots, n)), h)
  {
    UnflushedNext(t, i, n - 1);
    WeighConcat(g, Unflushed(t, i, n - 1), Bucket(t, n - 1), h);
    if n == 1 {
      WeighNothing(g, h);
      assert Upto(t.pivots, 1) == KidSpan(EVERYTHING, t.pivots, 0);
    } else {
      UnflushedWeigh(g, t, i, n - 1, h);
      UptoParts(g, t.buf, t.pivots, n, h);
    }
  }

  lemma WeighNothing(g: Account, h: int)
    ensures Weigh(g, [], h) == 0
  {}

  lemma BucketsWeigh(g: Account, t: Tree, i: nat, h: int)
    requires t.Node? && Increasing(t.pivots) && i <= |t.pivots|
    ensures Weigh(g, Unflushed(t, i, |t.pivots| + 1), h) + Weigh(g, Bucket(t, i), h) == Weigh(g, t.buf, h)
  {
    UnflushedWeigh(g, t, i, |t.pivots| + 1, h);
    WeighWhole(g, t.buf, h);
  }

  // ---------- Splits ----------

  lemma SplitTotal(g: Account, t: Tree, h: int)
    requires Splittable(t)
    ensures Total(g, Split(t).0, h) + Total(g, Split(t).2, h) == Total(g, t, h)
  {
    if t.Node? {
      var mid := |t.pivots| / 2;
      assert t.kids == t.kids[..mid + 1] + t.kids[mid + 1..];
      TotalsConcat(g, t.kids[..mid + 1], t.kids[mid + 1..], h - 1);
      WeighParts(g, t.buf, EVERYTHING, Below(t.pivots[mid]), From(t.pivots[mid]), h);
      WeighWhole(g, t.buf, h);
    }
  }

  lemma SplitKidTotal(g: Account, t: Tree, i: nat, h: int)
    requires t.Node? && |t.kids| == |t.pivots| + 1 && i < |t.kids| && Splittable(t.kids[i])
    ensures Total(g, SplitKid(t, i), h) == Total(g, t, h)
  {
    var (l, pv, r) := Split(t.kids[i]);
    SplitTotal(g, t.kids[i], h - 1);
    TotalsUpdate(g, t.kids, i, l, h - 1);
    TotalsInsert(g, t.kids[i := l], i + 1, r, h - 1);
  }

  // ---------- Flushes ----------

  /** Every key's messages in a tree, with more on top, are in order. */
  ghost predicate HistOn(c: Tree, b: seq<Message>)
    requires Arity(c)
  {
    forall k :: Hist(Path(c, k) + At(b, k), Base(c, k))
  }

  lemma BucketHist(p: Params, t: Tree, i: nat, r: Range, h: nat, min: nat, max: nat)
    requires Shape(p, t, r, h, min, max) && HalfOpen(r) && t.Node? && i < |t.kids|
    requires Arity(t) && TreeHist(t)
    ensures HistOn(t.kids[i], Bucket(t, i))
  {
    var c := t.kids[i];
    forall k ensures Hist(Path(c, k) + At(Bucket(t, i), k), Base(c, k)) {
      BucketAt(t, i, k);
      if Route(t.pivots, k) == i {
        assert HistAt(t, k);
      } else {
        Elsewhere(p, t, r, h, min, max, i, k);
      }
    }
  }

  lemma {:induction false} DeliverTotal(p: Params, g: Account, c: Tree, b: seq<Message>, r: Range, h: nat, min: nat)
    requires p.Valid() && HalfOpen(r) && Shape(p, c, r, h, min, p.fanout) && Arity(c)
    requires AllWithin(b, r) && Point(b) && HistOn(c, b)
    ensures Total(g, Deliver(p, c, b).tree, h)
      == Total(g, c, h) + Weigh(g, b, h + 1) + Change(g, Deliver(p, c, b))
    decreases c
  {
    assert |b| * (h + 1) == |b| * h + |b|;
    match c
    case Leaf(pg) =>
      forall k ensures Hist(At(b, k), Val(pg, k)) {
        assert Hist(Path(c, k) + At(b, k), Base(c, k));
        assert [] + At(b, k) == At(b, k);
      }
      BatchSizeGap(pg, b);
      NoneMissed(pg, b);
    case Node(pivots, kids, buf, _) =>
      var c' := Node(pivots, kids, buf + b, false);
      WeighConcat(g, buf, b, h);
      if |c'.buf| > p.bufferCap {
        OnTopHist(c, b);
        FlushTotal(p, g, c', r, h, min);
      }
  }

  lemma OnTopPath(c: Tree, b: seq<Message>, k: K)
    requires c.Node? && Arity(c)
    ensures var c' := Node(c.pivots, c.kids, c.buf + b, false);
      Path(c', k) == Path(c, k) + At(b, k) && Base(c', k) == Base(c, k)
  {
    AtConcat(c.buf, b, k);
    var below := Path(c.kids[Route(c.pivots, k)], k);
    assert below + (At(c.buf, k) + At(b, k)) == (below + At(c.buf, k)) + At(b, k);
  }

  lemma OnTopHist(c: Tree, b: seq<Message>)
    requires c.Node? && Arity(c) && HistOn(c, b)
    ensures TreeHist(Node(c.pivots, c.kids, c.buf + b, false))
  {
    forall k ensures HistAt(Node(c.pivots, c.kids, c.buf + b, false), k) {
      OnTopPath(c, b, k);
      assert Hist(Path(c, k) + At(b, k), Base(c, k));
    }
  }

  /** Conservation: a flush changes each account by exactly what it reports. */
  lemma {:induction false} FlushTotal(p: Params, g: Account, t: Tree, r: Range, h: nat, min: nat)
    requires p.Valid() && HalfOpen(r) && Shape(p, t, r, h, min, p.fanout) && Arity(t) && TreeHist(t)
    ensures Total(g, Flush(p, t).tree, h) == Total(g, t, h) + Change(g, Flush(p, t))
    decreases if t.Node? then t.kids else [], 2
  {
    if t.Node? && t.buf != [] {
      LoweredTotal(p, g, t, r, h, min);
      if Overfull(p, Lower(p, t).tree) {
        SplitKidTotal(g, Lowered(p, t), Heaviest(t, |t.kids|), h);
      }
    }
  }

  lemma {:induction false} LoweredTotal(p: Params, g: Account, t: Tree, r: Range, h: nat, min: nat)
    requires p.Valid() && HalfOpen(r) && Shape(p, t, r, h, min, p.fanout) && Arity(t) && TreeHist(t)
    requires t.Node?
    ensures Total(g, Lowered(p, t), h) == Total(g, t, h) + Change(g, Lower(p, t))
    decreases t.kids, 1
  {
    hide Deliver, TreeHist, HistOn, Bucket, Weigh, Totals, Flush, Unflushed, AllWithin, Point;
    var i := Heaviest(t, |t.kids|);
    BucketShape(t, i, r, min, p.fanout);
    BucketHist(p, t, i, r, h, min, p.fanout);
    DeliverTotal(p, g, t.kids[i], Bucket(t, i), KidSpan(r, t.pivots, i), h - 1, p.Half());
    BucketsWeigh(g, t, i, h);
    TotalsUpdate(g, t.kids, i, Lower(p, t).tree, h - 1);
  }

  // ---------- The work of a flush ----------

  /** The fewest messages one flush moves: the buffer over the fanout, rounded up. */
  function Quota(p: Params): nat
    requires p.Valid()
  {
    (p.bufferCap + p.fanout) / p.fanout
  }

  /** If no bucket holds more than top messages, the first n hold at most n * top. */
  lemma {:induction false} Pigeonhole(t: Tree, n: nat, top: nat)
    requires t.Node? && Increasing(t.pivots) && 0 < n <= |t.pivots| + 1
    requires forall i :: 0 <= i < n ==> |Bucket(t, i)| <= top
    ensures |Sel(t.buf, Upto(t.pivots, n))| <= n * top
  {
    assert |Bucket(t, n - 1)| <= top;
    if n == 1 {
      assert Upto(t.pivots, 1) == KidSpan(EVERYTHING, t.pivots, 0);
    } else {
      Pigeonhole(t, n - 1, top);
      UptoParts(Work, t.buf, t.pivots, n, 1);
      MulNext(n, top);
    }
  }

  lemma QuotaBound(p: Params, n: nat, top: nat)
    requires p.Valid() && 0 < n <= p.fanout && p.bufferCap < n * top
    ensures Quota(p) <= top
  {
    MulMono(n, p.fanout, top);
    DivTimes(p.bufferCap + p.fanout, p.fanout);
    MulFlip(p.fanout, top + 1);
    MulNext(top + 1, p.fanout);
    MulFlip(p.fanout, top);
    MulLess(p.fanout, Quota(p), top + 1);
  }

  lemma {:induction false} DeliverWork(p: Params, c: Tree, b: seq<Message>, r: Range, h: nat, min: nat)
    requires p.Valid() && HalfOpen(r) && Shape(p, c, r, h, min, p.fanout) && Arity(c)
    requires AllWithin(b, r) && Point(b)
    ensures var f := Deliver(p, c, b); f.moves >= |b| + f.calls * Quota(p)
    decreases c
  {
    if c.Node? && |c.buf + b| > p.bufferCap {
      FlushWork(p, Node(c.pivots, c.kids, c.buf + b, false), r, h, min);
    }
  }

  /** Every call of flushNode moves at least Quota messages, and so do all calls that a flush
      makes together. A call is made only on a buffer over capacity. */
  lemma {:induction false} FlushWork(p: Params, t: Tree, r: Range, h: nat, min: nat)
    requires p.Valid() && HalfOpen(r) && Shape(p, t, r, h, min, p.fanout) && Arity(t)
    requires t.Node? && |t.buf| > p.bufferCap
    ensures |Bucket(t, Heaviest(t, |t.kids|))| >= Quota(p) == (p.bufferCap + p.fanout) / p.fanout
    ensures var f := Flush(p, t); f.moves >= f.calls * Quota(p) && f.calls > 0
    decreases if t.Node? then t.kids else [], 2
  {
    QuotaIs(p);
    hide Flush, Lower, Shape, Arity, Quota;
    LowerWork(p, t, r, h, min);
    FlushParts(p, t);
    MulNext(Lower(p, t).calls + 1, Quota(p));
  }

  lemma QuotaIs(p: Params)
    requires p.Valid()
    ensures Quota(p) == (p.bufferCap + p.fanout) / p.fanout
  {}

  /** What a delivery counts: the messages it moves, and the work of the one flush it may cause. */
  lemma DeliverParts(p: Params, c: Tree, b: seq<Message>)
    requires p.Valid() && Arity(c)
    ensures var f := Deliver(p, c, b);
      if c.Node? && |c.buf + b| > p.bufferCap then
        var g := Flush(p, Node(c.pivots, c.kids, c.buf + b, false));
        f.moves == |b| + g.moves && f.calls == g.calls
      else
        f.moves == |b| && f.calls == 0
  {}

  lemma FlushParts(p: Params, t: Tree)
    requires p.Valid() && Arity(t) && t.Node? && t.buf != []
    ensures Flush(p, t).moves == Lower(p, t).moves && Flush(p, t).calls == Lower(p, t).calls + 1
  {}

  lemma {:induction false} LowerWork(p: Params, t: Tree, r: Range, h: nat, min: nat)
    requires p.Valid() && HalfOpen(r) && Shape(p, t, r, h, min, p.fanout) && Arity(t)
    requires t.Node? && |t.buf| > p.bufferCap
    ensures |Bucket(t, Heaviest(t, |t.kids|))| >= Quota(p)
    ensures var f := Lower(p, t); f.moves >= Quota(p) + f.calls * Quota(p)
    decreases t.kids, 1
  {
    hide Quota, Bucket, Deliver;
    var i := Heaviest(t, |t.kids|);
    BucketShape(t, i, r, min, p.fanout);
    DeliverWork(p, t.kids[i], Bucket(t, i), KidSpan(r, t.pivots, i), h - 1, p.Half());
    Pigeonhole(t, |t.kids|, |Bucket(t, i)|);
    FilterAll(t.buf, Within(EVERYTHING));
    QuotaBound(p, |t.kids|, |Bucket(t, i)|);
  }
}
