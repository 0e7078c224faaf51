/** Flushing and splitting on tree values (flush.go:8-64, flush.go:357-442), and what they
    keep: every key's meaning and message order, and the shape of the tree. */
module Flushing {
  import opened Seqs
  import opened Messages
  import opened Leaves
  import opened Trees

  // ---------- Splitting ----------

  predicate Overfull(p: Params, t: Tree) {
    match t
    case Leaf(pg) => |pg.keys| > p.leafCap
    case Node(_, kids, _, _) => |kids| > p.fanout
  }

  ghost predicate Splittable(t: Tree) {
    match t
    case Leaf(pg) => |pg.keys| == |pg.vals| && |pg.keys| >= 2
    case Node(pivots, kids, _, _) => |kids| == |pivots| + 1 && |pivots| >= 1
  }

  /** The two halves of a node and the key between them. */
  ghost function Split(t: Tree): (Tree, K, Tree)
    requires Splittable(t)
  {
    match t
    case Leaf(pg) =>
      var mid := |pg.keys| / 2;
      (Leaf(Cut(pg, 0, mid)), pg.keys[mid], Leaf(Cut(pg, mid, |pg.keys|)))
    case Node(pivots, kids, buf, sorted) =>
      var mid := |pivots| / 2;
      (Node(pivots[..mid], kids[..mid + 1], Sel(buf, Below(pivots[mid])), sorted),
       pivots[mid],
       Node(pivots[mid + 1..], kids[mid + 1..], Sel(buf, From(pivots[mid])), sorted))
  }

  /** Child i replaced by its two halves. */
  ghost function SplitKid(t: Tree, i: nat): Tree
    requires t.Node? && |t.kids| == |t.pivots| + 1 && i < |t.kids| && Splittable(t.kids[i])
  {
    var (l, pv, r) := Split(t.kids[i]);
    Node(InsertAt(t.pivots, i, pv), InsertAt(t.kids[i := l], i + 1, r), t.buf, t.sorted)
  }

  /** The old root under a new one, split (flush.go:431-442). */
  ghost function SplitRoot(t: Tree): Tree
    requires Splittable(t)
  {
    SplitKid(Node([], [t], [], false), 0)
  }

  lemma SplitArity(t: Tree)
    requires Arity(t) && Splittable(t)
    ensures Arity(Split(t).0) && Arity(Split(t).2)
  {}

  lemma SplitKidArity(t: Tree, i: nat)
    requires t.Node? && |t.kids| == |t.pivots| + 1 && i < |t.kids|
    requires forall j :: 0 <= j < |t.kids| ==> Arity(t.kids[j])
    requires Splittable(t.kids[i])
    ensures Arity(SplitKid(t, i))
  {
    SplitArity(t.kids[i]);
  }

  // ---------- Flushing ----------

  ghost function Bucket(t: Tree, i: nat): seq<Message>
    requires t.Node? && i <= |t.pivots|
  {
    Sel(t.buf, KidSpan(EVERYTHING, t.pivots, i))
  }

  /** The first of the children 0..n with the most messages. */
  ghost function Heaviest(t: Tree, n: nat): (h: nat)
    requires t.Node? && 0 < n <= |t.pivots| + 1
    ensures h < n
    ensures forall i :: 0 <= i < n ==> |Bucket(t, i)| <= |Bucket(t, h)|
    ensures forall i :: 0 <= i < h ==> |Bucket(t, i)| < |Bucket(t, h)|
  {
    if n == 1 then 0
    else
      var h := Heaviest(t, n - 1);
      if |Bucket(t, n - 1)| > |Bucket(t, h)| then n - 1 else h
  }

  /** The buckets of children 0..n other than h, one after the other. */
  ghost function Unflushed(t: Tree, h: nat, n: nat): seq<Message>
    requires t.Node? && n <= |t.pivots| + 1
  {
    if n == 0 then []
    else Unflushed(t, h, n - 1) + if n - 1 == h then [] else Bucket(t, n - 1)
  }

  lemma UnflushedNone(t: Tree, h: nat)
    requires t.Node?
    ensures Unflushed(t, h, 0) == []
  {}

  lemma UnflushedNext(t: Tree, h: nat, n: nat)
    requires t.Node? && n <= |t.pivots|
    ensures Unflushed(t, h, n + 1) == if n == h then Unflushed(t, h, n) else Unflushed(t, h, n) + Bucket(t, n)
  {
    PlusNil(Unflushed(t, h, n));
  }

  /** A tree after a flush, with what the flush added to the tree's counters and the work it
      did: messages moved down one level, and calls of flushNode. */
  datatype Flushed = Flushed(tree: Tree, size: int, pending: int, moves: nat, calls: nat)

  ghost function Deliver(p: Params, c: Tree, b: seq<Message>): (f: Flushed)
    requires p.Valid() && Arity(c)
    ensures Arity(f.tree) && f.tree.Node? == c.Node?
    decreases c
  {
    match c
    case Leaf(pg) => Flushed(Leaf(PageRun(pg, b)), SizeRun(pg, b), 0 - Deletes(b), |b|, 0)
    case Node(pivots, kids, buf, _) =>
      var c' := Node(pivots, kids, buf + b, false);
      if |c'.buf| > p.bufferCap then
        var f := Flush(p, c');
        f.(moves := |b| + f.moves)
      else
        Flushed(c', 0, 0, |b|, 0)
  }

  /** The child that gets the messages, after it got them. */
  ghost function Lower(p: Params, t: Tree): (f: Flushed)
    requires p.Valid() && Arity(t) && t.Node?
    ensures Arity(f.tree)
    decreases t.kids, 0
  {
    var h := Heaviest(t, |t.kids|);
    Deliver(p, t.kids[h], Bucket(t, h))
  }

  /** The node after the heaviest bucket has left it, before any split. */
  ghost function Lowered(p: Params, t: Tree): (t': Tree)
    requires p.Valid() && Arity(t) && t.Node?
    ensures Arity(t') && t'.Node?
    decreases t.kids, 1
  {
    var h := Heaviest(t, |t.kids|);
    Node(t.pivots, t.kids[h := Lower(p, t).tree], Unflushed(t, h, |t.kids|), false)
  }

  ghost function Flush(p: Params, t: Tree): (f: Flushed)
    requires p.Valid() && Arity(t)
    ensures Arity(f.tree) && f.tree.Node? == t.Node?
    decreases if t.Node? then t.kids else [], 2
  {
    if t.Leaf? || t.buf == [] then Flushed(t, 0, 0, 0, 0)
    else
      var h, f, t' := Heaviest(t, |t.kids|), Lower(p, t), Lowered(p, t);
      if Overfull(p, f.tree) then
        SplitKidArity(t', h);
        Flushed(SplitKid(t', h), f.size, f.pending, f.moves, f.calls + 1)
      else
        Flushed(t', f.size, f.pending, f.moves, f.calls + 1)
  }

  // ---------- Splitting keeps every path ----------

  /** A node's own keys or pivots increase. */
  ghost predicate Ordered(t: Tree) {
    match t
    case Leaf(pg) => Sound(pg)
    case Node(pivots, _, _, _) => Increasing(pivots)
  }

  /** Either half records for its keys what the whole did. */
  lemma SplitPath(t: Tree, k: K)
    requires Arity(t) && Ordered(t) && Splittable(t)
    ensures var (left, pv, right) := Split(t);
      var half := if k < pv then left else right;
      Arity(half) && Path(half, k) == Path(t, k) && Base(half, k) == Base(t, k)
  {
    hide Route, Val, At, Sel;
    SplitArity(t);
    if t.Leaf? {
      SplitPage(t.page, k);
    } else {
      SplitRoute(t.pivots, k);
      AtSel(t.buf, Below(Split(t).1), k);
      AtSel(t.buf, From(Split(t).1), k);
    }
  }

  lemma SplitPage(pg: Page, k: K)
    requires Sound(pg) && |pg.keys| >= 2
    ensures var mid := |pg.keys| / 2;
      Val(pg, k) == Val(if k < pg.keys[mid] then Cut(pg, 0, mid) else Cut(pg, mid, |pg.keys|), k)
  {
    var mid := |pg.keys| / 2;
    var a, b := Cut(pg, 0, mid), Cut(pg, mid, |pg.keys|);
    assert pg == Join(a, b);
    ValJoin(a, b, k);
    PresentIn(a.keys, k);
    PresentIn(b.keys, k);
  }

  lemma SplitRoute(pivots: seq<K>, k: K)
    requires Increasing(pivots) && |pivots| >= 1
    ensures var mid, i := |pivots| / 2, Route(pivots, k);
      if k < pivots[mid] then i <= mid && Route(pivots[..mid], k) == i
      else i > mid && Route(pivots[mid + 1..], k) == i - mid - 1
  {
    var mid, i := |pivots| / 2, Route(pivots, k);
    if k < pivots[mid] {
      assert i <= mid;
      RouteUnique(pivots[..mid], k, i);
    } else {
      assert i > mid;
      RouteUnique(pivots[mid + 1..], k, i - mid - 1);
    }
  }

  lemma SplitShape(p: Params, t: Tree, r: Range, h: nat, min: nat)
    requires p.Valid() && Overfull(p, t) && HalfOpen(r)
    requires Shape(p, t, r, h, min, p.fanout + 1)
    ensures Splittable(t)
    ensures var (left, pv, right) := Split(t);
      && Inside(r, pv)
      && Shape(p, left, Range(r.lo, true, Some(pv), false), h, p.Half(), p.fanout)
      && Shape(p, right, Range(Some(pv), true, r.hi, false), h, p.Half(), p.fanout)
  {
    match t
    case Leaf(pg) =>
      SplitLeafShape(pg, r);
    case Node(pivots, kids, buf, sorted) =>
      SplitNodeShape(p, t, r, h, min);
  }

  lemma SplitLeafShape(pg: Page, r: Range)
    requires Sound(pg) && |pg.keys| >= 2 && forall k :: k in pg.keys ==> r.Has(k)
    requires HalfOpen(r)
    ensures var mid := |pg.keys| / 2;
      && Inside(r, pg.keys[mid])
      && (forall k :: k in pg.keys[..mid] ==> Range(r.lo, true, Some(pg.keys[mid]), false).Has(k))
      && (forall k :: k in pg.keys[mid..] ==> Range(Some(pg.keys[mid]), true, r.hi, false).Has(k))
  {
    var mid := |pg.keys| / 2;
    assert pg.keys[0] < pg.keys[mid];
    assert r.Has(pg.keys[0]) && r.Has(pg.keys[mid]);
    forall i | 0 <= i < |pg.keys| ensures r.Has(pg.keys[i]) {
      assert pg.keys[i] in pg.keys;
    }
  }

  lemma SplitNodeShape(p: Params, t: Tree, r: Range, h: nat, min: nat)
    requires p.Valid() && t.Node? && |t.kids| == p.fanout + 1 && HalfOpen(r)
    requires Shape(p, t, r, h, min, p.fanout + 1)
    ensures var (left, pv, right) := Split(t);
      && Inside(r, pv)
      && Shape(p, left, Range(r.lo, true, Some(pv), false), h, p.Half(), p.fanout)
      && Shape(p, right, Range(Some(pv), true, r.hi, false), h, p.Half(), p.fanout)
  {
    LowerHalf(p, t, r, h, min);
    UpperHalf(p, t, r, h, min);
  }

  lemma LowerHalf(p: Params, t: Tree, r: Range, h: nat, min: nat)
    requires p.Valid() && t.Node? && |t.kids| == p.fanout + 1 && HalfOpen(r)
    requires Shape(p, t, r, h, min, p.fanout + 1)
    ensures var (left, pv, right) := Split(t);
      Inside(r, pv) && Shape(p, left, Range(r.lo, true, Some(pv), false), h, p.Half(), p.fanout)
  {
    hide Sel;
    var (left, pv, right) := Split(t);
    var rl := Range(r.lo, true, Some(pv), false);
    SelShape(t.buf, Below(pv), t.sorted);
    assert NodeShape(left, rl, p.Half(), p.fanout);
    forall i | 0 <= i < |left.kids|
      ensures Shape(p, left.kids[i], KidSpan(rl, left.pivots, i), h - 1, p.Half(), p.fanout)
    {
      assert left.kids[i] == t.kids[i];
      assert KidSpan(rl, left.pivots, i) == KidSpan(r, t.pivots, i);
    }
  }

  lemma UpperHalf(p: Params, t: Tree, r: Range, h: nat, min: nat)
    requires p.Valid() && t.Node? && |t.kids| == p.fanout + 1 && HalfOpen(r)
    requires Shape(p, t, r, h, min, p.fanout + 1)
    ensures var (left, pv, right) := Split(t);
      Shape(p, right, Range(Some(pv), true, r.hi, false), h, p.Half(), p.fanout)
  {
    hide Sel;
    var (left, pv, right) := Split(t);
    var mid := |t.pivots| / 2;
    var rr := Range(Some(pv), true, r.hi, false);
    SelShape(t.buf, From(pv), t.sorted);
    assert NodeShape(right, rr, p.Half(), p.fanout);
    forall i | 0 <= i < |right.kids|
      ensures Shape(p, right.kids[i], KidSpan(rr, right.pivots, i), h - 1, p.Half(), p.fanout)
    {
      assert right.kids[i] == t.kids[mid + 1 + i];
      assert KidSpan(rr, right.pivots, i) == KidSpan(r, t.pivots, mid + 1 + i);
    }
  }

  /** A selection of a sorted buffer is sorted (flush.go:418-423). */
  lemma {:induction false} SelSorted(ms: seq<Message>, r: Range)
    requires KeySorted(ms)
    ensures KeySorted(Sel(ms, r))
  {
    if ms != [] {
      SelSorted(ms[..|ms| - 1], r);
      FilterMembers(ms[..|ms| - 1], Within(r));
      var rest := Sel(ms[..|ms| - 1], r);
      forall i | 0 <= i < |rest| ensures rest[i].key <= ms[|ms| - 1].key {
        assert rest[i] in ms[..|ms| - 1];
      }
    }
  }

  lemma SelShape(ms: seq<Message>, r: Range, sorted: bool)
    requires sorted ==> KeySorted(ms)
    ensures sorted ==> KeySorted(Sel(ms, r))
    ensures AllWithin(Sel(ms, r), r)
    ensures forall m :: m in Sel(ms, r) ==> m in ms
  {
    FilterMembers(ms, Within(r));
    if sorted {
      SelSorted(ms, r);
    }
  }

  lemma InsertIncreasing(pivots: seq<K>, i: nat, pv: K)
    requires Increasing(pivots) && i <= |pivots|
    requires i > 0 ==> pivots[i - 1] < pv
    requires i < |pivots| ==> pv < pivots[i]
    ensures Increasing(InsertAt(pivots, i, pv))
  {
    assert forall x :: 0 <= x < i ==> pivots[x] < pv;
    assert forall x :: i <= x < |pivots| ==> pv < pivots[x];
  }

  lemma RouteInsert(pivots: seq<K>, i: nat, pv: K, k: K)
    requires Increasing(pivots) && i <= |pivots|
    requires i > 0 ==> pivots[i - 1] < pv
    requires i < |pivots| ==> pv < pivots[i]
    ensures Route(InsertAt(pivots, i, pv), k) ==
      var j := Route(pivots, k);
      if j < i || (j == i && k < pv) then j else j + 1
  {
    hide Route;
    InsertIncreasing(pivots, i, pv);
    var q, j := InsertAt(pivots, i, pv), Route(pivots, k);
    assert forall x :: 0 <= x < i ==> q[x] == pivots[x];
    assert forall x :: i < x < |q| ==> q[x] == pivots[x - 1];
    if j < i || (j == i && k < pv) {
      RouteUnique(q, k, j);
    } else {
      RouteUnique(q, k, j + 1);
    }
  }

  /** Splitting a child changes what no key's path holds. */
  lemma SplitKidPath(t: Tree, i: nat, k: K)
    requires t.Node? && Arity(t) && Ordered(t) && i < |t.kids|
    requires Splittable(t.kids[i]) && Ordered(t.kids[i])
    requires Inside(KidSpan(EVERYTHING, t.pivots, i), Split(t.kids[i]).1)
    ensures Arity(SplitKid(t, i))
    ensures Path(SplitKid(t, i), k) == Path(t, k) && Base(SplitKid(t, i), k) == Base(t, k)
  {
    SplitKidArity(t, i);
    SplitKidRoute(t, i, k);
    hide Split, SplitKid, Arity, Route;
    var c := t.kids[Route(t.pivots, k)];
    var c' := SplitKid(t, i).kids[Route(SplitKid(t, i).pivots, k)];
    assert Path(c', k) == Path(c, k) && Base(c', k) == Base(c, k) by {
      if Route(t.pivots, k) == i {
        SplitPath(t.kids[i], k);
      }
    }
  }

  /** The child a key routes to after a split: the same one, or the half on its side. */
  lemma SplitKidRoute(t: Tree, i: nat, k: K)
    requires t.Node? && |t.kids| == |t.pivots| + 1 && Increasing(t.pivots) && i < |t.kids|
    requires Splittable(t.kids[i])
    requires Inside(KidSpan(EVERYTHING, t.pivots, i), Split(t.kids[i]).1)
    ensures var s, (left, pv, right) := SplitKid(t, i), Split(t.kids[i]);
      && s.buf == t.buf && |s.kids| == |s.pivots| + 1
      && s.kids[Route(s.pivots, k)]
         == if Route(t.pivots, k) != i then t.kids[Route(t.pivots, k)] else if k < pv then left else right
  {
    hide Split, Route;
    RouteInsert(t.pivots, i, Split(t.kids[i]).1, k);
  }

  /** A node all of whose children are in shape, except that child i may have one too many. */
  ghost predicate KidsShape(p: Params, t: Tree, r: Range, h: nat, i: nat)
    requires t.Node? && |t.kids| == |t.pivots| + 1 && h > 0
  {
    forall j :: 0 <= j < |t.kids| ==>
      Shape(p, t.kids[j], KidSpan(r, t.pivots, j), h - 1, p.Half(), if j == i then p.fanout + 1 else p.fanout)
  }

  lemma SplitKidNode(t: Tree, i: nat, r: Range, min: nat, max: nat)
    requires t.Node? && NodeShape(t, r, min, max)
    requires i < |t.kids| && Splittable(t.kids[i])
    requires Inside(KidSpan(r, t.pivots, i), Split(t.kids[i]).1)
    ensures NodeShape(SplitKid(t, i), r, min, max + 1)
  {
    var pv := Split(t.kids[i]).1;
    var q := InsertAt(t.pivots, i, pv);
    InsertIncreasing(t.pivots, i, pv);
    assert i > 0 ==> Inside(r, t.pivots[i - 1]);
    assert i < |t.pivots| ==> Inside(r, t.pivots[i]);
    assert Inside(r, pv);
    forall j | 0 <= j < |q| ensures Inside(r, q[j]) {
      assert j < i ==> q[j] == t.pivots[j];
      assert j > i ==> q[j] == t.pivots[j - 1];
    }
    var s := SplitKid(t, i);
    assert s.pivots == q && s.buf == t.buf && s.sorted == t.sorted;
  }

  lemma SplitKidSpan(r: Range, pivots: seq<K>, i: nat, pv: K, j: nat)
    requires i <= |pivots| && j <= |pivots| + 1
    ensures KidSpan(r, InsertAt(pivots, i, pv), j) ==
      if j < i then KidSpan(r, pivots, j)
      else if j == i then Range(KidSpan(r, pivots, i).lo, true, Some(pv), false)
      else if j == i + 1 then Range(Some(pv), true, KidSpan(r, pivots, i).hi, false)
      else KidSpan(r, pivots, j - 1)
  {}

  lemma SplitKidShape(p: Params, t: Tree, i: nat, r: Range, h: nat, min: nat, max: nat)
    requires p.Valid() && t.Node? && NodeShape(t, r, min, max) && HalfOpen(r) && h > 0
    requires i < |t.kids| && KidsShape(p, t, r, h, i) && Overfull(p, t.kids[i])
    ensures Splittable(t.kids[i])
    ensures Inside(KidSpan(r, t.pivots, i), Split(t.kids[i]).1)
    ensures Shape(p, SplitKid(t, i), r, h, min, max + 1)
  {
    SplitShape(p, t.kids[i], KidSpan(r, t.pivots, i), h - 1, p.Half());
    SplitKidNode(t, i, r, min, max);
    var s := SplitKid(t, i);
    forall j | 0 <= j < |s.kids|
      ensures Shape(p, s.kids[j], KidSpan(r, s.pivots, j), h - 1, p.Half(), p.fanout)
    {
      hide Shape, Split;
      SplitKidAt(t, i, j);
      SplitKidSpan(r, t.pivots, i, Split(t.kids[i]).1, j);
    }
  }

  lemma SplitKidAt(t: Tree, i: nat, j: nat)
    requires t.Node? && |t.kids| == |t.pivots| + 1 && i < |t.kids| && Splittable(t.kids[i]) && j <= |t.kids|
    ensures var s, (left, pv, right) := SplitKid(t, i), Split(t.kids[i]);
      && s.pivots == InsertAt(t.pivots, i, pv) && |s.kids| == |t.kids| + 1
      && s.kids[j] == if j < i then t.kids[j] else if j == i then left else if j == i + 1 then right else t.kids[j - 1]
  {
    hide Split;
  }

  // ---------- Buckets ----------

  lemma BucketAt(t: Tree, i: nat, k: K)
    requires t.Node? && Increasing(t.pivots) && i <= |t.pivots|
    ensures At(Bucket(t, i), k) == if Route(t.pivots, k) == i then At(t.buf, k) else []
  {
    AtSel(t.buf, KidSpan(EVERYTHING, t.pivots, i), k);
    KidSpanHas(EVERYTHING, t.pivots, i, k);
  }

  lemma BucketShape(t: Tree, i: nat, r: Range, min: nat, max: nat)
    requires t.Node? && NodeShape(t, r, min, max) && HalfOpen(r) && i <= |t.pivots|
    ensures AllWithin(Bucket(t, i), KidSpan(r, t.pivots, i)) && Point(Bucket(t, i))
  {
    var b := Bucket(t, i);
    FilterMembers(t.buf, Within(KidSpan(EVERYTHING, t.pivots, i)));
    forall m | m in b ensures KidSpan(r, t.pivots, i).Has(m.key) {
      KidSpanHas(EVERYTHING, t.pivots, i, m.key);
      KidSpanHas(r, t.pivots, i, m.key);
    }
  }

  /** What stays behind in the buffer keeps, for each key of another child, all its messages
      in order; of the flushed child's keys it keeps none. */
  lemma {:induction false} UnflushedAt(t: Tree, h: nat, n: nat, k: K)
    requires t.Node? && Increasing(t.pivots) && n <= |t.pivots| + 1
    ensures At(Unflushed(t, h, n), k) ==
      if Route(t.pivots, k) < n && Route(t.pivots, k) != h then At(t.buf, k) else []
  {
    hide At, Unflushed, Route;
    UnflushedNone(t, h);
    AtNone(k);
    if n > 0 {
      UnflushedAt(t, h, n - 1, k);
      UnflushedLast(t, h, n - 1, k);
    }
  }

  lemma UnflushedLast(t: Tree, h: nat, n: nat, k: K)
    requires t.Node? && Increasing(t.pivots) && n <= |t.pivots|
    ensures At(Unflushed(t, h, n + 1), k)
      == At(Unflushed(t, h, n), k) + if n != h && Route(t.pivots, k) == n then At(t.buf, k) else []
  {
    hide At, Unflushed, Route;
    UnflushedNext(t, h, n);
    AtConcat(Unflushed(t, h, n), Bucket(t, n), k);
    BucketAt(t, n, k);
  }

  lemma {:induction false} UnflushedMembers(t: Tree, h: nat, n: nat)
    requires t.Node? && n <= |t.pivots| + 1
    ensures forall m :: m in Unflushed(t, h, n) ==> m in t.buf
  {
    if n > 0 {
      UnflushedMembers(t, h, n - 1);
      FilterMembers(t.buf, Within(KidSpan(EVERYTHING, t.pivots, n - 1)));
    }
  }

  // ---------- A flush keeps the shape ----------

  lemma {:induction false} DeliverShape(p: Params, c: Tree, b: seq<Message>, r: Range, h: nat, min: nat)
    requires p.Valid() && HalfOpen(r) && Shape(p, c, r, h, min, p.fanout) && Arity(c)
    requires AllWithin(b, r) && Point(b)
    ensures Shape(p, Deliver(p, c, b).tree, r, h, min, p.fanout + 1)
    decreases c
  {
    match c
    case Leaf(pg) =>
      RunSound(pg, b);
      RunKeys(pg, b, r);
    case Node(pivots, kids, buf, _) =>
      var c' := Node(pivots, kids, buf + b, false);
      assert Shape(p, c', r, h, min, p.fanout);
      if |c'.buf| > p.bufferCap {
        FlushShape(p, c', r, h, min);
      } else {
        ShapeLoosen(p, c', r, h, min, p.fanout, min, p.fanout + 1);
      }
  }

  /** The shape after a flush, which adds at most one child to the node. */
  lemma {:induction false} FlushShape(p: Params, t: Tree, r: Range, h: nat, min: nat)
    requires p.Valid() && HalfOpen(r) && Shape(p, t, r, h, min, p.fanout) && Arity(t)
    ensures Shape(p, Flush(p, t).tree, r, h, min, p.fanout + 1)
    ensures t.Node? ==> |t.kids| <= |Flush(p, t).tree.kids| <= |t.kids| + 1
    decreases if t.Node? then t.kids else [], 2
  {
    if t.Node? && t.buf != [] {
      var i, f, t' := Heaviest(t, |t.kids|), Lower(p, t), Lowered(p, t);
      LowerShape(p, t, r, h, min);
      UnflushedMembers(t, i, |t.kids|);
      assert NodeShape(t', r, min, p.fanout);
      FlushedKids(p, t, f.tree, i, r, h, min);
      if Overfull(p, f.tree) {
        SplitKidShape(p, t', i, r, h, min, p.fanout);
      } else {
        KidNotFull(p, t', i, r, h);
      }
    }
  }

  lemma {:induction false} LowerShape(p: Params, t: Tree, r: Range, h: nat, min: nat)
    requires p.Valid() && HalfOpen(r) && Shape(p, t, r, h, min, p.fanout) && Arity(t) && t.Node?
    ensures var i := Heaviest(t, |t.kids|);
      Shape(p, Lower(p, t).tree, KidSpan(r, t.pivots, i), h - 1, p.Half(), p.fanout + 1)
    decreases t.kids, 1
  {
    var i := Heaviest(t, |t.kids|);
    BucketShape(t, i, r, min, p.fanout);
    DeliverShape(p, t.kids[i], Bucket(t, i), KidSpan(r, t.pivots, i), h - 1, p.Half());
  }

  lemma FlushedKids(p: Params, t: Tree, c: Tree, i: nat, r: Range, h: nat, min: nat)
    requires t.Node? && h > 0 && Shape(p, t, r, h, min, p.fanout) && i < |t.kids|
    requires Shape(p, c, KidSpan(r, t.pivots, i), h - 1, p.Half(), p.fanout + 1)
    ensures KidsShape(p, Node(t.pivots, t.kids[i := c], Unflushed(t, i, |t.kids|), false), r, h, i)
  {}

  lemma KidNotFull(p: Params, t: Tree, i: nat, r: Range, h: nat)
    requires t.Node? && |t.kids| == |t.pivots| + 1 && h > 0 && i < |t.kids|
    requires KidsShape(p, t, r, h, i) && !Overfull(p, t.kids[i])
    ensures forall j :: 0 <= j < |t.kids| ==>
      Shape(p, t.kids[j], KidSpan(r, t.pivots, j), h - 1, p.Half(), p.fanout)
  {
    forall j | 0 <= j < |t.kids|
      ensures Shape(p, t.kids[j], KidSpan(r, t.pivots, j), h - 1, p.Half(), p.fanout)
    {
      if j == i {
        ShapeLoosen(p, t.kids[i], KidSpan(r, t.pivots, i), h - 1, p.Half(), p.fanout + 1, p.Half(), p.fanout);
      }
    }
  }

  // ---------- A flush keeps every key's meaning ----------

  lemma {:induction false} DeliverSettles(p: Params, c: Tree, b: seq<Message>, r: Range, h: nat, min: nat, k: K)
    requires p.Valid() && HalfOpen(r) && Shape(p, c, r, h, min, p.fanout) && Arity(c)
    requires AllWithin(b, r) && Point(b)
    ensures var c' := Deliver(p, c, b).tree;
      Settles(Path(c, k) + At(b, k), Base(c, k), Path(c', k), Base(c', k))
    decreases c
  {
    match c
    case Leaf(pg) =>
      ValRun(pg, b, k);
      assert [] + At(b, k) == At(b, k) == At(b, k)[..|At(b, k)|];
    case Node(pivots, kids, buf, _) =>
      var c' := Node(pivots, kids, buf + b, false);
      assert Shape(p, c', r, h, min, p.fanout);
      var below := Path(kids[Route(pivots, k)], k);
      AtConcat(buf, b, k);
      assert below + (At(buf, k) + At(b, k)) == (below + At(buf, k)) + At(b, k);
      if |c'.buf| > p.bufferCap {
        FlushSettles(p, c', r, h, min, k);
      } else {
        SettlesNothing(Path(c', k), Base(c', k));
      }
  }

  /** A flush works some of a key's oldest messages into its leaf and leaves the others, in
      their order, on the path. */
  lemma {:induction false} FlushSettles(p: Params, t: Tree, r: Range, h: nat, min: nat, k: K)
    requires p.Valid() && HalfOpen(r) && Shape(p, t, r, h, min, p.fanout) && Arity(t)
    ensures SettlesAt(t, Flush(p, t).tree, k)
    decreases if t.Node? then t.kids else [], 2
  {
    if t.Leaf? || t.buf == [] {
      SettlesNothing(Path(t, k), Base(t, k));
    } else {
      LoweredSettles(p, t, r, h, min, k);
      if Overfull(p, Lower(p, t).tree) {
        LowerShape(p, t, r, h, min);
        LoweredSplit(p, t, r, h, k);
      }
    }
  }

  lemma LoweredSplit(p: Params, t: Tree, r: Range, h: nat, k: K)
    requires p.Valid() && HalfOpen(r) && Arity(t) && t.Node? && Increasing(t.pivots) && h > 0
    requires var i := Heaviest(t, |t.kids|);
      Shape(p, Lower(p, t).tree, KidSpan(r, t.pivots, i), h - 1, p.Half(), p.fanout + 1)
    requires Overfull(p, Lower(p, t).tree)
    ensures var i, t' := Heaviest(t, |t.kids|), Lowered(p, t);
      && Splittable(t'.kids[i])
      && Arity(SplitKid(t', i))
      && Path(SplitKid(t', i), k) == Path(t', k) && Base(SplitKid(t', i), k) == Base(t', k)
  {
    SplitStep(p, Lowered(p, t), Heaviest(t, |t.kids|), r, h - 1, k);
  }

  lemma {:induction false} LoweredSettles(p: Params, t: Tree, r: Range, h: nat, min: nat, k: K)
    requires p.Valid() && HalfOpen(r) && Shape(p, t, r, h, min, p.fanout) && Arity(t) && t.Node?
    ensures SettlesAt(t, Lowered(p, t), k)
    decreases t.kids, 1
  {
    var i := Heaviest(t, |t.kids|);
    var b := Bucket(t, i);
    BucketShape(t, i, r, min, p.fanout);
    BucketAt(t, i, k);
    UnflushedAt(t, i, |t.kids|, k);
    DeliverSettles(p, t.kids[i], b, KidSpan(r, t.pivots, i), h - 1, p.Half(), k);
    DeliverStep(t, Lowered(p, t), i, Lower(p, t).tree, b, k);
  }

  lemma SplitStep(p: Params, t: Tree, i: nat, r: Range, h: nat, k: K)
    requires p.Valid() && t.Node? && Arity(t) && Increasing(t.pivots) && HalfOpen(r) && i < |t.kids|
    requires Shape(p, t.kids[i], KidSpan(r, t.pivots, i), h, p.Half(), p.fanout + 1)
    requires Overfull(p, t.kids[i])
    ensures Arity(SplitKid(t, i))
    ensures Path(SplitKid(t, i), k) == Path(t, k) && Base(SplitKid(t, i), k) == Base(t, k)
  {
    SplitShape(p, t.kids[i], KidSpan(r, t.pivots, i), h, p.Half());
    SplitKidPath(t, i, k);
  }

  /** The step of a flush before any split, at one key. */
  lemma DeliverStep(t: Tree, t': Tree, i: nat, c': Tree, b: seq<Message>, k: K)
    requires t.Node? && Arity(t) && i < |t.kids| && Arity(c')
    requires t'.Node? && Arity(t') && t'.pivots == t.pivots && t'.kids == t.kids[i := c']
    requires At(b, k) == if Route(t.pivots, k) == i then At(t.buf, k) else []
    requires At(t'.buf, k) == if Route(t.pivots, k) == i then [] else At(t.buf, k)
    requires Settles(Path(t.kids[i], k) + At(b, k), Base(t.kids[i], k), Path(c', k), Base(c', k))
    ensures SettlesAt(t, t', k)
  {
    if Route(t.pivots, k) == i {
      assert Path(t', k) == Path(c', k) + [] == Path(c', k);
    } else {
      SettlesNothing(Path(t, k), Base(t, k));
    }
  }

  /** A flush changes no key's value and no key's history from good to bad. */
  lemma FlushKeeps(p: Params, t: Tree, r: Range, h: nat, min: nat)
    requires p.Valid() && HalfOpen(r) && Shape(p, t, r, h, min, p.fanout) && Arity(t)
    ensures forall k :: Lookup(Flush(p, t).tree, k) == Lookup(t, k)
    ensures TreeHist(t) ==> TreeHist(Flush(p, t).tree)
  {
    var t' := Flush(p, t).tree;
    forall k
      ensures Lookup(t', k) == Lookup(t, k) && (HistAt(t, k) ==> HistAt(t', k))
    {
      FlushSettles(p, t, r, h, min, k);
      SettlesKeeps(Path(t, k), Base(t, k), Path(t', k), Base(t', k));
    }
  }
}
