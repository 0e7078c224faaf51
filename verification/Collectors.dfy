/** Collecting the entries of a range from node objects (iterator.go:123-192). */
module Collectors {
  import opened Seqs
  import opened Messages
  import opened Leaves
  import opened Trees
  import opened Iteration
  import opened Nodes

  method CollectBufferEntries(msgs: seq<Message>, depth: nat, soFar: seq<Entry>) returns (out: seq<Entry>)
    requires Point(msgs)
    ensures out == soFar + Entries(msgs, depth)
  {
    out := soFar;
    var i := 0;
    while i < |msgs|
      invariant i <= |msgs| && out == soFar + Entries(msgs, depth)[..i]
    {
      assert msgs[i] in msgs;
      assert Entries(msgs, depth)[..i + 1] == Entries(msgs, depth)[..i] + [Entry(depth, msgs[i])];
      match msgs[i] {
        case Put(_, _, _) => out := out + [Entry(depth, msgs[i])];
        case Delete(_) => out := out + [Entry(depth, msgs[i])];
        case DeleteRange(_, _) => assert false;
        case Upsert(_, _) => out := out + [Entry(depth, msgs[i])];
      }
      i := i + 1;
    }
    TakeAll(Entries(msgs, depth));
  }

  /** The entries start..end of a leaf. */
  method CollectLeafEntries(n: Node, start: nat, end: nat, depth: nat, soFar: seq<Entry>) returns (out: seq<Entry>)
    requires n.Valid() && n.leaf && |n.keys| == |n.values| && start <= end <= |n.keys|
    ensures out == soFar + Entries(PageMessages(n.view.page)[start..end], depth)
  {
    ghost var ms := PageMessages(n.view.page)[start..end];
    out := soFar;
    var i := start;
    while i < end
      invariant start <= i <= end && out == soFar + Entries(ms, depth)[..i - start]
    {
      assert Entries(ms, depth)[..i - start + 1] == Entries(ms, depth)[..i - start] + [Entry(depth, ms[i - start])];
      out := out + [Entry(depth, Put(n.keys[i], n.values[i], false))];
      i := i + 1;
    }
    TakeAll(Entries(ms, depth));
  }

  /** Where a range begins and ends in a leaf. */
  method LeafBounds(n: Node, lo: K, hi: K, loInc: bool, hiInc: bool) returns (start: nat, end: nat)
    requires Increasing(n.keys)
    ensures start <= |n.keys| && end <= |n.keys|
    ensures forall i :: 0 <= i < |n.keys| ==>
      (start <= i < end <==>
        && (if loInc then lo <= n.keys[i] else lo < n.keys[i])
        && (if hiInc then n.keys[i] <= hi else n.keys[i] < hi))
  {
    var loFound, hiFound;
    start, loFound := n.LeafSearch(lo);
    if !loInc && loFound {
      start := start + 1;
    }
    end, hiFound := n.LeafSearch(hi);
    if hiInc && hiFound {
      end := end + 1;
    }
  }

  /** A subtree whose interval misses the range has nothing to collect. */
  lemma {:induction false} NothingThere(
      p: Params, t: Tree, r: Range, span: Range, h: nat, min: nat, max: nat, depth: nat)
    requires Shape(p, t, span, h, min, max) && HalfOpen(span) && Arity(t)
    requires forall k :: !(r.Has(k) && span.Has(k))
    ensures Collect(t, r, depth) == []
    decreases t
  {
    match t
    case Leaf(pg) =>
      forall m | m in PageMessages(pg) ensures !r.Has(m.key) {
        assert m.key in pg.keys;
      }
      FilterNone(PageMessages(pg), Within(r));
    case Node(pivots, kids, buf, _) =>
      FilterNone(buf, Within(r));
      forall i, k | 0 <= i < |kids| && KidSpan(span, pivots, i).Has(k) ensures span.Has(k) {
        KidSpanHas(span, pivots, i, k);
      }
      SkipKids(p, t, r, span, h, min, max, depth + 1, 0, |kids|);
      TakeAll(kids);
  }

  /** Children whose intervals miss the range may be passed over. */
  lemma {:induction false} SkipKids(
      p: Params, t: Tree, r: Range, span: Range, h: nat, min: nat, max: nat, depth: nat, a: nat, b: nat)
    requires Shape(p, t, span, h, min, max) && HalfOpen(span) && Arity(t) && t.Node? && a <= b <= |t.kids|
    requires forall i, k :: a <= i < b ==> !(KidSpan(span, t.pivots, i).Has(k) && r.Has(k))
    ensures CollectKids(t.kids[..b], r, depth) == CollectKids(t.kids[..a], r, depth)
    decreases t, b
  {
    hide CollectKids, Collect, Shape;
    if a < b {
      SkipKids(p, t, r, span, h, min, max, depth, a, b - 1);
      CollectKidsSnoc(t.kids, b, r, depth);
      SkipKid(p, t, r, span, h, min, max, depth, b - 1);
      PlusNil(CollectKids(t.kids[..b - 1], r, depth));
    }
  }

  lemma {:induction false} SkipKid(
      p: Params, t: Tree, r: Range, span: Range, h: nat, min: nat, max: nat, depth: nat, i: nat)
    requires Shape(p, t, span, h, min, max) && HalfOpen(span) && Arity(t) && t.Node? && i < |t.kids|
    requires forall k :: !(KidSpan(span, t.pivots, i).Has(k) && r.Has(k))
    ensures Collect(t.kids[i], r, depth) == []
    decreases t, 0
  {
    hide Collect;
    NothingThere(p, t.kids[i], r, KidSpan(span, t.pivots, i), h - 1, p.Half(), p.fanout, depth);
  }

  lemma BelowRange(pivots: seq<K>, span: Range, i: nat, lo: K, r: Range, k: K)
    requires i < Route(pivots, lo) && r.lo == Some(lo)
    ensures !(KidSpan(span, pivots, i).Has(k) && r.Has(k))
  {}

  lemma AboveRange(pivots: seq<K>, span: Range, i: nat, hi: K, r: Range, k: K)
    requires Increasing(pivots) && Route(pivots, hi) < i <= |pivots| && r.hi == Some(hi)
    ensures !(KidSpan(span, pivots, i).Has(k) && r.Has(k))
  {
    assert pivots[Route(pivots, hi)] <= pivots[i - 1];
  }

  lemma RouteMonotone(pivots: seq<K>, lo: K, hi: K)
    requires lo < hi
    ensures Route(pivots, lo) <= Route(pivots, hi)
  {}

  /** What the first i children contribute. */
  ghost function Upto(t: Tree, i: nat, r: Range, depth: nat): seq<Entry>
    requires t.Node? && Arity(t) && i <= |t.kids|
  {
    CollectKids(t.kids[..i], r, depth)
  }

  lemma UptoNext(t: Tree, i: nat, r: Range, depth: nat, soFar: seq<Entry>)
    requires t.Node? && Arity(t) && i < |t.kids|
    ensures soFar + Upto(t, i + 1, r, depth) == (soFar + Upto(t, i, r, depth)) + Collect(t.kids[i], r, depth)
  {
    CollectKidsSnoc(t.kids, i + 1, r, depth);
    Assoc(soFar, Upto(t, i, r, depth), Collect(t.kids[i], r, depth));
  }

  lemma UptoNone(t: Tree, r: Range, depth: nat)
    requires t.Node? && Arity(t)
    ensures CollectKids(t.kids[..0], r, depth) == []
  {}

  lemma UptoAll(t: Tree, r: Range, depth: nat)
    requires t.Node? && Arity(t)
    ensures Upto(t, |t.kids|, r, depth) == CollectKids(t.kids, r, depth)
  {
    TakeAll(t.kids);
  }

  /** The children before lo's and after hi's may be passed over. */
  lemma Pruned(p: Params, t: Tree, r: Range, span: Range, h: nat, min: nat, max: nat, depth: nat,
               lo: K, hi: K, soFar: seq<Entry>)
    requires Shape(p, t, span, h, min, max) && HalfOpen(span) && Arity(t) && t.Node?
    requires r.lo == Some(lo) && r.hi == Some(hi)
    ensures soFar + Upto(t, Route(t.pivots, lo), r, depth) == soFar
    ensures Upto(t, Route(t.pivots, hi) + 1, r, depth) == CollectKids(t.kids, r, depth)
  {
    hide Collect, CollectKids, Route;
    UptoNone(t, r, depth);
    var a, b := Route(t.pivots, lo), Route(t.pivots, hi) + 1;
    forall i, k | 0 <= i < a ensures !(KidSpan(span, t.pivots, i).Has(k) && r.Has(k)) {
      BelowRange(t.pivots, span, i, lo, r, k);
    }
    forall i, k | b <= i < |t.kids| ensures !(KidSpan(span, t.pivots, i).Has(k) && r.Has(k)) {
      AboveRange(t.pivots, span, i, hi, r, k);
    }
    SkipKids(p, t, r, span, h, min, max, depth, 0, a);
    SkipKids(p, t, r, span, h, min, max, depth, b, |t.kids|);
    TakeAll(t.kids);
    PlusNil(soFar);
  }

  method CollectLeafRange(n: Node, lo: K, hi: K, loInc: bool, hiInc: bool, depth: nat, soFar: seq<Entry>)
    returns (out: seq<Entry>)
    requires n.Valid() && n.leaf && Sound(n.view.page)
    ensures out == soFar + Collect(n.view, Range(Some(lo), loInc, Some(hi), hiInc), depth)
  {
    var start, end := LeafBounds(n, lo, hi, loInc, hiInc);
    SortedSlice(PageMessages(n.view.page), Range(Some(lo), loInc, Some(hi), hiInc), start, end);
    out := soFar;
    if start <= end {
      out := CollectLeafEntries(n, start, end, depth, soFar);
    }
  }

  /** Everything under n with a key between lo and hi: visiting only the children from lo's to
      hi's misses nothing (iterator.go:140-157). */
  method CollectRange(n: Node, lo: K, hi: K, loInc: bool, hiInc: bool, depth: nat, soFar: seq<Entry>,
                      ghost p: Params, ghost span: Range, ghost h: nat, ghost min: nat, ghost max: nat)
    returns (out: seq<Entry>)
    requires n.Valid() && Arity(n.view) && Shape(p, n.view, span, h, min, max) && HalfOpen(span) && lo < hi
    ensures out == soFar + Collect(n.view, Range(Some(lo), loInc, Some(hi), hiInc), depth)
    decreases h, 2
  {
    if n.leaf {
      out := CollectLeafRange(n, lo, hi, loInc, hiInc, depth, soFar);
      return;
    }
    var msgs := n.BufferSlice(lo, hi, loInc, hiInc);
    FilterMembers(n.buffer, Within(Range(Some(lo), loInc, Some(hi), hiInc)));
    out := CollectBufferEntries(msgs, depth, soFar);
    out := CollectChildren(n, lo, hi, loInc, hiInc, depth + 1, out, p, span, h, min, max);
    Assoc(soFar, Entries(msgs, depth), CollectKids(n.view.kids, Range(Some(lo), loInc, Some(hi), hiInc), depth + 1));
  }

  /** The loop over the children from lo's to hi's. */
  method CollectChildren(n: Node, lo: K, hi: K, loInc: bool, hiInc: bool, depth: nat, soFar: seq<Entry>,
                         ghost p: Params, ghost span: Range, ghost h: nat, ghost min: nat, ghost max: nat)
    returns (out: seq<Entry>)
    requires n.Valid() && Arity(n.view) && Shape(p, n.view, span, h, min, max) && HalfOpen(span) && lo < hi
    requires !n.leaf
    ensures out == soFar + CollectKids(n.view.kids, Range(Some(lo), loInc, Some(hi), hiInc), depth)
    decreases h, 1
  {
    hide CollectKids, Collect, Upto, Route;
    ghost var r, t := Range(Some(lo), loInc, Some(hi), hiInc), n.view;
    var startChild := n.FindChildIndex(lo);
    var endChild := n.FindChildIndex(hi);
    RouteMonotone(n.pivots, lo, hi);
    Pruned(p, t, r, span, h, min, max, depth, lo, hi, soFar);
    out := soFar;
    var i := startChild;
    assert |n.children| == |t.kids| == |t.pivots| + 1 && endChild <= |t.pivots|;
    while i <= endChild && i < |n.children|
      invariant n.Valid() && n.view == t && startChild <= i <= endChild + 1 <= |t.kids|
      invariant out == soFar + Upto(t, i, r, depth)
    {
      UptoNext(t, i, r, depth, soFar);
      out := CollectChild(n, i, lo, hi, loInc, hiInc, depth, out, p, span, h, min, max);
      i := i + 1;
    }
  }

  method CollectChild(n: Node, i: nat, lo: K, hi: K, loInc: bool, hiInc: bool, depth: nat, soFar: seq<Entry>,
                      ghost p: Params, ghost span: Range, ghost h: nat, ghost min: nat, ghost max: nat)
    returns (out: seq<Entry>)
    requires n.Valid() && Arity(n.view) && Shape(p, n.view, span, h, min, max) && HalfOpen(span) && lo < hi
    requires !n.leaf && i < |n.view.kids|
    ensures out == soFar + Collect(n.view.kids[i], Range(Some(lo), loInc, Some(hi), hiInc), depth)
    decreases h, 0
  {
    out := CollectRange(n.children[i], lo, hi, loInc, hiInc, depth, soFar,
                        p, KidSpan(span, n.view.pivots, i), h - 1, p.Half(), p.fanout);
  }

  /** Everything under n (iterator.go:124-135). */
  method CollectAll(n: Node, depth: nat, soFar: seq<Entry>,
                    ghost p: Params, ghost span: Range, ghost h: nat, ghost min: nat, ghost max: nat)
    returns (out: seq<Entry>)
    requires n.Valid() && Arity(n.view) && Shape(p, n.view, span, h, min, max)
    ensures out == soFar + Collect(n.view, EVERYTHING, depth)
    decreases h, 2
  {
    ghost var t := n.view;
    if n.leaf {
      FilterAll(PageMessages(t.page), Within(EVERYTHING));
      SliceWhole(PageMessages(t.page));
      out := CollectLeafEntries(n, 0, |n.keys|, depth, soFar);
      return;
    }
    FilterAll(t.buf, Within(EVERYTHING));
    ghost var top := soFar + Entries(n.buffer, depth);
    out := CollectBufferEntries(n.buffer, depth, soFar);
    out := CollectAllChildren(n, depth + 1, out, p, span, h, min, max);
    Assoc(soFar, Entries(n.buffer, depth), CollectKids(t.kids, EVERYTHING, depth + 1));
  }

  method CollectAllChildren(n: Node, depth: nat, soFar: seq<Entry>,
                            ghost p: Params, ghost span: Range, ghost h: nat, ghost min: nat, ghost max: nat)
    returns (out: seq<Entry>)
    requires n.Valid() && Arity(n.view) && Shape(p, n.view, span, h, min, max) && !n.leaf
    ensures out == soFar + CollectKids(n.view.kids, EVERYTHING, depth)
    decreases h, 1
  {
    ghost var t := n.view;
    UptoAll(t, EVERYTHING, depth);
    PlusNil(soFar);
    assert Upto(t, 0, EVERYTHING, depth) == [];
    out := soFar;
    var i := 0;
    hide Upto, CollectKids, Collect;
    while i < |n.children|
      invariant n.Valid() && n.view == t && i <= |n.children| == |t.kids|
      invariant out == soFar + Upto(t, i, EVERYTHING, depth)
    {
      UptoNext(t, i, EVERYTHING, depth, soFar);
      out := CollectAll(n.children[i], depth, out, p, KidSpan(span, t.pivots, i), h - 1, p.Half(), p.fanout);
      i := i + 1;
    }
  }

  lemma SliceWhole<T>(s: seq<T>)
    ensures s[0..|s|] == s
  {}
}
