/** The tree as a value: what a node and everything below it hold at one moment, what the
    tree says about a key, and the shape every tree keeps. */
module Trees {
  import opened Seqs
  import opened Messages
  import opened Leaves

  /** The parameters derived from the options (options.go:63-88), of which only these
      bounds matter. */
  datatype Params = Params(fanout: nat, bufferCap: nat, leafCap: nat) {
    predicate Valid() { fanout >= 2 && bufferCap >= 1 && leafCap >= 2 }

    /** The fewest children a split leaves on either side. */
    function Half(): (h: nat)
      ensures fanout <= 2 * h <= fanout + 1
    {
      (fanout + 1) / 2
    }
  }

  datatype Tree =
    | Leaf(page: Page)
    | Node(pivots: seq<K>, kids: seq<Tree>, buf: seq<Message>, sorted: bool)

  /** Parallel slices have matching lengths, everywhere in the tree. */
  ghost predicate Arity(t: Tree) {
    match t
    case Leaf(pg) => |pg.keys| == |pg.vals|
    case Node(pivots, kids, _, _) =>
      |kids| == |pivots| + 1 && forall i :: 0 <= i < |kids| ==> Arity(kids[i])
  }

  /** Index of the child a key belongs to: the number of pivots up to the first larger one. */
  function Route(pivots: seq<K>, k: K): (i: nat)
    ensures i <= |pivots|
    ensures forall j :: 0 <= j < i ==> pivots[j] <= k
    ensures i < |pivots| ==> k < pivots[i]
  {
    if pivots == [] || k < pivots[0] then 0 else 1 + Route(pivots[1..], k)
  }

  // ---------- What the tree says about a key ----------

  /** Every buffered message for k on the way from the root to the leaf, in the order they
      were sent: deepest buffer first, oldest first in each. */
  ghost function Path(t: Tree, k: K): seq<Message>
    requires Arity(t)
  {
    match t
    case Leaf(_) => []
    case Node(pivots, kids, buf, _) => Path(kids[Route(pivots, k)], k) + At(buf, k)
  }

  /** What the leaf k belongs to holds for k. */
  ghost function Base(t: Tree, k: K): Option<V>
    requires Arity(t)
  {
    match t
    case Leaf(pg) => Val(pg, k)
    case Node(pivots, kids, _, _) => Base(kids[Route(pivots, k)], k)
  }

  /** The logical map at k. */
  ghost function Lookup(t: Tree, k: K): Option<V>
    requires Arity(t)
  {
    Fold(Path(t, k), Base(t, k))
  }

  /** The message history of k: every message that needs a live key finds one. */
  ghost predicate HistAt(t: Tree, k: K)
    requires Arity(t)
  {
    Hist(Path(t, k), Base(t, k))
  }

  ghost predicate TreeHist(t: Tree)
    requires Arity(t)
  {
    forall k :: HistAt(t, k)
  }

  lemma LookupNode(t: Tree, k: K)
    requires Arity(t) && t.Node?
    ensures Lookup(t, k) == Fold(At(t.buf, k), Lookup(t.kids[Route(t.pivots, k)], k))
  {
    var c := t.kids[Route(t.pivots, k)];
    FoldConcat(Path(c, k), At(t.buf, k), Base(c, k));
  }

  // ---------- Shape ----------

  ghost predicate Inside(r: Range, k: K) {
    (r.lo.Some? ==> r.lo.value < k) && (r.hi.Some? ==> k < r.hi.value)
  }

  /** The keys of r that route to child i. */
  function KidSpan(r: Range, pivots: seq<K>, i: nat): Range
    requires i <= |pivots|
  {
    Range(if i == 0 then r.lo else Some(pivots[i - 1]), true,
          if i == |pivots| then r.hi else Some(pivots[i]), false)
  }

  ghost predicate HalfOpen(r: Range) { r.loInc && !r.hiInc }

  ghost predicate KeySorted(ms: seq<Message>) {
    forall i, j :: 0 <= i < j < |ms| ==> ms[i].key <= ms[j].key
  }

  /** What one internal node itself keeps, apart from its children. */
  ghost predicate NodeShape(t: Tree, r: Range, min: nat, max: nat)
    requires t.Node?
  {
    && |t.kids| == |t.pivots| + 1
    && min <= |t.kids| <= max
    && Increasing(t.pivots)
    && (forall i :: 0 <= i < |t.pivots| ==> Inside(r, t.pivots[i]))
    && AllWithin(t.buf, r)
    && Point(t.buf)
    && (t.sorted ==> KeySorted(t.buf))
  }

  /** A tree of height h holding keys of r: all leaves equally deep, keys and pivots strictly
      increasing, keys and messages inside their node's interval, and between min and max
      children at the top, Half to fanout everywhere below. */
  ghost predicate Shape(p: Params, t: Tree, r: Range, h: nat, min: nat, max: nat)
    decreases t
  {
    match t
    case Leaf(pg) => h == 0 && Sound(pg) && forall k :: k in pg.keys ==> r.Has(k)
    case Node(pivots, kids, _, _) =>
      && h > 0
      && NodeShape(t, r, min, max)
      && forall i :: 0 <= i < |kids| ==> Shape(p, kids[i], KidSpan(r, pivots, i), h - 1, p.Half(), p.fanout)
  }

  lemma {:induction false} ShapeArity(p: Params, t: Tree, r: Range, h: nat, min: nat, max: nat)
    requires Shape(p, t, r, h, min, max)
    ensures Arity(t)
    decreases t
  {
    if t.Node? {
      forall i | 0 <= i < |t.kids| ensures Arity(t.kids[i]) {
        ShapeArity(p, t.kids[i], KidSpan(r, t.pivots, i), h - 1, p.Half(), p.fanout);
      }
    }
  }

  lemma ShapeArms(p: Params, t: Tree, r: Range, h: nat, min: nat, max: nat)
    requires Shape(p, t, r, h, min, max)
    ensures t.Node? ==> min <= |t.kids| <= max
  {}

  lemma ShapeLoosen(p: Params, t: Tree, r: Range, h: nat, min: nat, max: nat, min': nat, max': nat)
    requires Shape(p, t, r, h, min, max)
    requires t.Node? ==> min' <= |t.kids| <= max'
    ensures Shape(p, t, r, h, min', max')
  {}

  /** In an increasing list of pivots only one child takes a given key. */
  lemma RouteUnique(pivots: seq<K>, k: K, i: nat)
    requires Increasing(pivots) && i <= |pivots|
    requires i > 0 ==> pivots[i - 1] <= k
    requires i < |pivots| ==> k < pivots[i]
    ensures Route(pivots, k) == i
  {
    assert forall j :: 0 <= j < i ==> pivots[j] <= k;
    assert forall j :: i <= j < |pivots| ==> k < pivots[j];
  }

  lemma KidSpanHas(r: Range, pivots: seq<K>, i: nat, k: K)
    requires HalfOpen(r) && Increasing(pivots) && i <= |pivots|
    requires forall j :: 0 <= j < |pivots| ==> Inside(r, pivots[j])
    ensures KidSpan(r, pivots, i).Has(k) <==> r.Has(k) && Route(pivots, k) == i
  {
    if KidSpan(r, pivots, i).Has(k) {
      RouteUnique(pivots, k, i);
    }
  }

  /** Nothing is stored outside a tree's interval. */
  lemma {:induction false} OutsideEmpty(p: Params, t: Tree, r: Range, h: nat, min: nat, max: nat, k: K)
    requires Shape(p, t, r, h, min, max) && HalfOpen(r) && !r.Has(k)
    ensures Arity(t) && Path(t, k) == [] && Base(t, k) == None
    decreases t
  {
    ShapeArity(p, t, r, h, min, max);
    match t
    case Leaf(pg) => PresentIn(pg.keys, k);
    case Node(pivots, kids, buf, _) =>
      var i := Route(pivots, k);
      KidSpanHas(r, pivots, i, k);
      OutsideEmpty(p, kids[i], KidSpan(r, pivots, i), h - 1, p.Half(), p.fanout, k);
      AtOutside(buf, r, k);
  }

  /** A child has nothing under keys that belong to another. */
  lemma Elsewhere(p: Params, t: Tree, r: Range, h: nat, min: nat, max: nat, i: nat, k: K)
    requires Shape(p, t, r, h, min, max) && HalfOpen(r) && t.Node? && Arity(t)
    requires i < |t.kids| && Route(t.pivots, k) != i
    ensures Path(t.kids[i], k) == [] && Base(t.kids[i], k) == None && Lookup(t.kids[i], k) == None
  {
    KidSpanHas(r, t.pivots, i, k);
    OutsideEmpty(p, t.kids[i], KidSpan(r, t.pivots, i), h - 1, p.Half(), p.fanout, k);
  }

  // ---------- Settling ----------

  /** How a flush may change what is recorded for a key: the oldest messages, and only they,
      have been worked into the leaf's value. */
  ghost predicate Settles(ms: seq<Message>, o: Option<V>, ms': seq<Message>, o': Option<V>) {
    && |ms'| <= |ms|
    && ms' == ms[|ms| - |ms'|..]
    && o' == Fold(ms[..|ms| - |ms'|], o)
  }

  ghost predicate SettlesAt(t: Tree, t': Tree, k: K)
    requires Arity(t) && Arity(t')
  {
    Settles(Path(t, k), Base(t, k), Path(t', k), Base(t', k))
  }

  lemma SettlesNothing(ms: seq<Message>, o: Option<V>)
    ensures Settles(ms, o, ms, o)
  {
    assert ms[..0] == [];
  }

  /** Settling changes neither what the key stands for nor that its history is in order. */
  lemma SettlesKeeps(ms: seq<Message>, o: Option<V>, ms': seq<Message>, o': Option<V>)
    requires Settles(ms, o, ms', o')
    ensures Fold(ms', o') == Fold(ms, o)
    ensures Hist(ms, o) ==> Hist(ms', o')
  {
    var a := ms[..|ms| - |ms'|];
    assert ms == a + ms';
    FoldConcat(a, ms', o);
    HistConcat(a, ms', o);
  }
}
