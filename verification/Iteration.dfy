/** Range queries (iterator.go:94-257): entries collected from every buffer and leaf of a
    range, sorted, and folded key by key. */
module Iteration {
  import opened Seqs
  import opened Messages
  import opened Leaves
  import opened Trees
  import opened Contents
  import Batches

  datatype Pair = Pair(key: K, value: V)

  /** What was collected for a key at one level, depth 0 being the root: a leaf entry is a put
      of its value. */
  datatype Entry = Entry(depth: nat, msg: Message)

  predicate EntryLe(a: Entry, b: Entry) {
    a.msg.key < b.msg.key || (a.msg.key == b.msg.key && a.depth <= b.depth)
  }

  function AtKey(k: K): Entry -> bool { (e: Entry) => e.msg.key == k }

  /** The entries for one key, in the order they were collected. */
  function EntriesAt(es: seq<Entry>, k: K): seq<Entry> { Filter(es, AtKey(k)) }

  function Entries(ms: seq<Message>, depth: nat): (es: seq<Entry>)
    ensures |es| == |ms| && forall i :: 0 <= i < |ms| ==> es[i] == Entry(depth, ms[i])
  {
    if ms == [] then [] else Entries(ms[..|ms| - 1], depth) + [Entry(depth, ms[|ms| - 1])]
  }

  function Unwrap(es: seq<Entry>): (ms: seq<Message>)
    ensures |es| == |ms| && forall i :: 0 <= i < |ms| ==> ms[i] == es[i].msg
  {
    if es == [] then [] else Unwrap(es[..|es| - 1]) + [es[|es| - 1].msg]
  }

  function PageMessages(pg: Page): (ms: seq<Message>)
    requires |pg.keys| == |pg.vals|
    ensures |ms| == |pg.keys| && forall i :: 0 <= i < |ms| ==> ms[i] == Put(pg.keys[i], pg.vals[i], false)
  {
    seq(|pg.keys|, i requires 0 <= i < |pg.keys| => Put(pg.keys[i], pg.vals[i], false))
  }

  // ---------- What is collected ----------

  /** Everything under t with a key in r, in preorder: the buffer, then each child. */
  ghost function Collect(t: Tree, r: Range, depth: nat): seq<Entry>
    requires Arity(t)
    decreases t
  {
    match t
    case Leaf(pg) => Entries(Sel(PageMessages(pg), r), depth)
    case Node(_, kids, buf, _) => Entries(Sel(buf, r), depth) + CollectKids(kids, r, depth + 1)
  }

  ghost function CollectKids(kids: seq<Tree>, r: Range, depth: nat): seq<Entry>
    requires forall i :: 0 <= i < |kids| ==> Arity(kids[i])
    decreases kids
  {
    if kids == [] then []
    else CollectKids(kids[..|kids| - 1], r, depth) + Collect(kids[|kids| - 1], r, depth)
  }

  /** The entries for k on its path, root first. */
  ghost function PathEntries(t: Tree, k: K, depth: nat): seq<Entry>
    requires Arity(t)
    decreases t
  {
    match t
    case Leaf(pg) => Entries(At(PageMessages(pg), k), depth)
    case Node(pivots, kids, buf, _) =>
      Entries(At(buf, k), depth) + PathEntries(kids[Route(pivots, k)], k, depth + 1)
  }

  lemma {:induction false} EntriesOfAt(ms: seq<Message>, depth: nat, k: K)
    ensures EntriesAt(Entries(ms, depth), k) == Entries(At(ms, k), depth)
  {
    if ms != [] {
      var ms', m := ms[..|ms| - 1], ms[|ms| - 1];
      EntriesOfAt(ms', depth, k);
      FilterSnoc(Entries(ms', depth), Entry(depth, m), AtKey(k));
      assert ms == ms' + [m];
      AtSnoc(ms', m, k);
      EntriesSnoc(At(ms', k), m, depth);
    }
  }

  lemma EntriesAtConcat(a: seq<Entry>, b: seq<Entry>, k: K)
    ensures EntriesAt(a + b, k) == EntriesAt(a, k) + EntriesAt(b, k)
  {
    FilterConcat(a, b, AtKey(k));
  }

  lemma EntriesSnoc(ms: seq<Message>, m: Message, depth: nat)
    ensures Entries(ms + [m], depth) == Entries(ms, depth) + [Entry(depth, m)]
  {
    assert (ms + [m])[..|ms|] == ms;
  }

  /** A range query meets exactly the entries of each of its keys, path by path, and nothing
      else. */
  lemma {:induction false} CollectAt(
      p: Params, t: Tree, r: Range, span: Range, h: nat, min: nat, max: nat, depth: nat, k: K)
    requires Shape(p, t, span, h, min, max) && HalfOpen(span) && Arity(t)
    ensures EntriesAt(Collect(t, r, depth), k) == if r.Has(k) then PathEntries(t, k, depth) else []
    decreases t
  {
    match t
    case Leaf(pg) =>
      EntriesOfAt(Sel(PageMessages(pg), r), depth, k);
      AtSel(PageMessages(pg), r, k);
    case Node(pivots, kids, buf, _) =>
      EntriesOfAt(Sel(buf, r), depth, k);
      AtSel(buf, r, k);
      FilterConcat(Entries(Sel(buf, r), depth), CollectKids(kids, r, depth + 1), AtKey(k));
      KidsAt(p, t, r, span, h, min, max, depth + 1, |kids|, k);
      assert kids[..|kids|] == kids;
  }

  lemma {:induction false} KidsAt(
      p: Params, t: Tree, r: Range, span: Range, h: nat, min: nat, max: nat, depth: nat, n: nat, k: K)
    requires Shape(p, t, span, h, min, max) && HalfOpen(span) && Arity(t) && t.Node? && n <= |t.kids|
    ensures EntriesAt(CollectKids(t.kids[..n], r, depth), k) ==
      if r.Has(k) && Route(t.pivots, k) < n then PathEntries(t.kids[Route(t.pivots, k)], k, depth) else []
    decreases t, n
  {
    if n > 0 {
      CollectKidsSnoc(t.kids, n, r, depth);
      KidsAt(p, t, r, span, h, min, max, depth, n - 1, k);
      KidAt(p, t, r, span, h, min, max, depth, n - 1, k);
      EntriesAtConcat(CollectKids(t.kids[..n - 1], r, depth), Collect(t.kids[n - 1], r, depth), k);
    }
  }

  lemma {:induction false} KidAt(
      p: Params, t: Tree, r: Range, span: Range, h: nat, min: nat, max: nat, depth: nat, i: nat, k: K)
    requires Shape(p, t, span, h, min, max) && HalfOpen(span) && Arity(t) && t.Node? && i < |t.kids|
    ensures EntriesAt(Collect(t.kids[i], r, depth), k) ==
      if r.Has(k) && Route(t.pivots, k) == i then PathEntries(t.kids[i], k, depth) else []
    decreases t, 0
  {
    CollectAt(p, t.kids[i], r, KidSpan(span, t.pivots, i), h - 1, p.Half(), p.fanout, depth, k);
    if Route(t.pivots, k) != i {
      ElsewhereEntries(p, t, span, h, min, max, depth, i, k);
    }
  }

  lemma CollectKidsSnoc(kids: seq<Tree>, n: nat, r: Range, depth: nat)
    requires 0 < n <= |kids| && forall i :: 0 <= i < |kids| ==> Arity(kids[i])
    ensures CollectKids(kids[..n], r, depth) == CollectKids(kids[..n - 1], r, depth) + Collect(kids[n - 1], r, depth)
  {
    assert kids[..n][..n - 1] == kids[..n - 1];
  }

  lemma ElsewhereEntries(
      p: Params, t: Tree, span: Range, h: nat, min: nat, max: nat, depth: nat, i: nat, k: K)
    requires Shape(p, t, span, h, min, max) && HalfOpen(span) && Arity(t) && t.Node?
    requires i < |t.kids| && Route(t.pivots, k) != i
    ensures PathEntries(t.kids[i], k, depth) == []
  {
    KidSpanHas(span, t.pivots, i, k);
    OutsideEntries(p, t.kids[i], KidSpan(span, t.pivots, i), h - 1, p.Half(), p.fanout, depth, k);
  }

  lemma {:induction false} OutsideEntries(
      p: Params, t: Tree, span: Range, h: nat, min: nat, max: nat, depth: nat, k: K)
    requires Shape(p, t, span, h, min, max) && HalfOpen(span) && Arity(t) && !span.Has(k)
    ensures PathEntries(t, k, depth) == []
    decreases t
  {
    match t
    case Leaf(pg) =>
      forall m | m in PageMessages(pg) ensures m.key != k {
        assert m.key in pg.keys;
      }
      FilterNone(PageMessages(pg), Within(Only(k)));
    case Node(pivots, kids, buf, _) =>
      AtOutside(buf, span, k);
      var i := Route(pivots, k);
      KidSpanHas(span, pivots, i, k);
      OutsideEntries(p, kids[i], KidSpan(span, pivots, i), h - 1, p.Half(), p.fanout, depth + 1, k);
  }

  // ---------- Folding one key's entries ----------

  /** Where the last run of entries of equal depth begins. */
  function LastRun(es: seq<Entry>): (s: nat)
    requires es != []
    ensures s < |es|
    ensures forall i :: s <= i < |es| ==> es[i].depth == es[|es| - 1].depth
    ensures s > 0 ==> es[s - 1].depth != es[|es| - 1].depth
  {
    if |es| == 1 || es[|es| - 2].depth != es[|es| - 1].depth then |es| - 1
    else LastRun(es[..|es| - 1])
  }

  /** Runs of equal depth from the deepest, each oldest to newest (iterator.go:225-257). */
  function ResolveRuns(es: seq<Entry>, o: Option<V>): Option<V> {
    if es == [] then o
    else ResolveRuns(es[..LastRun(es)], Fold(Unwrap(es[LastRun(es)..]), o))
  }

  ghost predicate ByDepth(es: seq<Entry>) {
    forall i, j :: 0 <= i < j < |es| ==> es[i].depth <= es[j].depth
  }

  lemma LastRunUnique(es: seq<Entry>, s: nat)
    requires s < |es|
    requires forall i :: s <= i < |es| ==> es[i].depth == es[|es| - 1].depth
    requires s > 0 ==> es[s - 1].depth != es[|es| - 1].depth
    ensures LastRun(es) == s
  {}

  /** A shallower run on top of deeper entries is folded last. */
  lemma {:induction false} ResolveOnTop(ms: seq<Message>, depth: nat, rest: seq<Entry>, o: Option<V>)
    requires ByDepth(rest) && forall i :: 0 <= i < |rest| ==> depth < rest[i].depth
    ensures ResolveRuns(Entries(ms, depth) + rest, o) == Fold(ms, ResolveRuns(rest, o))
    decreases |rest|
  {
    hide Fold, Unwrap;
    if rest == [] {
      assert Entries(ms, depth) + rest == Entries(ms, depth);
      ResolveRun(ms, depth, o);
    } else {
      var s := LastRun(rest);
      ResolvePeel(ms, depth, rest, o);
      ResolveOnTop(ms, depth, rest[..s], Fold(Unwrap(rest[s..]), o));
    }
  }

  lemma ResolveRun(ms: seq<Message>, depth: nat, o: Option<V>)
    ensures ResolveRuns(Entries(ms, depth), o) == Fold(ms, o)
  {
    var es := Entries(ms, depth);
    if ms != [] {
      LastRunUnique(es, 0);
      assert Unwrap(es[0..]) == ms && es[..0] == [];
    }
  }

  lemma ResolvePeel(ms: seq<Message>, depth: nat, rest: seq<Entry>, o: Option<V>)
    requires rest != [] && ByDepth(rest) && forall i :: 0 <= i < |rest| ==> depth < rest[i].depth
    ensures var s := LastRun(rest);
      ResolveRuns(Entries(ms, depth) + rest, o)
        == ResolveRuns(Entries(ms, depth) + rest[..s], Fold(Unwrap(rest[s..]), o))
  {
    hide ResolveRuns, Fold, Unwrap;
    var top, s := Entries(ms, depth), LastRun(rest);
    var es := top + rest;
    LastRunOnTop(top, rest, depth);
    SliceConcat(top, rest, s);
    ResolveLast(es, |ms| + s, o);
  }

  lemma LastRunOnTop(top: seq<Entry>, rest: seq<Entry>, depth: nat)
    requires rest != [] && ByDepth(rest)
    requires forall i :: 0 <= i < |top| ==> top[i].depth == depth
    requires forall i :: 0 <= i < |rest| ==> depth < rest[i].depth
    ensures LastRun(top + rest) == |top| + LastRun(rest)
  {
    LastRunUnique(top + rest, |top| + LastRun(rest));
  }

  lemma ResolveLast(es: seq<Entry>, s: nat, o: Option<V>)
    requires es != [] && LastRun(es) == s
    ensures ResolveRuns(es, o) == ResolveRuns(es[..s], Fold(Unwrap(es[s..]), o))
  {}

  lemma AtHasKey(ms: seq<Message>, k: K)
    ensures forall i :: 0 <= i < |At(ms, k)| ==> At(ms, k)[i].key == k
  {
    FilterMembers(ms, Within(Only(k)));
    forall i | 0 <= i < |At(ms, k)| ensures At(ms, k)[i].key == k {
      assert At(ms, k)[i] in At(ms, k);
    }
  }

  lemma {:induction false} PathDepths(t: Tree, k: K, depth: nat)
    requires Arity(t)
    ensures ByDepth(PathEntries(t, k, depth))
    ensures forall i :: 0 <= i < |PathEntries(t, k, depth)| ==>
      PathEntries(t, k, depth)[i].depth >= depth && PathEntries(t, k, depth)[i].msg.key == k
    decreases t
  {
    match t
    case Leaf(pg) =>
      AtHasKey(PageMessages(pg), k);
    case Node(pivots, kids, buf, _) =>
      PathDepths(kids[Route(pivots, k)], k, depth + 1);
      AtHasKey(buf, k);
  }

  /** Folding a key's entries from the deepest is the newest-first lookup. */
  lemma {:induction false} ResolvePath(t: Tree, k: K, depth: nat, p: Params, span: Range, h: nat, min: nat, max: nat)
    requires Shape(p, t, span, h, min, max) && Arity(t)
    ensures ResolveRuns(PathEntries(t, k, depth), None) == Lookup(t, k)
    decreases t
  {
    match t
    case Leaf(pg) =>
      ResolveOnTop(At(PageMessages(pg), k), depth, [], None);
      assert Entries(At(PageMessages(pg), k), depth) + [] == PathEntries(t, k, depth);
      PageFold(pg, k);
    case Node(pivots, kids, buf, _) =>
      var i := Route(pivots, k);
      PathDepths(kids[i], k, depth + 1);
      ResolveOnTop(At(buf, k), depth, PathEntries(kids[i], k, depth + 1), None);
      ResolvePath(kids[i], k, depth + 1, p, KidSpan(span, pivots, i), h - 1, p.Half(), p.fanout);
      LookupNode(t, k);
  }

  lemma PageFold(pg: Page, k: K)
    requires Sound(pg)
    ensures Fold(At(PageMessages(pg), k), None) == Val(pg, k)
  {
    var ms := PageMessages(pg);
    PresentIn(pg.keys, k);
    if k in pg.keys {
      var i :| 0 <= i < |pg.keys| && pg.keys[i] == k;
      ValAt(pg, i);
      Batches.StrictAt(ms, i);
      FoldOne(ms[i], None);
    } else {
      forall i | 0 <= i < |ms| ensures ms[i].key != k {
        assert pg.keys[i] in pg.keys;
      }
      Batches.NoneAt(ms, k);
    }
  }
}
