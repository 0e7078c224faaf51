/** The operations of a tree as steps on its whole state, and what every run of them keeps
    (tree.go:101-393). */
module Runs {
  import opened Seqs
  import opened Messages
  import opened Leaves
  import opened Trees
  import opened Flushing
  import opened Ledgers
  import opened Contents
  import opened KeySets

  /** A tree's fields, with an account of its work: messages moved, calls of flushNode, the
      root heights at which messages were sent, and the work that Clear threw away. */
  datatype State = State(
    tree: Tree, size: int, pending: int, moves: nat, calls: nat, credit: int, lost: int)

  datatype Output = Done | Found(value: Option<V>) | Flag(ok: bool) | Removed(count: nat)

  datatype Op =
    | DoPut(key: K, value: V)
    | DoPutIfAbsent(key: K, value: V)
    | DoUpsert(key: K, fn: UpsertFn)
    | DoDelete(key: K)
    | DoDeleteRange(lo: K, hi: K)
    | DoGet(key: K)
    | DoContains(key: K)
    | DoClear

  ghost function Height(t: Tree): nat
    requires Arity(t)
  {
    if t.Leaf? then 0 else 1 + Height(t.kids[0])
  }

  const START := State(Leaf(EMPTY), 0, 0, 0, 0, 0, 0)

  // ---------- Steps ----------

  ghost function GrowRoot(p: Params, t: Tree): (t': Tree)
    requires p.Valid() && Arity(t)
    ensures Arity(t')
  {
    if Overfull(p, t) then
      SplitKidArity(Node([], [t], [], false), 0);
      SplitRoot(t)
    else t
  }

  /** The end of every buffered write: flush a root over capacity, then grow the tree if the
      root got too many children. */
  ghost function Spill(p: Params, s: State): (s': State)
    requires p.Valid() && Arity(s.tree) && s.tree.Node?
    ensures Arity(s'.tree)
  {
    if |s.tree.buf| > p.bufferCap then
      var f := Flush(p, s.tree);
      State(GrowRoot(p, f.tree), s.size + f.size, s.pending + f.pending,
            s.moves + f.moves, s.calls + f.calls, s.credit, s.lost)
    else s
  }

  ghost function OnTop(t: Tree, ms: seq<Message>): Tree
    requires t.Node?
  {
    Node(t.pivots, t.kids, t.buf + ms, |t.buf + ms| <= 1)
  }

  /** Messages put in the root's buffer, with the adjustment of the counters. */
  ghost function Sent(s: State, ms: seq<Message>, size: int, pending: int): (s': State)
    requires Arity(s.tree) && s.tree.Node?
    ensures Arity(s'.tree)
  {
    State(OnTop(s.tree, ms), s.size + size, s.pending + pending, s.moves, s.calls,
          s.credit + |ms| * Height(s.tree), s.lost)
  }

  ghost function Send(p: Params, s: State, ms: seq<Message>, size: int, pending: int): (s': State)
    requires p.Valid() && Arity(s.tree) && s.tree.Node?
    ensures Arity(s'.tree)
  {
    Spill(p, Sent(s, ms, size, pending))
  }

  /** Whether Put counts its key as new: with deletes pending by a full lookup, otherwise by
      the leaf alone (tree.go:129-139). */
  ghost predicate TakenForNew(s: State, k: K, knownNew: bool)
    requires Arity(s.tree)
  {
    knownNew || if s.pending > 0 then Lookup(s.tree, k).None? else Base(s.tree, k).None?
  }

  ghost function PutStep(p: Params, s: State, k: K, v: V, knownNew: bool): (s': State)
    requires p.Valid() && Arity(s.tree)
    ensures Arity(s'.tree)
  {
    match s.tree
    case Leaf(pg) =>
      s.(tree := GrowRoot(p, Leaf(PageStep(pg, Put(k, v, false)))),
         size := s.size + if Present(pg.keys, k) then 0 else 1)
    case Node(_, _, _, _) =>
      var isNew := TakenForNew(s, k, knownNew);
      Send(p, s, [Put(k, v, isNew)], if isNew then 1 else 0, 0)
  }

  ghost function DeleteStep(p: Params, s: State, k: K): (r: (State, bool))
    requires p.Valid() && Arity(s.tree)
    ensures Arity(r.0.tree)
  {
    match s.tree
    case Leaf(pg) =>
      if Present(pg.keys, k) then (s.(tree := Leaf(PageStep(pg, Delete(k))), size := s.size - 1), true)
      else (s, false)
    case Node(_, _, _, _) =>
      if Lookup(s.tree, k).None? then (s, false)
      else (Send(p, s, [Delete(k)], -1, 1), true)
  }

  ghost function UpsertStep(p: Params, s: State, k: K, fn: UpsertFn): (s': State)
    requires p.Valid() && Arity(s.tree)
    ensures Arity(s'.tree)
  {
    match s.tree
    case Leaf(pg) =>
      s.(tree := GrowRoot(p, Leaf(PageStep(pg, Upsert(k, fn)))),
         size := s.size + if Present(pg.keys, k) then 0 else 1)
    case Node(_, _, _, _) => Send(p, s, [Upsert(k, fn)], 0, 0)
  }

  ghost function LiveIn(t: Tree, r: Range): set<K>
    requires Arity(t)
  {
    set k | k in Live(t) && r.Has(k)
  }

  function Deleting(keys: seq<K>): seq<Message> {
    if keys == [] then [] else Deleting(keys[..|keys| - 1]) + [Delete(keys[|keys| - 1])]
  }

  function Slice(lo: K, hi: K): Range { Range(Some(lo), true, Some(hi), false) }

  /** Live keys deleted together: from a leaf at once, otherwise by one message each. */
  ghost function DeleteKeys(p: Params, s: State, keys: seq<K>): (s': State)
    requires p.Valid() && Arity(s.tree)
    ensures Arity(s'.tree)
  {
    match s.tree
    case Leaf(pg) => s.(tree := Leaf(PageRun(pg, Deleting(keys))), size := s.size - |keys|)
    case Node(_, _, _, _) =>
      if keys == [] then s else Send(p, s, Deleting(keys), -|keys|, |keys|)
  }

  ghost function DeleteRangeStep(p: Params, s: State, lo: K, hi: K): (r: (State, nat))
    requires p.Valid() && Arity(s.tree)
    ensures Arity(r.0.tree)
  {
    if Cmp(lo, hi) >= 0 then (s, 0)
    else
      var keys := Ascending(LiveIn(s.tree, Slice(lo, hi)));
      (DeleteKeys(p, s, keys), |keys|)
  }

  ghost function Next(p: Params, s: State, op: Op): (r: (State, Output))
    requires p.Valid() && Arity(s.tree)
    ensures Arity(r.0.tree)
  {
    match op
    case DoPut(k, v) => (PutStep(p, s, k, v, false), Done)
    case DoPutIfAbsent(k, v) =>
      if Lookup(s.tree, k).Some? then (s, Flag(false)) else (PutStep(p, s, k, v, true), Flag(true))
    case DoUpsert(k, fn) => (UpsertStep(p, s, k, fn), Done)
    case DoDelete(k) => var r := DeleteStep(p, s, k); (r.0, Flag(r.1))
    case DoDeleteRange(lo, hi) => var r := DeleteRangeStep(p, s, lo, hi); (r.0, Removed(r.1))
    case DoGet(k) => (s, Found(Lookup(s.tree, k)))
    case DoContains(k) => (s, Flag(Lookup(s.tree, k).Some?))
    case DoClear =>
      (s.(tree := Leaf(EMPTY), size := 0, pending := 0,
          lost := s.lost + Total(Work, s.tree, Height(s.tree))), Done)
  }

  // ---------- The plain map ----------

  ghost function MapNext(m: map<K, V>, op: Op): (map<K, V>, Output) {
    match op
    case DoPut(k, v) => (m[k := v], Done)
    case DoPutIfAbsent(k, v) => if k in m then (m, Flag(false)) else (m[k := v], Flag(true))
    case DoUpsert(k, fn) => (m[k := fn(Get(m, k))], Done)
    case DoDelete(k) => (m - {k}, Flag(k in m))
    case DoDeleteRange(lo, hi) =>
      var gone := set k | k in m && lo <= k < hi;
      (m - gone, Removed(|gone|))
    case DoGet(k) => (m, Found(Get(m, k)))
    case DoContains(k) => (m, Flag(k in m))
    case DoClear => (map[], Done)
  }

  // ---------- The invariant ----------

  ghost predicate GoodTree(p: Params, t: Tree) {
    && p.Valid()
    && Arity(t)
    && Shape(p, t, EVERYTHING, Height(t), 2, p.fanout)
    && TreeHist(t)
    && !Overfull(p, t)
  }

  ghost predicate Accounts(p: Params, s: State)
    requires p.Valid() && Arity(s.tree)
  {
    var h := Height(s.tree);
    && s.size == Total(Size, s.tree, h)
    && s.pending == Total(Pending, s.tree, h)
    && s.moves + Total(Work, s.tree, h) + s.lost == s.credit
    && s.calls * Quota(p) <= s.moves
  }

  /** What every reachable state satisfies. */
  ghost predicate Good(p: Params, s: State) {
    GoodTree(p, s.tree) && Accounts(p, s)
  }

  lemma {:induction false} HeightIs(p: Params, t: Tree, r: Range, h: nat, min: nat, max: nat)
    requires Shape(p, t, r, h, min, max) && Arity(t)
    ensures Height(t) == h
    decreases t
  {
    if t.Node? {
      HeightIs(p, t.kids[0], KidSpan(r, t.pivots, 0), h - 1, p.Half(), p.fanout);
    }
  }

  lemma GrowRootShape(p: Params, t: Tree, h: nat)
    requires p.Valid() && Arity(t) && Shape(p, t, EVERYTHING, h, 2, p.fanout + 1)
    ensures var t' := GrowRoot(p, t);
      Height(t') == (if Overfull(p, t) then h + 1 else h)
      && Shape(p, t', EVERYTHING, Height(t'), 2, p.fanout)
      && !Overfull(p, t')
  {
    hide Split, Shape;
    ShapeArms(p, t, EVERYTHING, h, 2, p.fanout + 1);
    var t' := GrowRoot(p, t);
    if Overfull(p, t) {
      var t0 := Node([], [t], [], false);
      assert KidSpan(EVERYTHING, [], 0) == EVERYTHING;
      ShapeLoosen(p, t, EVERYTHING, h, 2, p.fanout + 1, p.Half(), p.fanout + 1);
      SplitKidShape(p, t0, 0, EVERYTHING, h + 1, 1, 1);
      ShapeLoosen(p, t', EVERYTHING, h + 1, 1, 2, 2, p.fanout);
      HeightIs(p, t', EVERYTHING, h + 1, 2, p.fanout);
    } else {
      ShapeLoosen(p, t, EVERYTHING, h, 2, p.fanout + 1, 2, p.fanout);
      HeightIs(p, t, EVERYTHING, h, 2, p.fanout);
    }
  }

  lemma GrowRootPath(p: Params, t: Tree, h: nat, k: K)
    requires p.Valid() && Arity(t) && Shape(p, t, EVERYTHING, h, 2, p.fanout + 1)
    ensures Path(GrowRoot(p, t), k) == Path(t, k) && Base(GrowRoot(p, t), k) == Base(t, k)
  {
    if Overfull(p, t) {
      var t0 := Node([], [t], [], false);
      assert KidSpan(EVERYTHING, [], 0) == EVERYTHING;
      ShapeLoosen(p, t, EVERYTHING, h, 2, p.fanout + 1, p.Half(), p.fanout + 1);
      SplitStep(p, t0, 0, EVERYTHING, h, k);
      assert Path(t0, k) == Path(t, k) + At([], k) == Path(t, k);
    }
  }

  /** Growing the tree keeps every account: the new root holds no messages, and no message
      changes its height. */
  lemma GrowRootTotal(p: Params, g: Account, t: Tree, h: nat)
    requires p.Valid() && Arity(t) && Shape(p, t, EVERYTHING, h, 2, p.fanout + 1)
    ensures Total(g, GrowRoot(p, t), Height(GrowRoot(p, t))) == Total(g, t, h)
  {
    GrowRootShape(p, t, h);
    if Overfull(p, t) {
      var t0 := Node([], [t], [], false);
      SplitKidTotal(g, t0, 0, h + 1);
      TotalsOne(g, t, h);
    }
  }

  // ---------- Sending messages ----------

  /** A spill works some of a key's oldest messages into its leaf and leaves the others. */
  lemma SpillSettles(p: Params, s: State, k: K)
    requires GoodTree(p, s.tree) && s.tree.Node?
    ensures SettlesAt(s.tree, Spill(p, s).tree, k)
  {
    var h := Height(s.tree);
    if |s.tree.buf| > p.bufferCap {
      FlushSettles(p, s.tree, EVERYTHING, h, 2, k);
      FlushShape(p, s.tree, EVERYTHING, h, 2);
      GrowRootPath(p, Flush(p, s.tree).tree, h, k);
    } else {
      SettlesNothing(Path(s.tree, k), Base(s.tree, k));
    }
  }

  lemma SpillTree(p: Params, s: State)
    requires GoodTree(p, s.tree) && s.tree.Node?
    ensures GoodTree(p, Spill(p, s).tree)
    ensures forall k :: Lookup(Spill(p, s).tree, k) == Lookup(s.tree, k)
  {
    var t, t' := s.tree, Spill(p, s).tree;
    forall k ensures HistAt(t', k) && Lookup(t', k) == Lookup(t, k) {
      SpillSettles(p, s, k);
      assert HistAt(t, k);
      SettlesKeeps(Path(t, k), Base(t, k), Path(t', k), Base(t', k));
    }
    if |t.buf| > p.bufferCap {
      FlushShape(p, t, EVERYTHING, Height(t), 2);
      GrowRootShape(p, Flush(p, t).tree, Height(t));
    }
  }

  lemma SpillTotal(p: Params, s: State, g: Account)
    requires GoodTree(p, s.tree) && s.tree.Node? && |s.tree.buf| > p.bufferCap
    ensures var t' := Spill(p, s).tree;
      Total(g, t', Height(t')) == Total(g, s.tree, Height(s.tree)) + Change(g, Flush(p, s.tree))
  {
    var h := Height(s.tree);
    FlushTotal(p, g, s.tree, EVERYTHING, h, 2);
    FlushShape(p, s.tree, EVERYTHING, h, 2);
    GrowRootTotal(p, g, Flush(p, s.tree).tree, h);
  }

  lemma SpillAccounts(p: Params, s: State)
    requires Good(p, s) && s.tree.Node?
    ensures Accounts(p, Spill(p, s))
  {
    hide Flush, Total, Quota, Shape, TreeHist;
    if |s.tree.buf| > p.bufferCap {
      var f := Flush(p, s.tree);
      SpillTotal(p, s, Size);
      SpillTotal(p, s, Pending);
      SpillTotal(p, s, Work);
      FlushWork(p, s.tree, EVERYTHING, Height(s.tree), 2);
      assert (s.calls + f.calls) * Quota(p) == s.calls * Quota(p) + f.calls * Quota(p);
    }
  }

  lemma OnTopPathAt(t: Tree, ms: seq<Message>, k: K)
    requires t.Node? && Arity(t)
    ensures Arity(OnTop(t, ms))
    ensures Path(OnTop(t, ms), k) == Path(t, k) + At(ms, k) && Base(OnTop(t, ms), k) == Base(t, k)
  {
    OnTopPath(t, ms, k);
  }

  lemma OnTopTree(p: Params, t: Tree, ms: seq<Message>)
    requires GoodTree(p, t) && t.Node? && Point(ms) && HistOn(t, ms)
    ensures GoodTree(p, OnTop(t, ms)) && Height(OnTop(t, ms)) == Height(t)
    ensures forall k :: Lookup(OnTop(t, ms), k) == Fold(At(ms, k), Lookup(t, k))
  {
    hide At, Fold, Hist, Path, Base;
    var t' := OnTop(t, ms);
    forall k ensures HistAt(t', k) && Lookup(t', k) == Fold(At(ms, k), Lookup(t, k)) {
      OnTopPathAt(t, ms, k);
      assert Hist(Path(t, k) + At(ms, k), Base(t, k));
      FoldConcat(Path(t, k), At(ms, k), Base(t, k));
    }
  }

  lemma OnTopTotal(t: Tree, ms: seq<Message>, g: Account)
    requires t.Node? && Arity(t)
    ensures Height(OnTop(t, ms)) == Height(t)
    ensures Total(g, OnTop(t, ms), Height(t)) == Total(g, t, Height(t)) + Weigh(g, ms, Height(t))
  {
    WeighConcat(g, t.buf, ms, Height(t));
  }

  lemma SentAccounts(p: Params, s: State, ms: seq<Message>)
    requires Good(p, s) && s.tree.Node?
    ensures Accounts(p, Sent(s, ms, Counted(ms) - Deletes(ms), Deletes(ms)))
  {
    OnTopTotal(s.tree, ms, Size);
    OnTopTotal(s.tree, ms, Pending);
    OnTopTotal(s.tree, ms, Work);
  }

  /** Messages in order on top of the tree keep the state good and do to each key what they
      say. */
  lemma SendGood(p: Params, s: State, ms: seq<Message>, size: int, pending: int)
    requires Good(p, s) && s.tree.Node? && Point(ms) && HistOn(s.tree, ms)
    requires size == Counted(ms) - Deletes(ms) && pending == Deletes(ms)
    ensures Good(p, Send(p, s, ms, size, pending))
    ensures forall k :: Lookup(Send(p, s, ms, size, pending).tree, k) == Fold(At(ms, k), Lookup(s.tree, k))
  {
    hide Spill, Fold, At, Lookup, Shape, TreeHist, Counted, Deletes;
    var s1 := Sent(s, ms, size, pending);
    OnTopTree(p, s.tree, ms);
    SentAccounts(p, s, ms);
    SpillTree(p, s1);
    SpillAccounts(p, s1);
  }

  // ---------- A root that is a leaf ----------

  lemma LeafRootGood(p: Params, s: State, pg: Page)
    requires Good(p, s) && s.tree.Leaf? && Sound(pg)
    ensures Good(p, s.(tree := GrowRoot(p, Leaf(pg)), size := |pg.keys|))
    ensures forall k :: Lookup(GrowRoot(p, Leaf(pg)), k) == Val(pg, k)
  {
    var t := Leaf(pg);
    GrowRootShape(p, t, 0);
    GrowRootTotal(p, Size, t, 0);
    GrowRootTotal(p, Pending, t, 0);
    GrowRootTotal(p, Work, t, 0);
    forall k ensures HistAt(GrowRoot(p, t), k) && Lookup(GrowRoot(p, t), k) == Val(pg, k) {
      GrowRootPath(p, t, 0, k);
    }
  }

  // ---------- The existence check of Put ----------

  lemma {:induction false} TotalsNat(g: Account, kids: seq<Tree>, h: int)
    requires g.Pending?
    ensures Totals(g, kids, h) >= 0
    decreases kids
  {
    if kids != [] {
      TotalsNat(g, kids[..|kids| - 1], h);
      TotalNat(g, kids[|kids| - 1], h);
    }
  }

  lemma {:induction false} TotalNat(g: Account, t: Tree, h: int)
    requires g.Pending?
    ensures Total(g, t, h) >= 0
    decreases t
  {
    if t.Node? {
      TotalsNat(g, t.kids, h - 1);
    }
  }

  lemma {:induction false} NoPending(t: Tree, h: int, k: K)
    requires Arity(t) && Total(Pending, t, h) == 0
    ensures forall m :: m in Path(t, k) ==> !m.Delete?
    decreases t
  {
    if t.Node? {
      var i := Route(t.pivots, k);
      TotalsAt(Pending, t.kids, i, h - 1);
      TotalsNat(Pending, t.kids[..i], h - 1);
      TotalNat(Pending, t.kids[i], h - 1);
      TotalsNat(Pending, t.kids[i + 1..], h - 1);
      NoPending(t.kids[i], h - 1, k);
      NoDeletes(t.buf);
      FilterMembers(t.buf, Within(Only(k)));
    }
  }

  lemma {:induction false} StaysLive(ms: seq<Message>, o: Option<V>)
    requires o.Some? && forall m :: m in ms ==> !m.Delete?
    ensures Fold(ms, o).Some?
  {
    if ms != [] {
      StaysLive(ms[..|ms| - 1], o);
    }
  }

  /** With no delete pending, a key found in its leaf is live, whatever is buffered for it:
      looking only at the leaf is enough to decide not to count a put. */
  lemma LeafCheckSound(p: Params, s: State, k: K)
    requires Good(p, s) && s.pending == 0 && Base(s.tree, k).Some?
    ensures Lookup(s.tree, k).Some?
  {
    NoPending(s.tree, Height(s.tree), k);
    StaysLive(Path(s.tree, k), Base(s.tree, k));
  }

  /** A put that is not counted finds its key live. */
  lemma UncountedIsLive(p: Params, s: State, k: K, knownNew: bool)
    requires Good(p, s) && !TakenForNew(s, k, knownNew)
    ensures Lookup(s.tree, k).Some?
  {
    if s.pending <= 0 {
      TotalNat(Pending, s.tree, Height(s.tree));
      LeafCheckSound(p, s, k);
    }
  }

  // ---------- Each operation ----------

  /** One message on top of a good state is in order if the live key it may need is there. */
  lemma OneOnTop(p: Params, s: State, m: Message)
    requires Good(p, s) && s.tree.Node?
    requires NeedsLive(m) ==> Lookup(s.tree, m.key).Some?
    ensures HistOn(s.tree, [m])
    ensures forall k :: At([m], k) == if m.key == k then [m] else []
    ensures Counted([m]) == (if m.Put? && m.counted then 1 else 0) && Deletes([m]) == if m.Delete? then 1 else 0
  {
    assert [] + [m] == [m];
    TallySnoc([], m);
    forall k ensures At([m], k) == if m.key == k then [m] else [] {
      AtSnoc([], m, k);
    }
    forall k ensures Hist(Path(s.tree, k) + At([m], k), Base(s.tree, k)) {
      assert HistAt(s.tree, k);
      if m.key == k {
        HistSnoc(Path(s.tree, k), m, Base(s.tree, k));
      } else {
        assert Path(s.tree, k) + [] == Path(s.tree, k);
      }
    }
  }

  lemma PutGood(p: Params, s: State, k: K, v: V, knownNew: bool)
    requires Good(p, s) && (knownNew ==> Lookup(s.tree, k).None?)
    ensures Good(p, PutStep(p, s, k, v, knownNew))
    ensures forall x :: Lookup(PutStep(p, s, k, v, knownNew).tree, x) == (if x == k then Some(v) else Lookup(s.tree, x))
  {
    if s.tree.Leaf? {
      var pg := s.tree.page;
      var pg' := PagePut(pg, k, v);
      ValPut(pg, k, v, k);
      LeafRootGood(p, s, pg');
      forall x ensures Val(pg', x) == if x == k then Some(v) else Lookup(s.tree, x) {
        ValPut(pg, k, v, x);
      }
    } else {
      var isNew := TakenForNew(s, k, knownNew);
      var m := Put(k, v, isNew);
      if !isNew {
        UncountedIsLive(p, s, k, knownNew);
      }
      OneOnTop(p, s, m);
      SendGood(p, s, [m], if isNew then 1 else 0, 0);
      forall x ensures Fold(At([m], x), Lookup(s.tree, x)) == if x == k then Some(v) else Lookup(s.tree, x) {
        FoldOne(m, Lookup(s.tree, x));
      }
    }
  }

  lemma DeleteGood(p: Params, s: State, k: K)
    requires Good(p, s)
    ensures Good(p, DeleteStep(p, s, k).0)
    ensures DeleteStep(p, s, k).1 <==> Lookup(s.tree, k).Some?
    ensures forall x :: Lookup(DeleteStep(p, s, k).0.tree, x) == (if x == k then None else Lookup(s.tree, x))
  {
    if s.tree.Leaf? {
      var pg := s.tree.page;
      var pg' := PageRemove(pg, k);
      ValRemove(pg, k, k);
      if Present(pg.keys, k) {
        LeafRootGood(p, s, pg');
      }
      forall x ensures Val(pg', x) == if x == k then None else Lookup(s.tree, x) {
        ValRemove(pg, k, x);
      }
    } else if Lookup(s.tree, k).Some? {
      var m := Delete(k);
      OneOnTop(p, s, m);
      SendGood(p, s, [m], -1, 1);
      forall x ensures Fold(At([m], x), Lookup(s.tree, x)) == if x == k then None else Lookup(s.tree, x) {
        FoldOne(m, Lookup(s.tree, x));
      }
    }
  }

  lemma UpsertGood(p: Params, s: State, k: K, fn: UpsertFn)
    requires Good(p, s)
    ensures Good(p, UpsertStep(p, s, k, fn))
    ensures forall x ::
      Lookup(UpsertStep(p, s, k, fn).tree, x) == (if x == k then Some(fn(Lookup(s.tree, k))) else Lookup(s.tree, x))
  {
    if s.tree.Leaf? {
      var pg := s.tree.page;
      var v := fn(Val(pg, k));
      ValPut(pg, k, v, k);
      LeafRootGood(p, s, PagePut(pg, k, v));
      forall x ensures Val(PagePut(pg, k, v), x) == if x == k then Some(v) else Lookup(s.tree, x) {
        ValPut(pg, k, v, x);
      }
    } else {
      UpsertSent(p, s, k, fn);
    }
  }

  lemma UpsertSent(p: Params, s: State, k: K, fn: UpsertFn)
    requires Good(p, s) && s.tree.Node?
    ensures var s' := Send(p, s, [Upsert(k, fn)], 0, 0);
      && Good(p, s')
      && forall x :: Lookup(s'.tree, x) == (if x == k then Some(fn(Lookup(s.tree, k))) else Lookup(s.tree, x))
  {
    hide Send, Height, Accounts, Lookup, HistOn, Fold;
    var m := Upsert(k, fn);
    OneOnTop(p, s, m);
    SendGood(p, s, [m], 0, 0);
    forall x ensures Fold(At([m], x), Lookup(s.tree, x))
        == if x == k then Some(fn(Lookup(s.tree, k))) else Lookup(s.tree, x)
    {
      FoldOne(m, Lookup(s.tree, x));
      FoldNone(Lookup(s.tree, x));
    }
  }

  // ---------- Deleting a range ----------

  lemma {:induction false} DeletingAt(keys: seq<K>, k: K)
    requires Increasing(keys)
    ensures At(Deleting(keys), k) == if k in keys then [Delete(k)] else []
    ensures Point(Deleting(keys)) && Counted(Deleting(keys)) == 0 && Deletes(Deleting(keys)) == |keys|
  {
    if keys != [] {
      var keys', x := keys[..|keys| - 1], keys[|keys| - 1];
      DeletingAt(keys', k);
      assert keys == keys' + [x];
      AtSnoc(Deleting(keys'), Delete(x), k);
      TallySnoc(Deleting(keys'), Delete(x));
      assert x !in keys';
    }
  }

  lemma {:induction false} DeletingLength(keys: seq<K>)
    ensures |Deleting(keys)| == |keys|
  {
    if keys != [] {
      DeletingLength(keys[..|keys| - 1]);
    }
  }

  lemma {:induction false} DeletingSize(pg: Page, keys: seq<K>)
    requires |pg.keys| == |pg.vals|
    ensures SizeRun(pg, Deleting(keys)) == 0
  {
    if keys != [] {
      DeletingSize(pg, keys[..|keys| - 1]);
    }
  }

  /** Deleting live keys from a leaf shortens it by as many. */
  lemma DeletingLeaf(pg: Page, keys: seq<K>)
    requires Sound(pg) && Increasing(keys) && forall k :: k in keys ==> Val(pg, k).Some?
    ensures Sound(PageRun(pg, Deleting(keys)))
    ensures |PageRun(pg, Deleting(keys)).keys| == |pg.keys| - |keys|
    ensures forall k :: Val(PageRun(pg, Deleting(keys)), k) == if k in keys then None else Val(pg, k)
  {
    var ms := Deleting(keys);
    RunSound(pg, ms);
    forall k
      ensures Hist(At(ms, k), Val(pg, k))
      ensures Val(PageRun(pg, ms), k) == if k in keys then None else Val(pg, k)
    {
      DeletingAt(keys, k);
      ValRun(pg, ms, k);
      HistSnoc([], Delete(k), Val(pg, k));
      assert [] + [Delete(k)] == [Delete(k)];
      FoldOne(Delete(k), Val(pg, k));
    }
    DeletingAt(keys, 0.0);
    DeletingSize(pg, keys);
    BatchSizeGap(pg, ms);
    NoneMissed(pg, ms);
  }

  lemma LiveGet(p: Params, t: Tree)
    requires GoodTree(p, t)
    ensures forall k :: Get(Live(t), k) == Lookup(t, k)
  {
    forall k ensures Get(Live(t), k) == Lookup(t, k) {
      LiveIsLookup(p, t, EVERYTHING, Height(t), 2, p.fanout, k);
    }
  }

  lemma DeletesOnTop(p: Params, t: Tree, keys: seq<K>)
    requires GoodTree(p, t) && Increasing(keys) && forall k :: k in keys ==> Lookup(t, k).Some?
    ensures HistOn(t, Deleting(keys))
  {
    forall k ensures Hist(Path(t, k) + At(Deleting(keys), k), Base(t, k)) {
      DeletingAt(keys, k);
      assert HistAt(t, k);
      if k in keys {
        HistSnoc(Path(t, k), Delete(k), Base(t, k));
      } else {
        assert Path(t, k) + [] == Path(t, k);
      }
    }
  }

  /** The keys a range deletion deletes: the live keys of the range, in order. */
  lemma DoomedKeys(p: Params, t: Tree, lo: K, hi: K)
    requires GoodTree(p, t)
    ensures forall x ::
      x in Ascending(LiveIn(t, Slice(lo, hi))) <==> lo <= x < hi && Lookup(t, x).Some?
  {
    LiveGet(p, t);
    forall x ensures x in LiveIn(t, Slice(lo, hi)) <==> lo <= x < hi && Lookup(t, x).Some? {
      assert Get(Live(t), x) == Lookup(t, x);
    }
  }

  lemma DeletingLeafGood(p: Params, s: State, keys: seq<K>)
    requires Good(p, s) && s.tree.Leaf? && Increasing(keys)
    requires forall k :: k in keys ==> Lookup(s.tree, k).Some?
    ensures var s' := s.(tree := Leaf(PageRun(s.tree.page, Deleting(keys))), size := s.size - |keys|);
      Good(p, s') && forall x :: Lookup(s'.tree, x) == (if x in keys then None else Lookup(s.tree, x))
  {
    var pg := s.tree.page;
    assert forall k :: Lookup(s.tree, k) == Val(pg, k);
    DeletingLeaf(pg, keys);
    LeafRootGood(p, s, PageRun(pg, Deleting(keys)));
  }

  lemma DeletingFold(keys: seq<K>, x: K, o: Option<V>)
    requires Increasing(keys)
    ensures Fold(At(Deleting(keys), x), o) == if x in keys then None else o
  {
    DeletingAt(keys, x);
    FoldOne(Delete(x), o);
  }

  /** Deletes of live keys are in order on top of the tree. */
  lemma DeletingReady(p: Params, s: State, keys: seq<K>)
    requires Good(p, s) && s.tree.Node? && Increasing(keys)
    requires forall k :: k in keys ==> Lookup(s.tree, k).Some?
    ensures var ms := Deleting(keys);
      HistOn(s.tree, ms) && Point(ms) && Counted(ms) == 0 && Deletes(ms) == |keys|
  {
    hide Accounts, Deleting, HistOn;
    DeletesOnTop(p, s.tree, keys);
    DeletingAt(keys, 0.0);
  }

  lemma DeletingSent(p: Params, s: State, ms: seq<Message>, keys: seq<K>)
    requires Good(p, s) && s.tree.Node? && HistOn(s.tree, ms) && Point(ms)
    requires Counted(ms) == 0 && Deletes(ms) == |keys|
    ensures Good(p, Send(p, s, ms, -|keys|, |keys|))
    ensures forall k :: Lookup(Send(p, s, ms, -|keys|, |keys|).tree, k) == Fold(At(ms, k), Lookup(s.tree, k))
  {
    hide Send, Good, HistOn, Point, Lookup, Fold, At, Counted, Deletes;
    SendGood(p, s, ms, -|keys|, |keys|);
  }

  lemma DeletingNodeGood(p: Params, s: State, keys: seq<K>)
    requires Good(p, s) && s.tree.Node? && Increasing(keys)
    requires forall k :: k in keys ==> Lookup(s.tree, k).Some?
    ensures var s' := Send(p, s, Deleting(keys), -|keys|, |keys|);
      Good(p, s') && forall x :: Lookup(s'.tree, x) == (if x in keys then None else Lookup(s.tree, x))
  {
    hide Send, Accounts, TreeHist, Shape, HistOn, Point, Lookup, Fold, At, Deleting;
    DeletingReady(p, s, keys);
    DeletingSent(p, s, Deleting(keys), keys);
    var t' := Send(p, s, Deleting(keys), -|keys|, |keys|).tree;
    forall x ensures Lookup(t', x) == if x in keys then None else Lookup(s.tree, x) {
      DeletingFold(keys, x, Lookup(s.tree, x));
    }
  }

  lemma DeleteKeysGood(p: Params, s: State, keys: seq<K>)
    requires Good(p, s) && Increasing(keys)
    requires forall k :: k in keys ==> Lookup(s.tree, k).Some?
    ensures Good(p, DeleteKeys(p, s, keys))
    ensures forall x :: Lookup(DeleteKeys(p, s, keys).tree, x) == (if x in keys then None else Lookup(s.tree, x))
  {
    if s.tree.Leaf? {
      DeletingLeafGood(p, s, keys);
    } else if keys != [] {
      DeletingNodeGood(p, s, keys);
    }
  }

  lemma DeleteRangeGood(p: Params, s: State, lo: K, hi: K)
    requires Good(p, s)
    ensures Good(p, DeleteRangeStep(p, s, lo, hi).0)
    ensures DeleteRangeStep(p, s, lo, hi).1 == |LiveIn(s.tree, Slice(lo, hi))|
    ensures forall x ::
      Lookup(DeleteRangeStep(p, s, lo, hi).0.tree, x) == (if lo <= x < hi then None else Lookup(s.tree, x))
  {
    hide DeleteKeys;
    var gone := LiveIn(s.tree, Slice(lo, hi));
    DoomedKeys(p, s.tree, lo, hi);
    if lo >= hi {
      assert forall k :: !Slice(lo, hi).Has(k);
      assert gone == {};
    } else {
      DeleteKeysGood(p, s, Ascending(gone));
    }
  }

  // ---------- Every run ----------

  /** One operation keeps the state good, and changes and answers as it does on a plain map. */
  lemma NextRefines(p: Params, s: State, op: Op)
    requires Good(p, s)
    ensures var (s', out) := Next(p, s, op);
      Good(p, s') && (Live(s'.tree), out) == MapNext(Live(s.tree), op)
  {
    hide Accounts, Lookup, PutStep, DeleteStep, UpsertStep, DeleteRangeStep;
    var s', m := Next(p, s, op).0, Live(s.tree);
    LiveGet(p, s.tree);
    match op
    case DoPut(k, v) =>
      PutGood(p, s, k, v, false);
      NextMap(p, s', m[k := v]);
    case DoPutIfAbsent(k, v) =>
      assert Get(m, k) == Lookup(s.tree, k);
      if Lookup(s.tree, k).None? {
        PutGood(p, s, k, v, true);
        NextMap(p, s', m[k := v]);
      }
    case DoUpsert(k, fn) =>
      UpsertGood(p, s, k, fn);
      assert Get(m, k) == Lookup(s.tree, k);
      NextMap(p, s', m[k := fn(Get(m, k))]);
    case DoDelete(k) =>
      DeleteGood(p, s, k);
      assert Get(m, k) == Lookup(s.tree, k);
      NextMap(p, s', m - {k});
    case DoDeleteRange(lo, hi) =>
      DeleteRangeRefines(p, s, lo, hi);
    case DoGet(k) =>
    case DoContains(k) =>
      assert Get(m, k) == Lookup(s.tree, k);
    case DoClear =>
      ClearGood(p, s);
  }

  lemma DeleteRangeRefines(p: Params, s: State, lo: K, hi: K)
    requires Good(p, s)
    ensures var (s', n) := DeleteRangeStep(p, s, lo, hi);
      Good(p, s') && (Live(s'.tree), Removed(n)) == MapNext(Live(s.tree), DoDeleteRange(lo, hi))
  {
    hide Accounts, Lookup, DeleteRangeStep, Live, Shape, TreeHist;
    var m := Live(s.tree);
    var gone := set k | k in m && lo <= k < hi;
    DeleteRangeGood(p, s, lo, hi);
    assert gone == LiveIn(s.tree, Slice(lo, hi));
    RangeGone(p, s.tree, DeleteRangeStep(p, s, lo, hi).0.tree, lo, hi, gone);
  }

  lemma RangeGone(p: Params, t: Tree, t': Tree, lo: K, hi: K, gone: set<K>)
    requires GoodTree(p, t) && GoodTree(p, t')
    requires forall x :: Lookup(t', x) == (if lo <= x < hi then None else Lookup(t, x))
    requires forall k :: k in gone <==> k in Live(t) && lo <= k < hi
    ensures Live(t') == Live(t) - gone
  {
    hide Lookup, Live, Shape, TreeHist;
    LiveGet(p, t);
    LiveGet(p, t');
    forall k ensures Get(Live(t'), k) == Get(Live(t) - gone, k) {
      assert Get(Live(t), k) == Lookup(t, k);
      assert Get(Live(t'), k) == Lookup(t', k);
    }
    MapEqual(Live(t'), Live(t) - gone);
  }

  lemma NextMap(p: Params, s: State, m: map<K, V>)
    requires Good(p, s) && forall k :: Lookup(s.tree, k) == Get(m, k)
    ensures Live(s.tree) == m
  {
    LiveGet(p, s.tree);
    MapEqual(Live(s.tree), m);
  }

  lemma EmptyLeaf()
    ensures Sound(EMPTY) && forall k :: Val(EMPTY, k) == None
  {}

  lemma ClearGood(p: Params, s: State)
    requires Good(p, s)
    ensures Good(p, Next(p, s, DoClear).0) && Live(Next(p, s, DoClear).0.tree) == map[]
  {
    EmptyLeaf();
  }

  ghost function Run(p: Params, ops: seq<Op>): (r: (State, seq<Output>))
    requires p.Valid()
    ensures Arity(r.0.tree)
  {
    if ops == [] then (START, [])
    else
      var (s, outs) := Run(p, ops[..|ops| - 1]);
      var (s', out) := Next(p, s, ops[|ops| - 1]);
      (s', outs + [out])
  }

  ghost function MapRun(ops: seq<Op>): (map<K, V>, seq<Output>) {
    if ops == [] then (map[], [])
    else
      var (m, outs) := MapRun(ops[..|ops| - 1]);
      var (m', out) := MapNext(m, ops[|ops| - 1]);
      (m', outs + [out])
  }

  lemma StartGood(p: Params)
    requires p.Valid()
    ensures Good(p, START) && Live(START.tree) == map[]
  {
    EmptyLeaf();
  }

  /** For every sequence of operations from an empty tree: the tree's logical map is the plain
      map's, every answer is the plain map's, and the state is good. */
  lemma {:induction false} RunRefines(p: Params, ops: seq<Op>)
    requires p.Valid()
    ensures Good(p, Run(p, ops).0)
    ensures Live(Run(p, ops).0.tree) == MapRun(ops).0
    ensures Run(p, ops).1 == MapRun(ops).1
  {
    if ops == [] {
      StartGood(p);
    } else {
      RunRefines(p, ops[..|ops| - 1]);
      NextRefines(p, Run(p, ops[..|ops| - 1]).0, ops[|ops| - 1]);
    }
  }

  /** What a user sees: for every sequence of operations, every answer is the plain map's. */
  lemma RunAnswers(p: Params, ops: seq<Op>)
    requires p.Valid()
    ensures Run(p, ops).1 == MapRun(ops).1
  {
    RunRefines(p, ops);
  }
}
