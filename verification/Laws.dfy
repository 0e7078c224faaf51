/** What holds after every run of operations from an empty tree: how far the size counter may
    be off, how much flushing has been done, and how bushy the tree is. */
module Laws {
  import opened Seqs
  import opened Messages
  import opened Leaves
  import opened Trees
  import opened Flushing
  import opened Ledgers
  import opened Contents
  import opened Runs
  import opened Numbers
  import opened KeySets
  import opened Healing

  // ---------- The message histories ----------

  /** After every run, every buffered delete and every buffered put that was not counted sits
      over a key that is live given the leaf and the older messages. */
  lemma RunHistories(p: Params, ops: seq<Op>, k: K)
    requires p.Valid()
    ensures HistAt(Run(p, ops).0.tree, k)
  {
    RunRefines(p, ops);
  }

  // ---------- The size counter ----------

  /** After every run: the counter is the number of keys of the plain map, plus the counted
      puts that wait over a live key, minus the upserts that wait over an absent one. */
  lemma RunSizeLaw(p: Params, ops: seq<Op>)
    requires p.Valid()
    ensures var s := Run(p, ops).0;
      s.size == |MapRun(ops).0| + Off(Twice, s.tree) - Off(Missed, s.tree)
  {
    RunRefines(p, ops);
    var s := Run(p, ops).0;
    SizeLaw(p, s.tree, EVERYTHING, Height(s.tree), 2, p.fanout);
  }

  /** Len answers the number of keys exactly when the two kinds of miscount cancel out. */
  lemma LenExactIff(p: Params, ops: seq<Op>)
    requires p.Valid()
    ensures var s := Run(p, ops).0;
      s.size == |MapRun(ops).0| <==> Off(Twice, s.tree) == Off(Missed, s.tree)
  {
    RunSizeLaw(p, ops);
  }

  /** In particular it does whenever no message waits. */
  lemma LenExactSettled(p: Params, ops: seq<Op>)
    requires p.Valid() && Settled(Run(p, ops).0.tree)
    ensures Run(p, ops).0.size == |MapRun(ops).0|
  {
    RunSizeLaw(p, ops);
    SettledOff(Twice, Run(p, ops).0.tree);
    SettledOff(Missed, Run(p, ops).0.tree);
  }

  lemma SendNoUpserts(p: Params, s: State, ms: seq<Message>, size: int, pending: int)
    requires Good(p, s) && s.tree.Node? && Point(ms) && HistOn(s.tree, ms)
    requires NoUpserts(s.tree) && forall m :: m in ms ==> !m.Upsert?
    ensures NoUpserts(Send(p, s, ms, size, pending).tree)
  {
    var s1 := Sent(s, ms, size, pending);
    OnTopTree(p, s.tree, ms);
    var t' := Spill(p, s1).tree;
    forall k, m | m in Path(t', k) ensures !m.Upsert? {
      SpillSettles(p, s1, k);
      assert m in Path(s1.tree, k);
      OnTopPathAt(s.tree, ms, k);
      FilterMembers(ms, Within(Only(k)));
    }
  }

  lemma LeafNoUpserts(p: Params, pg: Page)
    requires p.Valid() && Sound(pg)
    ensures NoUpserts(GrowRoot(p, Leaf(pg)))
  {
    forall k ensures Path(GrowRoot(p, Leaf(pg)), k) == [] {
      GrowRootPath(p, Leaf(pg), 0, k);
    }
  }

  lemma PutNoUpserts(p: Params, s: State, k: K, v: V, knownNew: bool)
    requires Good(p, s) && NoUpserts(s.tree) && (knownNew ==> Lookup(s.tree, k).None?)
    ensures NoUpserts(PutStep(p, s, k, v, knownNew).tree)
  {
    if s.tree.Leaf? {
      ValPut(s.tree.page, k, v, k);
      LeafNoUpserts(p, PagePut(s.tree.page, k, v));
    } else {
      var isNew := TakenForNew(s, k, knownNew);
      if !isNew {
        UncountedIsLive(p, s, k, knownNew);
      }
      OneOnTop(p, s, Put(k, v, isNew));
      SendNoUpserts(p, s, [Put(k, v, isNew)], if isNew then 1 else 0, 0);
    }
  }

  lemma {:induction false} DeletingNoUpserts(keys: seq<K>)
    ensures forall m :: m in Deleting(keys) ==> m.Delete?
  {
    if keys != [] {
      DeletingNoUpserts(keys[..|keys| - 1]);
    }
  }

  lemma DeleteKeysNoUpserts(p: Params, s: State, keys: seq<K>)
    requires Good(p, s) && NoUpserts(s.tree) && Increasing(keys)
    requires forall k :: k in keys ==> Lookup(s.tree, k).Some?
    ensures NoUpserts(DeleteKeys(p, s, keys).tree)
  {
    if s.tree.Node? && keys != [] {
      DeletesOnTop(p, s.tree, keys);
      DeletingNoUpserts(keys);
      SendNoUpserts(p, s, Deleting(keys), -|keys|, |keys|);
    }
  }

  lemma NextNoUpserts(p: Params, s: State, op: Op)
    requires Good(p, s) && NoUpserts(s.tree) && !op.DoUpsert?
    ensures NoUpserts(Next(p, s, op).0.tree)
  {
    hide NoUpserts, PutStep, DeleteStep, DeleteRangeStep, Accounts, Lookup;
    match op
    case DoPut(k, v) => PutNoUpserts(p, s, k, v, false);
    case DoPutIfAbsent(k, v) =>
      if Lookup(s.tree, k).None? {
        PutNoUpserts(p, s, k, v, true);
      }
    case DoDelete(k) => DeleteNoUpserts(p, s, k);
    case DoDeleteRange(lo, hi) => DeleteRangeNoUpserts(p, s, lo, hi);
    case DoGet(k) =>
    case DoContains(k) =>
    case DoClear => EmptyNoUpserts();
  }

  lemma EmptyNoUpserts()
    ensures NoUpserts(Leaf(EMPTY))
  {}

  lemma DeleteNoUpserts(p: Params, s: State, k: K)
    requires Good(p, s) && NoUpserts(s.tree)
    ensures NoUpserts(DeleteStep(p, s, k).0.tree)
  {
    hide Send, Accounts, Lookup;
    if s.tree.Node? && Lookup(s.tree, k).Some? {
      OneOnTop(p, s, Delete(k));
      SendNoUpserts(p, s, [Delete(k)], -1, 1);
    }
  }

  lemma DeleteRangeNoUpserts(p: Params, s: State, lo: K, hi: K)
    requires Good(p, s) && NoUpserts(s.tree)
    ensures NoUpserts(DeleteRangeStep(p, s, lo, hi).0.tree)
  {
    hide DeleteKeys, NoUpserts, Accounts, Lookup;
    if lo < hi {
      DoomedKeys(p, s.tree, lo, hi);
      DeleteKeysNoUpserts(p, s, Ascending(LiveIn(s.tree, Slice(lo, hi))));
    }
  }

  /** Without upserts Len is never too small. */
  lemma {:induction false} LenNotTooSmall(p: Params, ops: seq<Op>)
    requires p.Valid() && forall op :: op in ops ==> !op.DoUpsert?
    ensures NoUpserts(Run(p, ops).0.tree)
    ensures Run(p, ops).0.size >= |MapRun(ops).0|
  {
    var s := Run(p, ops).0;
    if ops != [] {
      var ops', op := ops[..|ops| - 1], ops[|ops| - 1];
      LenNotTooSmall(p, ops');
      RunRefines(p, ops');
      NextNoUpserts(p, Run(p, ops').0, op);
    }
    RunRefines(p, ops);
    RunSizeLaw(p, ops);
    NoUpsertsOff(p, s.tree, EVERYTHING, Height(s.tree), 2, p.fanout);
  }

  // ---------- Single steps ----------

  /** How far size is from the number of live keys. */
  ghost function Drift(s: State): int
    requires Arity(s.tree)
  {
    s.size - |Live(s.tree)|
  }

  /** What the flush that follows messages on top of the root adds to size. */
  ghost function Correction(p: Params, s: State, ms: seq<Message>): int
    requires p.Valid() && Arity(s.tree)
  {
    if s.tree.Node? && |s.tree.buf + ms| > p.bufferCap then Flush(p, OnTop(s.tree, ms)).size else 0
  }

  lemma SendSize(p: Params, s: State, ms: seq<Message>, size: int, pending: int)
    requires p.Valid() && Arity(s.tree) && s.tree.Node?
    ensures Send(p, s, ms, size, pending).size == s.size + size + Correction(p, s, ms)
  {
    hide Flush, GrowRoot;
  }

  /** A put moves size away from the truth exactly when no delete is pending and the key is
      live only through buffered messages; a flush it causes adds its correction. */
  lemma PutDrift(p: Params, s: State, k: K, v: V)
    requires Good(p, s)
    ensures Drift(PutStep(p, s, k, v, false))
      == Drift(s) + Correction(p, s, [Put(k, v, TakenForNew(s, k, false))])
        + if s.pending == 0 && Base(s.tree, k).None? && Lookup(s.tree, k).Some? then 1 else 0
  {
    hide Send, Correction, Accounts, Shape, TreeHist;
    PutRefines(p, s, k, v);
    SetSize(Live(s.tree), k, Some(v));
    PendingNat(p, s);
    if !TakenForNew(s, k, false) {
      UncountedIsLive(p, s, k, false);
    }
    var isNew := TakenForNew(s, k, false);
    if s.tree.Node? {
      SendSize(p, s, [Put(k, v, isNew)], if isNew then 1 else 0, 0);
    } else {
      LeafCorrection(p, s, [Put(k, v, isNew)]);
    }
  }

  lemma LeafCorrection(p: Params, s: State, ms: seq<Message>)
    requires p.Valid() && Arity(s.tree) && s.tree.Leaf?
    ensures Correction(p, s, ms) == 0 && forall k :: Lookup(s.tree, k) == Base(s.tree, k) == Val(s.tree.page, k)
  {}

  lemma PendingNat(p: Params, s: State)
    requires Good(p, s)
    ensures s.pending >= 0
  {
    TotalNat(Pending, s.tree, Height(s.tree));
  }

  lemma PutRefines(p: Params, s: State, k: K, v: V)
    requires Good(p, s)
    ensures Live(PutStep(p, s, k, v, false).tree) == Live(s.tree)[k := v]
    ensures Get(Live(s.tree), k) == Lookup(s.tree, k)
  {
    hide PutStep, Accounts, Lookup;
    NextRefines(p, s, DoPut(k, v));
    LiveGet(p, s.tree);
  }

  /** A put of a key known to be absent never does. */
  lemma PutIfAbsentDrift(p: Params, s: State, k: K, v: V)
    requires Good(p, s)
    ensures Drift(Next(p, s, DoPutIfAbsent(k, v)).0)
      == Drift(s) + if Lookup(s.tree, k).None? then Correction(p, s, [Put(k, v, true)]) else 0
  {
    hide Send, Correction, Accounts, Shape, TreeHist, Live, Drift;
    if Lookup(s.tree, k).None? {
      PutNewDrift(p, s, k, v);
    }
  }

  lemma PutNewDrift(p: Params, s: State, k: K, v: V)
    requires Good(p, s) && Lookup(s.tree, k).None?
    ensures Drift(PutStep(p, s, k, v, true)) == Drift(s) + Correction(p, s, [Put(k, v, true)])
  {
    hide Send, Correction, Accounts, Shape, TreeHist;
    NextRefines(p, s, DoPutIfAbsent(k, v));
    LiveGet(p, s.tree);
    assert Get(Live(s.tree), k) == Lookup(s.tree, k);
    SetSize(Live(s.tree), k, Some(v));
    if s.tree.Node? {
      SendSize(p, s, [Put(k, v, true)], 1, 0);
    } else {
      LeafCorrection(p, s, [Put(k, v, true)]);
    }
  }

  /** An upsert of a buffered tree does exactly when its key is absent, and in the other
      direction. */
  lemma UpsertDrift(p: Params, s: State, k: K, fn: UpsertFn)
    requires Good(p, s)
    ensures Drift(UpsertStep(p, s, k, fn))
      == Drift(s) + Correction(p, s, [Upsert(k, fn)])
        - if s.tree.Node? && Lookup(s.tree, k).None? then 1 else 0
  {
    hide Send, Correction, Accounts, Shape, TreeHist;
    NextRefines(p, s, DoUpsert(k, fn));
    LiveGet(p, s.tree);
    assert Get(Live(s.tree), k) == Lookup(s.tree, k);
    SetSize(Live(s.tree), k, Some(fn(Lookup(s.tree, k))));
    if s.tree.Node? {
      SendSize(p, s, [Upsert(k, fn)], 0, 0);
    } else {
      LeafCorrection(p, s, [Upsert(k, fn)]);
    }
  }

  /** A delete never does. */
  lemma DeleteDrift(p: Params, s: State, k: K)
    requires Good(p, s)
    ensures Drift(DeleteStep(p, s, k).0)
      == Drift(s) + if Lookup(s.tree, k).Some? then Correction(p, s, [Delete(k)]) else 0
  {
    hide Send, Correction, Accounts, Shape, TreeHist;
    NextRefines(p, s, DoDelete(k));
    LiveGet(p, s.tree);
    assert Get(Live(s.tree), k) == Lookup(s.tree, k);
    SetSize(Live(s.tree), k, None);
    if s.tree.Node? {
      if Lookup(s.tree, k).Some? {
        SendSize(p, s, [Delete(k)], -1, 1);
      }
    } else {
      LeafCorrection(p, s, [Delete(k)]);
    }
  }

  /** Nor does a range deletion. */
  lemma DeleteRangeDrift(p: Params, s: State, lo: K, hi: K)
    requires Good(p, s)
    ensures var keys := Ascending(LiveIn(s.tree, Slice(lo, hi)));
      Drift(DeleteRangeStep(p, s, lo, hi).0)
        == Drift(s) + if lo < hi && keys != [] then Correction(p, s, Deleting(keys)) else 0
  {
    hide Correction, Accounts, DeleteKeys, Shape, TreeHist, Lookup, Deleting, LiveIn, Live, Ascending, MapNext;
    DeleteRangeRefines(p, s, lo, hi);
    RangeSize(Live(s.tree), lo, hi);
    if lo < hi {
      DeleteKeysSize(p, s, Ascending(LiveIn(s.tree, Slice(lo, hi))));
    }
  }

  lemma RangeSize(m: map<K, V>, lo: K, hi: K)
    ensures var (m', out) := MapNext(m, DoDeleteRange(lo, hi)); out.Removed? && |m'| == |m| - out.count
    ensures lo >= hi ==> MapNext(m, DoDeleteRange(lo, hi)) == (m, Removed(0))
  {
    var gone := set k | k in m && lo <= k < hi;
    MapMinusSize(m, gone);
    if lo >= hi {
      assert gone == {};
      assert m - gone == m;
    }
  }

  lemma MapMinusSize(m: map<K, V>, gone: set<K>)
    requires gone <= m.Keys
    ensures |m - gone| == |m| - |gone|
  {
    assert (m - gone).Keys == m.Keys - gone;
    assert |(m - gone).Keys| == |m - gone| && |m.Keys| == |m|;
  }

  lemma DeleteKeysSize(p: Params, s: State, keys: seq<K>)
    requires p.Valid() && Arity(s.tree)
    ensures DeleteKeys(p, s, keys).size
      == s.size - |keys| + if keys != [] then Correction(p, s, Deleting(keys)) else 0
  {
    hide Send, Correction, Deleting;
    if s.tree.Node? {
      SendSize(p, s, Deleting(keys), -|keys|, |keys|);
    } else {
      LeafCorrection(p, s, Deleting(keys));
    }
  }

  /** The flush that follows messages, and the root split it may cause, leave neither kind of
      miscount more often than they found it. */
  lemma SpillHeals(p: Params, s: State, c: Miscount)
    requires GoodTree(p, s.tree) && s.tree.Node?
    ensures Off(c, Spill(p, s).tree) <= Off(c, s.tree)
  {
    hide Spill, Off;
    var t' := Spill(p, s).tree;
    SpillTree(p, s);
    forall k ensures SettlesAt(s.tree, t', k) {
      SpillSettles(p, s, k);
    }
    Heals(p, c, s.tree, EVERYTHING, Height(s.tree), 2, p.fanout, t', Height(t'), 2, p.fanout);
  }

  /** So a correction only takes back counted puts over live keys and adds upserts over absent
      ones, and no more than there are. */
  lemma CorrectionBounds(p: Params, s: State, ms: seq<Message>)
    requires Good(p, s) && s.tree.Node? && Point(ms) && HistOn(s.tree, ms)
    ensures Arity(OnTop(s.tree, ms))
    ensures var t := OnTop(s.tree, ms); 0 - Off(Twice, t) <= Correction(p, s, ms) <= Off(Missed, t)
  {
    hide Flush, Off, Accounts;
    OnTopTree(p, s.tree, ms);
    if |s.tree.buf + ms| > p.bufferCap {
      FlushCorrects(p, OnTop(s.tree, ms), EVERYTHING, Height(s.tree), 2);
    }
  }

  // ---------- Runs on which Len is right ----------

  lemma {:induction false} OffRunConcat(c: Miscount, a: seq<Message>, b: seq<Message>, m: map<K, V>)
    ensures RunMap(a + b, m) == RunMap(b, RunMap(a, m))
    ensures OffRun(c, a + b, m) == OffRun(c, a, m) + OffRun(c, b, RunMap(a, m))
  {
    if b == [] {
      PlusNil(a);
    } else {
      assert (a + b)[..|a + b| - 1] == a + b[..|b| - 1];
      OffRunConcat(c, a, b[..|b| - 1], m);
    }
  }

  /** Messages on top are miscounted by what is live below them. */
  lemma OffOnTop(c: Miscount, t: Tree, ms: seq<Message>)
    requires t.Node? && Arity(t)
    ensures Arity(OnTop(t, ms)) && Off(c, OnTop(t, ms)) == Off(c, t) + OffRun(c, ms, Live(t))
  {
    OffRunConcat(c, t.buf, ms, Merged(t.kids));
  }

  /** What one more message on top of a tree adds to each count. */
  lemma OffNext(t: Tree, m: Message)
    requires t.Node? && Arity(t)
    ensures Arity(OnTop(t, [m]))
    ensures Off(Twice, OnTop(t, [m])) == Off(Twice, t) + if m.Put? && m.counted && m.key in Live(t) then 1 else 0
    ensures Off(Missed, OnTop(t, [m])) == Off(Missed, t) + if m.Upsert? && m.key !in Live(t) then 1 else 0
  {
    hide Off, Live;
    OffOnTop(Twice, t, [m]);
    OffOnTop(Missed, t, [m]);
    OffRunOne(Twice, m, Live(t));
    OffRunOne(Missed, m, Live(t));
  }

  lemma OffRunOne(c: Miscount, x: Message, m: map<K, V>)
    ensures OffRun(c, [x], m) == OffStep(c, x, Get(m, x.key))
  {
    assert [x][..0] == [];
  }

  lemma {:induction false} OffRunDeletes(c: Miscount, keys: seq<K>, m: map<K, V>)
    ensures OffRun(c, Deleting(keys), m) == 0
  {
    if keys != [] {
      OffRunDeletes(c, keys[..|keys| - 1], m);
      OffRunConcat(c, Deleting(keys[..|keys| - 1]), [Delete(keys[|keys| - 1])], m);
      OffRunOne(c, Delete(keys[|keys| - 1]), RunMap(Deleting(keys[..|keys| - 1]), m));
    }
  }

  /** No message is miscounted. */
  ghost predicate Exact(t: Tree)
    requires Arity(t)
  {
    forall c: Miscount :: Off(c, t) == 0
  }

  lemma SendExact(p: Params, s: State, ms: seq<Message>, size: int, pending: int)
    requires Good(p, s) && s.tree.Node? && Point(ms) && HistOn(s.tree, ms)
    requires Exact(s.tree) && forall c: Miscount :: OffRun(c, ms, Live(s.tree)) == 0
    ensures Exact(Send(p, s, ms, size, pending).tree)
  {
    hide Off, Spill, OffRun, Live;
    OnTopTree(p, s.tree, ms);
    forall c: Miscount ensures Off(c, Send(p, s, ms, size, pending).tree) == 0 {
      OffOnTop(c, s.tree, ms);
      SpillHeals(p, Sent(s, ms, size, pending), c);
    }
  }

  lemma SendOneExact(p: Params, s: State, m: Message, size: int, pending: int)
    requires Good(p, s) && s.tree.Node? && Point([m]) && HistOn(s.tree, [m]) && Exact(s.tree)
    requires forall c: Miscount :: OffStep(c, m, Lookup(s.tree, m.key)) == 0
    ensures Exact(Send(p, s, [m], size, pending).tree)
  {
    hide Exact, Send, Lookup, Live, OffStep, OffRun;
    LiveGet(p, s.tree);
    forall c: Miscount ensures OffRun(c, [m], Live(s.tree)) == 0 {
      OffRunOne(c, m, Live(s.tree));
      assert Get(Live(s.tree), m.key) == Lookup(s.tree, m.key);
    }
    SendExact(p, s, [m], size, pending);
  }

  lemma LeafExact(p: Params, pg: Page)
    requires p.Valid() && |pg.keys| == |pg.vals|
    ensures Exact(GrowRoot(p, Leaf(pg)))
  {
    var t := GrowRoot(p, Leaf(pg));
    assert Settled(t);
    forall c: Miscount ensures Off(c, t) == 0 {
      SettledOff(c, t);
    }
  }

  lemma PutExact(p: Params, s: State, k: K, v: V, knownNew: bool)
    requires Good(p, s) && Exact(s.tree) && Lookup(s.tree, k).None?
    ensures Exact(PutStep(p, s, k, v, knownNew).tree)
  {
    hide Exact, Send, Lookup, GrowRoot, Accounts;
    if s.tree.Leaf? {
      LeafExact(p, PageStep(s.tree.page, Put(k, v, false)));
    } else {
      var isNew := TakenForNew(s, k, knownNew);
      if !isNew {
        UncountedIsLive(p, s, k, knownNew);
      }
      OneOnTop(p, s, Put(k, v, isNew));
      SendOneExact(p, s, Put(k, v, isNew), if isNew then 1 else 0, 0);
    }
  }

  lemma UpsertExact(p: Params, s: State, k: K, fn: UpsertFn)
    requires Good(p, s) && Exact(s.tree) && Lookup(s.tree, k).Some?
    ensures Exact(UpsertStep(p, s, k, fn).tree)
  {
    hide Exact, Send, Lookup, GrowRoot, Accounts;
    if s.tree.Leaf? {
      LeafExact(p, PageStep(s.tree.page, Upsert(k, fn)));
    } else {
      OneOnTop(p, s, Upsert(k, fn));
      SendOneExact(p, s, Upsert(k, fn), 0, 0);
    }
  }

  lemma DeleteExact(p: Params, s: State, k: K)
    requires Good(p, s) && Exact(s.tree)
    ensures Exact(DeleteStep(p, s, k).0.tree)
  {
    if s.tree.Leaf? {
      BareExact(PageStep(s.tree.page, Delete(k)));
    } else if Lookup(s.tree, k).Some? {
      OneOnTop(p, s, Delete(k));
      SendOneExact(p, s, Delete(k), -1, 1);
    }
  }

  lemma BareExact(pg: Page)
    requires |pg.keys| == |pg.vals|
    ensures Exact(Leaf(pg))
  {}

  lemma DeleteKeysExact(p: Params, s: State, keys: seq<K>)
    requires Good(p, s) && Exact(s.tree) && Increasing(keys)
    requires forall k :: k in keys ==> Lookup(s.tree, k).Some?
    ensures Exact(DeleteKeys(p, s, keys).tree)
  {
    hide Exact, Send, Lookup, Deleting, HistOn, OffRun;
    if s.tree.Leaf? {
      BareExact(PageRun(s.tree.page, Deleting(keys)));
    } else if keys != [] {
      DeletingReady(p, s, keys);
      forall c: Miscount ensures OffRun(c, Deleting(keys), Live(s.tree)) == 0 {
        OffRunDeletes(c, keys, Live(s.tree));
      }
      SendExact(p, s, Deleting(keys), -|keys|, |keys|);
    }
  }

  lemma DeleteRangeExact(p: Params, s: State, lo: K, hi: K)
    requires Good(p, s) && Exact(s.tree)
    ensures Exact(DeleteRangeStep(p, s, lo, hi).0.tree)
  {
    hide DeleteKeys, Exact, Accounts, Lookup;
    if lo < hi {
      DoomedKeys(p, s.tree, lo, hi);
      DeleteKeysExact(p, s, Ascending(LiveIn(s.tree, Slice(lo, hi))));
    }
  }

  /** An operation that says of its key what the map says: a Put that the key is new, an Upsert
      that it is not. */
  predicate Apt(op: Op, m: map<K, V>) {
    (op.DoPut? ==> op.key !in m) && (op.DoUpsert? ==> op.key in m)
  }

  lemma NextExact(p: Params, s: State, op: Op)
    requires Good(p, s) && Exact(s.tree) && Apt(op, Live(s.tree))
    ensures Exact(Next(p, s, op).0.tree)
  {
    hide PutStep, UpsertStep, DeleteStep, DeleteRangeStep, Exact, Accounts, Live, Lookup;
    LiveGet(p, s.tree);
    match op
    case DoPut(k, v) =>
      assert Get(Live(s.tree), k) == Lookup(s.tree, k);
      PutExact(p, s, k, v, false);
    case DoPutIfAbsent(k, v) =>
      if Lookup(s.tree, k).None? {
        PutExact(p, s, k, v, true);
      }
    case DoUpsert(k, fn) =>
      assert Get(Live(s.tree), k) == Lookup(s.tree, k);
      UpsertExact(p, s, k, fn);
    case DoDelete(k) => DeleteExact(p, s, k);
    case DoDeleteRange(lo, hi) => DeleteRangeExact(p, s, lo, hi);
    case DoGet(k) =>
    case DoContains(k) =>
    case DoClear => BareExact(EMPTY);
  }

  ghost predicate AllApt(ops: seq<Op>) {
    forall i :: 0 <= i < |ops| ==> Apt(ops[i], MapRun(ops[..i]).0)
  }

  lemma AllAptIf(ops: seq<Op>)
    requires forall i :: 0 <= i < |ops| && ops[i].DoPut? ==> ops[i].key !in MapRun(ops[..i]).0
    requires forall i :: 0 <= i < |ops| && ops[i].DoUpsert? ==> ops[i].key in MapRun(ops[..i]).0
    ensures AllApt(ops)
  {
    hide MapRun;
  }

  /** If every Put of a run is of a new key and every Upsert of a present one, Len is right at
      its end. PutIfAbsent and the deletions are not restricted. */
  lemma LenExactApt(p: Params, ops: seq<Op>)
    requires p.Valid()
    requires forall i :: 0 <= i < |ops| && ops[i].DoPut? ==> ops[i].key !in MapRun(ops[..i]).0
    requires forall i :: 0 <= i < |ops| && ops[i].DoUpsert? ==> ops[i].key in MapRun(ops[..i]).0
    ensures Off(Twice, Run(p, ops).0.tree) == Off(Missed, Run(p, ops).0.tree) == 0
    ensures Run(p, ops).0.size == |MapRun(ops).0|
  {
    hide Run, MapRun, Off;
    AllAptIf(ops);
    AptExact(p, ops);
  }

  lemma {:induction false} AptExact(p: Params, ops: seq<Op>)
    requires p.Valid() && AllApt(ops)
    ensures Exact(Run(p, ops).0.tree)
    ensures Run(p, ops).0.size == |MapRun(ops).0|
  {
    hide Exact, Next, Good, Live;
    RunRefines(p, ops);
    if ops == [] {
      BareExact(EMPTY);
    } else {
      var ops', op := ops[..|ops| - 1], ops[|ops| - 1];
      AptPrefix(ops);
      AptExact(p, ops');
      RunRefines(p, ops');
      NextExact(p, Run(p, ops').0, op);
    }
    ExactSize(p, ops);
  }

  lemma AptPrefix(ops: seq<Op>)
    requires AllApt(ops) && ops != []
    ensures AllApt(ops[..|ops| - 1]) && Apt(ops[|ops| - 1], MapRun(ops[..|ops| - 1]).0)
  {
    var ops' := ops[..|ops| - 1];
    forall i | 0 <= i < |ops'| ensures Apt(ops'[i], MapRun(ops'[..i]).0) {
      assert ops'[..i] == ops[..i];
    }
  }

  lemma ExactSize(p: Params, ops: seq<Op>)
    requires p.Valid() && Exact(Run(p, ops).0.tree)
    ensures Run(p, ops).0.size == |MapRun(ops).0|
  {
    hide Run, MapRun, Off;
    RunSizeLaw(p, ops);
  }

  // ---------- Runs on which Len is wrong ----------

  /** Putting an absent key twice into a root buffer with room counts it twice. */
  lemma TwoPutsCountTwice(p: Params, s: State, k: K, v: V)
    requires Good(p, s) && s.tree.Node? && s.pending == 0
    requires |s.tree.buf| + 2 <= p.bufferCap && Lookup(s.tree, k).None?
    ensures var s' := PutStep(p, PutStep(p, s, k, v, false), k, v, false);
      && s'.size == s.size + 2
      && Live(s'.tree) == Live(s.tree)[k := v]
      && |Live(s'.tree)| == |Live(s.tree)| + 1
  {
    var s1 := PutStep(p, s, k, v, false);
    assert Base(s.tree, k).None? by {
      if Base(s.tree, k).Some? {
        LeafCheckSound(p, s, k);
      }
    }
    OnTopPathAt(s.tree, [Put(k, v, true)], k);
    NextRefines(p, s, DoPut(k, v));
    NextRefines(p, s1, DoPut(k, v));
    LiveGet(p, s.tree);
    assert Get(Live(s.tree), k) == Lookup(s.tree, k);
    SetSize(Live(s.tree), k, Some(v));
  }

  function Puts(keys: seq<K>, v: V): seq<Op> {
    if keys == [] then [] else Puts(keys[..|keys| - 1], v) + [DoPut(keys[|keys| - 1], v)]
  }

  function Same(n: nat, v: V): (vs: seq<V>)
    ensures |vs| == n
  {
    if n == 0 then [] else Same(n - 1, v) + [v]
  }

  /** A run is its operations one after the other, each answer in its place. */
  lemma RunSnoc(p: Params, ops: seq<Op>, op: Op)
    requires p.Valid()
    ensures Run(p, []) == (START, []) && MapRun([]) == (map[], [])
    ensures Run(p, ops + [op]).0 == Next(p, Run(p, ops).0, op).0
    ensures Run(p, ops + [op]).1 == Run(p, ops).1 + [Next(p, Run(p, ops).0, op).1]
    ensures MapRun(ops + [op]).0 == MapNext(MapRun(ops).0, op).0
    ensures MapRun(ops + [op]).1 == MapRun(ops).1 + [MapNext(MapRun(ops).0, op).1]
  {
    assert (ops + [op])[..|ops|] == ops;
  }

  /** Ascending puts fill the first leaf, up to its capacity. */
  lemma {:induction false} PutsFill(p: Params, keys: seq<K>, v: V)
    requires p.Valid() && Increasing(keys) && |keys| <= p.leafCap
    ensures Run(p, Puts(keys, v)).0 == State(Leaf(Page(keys, Same(|keys|, v))), |keys|, 0, 0, 0, 0, 0)
  {
    hide Run, Next, PagePut, Present;
    if keys == [] {
      RunNothing(p);
    } else {
      var keys', k := keys[..|keys| - 1], keys[|keys| - 1];
      PutsFill(p, keys', v);
      RunSnoc(p, Puts(keys', v), DoPut(k, v));
      PutLast(Page(keys', Same(|keys'|, v)), k, v);
      PutInRoom(p, Run(p, Puts(keys', v)).0, k, v);
      assert keys == keys' + [k];
    }
  }

  lemma RunNothing(p: Params)
    requires p.Valid()
    ensures Run(p, []).0 == START
  {}

  lemma PutInRoom(p: Params, s: State, k: K, v: V)
    requires p.Valid() && Arity(s.tree) && s.tree.Leaf? && |s.tree.page.keys| < p.leafCap
    requires !Present(s.tree.page.keys, k) && |PagePut(s.tree.page, k, v).keys| <= p.leafCap
    ensures Next(p, s, DoPut(k, v)).0 == s.(tree := Leaf(PagePut(s.tree.page, k, v)), size := s.size + 1)
  {}

  lemma PutLast(pg: Page, k: K, v: V)
    requires Sound(pg) && forall i :: 0 <= i < |pg.keys| ==> pg.keys[i] < k
    ensures !Present(pg.keys, k) && PagePut(pg, k, v) == Page(pg.keys + [k], pg.vals + [v])
  {
    LocateUnique(pg.keys, k, |pg.keys|);
    assert InsertAt(pg.keys, |pg.keys|, k) == pg.keys + [k];
    assert InsertAt(pg.vals, |pg.vals|, v) == pg.vals + [v];
  }

  /** One more put splits the leaf under a root with an empty buffer. */
  lemma PutsSplit(p: Params, keys: seq<K>, v: V)
    requires p.Valid() && Increasing(keys) && |keys| == p.leafCap + 1
    ensures var s := Run(p, Puts(keys, v)).0;
      s.tree.Node? && s.tree.buf == [] && s.size == |keys| && s.pending == 0
  {
    var keys', k := keys[..|keys| - 1], keys[|keys| - 1];
    PutsFill(p, keys', v);
    RunSnoc(p, Puts(keys', v), DoPut(k, v));
    PutLast(Page(keys', Same(|keys'|, v)), k, v);
  }

  lemma MapRunSnoc(ops: seq<Op>, k: K, v: V)
    ensures MapRun(ops + [DoPut(k, v)]).0 == MapRun(ops).0[k := v]
  {
    assert (ops + [DoPut(k, v)])[..|ops|] == ops;
  }

  lemma {:induction false} PutsMap(keys: seq<K>, v: V)
    requires Increasing(keys)
    ensures forall k :: k in MapRun(Puts(keys, v)).0 <==> k in keys
    ensures |MapRun(Puts(keys, v)).0| == |keys|
  {
    hide MapRun;
    if keys == [] {
      MapRunNothing();
    } else {
      var keys', k := keys[..|keys| - 1], keys[|keys| - 1];
      PutsMap(keys', v);
      MapRunSnoc(Puts(keys', v), k, v);
      assert keys == keys' + [k];
      SetSize(MapRun(Puts(keys', v)).0, k, Some(v));
    }
  }

  lemma MapRunNothing()
    ensures MapRun([]).0 == map[]
  {}

  /** So with room for two messages, Len is one too large after putting enough keys to split
      the first leaf and then one more key twice. */
  lemma LenTooLarge(p: Params, keys: seq<K>, k: K, v: V)
    requires p.Valid() && p.bufferCap >= 2
    requires Increasing(keys) && |keys| == p.leafCap + 1 && k !in keys
    ensures var ops := Puts(keys, v) + [DoPut(k, v)] + [DoPut(k, v)];
      Run(p, ops).0.size == |MapRun(ops).0| + 1
  {
    var ops := Puts(keys, v);
    var s := Run(p, ops).0;
    PutsSplit(p, keys, v);
    PutsMap(keys, v);
    RunRefines(p, ops);
    LiveGet(p, s.tree);
    assert Get(Live(s.tree), k) == Lookup(s.tree, k);
    TwoPutsCountTwice(p, s, k, v);
    RunSnoc(p, ops, DoPut(k, v));
    RunSnoc(p, ops + [DoPut(k, v)], DoPut(k, v));
  }

  // ---------- Work ----------

  lemma {:induction false} WorkNat(p: Params, t: Tree, r: Range, h: nat, min: nat, max: nat)
    requires Shape(p, t, r, h, min, max)
    ensures Total(Work, t, h) >= 0
    decreases t
  {
    if t.Node? {
      WorksNat(p, t, r, h, min, max, |t.kids|);
      assert t.kids[..|t.kids|] == t.kids;
    }
  }

  lemma {:induction false} WorksNat(p: Params, t: Tree, r: Range, h: nat, min: nat, max: nat, n: nat)
    requires Shape(p, t, r, h, min, max) && t.Node? && n <= |t.kids|
    ensures Totals(Work, t.kids[..n], h - 1) >= 0
    decreases t, n
  {
    if n > 0 {
      assert t.kids[..n][..n - 1] == t.kids[..n - 1];
      WorksNat(p, t, r, h, min, max, n - 1);
      WorkNat(p, t.kids[n - 1], KidSpan(r, t.pivots, n - 1), h - 1, p.Half(), p.fanout);
    }
  }

  lemma {:induction false} LostNat(p: Params, ops: seq<Op>)
    requires p.Valid()
    ensures Run(p, ops).0.lost >= 0
    ensures (forall op :: op in ops ==> !op.DoClear?) ==> Run(p, ops).0.lost == 0
  {
    hide Next, Total, Height, Accounts, MapRun, Live, TreeHist;
    if ops != [] {
      var ops', op := ops[..|ops| - 1], ops[|ops| - 1];
      LostNat(p, ops');
      RunRefines(p, ops');
      var s := Run(p, ops').0;
      assert ops == ops' + [op];
      WorkNat(p, s.tree, EVERYTHING, Height(s.tree), 2, p.fanout);
      NextLost(p, s, op);
    }
  }

  lemma NextLost(p: Params, s: State, op: Op)
    requires p.Valid() && Arity(s.tree)
    ensures Next(p, s, op).0.lost ==
      s.lost + if op.DoClear? then Total(Work, s.tree, Height(s.tree)) else 0
  {}

  lemma WorkOf(p: Params, s: State)
    requires Good(p, s)
    ensures Total(Work, s.tree, Height(s.tree)) >= 0
  {
    WorkNat(p, s.tree, EVERYTHING, Height(s.tree), 2, p.fanout);
  }

  /** What is paid: for each message the height of the root at that moment. */
  lemma SendCredit(p: Params, s: State, ms: seq<Message>, size: int, pending: int)
    requires p.Valid() && Arity(s.tree) && s.tree.Node?
    ensures Send(p, s, ms, size, pending).credit == s.credit + |ms| * Height(s.tree)
  {}

  /** The flush bound. Every message sent is paid for by the height of the root at that moment.
      Of that, each move down used up one, each waiting message still has its node's height to
      go, and the rest was thrown away by Clear; each call of flushNode moved at least Quota
      messages. So the calls are at most the heights paid, divided by the quota. */
  lemma RunWork(p: Params, ops: seq<Op>)
    requires p.Valid()
    ensures var s := Run(p, ops).0;
      && s.moves + Total(Work, s.tree, Height(s.tree)) + s.lost == s.credit
      && ((forall op :: op in ops ==> !op.DoClear?) ==> s.lost == 0)
      && s.calls * ((p.bufferCap + p.fanout) / p.fanout) <= s.moves <= s.credit
  {
    hide Run, Total, Height, Quota, GoodTree, MapRun;
    RunRefines(p, ops);
    LostNat(p, ops);
    QuotaIs(p);
    var s := Run(p, ops).0;
    WorkOf(p, s);
  }

  // ---------- Occupancy ----------

  ghost function LeafCount(t: Tree): nat
    decreases t
  {
    match t
    case Leaf(_) => 1
    case Node(_, kids, _, _) => LeafCounts(kids)
  }

  ghost function LeafCounts(kids: seq<Tree>): nat
    decreases kids
  {
    if kids == [] then 0 else LeafCounts(kids[..|kids| - 1]) + LeafCount(kids[|kids| - 1])
  }

  /** A subtree of height h has at least min * Half^(h-1) leaves, min being the fewest children
      its top may have. */
  lemma {:induction false} Bushy(p: Params, t: Tree, r: Range, h: nat, min: nat, max: nat)
    requires Shape(p, t, r, h, min, max)
    ensures LeafCount(t) >= if h == 0 then 1 else min * Power(p.Half(), h - 1)
    decreases t
  {
    if t.Node? {
      KidsBushy(p, t, r, h, min, max, |t.kids|);
      assert t.kids[..|t.kids|] == t.kids;
      MulMono(min, |t.kids|, Power(p.Half(), h - 1));
    }
  }

  lemma {:induction false} KidsBushy(p: Params, t: Tree, r: Range, h: nat, min: nat, max: nat, n: nat)
    requires Shape(p, t, r, h, min, max) && t.Node? && n <= |t.kids|
    ensures LeafCounts(t.kids[..n]) >= n * Power(p.Half(), h - 1)
    decreases t, n
  {
    hide LeafCount;
    if n > 0 {
      assert t.kids[..n][..n - 1] == t.kids[..n - 1];
      KidsBushy(p, t, r, h, min, max, n - 1);
      Bushy(p, t.kids[n - 1], KidSpan(r, t.pivots, n - 1), h - 1, p.Half(), p.fanout);
      MulNext(n, Power(p.Half(), h - 1));
    }
  }

  /** Over leaves alone the count is that of the children. */
  lemma {:induction false} LeafCountFlat(kids: seq<Tree>)
    requires forall i :: 0 <= i < |kids| ==> kids[i].Leaf?
    ensures LeafCounts(kids) == |kids|
    decreases kids
  {
    if kids != [] {
      LeafCountFlat(kids[..|kids| - 1]);
    }
  }

  /** After every run, a tree of height h >= 1 has at least 2 * Half^(h-1) leaves. */
  lemma RunBushy(p: Params, ops: seq<Op>)
    requires p.Valid() && Run(p, ops).0.tree.Node?
    ensures var t := Run(p, ops).0.tree;
      LeafCount(t) >= 2 * Power((p.fanout + 1) / 2, Height(t) - 1)
  {
    hide Run, Power, LeafCount, Accounts, TreeHist, MapRun;
    RunRefines(p, ops);
    HalfIs(p);
    var t := Run(p, ops).0.tree;
    Bushy(p, t, EVERYTHING, Height(t), 2, p.fanout);
  }

  lemma HalfIs(p: Params)
    ensures p.Half() == (p.fanout + 1) / 2
  {}
}
