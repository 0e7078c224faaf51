/** The logical map of a tree as a finite map, and the law tying the size counter to the
    number of live keys. */
module Contents {
  import opened Seqs
  import opened Messages
  import opened Leaves
  import opened Trees
  import opened Flushing
  import opened Ledgers

  function Get(m: map<K, V>, k: K): Option<V> {
    if k in m then Some(m[k]) else None
  }

  function Set(m: map<K, V>, k: K, o: Option<V>): map<K, V> {
    match o
    case Some(v) => m[k := v]
    case None => m - {k}
  }

  /** Messages of any keys, oldest first, on a plain map. */
  function RunMap(ms: seq<Message>, m: map<K, V>): map<K, V> {
    if ms == [] then m
    else
      var m', x := RunMap(ms[..|ms| - 1], m), ms[|ms| - 1];
      Set(m', x.key, Step(x, Get(m', x.key)))
  }

  function PageMap(pg: Page): map<K, V>
    requires |pg.keys| == |pg.vals|
  {
    map k | k in pg.keys && Present(pg.keys, k) :: pg.vals[Locate(pg.keys, k)]
  }

  /** The logical map: the children's maps together, under the messages of the buffer. */
  ghost function Live(t: Tree): map<K, V>
    requires Arity(t)
    decreases t
  {
    match t
    case Leaf(pg) => PageMap(pg)
    case Node(_, kids, buf, _) => RunMap(buf, Merged(kids))
  }

  ghost function Merged(kids: seq<Tree>): map<K, V>
    requires forall i :: 0 <= i < |kids| ==> Arity(kids[i])
    decreases kids
  {
    if kids == [] then map[] else Merged(kids[..|kids| - 1]) + Live(kids[|kids| - 1])
  }

  lemma {:induction false} GetRun(ms: seq<Message>, m: map<K, V>, k: K)
    ensures Get(RunMap(ms, m), k) == Fold(At(ms, k), Get(m, k))
  {
    if ms != [] {
      var ms', x := ms[..|ms| - 1], ms[|ms| - 1];
      GetRun(ms', m, k);
      assert ms == ms' + [x];
      AtSnoc(ms', x, k);
      FoldSnoc(At(ms', k), x, Get(m, k));
    }
  }

  lemma GetPage(pg: Page, k: K)
    requires Sound(pg)
    ensures Get(PageMap(pg), k) == Val(pg, k)
  {
    PresentIn(pg.keys, k);
  }

  /** The finite map and the walk from the root agree on every key. */
  lemma {:induction false} LiveIsLookup(p: Params, t: Tree, r: Range, h: nat, min: nat, max: nat, k: K)
    requires Shape(p, t, r, h, min, max) && HalfOpen(r) && Arity(t)
    ensures Get(Live(t), k) == Lookup(t, k)
    decreases t
  {
    match t
    case Leaf(pg) => GetPage(pg, k);
    case Node(pivots, kids, buf, _) =>
      MergedIsLookup(p, t, r, h, min, max, |kids|, k);
      assert kids[..|kids|] == kids;
      GetRun(buf, Merged(kids), k);
      LookupNode(t, k);
  }

  lemma MergedNone(kids: seq<Tree>)
    requires forall i :: 0 <= i < |kids| ==> Arity(kids[i])
    ensures Merged(kids[..0]) == map[]
  {}

  lemma GetNothing(k: K)
    ensures Get(map[], k) == None
  {}

  lemma GetPlus(a: map<K, V>, b: map<K, V>, k: K)
    ensures Get(a + b, k) == if Get(b, k).Some? then Get(b, k) else Get(a, k)
  {}

  lemma MergedNext(kids: seq<Tree>, n: nat)
    requires 0 < n <= |kids| && forall i :: 0 <= i < |kids| ==> Arity(kids[i])
    ensures Merged(kids[..n]) == Merged(kids[..n - 1]) + Live(kids[n - 1])
  {
    assert kids[..n][..n - 1] == kids[..n - 1];
  }

  lemma {:induction false} MergedIsLookup(
      p: Params, t: Tree, r: Range, h: nat, min: nat, max: nat, n: nat, k: K)
    requires Shape(p, t, r, h, min, max) && HalfOpen(r) && Arity(t) && t.Node? && n <= |t.kids|
    ensures Get(Merged(t.kids[..n]), k) ==
      if Route(t.pivots, k) < n then Lookup(t.kids[Route(t.pivots, k)], k) else None
    decreases t, n
  {
    hide Lookup, Live, Route, Merged, Get, Shape;
    MergedNone(t.kids);
    GetNothing(k);
    if n > 0 {
      MergedNext(t.kids, n);
      GetPlus(Merged(t.kids[..n - 1]), Live(t.kids[n - 1]), k);
      MergedIsLookup(p, t, r, h, min, max, n - 1, k);
      KidIsLookup(p, t, r, h, min, max, n - 1, k);
    }
  }

  lemma {:induction false} KidIsLookup(
      p: Params, t: Tree, r: Range, h: nat, min: nat, max: nat, i: nat, k: K)
    requires Shape(p, t, r, h, min, max) && HalfOpen(r) && Arity(t) && t.Node? && i < |t.kids|
    ensures Get(Live(t.kids[i]), k) == if Route(t.pivots, k) == i then Lookup(t.kids[i], k) else None
    decreases t, 0
  {
    hide Lookup, Live, Route, Get;
    LiveIsLookup(p, t.kids[i], KidSpan(r, t.pivots, i), h - 1, p.Half(), p.fanout, k);
    if Route(t.pivots, k) != i {
      Elsewhere(p, t, r, h, min, max, i, k);
    }
  }

  lemma MapEqual(a: map<K, V>, b: map<K, V>)
    requires forall k :: Get(a, k) == Get(b, k)
    ensures a == b
  {
    forall k ensures k in a <==> k in b {
      assert Get(a, k) == Get(b, k);
    }
    forall k | k in a ensures a[k] == b[k] {
      assert Get(a, k) == Get(b, k);
    }
  }

  // ---------- The size law ----------

  /** How the size counter is wrong while messages wait: Twice for a counted put over a live
      key, Missed for an upsert over an absent one. */
  datatype Miscount = Twice | Missed

  function OffStep(c: Miscount, m: Message, o: Option<V>): nat {
    match c
    case Twice => if m.Put? && m.counted && o.Some? then 1 else 0
    case Missed => if m.Upsert? && o.None? then 1 else 0
  }

  function OffRun(c: Miscount, ms: seq<Message>, m: map<K, V>): nat {
    if ms == [] then 0
    else
      var m', x := RunMap(ms[..|ms| - 1], m), ms[|ms| - 1];
      OffRun(c, ms[..|ms| - 1], m) + OffStep(c, x, Get(m', x.key))
  }

  /** Buffered messages the counter is wrong about, over the whole tree. */
  ghost function Off(c: Miscount, t: Tree): nat
    requires Arity(t)
    decreases t
  {
    match t
    case Leaf(_) => 0
    case Node(_, kids, buf, _) => Offs(c, kids) + OffRun(c, buf, Merged(kids))
  }

  ghost function Offs(c: Miscount, kids: seq<Tree>): nat
    requires forall i :: 0 <= i < |kids| ==> Arity(kids[i])
    decreases kids
  {
    if kids == [] then 0 else Offs(c, kids[..|kids| - 1]) + Off(c, kids[|kids| - 1])
  }

  lemma SetSize(m: map<K, V>, k: K, o: Option<V>)
    ensures |Set(m, k, o)| == |m| + (if o.Some? && k !in m then 1 else 0) - (if o.None? && k in m then 1 else 0)
  {
    if o.Some? {
      assert m[k := o.value].Keys == m.Keys + {k};
      assert |m[k := o.value].Keys| == |m[k := o.value]| && |m.Keys| == |m|;
      assert k in m ==> m.Keys + {k} == m.Keys;
    } else {
      assert (m - {k}).Keys == m.Keys - {k};
      assert |(m - {k}).Keys| == |m - {k}| && |m.Keys| == |m|;
      assert k !in m ==> m.Keys - {k} == m.Keys;
    }
  }

  ghost predicate MapHist(ms: seq<Message>, m: map<K, V>) {
    forall k :: Hist(At(ms, k), Get(m, k))
  }

  lemma MapHistPrefix(ms: seq<Message>, x: Message, m: map<K, V>)
    requires MapHist(ms + [x], m)
    ensures MapHist(ms, m)
    ensures NeedsLive(x) ==> x.key in RunMap(ms, m)
  {
    forall k ensures Hist(At(ms, k), Get(m, k)) {
      AtSnoc(ms, x, k);
      assert Hist(At(ms + [x], k), Get(m, k));
      HistSnoc(At(ms, k), x, Get(m, k));
    }
    AtSnoc(ms, x, x.key);
    HistSnoc(At(ms, x.key), x, Get(m, x.key));
    assert Hist(At(ms + [x], x.key), Get(m, x.key));
    GetRun(ms, m, x.key);
  }

  /** One buffer's share of the size law. */
  lemma {:induction false} RunSize(ms: seq<Message>, m: map<K, V>)
    requires MapHist(ms, m) && Point(ms)
    ensures |m| + Counted(ms) - Deletes(ms)
      == |RunMap(ms, m)| + OffRun(Twice, ms, m) - OffRun(Missed, ms, m)
  {
    if ms != [] {
      var ms', x := ms[..|ms| - 1], ms[|ms| - 1];
      assert ms == ms' + [x];
      MapHistPrefix(ms', x, m);
      RunSize(ms', m);
      var m' := RunMap(ms', m);
      assert x in ms;
      SetSize(m', x.key, Step(x, Get(m', x.key)));
    }
  }

  lemma KidHist(p: Params, t: Tree, i: nat, r: Range, h: nat, min: nat, max: nat)
    requires Shape(p, t, r, h, min, max) && HalfOpen(r) && t.Node? && i < |t.kids|
    requires Arity(t) && TreeHist(t)
    ensures TreeHist(t.kids[i])
  {
    BucketHist(p, t, i, r, h, min, max);
    var c := t.kids[i];
    forall k ensures HistAt(c, k) {
      assert Hist(Path(c, k) + At(Bucket(t, i), k), Base(c, k));
      HistConcat(Path(c, k), At(Bucket(t, i), k), Base(c, k));
    }
  }

  lemma BufferHist(p: Params, t: Tree, r: Range, h: nat, min: nat, max: nat)
    requires Shape(p, t, r, h, min, max) && HalfOpen(r) && t.Node? && Arity(t) && TreeHist(t)
    ensures MapHist(t.buf, Merged(t.kids))
  {
    assert t.kids[..|t.kids|] == t.kids;
    forall k ensures Hist(At(t.buf, k), Get(Merged(t.kids), k)) {
      MergedIsLookup(p, t, r, h, min, max, |t.kids|, k);
      var c := t.kids[Route(t.pivots, k)];
      assert HistAt(t, k);
      HistConcat(Path(c, k), At(t.buf, k), Base(c, k));
    }
  }

  lemma MapPlusSize(a: map<K, V>, b: map<K, V>)
    requires a.Keys !! b.Keys
    ensures |a + b| == |a| + |b|
  {
    assert (a + b).Keys == a.Keys + b.Keys;
    assert |(a + b).Keys| == |a + b| && |a.Keys| == |a| && |b.Keys| == |b|;
  }

  lemma PageSize(pg: Page)
    requires Sound(pg)
    ensures |PageMap(pg)| == |pg.keys|
  {
    var m := PageMap(pg);
    assert m.Keys == set k | k in pg.keys by {
      forall k ensures k in m.Keys <==> k in pg.keys {
        PresentIn(pg.keys, k);
      }
    }
    KeyCount(pg.keys);
    assert |m.Keys| == |m|;
  }

  lemma {:induction false} KeyCount(s: seq<K>)
    requires Increasing(s)
    ensures |set k | k in s| == |s|
  {
    if s != [] {
      var s', x := s[..|s| - 1], s[|s| - 1];
      KeyCount(s');
      assert s == s' + [x];
      assert (set k | k in s) == (set k | k in s') + {x};
      assert x !in s';
    }
  }

  /** The law: counter value = live keys + counted puts over live keys - upserts over absent
      keys, for every tree in shape whose histories are in order. */
  lemma {:induction false} SizeLaw(p: Params, t: Tree, r: Range, h: nat, min: nat, max: nat)
    requires Shape(p, t, r, h, min, max) && HalfOpen(r) && Arity(t) && TreeHist(t)
    ensures Total(Size, t, h) == |Live(t)| + Off(Twice, t) - Off(Missed, t)
    decreases t
  {
    match t
    case Leaf(pg) => PageSize(pg);
    case Node(pivots, kids, buf, _) =>
      BufferHist(p, t, r, h, min, max);
      KidsLaw(p, t, r, h, min, max, |kids|);
      assert kids[..|kids|] == kids;
      RunSize(buf, Merged(kids));
  }

  lemma {:induction false} KidsLaw(p: Params, t: Tree, r: Range, h: nat, min: nat, max: nat, n: nat)
    requires Shape(p, t, r, h, min, max) && HalfOpen(r) && Arity(t) && TreeHist(t) && t.Node? && n <= |t.kids|
    ensures Totals(Size, t.kids[..n], h - 1)
      == |Merged(t.kids[..n])| + Offs(Twice, t.kids[..n]) - Offs(Missed, t.kids[..n])
    decreases t, n
  {
    hide Live, Total, Off, Route, TreeHist;
    if n > 0 {
      var c, rest := t.kids[n - 1], t.kids[..n - 1];
      assert t.kids[..n][..n - 1] == rest;
      KidsLaw(p, t, r, h, min, max, n - 1);
      KidHist(p, t, n - 1, r, h, min, max);
      SizeLaw(p, c, KidSpan(r, t.pivots, n - 1), h - 1, p.Half(), p.fanout);
      KidsApart(p, t, r, h, min, max, n);
      MapPlusSize(Merged(rest), Live(c));
    }
  }

  lemma KidsApart(p: Params, t: Tree, r: Range, h: nat, min: nat, max: nat, n: nat)
    requires Shape(p, t, r, h, min, max) && HalfOpen(r) && Arity(t) && t.Node? && 0 < n <= |t.kids|
    ensures Merged(t.kids[..n - 1]).Keys !! Live(t.kids[n - 1]).Keys
  {
    hide Lookup, Path, Base, Live, Merged, Route;
    var c, span := t.kids[n - 1], KidSpan(r, t.pivots, n - 1);
    forall k | k in Live(c) ensures k !in Merged(t.kids[..n - 1]) {
      MergedIsLookup(p, t, r, h, min, max, n - 1, k);
      LiveIsLookup(p, c, span, h - 1, p.Half(), p.fanout, k);
      if Route(t.pivots, k) != n - 1 {
        Elsewhere(p, t, r, h, min, max, n - 1, k);
      }
    }
  }

  // ---------- When the counter is exact, or never too small ----------

  /** No message waits anywhere. */
  ghost predicate Settled(t: Tree)
    decreases t
  {
    t.Node? ==> t.buf == [] && forall i :: 0 <= i < |t.kids| ==> Settled(t.kids[i])
  }

  lemma {:induction false} SettledOff(c: Miscount, t: Tree)
    requires Arity(t) && Settled(t)
    ensures Off(c, t) == 0
    decreases t
  {
    if t.Node? {
      SettledOffs(c, t.kids);
    }
  }

  lemma {:induction false} SettledOffs(c: Miscount, kids: seq<Tree>)
    requires forall i :: 0 <= i < |kids| ==> Arity(kids[i]) && Settled(kids[i])
    ensures Offs(c, kids) == 0
    decreases kids
  {
    if kids != [] {
      SettledOff(c, kids[|kids| - 1]);
      SettledOffs(c, kids[..|kids| - 1]);
    }
  }

  /** No upsert waits for any key. */
  ghost predicate NoUpserts(t: Tree)
    requires Arity(t)
  {
    forall k, m :: m in Path(t, k) ==> !m.Upsert?
  }

  lemma {:induction false} OffRunNone(ms: seq<Message>, m: map<K, V>)
    requires forall x :: x in ms ==> !x.Upsert?
    ensures OffRun(Missed, ms, m) == 0
  {
    if ms != [] {
      OffRunNone(ms[..|ms| - 1], m);
    }
  }

  lemma {:induction false} NoUpsertsOff(p: Params, t: Tree, r: Range, h: nat, min: nat, max: nat)
    requires Shape(p, t, r, h, min, max) && HalfOpen(r) && Arity(t) && NoUpserts(t)
    ensures Off(Missed, t) == 0
    decreases t
  {
    if t.Node? {
      forall x | x in t.buf ensures !x.Upsert? {
        FilterMembers(t.buf, Within(Only(x.key)));
        assert x in Path(t, x.key);
      }
      OffRunNone(t.buf, Merged(t.kids));
      NoUpsertsOffs(p, t, r, h, min, max, |t.kids|);
      assert t.kids[..|t.kids|] == t.kids;
    }
  }

  lemma {:induction false} NoUpsertsOffs(p: Params, t: Tree, r: Range, h: nat, min: nat, max: nat, n: nat)
    requires Shape(p, t, r, h, min, max) && HalfOpen(r) && Arity(t) && NoUpserts(t) && t.Node? && n <= |t.kids|
    ensures Offs(Missed, t.kids[..n]) == 0
    decreases t, n
  {
    if n > 0 {
      var c, span := t.kids[n - 1], KidSpan(r, t.pivots, n - 1);
      assert t.kids[..n][..n - 1] == t.kids[..n - 1];
      NoUpsertsOffs(p, t, r, h, min, max, n - 1);
      forall k, m | m in Path(c, k) ensures !m.Upsert? {
        if Route(t.pivots, k) != n - 1 {
          Elsewhere(p, t, r, h, min, max, n - 1, k);
        } else {
          assert m in Path(t, k);
        }
      }
      NoUpsertsOff(p, c, span, h - 1, p.Half(), p.fanout);
    }
  }
}
