/** Two short runs of puts, followed frame by frame, that end with a node over its capacity under
    options a caller can choose. */
module Witnesses {
  import opened Seqs
  import opened Messages
  import opened Leaves
  import opened Trees
  import opened Runs
  import opened Laws
  import opened Bounds
  import opened Frames

  // ---------- Following a frame ----------

  lemma PutNext(p: Params, keys: seq<K>, k: K)
    requires p.Valid()
    ensures PutKeys(p, keys + [k]) == PutKey(p, PutKeys(p, keys), k)
  {
    assert (keys + [k])[..|keys|] == keys;
  }

  lemma PutNone(p: Params)
    requires p.Valid()
    ensures PutKeys(p, []) == Ends([])
  {}

  lemma AddAt(keys: seq<K>, k: K, i: nat)
    requires Increasing(keys) && i <= |keys|
    requires (i > 0 ==> keys[i - 1] < k) && (i < |keys| ==> k < keys[i])
    ensures Add(keys, k) == keys[..i] + [k] + keys[i..]
  {
    assert forall j :: 0 <= j < i ==> keys[j] < k;
    assert forall j :: i <= j < |keys| ==> k < keys[j];
    LocateUnique(keys, k, i);
  }

  lemma AddOver(keys: seq<K>, i: nat)
    requires Increasing(keys) && i < |keys|
    ensures Add(keys, keys[i]) == keys
  {
    PresentIn(keys, keys[i]);
  }

  lemma AddAllNext(keys: seq<K>, ks: seq<K>, k: K)
    ensures AddAll(keys, []) == keys && AddAll(keys, ks + [k]) == Add(AddAll(keys, ks), k)
  {
    assert (ks + [k])[..|ks|] == ks;
  }

  lemma AddOne(keys: seq<K>, a: K)
    ensures AddAll(keys, [a]) == Add(keys, a)
  {
    AddAllNext(keys, [], a);
    assert [] + [a] == [a];
  }

  lemma AddTwo(keys: seq<K>, a: K, b: K)
    ensures AddAll(keys, [a, b]) == Add(Add(keys, a), b)
  {
    AddOne(keys, a);
    AddAllNext(keys, [a], b);
    assert [a] + [b] == [a, b];
  }

  lemma AddThree(keys: seq<K>, a: K, b: K, c: K)
    ensures AddAll(keys, [a, b, c]) == Add(Add(Add(keys, a), b), c)
  {
    AddTwo(keys, a, b);
    AddAllNext(keys, [a, b], c);
    assert [a, b] + [c] == [a, b, c];
  }

  function If(c: bool, k: K): seq<K> { if c then [k] else [] }

  lemma FilterThree(a: K, b: K, c: K, f: K -> bool)
    ensures Filter([], f) == []
    ensures Filter([a], f) == If(f(a), a)
    ensures Filter([a, b], f) == If(f(a), a) + If(f(b), b)
    ensures Filter([a, b, c], f) == If(f(a), a) + If(f(b), b) + If(f(c), c)
  {
    FilterSnoc([], a, f);
    FilterSnoc([a], b, f);
    FilterSnoc([a, b], c, f);
    assert [] + [a] == [a] && [a] + [b] == [a, b] && [a, b] + [c] == [a, b, c];
  }

  /** The parts of a buffer of up to three keys that route to i, j and k. */
  lemma Parts(f: Frame, a: K, b: K, c: K, i: nat, j: nat, k: nat, x: nat)
    requires f.Fork? && Increasing(f.pivots) && x <= |f.pivots|
    requires Route(f.pivots, a) == i && Route(f.pivots, b) == j && Route(f.pivots, c) == k
    ensures f.buf == [a, b] ==> Part(f, x) == If(x == i, a) + If(x == j, b)
    ensures f.buf == [a, b, c] ==> Part(f, x) == If(x == i, a) + If(x == j, b) + If(x == k, c)
  {
    hide Route;
    KidSpanHas(EVERYTHING, f.pivots, x, a);
    KidSpanHas(EVERYTHING, f.pivots, x, b);
    KidSpanHas(EVERYTHING, f.pivots, x, c);
    FilterThree(a, b, c, In(KidSpan(EVERYTHING, f.pivots, x)));
  }

  lemma MostIs(f: Frame, n: nat, h: nat)
    requires f.Fork? && h < n <= |f.pivots| + 1
    requires forall i :: 0 <= i < n ==> |Part(f, i)| <= |Part(f, h)|
    requires forall i :: 0 <= i < h ==> |Part(f, i)| < |Part(f, h)|
    ensures Most(f, n) == h
  {
    hide Part;
    assert |Part(f, Most(f, n))| == |Part(f, h)|;
  }

  lemma OthersUpto(f: Frame, h: nat)
    requires f.Fork?
    ensures Others(f, h, 1) == if h == 0 then [] else Part(f, 0)
    ensures |f.pivots| >= 1 ==> Others(f, h, 2) == Others(f, h, 1) + if h == 1 then [] else Part(f, 1)
    ensures |f.pivots| >= 2 ==> Others(f, h, 3) == Others(f, h, 2) + if h == 2 then [] else Part(f, 2)
  {
    hide Part;
  }

  /** A flush of a frame whose heaviest part is that of child h. */
  lemma SinkTo(p: Params, f: Frame, h: nat, c: Frame, rest: seq<K>)
    requires p.Valid() && Even(f) && f.Fork? && f.buf != [] && h < |f.kids| && Most(f, |f.kids|) == h
    requires Even(c) && c == Give(p, f.kids[h], Part(f, h)) && rest == Others(f, h, |f.kids|)
    ensures var g := Fork(f.pivots, f.kids[h := c], rest);
      Sink(p, f) == if Full(p, c) then HalveKid(g, h) else g
  {
    hide Part, Others, Give, Most;
  }

  /** Two keys wait for different children: the first child's goes down. */
  lemma SinkApart(p: Params, f: Frame, a: K, b: K, i: nat, j: nat, c: Frame)
    requires p.Valid() && Even(f) && f.Fork? && |f.pivots| <= 2 && Increasing(f.pivots) && f.buf == [a, b]
    requires Route(f.pivots, a) == i && Route(f.pivots, b) == j && i != j
    requires var (h, low) := if i < j then (i, a) else (j, b); Even(c) && c == Give(p, f.kids[h], [low])
    ensures var (h, high) := if i < j then (i, b) else (j, a);
      var g := Fork(f.pivots, f.kids[h := c], [high]);
      Sink(p, f) == if Full(p, c) then HalveKid(g, h) else g
  {
    hide Part, Others, Give, Sink, Most, Route, HalveKid;
    var h, rest := if i < j then i else j, if i < j then [b] else [a];
    forall x | 0 <= x < |f.kids| ensures Part(f, x) == if x == i then [a] else if x == j then [b] else [] {
      Parts(f, a, b, b, i, j, j, x);
      assert [a] + [] == [a] && [] + [b] == [b];
    }
    MostIs(f, |f.kids|, h);
    OthersUpto(f, h);
    assert [] + rest == rest + [] == rest;
    SinkTo(p, f, h, c, rest);
  }

  /** Two keys wait for the same child: both go down. */
  lemma SinkBoth(p: Params, f: Frame, a: K, b: K, h: nat, c: Frame)
    requires p.Valid() && Even(f) && f.Fork? && |f.pivots| <= 2 && Increasing(f.pivots) && f.buf == [a, b]
    requires Route(f.pivots, a) == h && Route(f.pivots, b) == h
    requires Even(c) && c == Give(p, f.kids[h], [a, b])
    ensures var g := Fork(f.pivots, f.kids[h := c], []);
      Sink(p, f) == if Full(p, c) then HalveKid(g, h) else g
  {
    hide Part, Others, Give, Sink, Most, Route, HalveKid;
    forall x | 0 <= x < |f.kids| ensures Part(f, x) == if x == h then [a, b] else [] {
      Parts(f, a, b, b, h, h, h, x);
    }
    MostIs(f, |f.kids|, h);
    OthersUpto(f, h);
    SinkTo(p, f, h, c, []);
  }

  lemma RiseTo(p: Params, f: Frame)
    requires p.Valid() && Even(f)
    ensures !Full(p, f) ==> Rise(p, f) == f
    ensures Full(p, f) ==> Partable(f) && var (l, pv, r) := Halve(f); Rise(p, f) == Fork([pv], [l, r], [])
  {
    hide Halve;
  }

  lemma HalveEnds(keys: seq<K>, lo: seq<K>, hi: seq<K>)
    requires keys == lo + hi && |lo| == |keys| / 2 && |keys| >= 2
    ensures Halve(Ends(keys)) == (Ends(lo), hi[0], Ends(hi))
  {
    assert keys[..|lo|] == lo && keys[|lo|..] == hi;
  }

  /** The first child of a fork with one or two children, halved, and the last. */
  lemma HalveFirst(f: Frame, l: Frame, pv: K, r: Frame)
    requires f.Fork? && |f.kids| == |f.pivots| + 1 && Partable(f.kids[0]) && Halve(f.kids[0]) == (l, pv, r)
    ensures HalveKid(f, 0) == Fork([pv] + f.pivots, [l, r] + f.kids[1..], f.buf)
  {
    hide Halve;
    assert f.kids[0 := l] == [l] + f.kids[1..];
  }

  lemma HalveLast(f: Frame, l: Frame, pv: K, r: Frame)
    requires f.Fork? && |f.kids| == |f.pivots| + 1 && var c := f.kids[|f.pivots|];
      Partable(c) && Halve(c) == (l, pv, r)
    ensures HalveKid(f, |f.pivots|) == Fork(f.pivots + [pv], f.kids[..|f.pivots|] + [l, r], f.buf)
  {
    hide Halve;
    var n := |f.pivots|;
    assert f.kids[n := l] == f.kids[..n] + [l];
  }

  lemma PutEnds(p: Params, keys: seq<K>, k: K, i: nat, now: seq<K>)
    requires p.Valid() && Increasing(keys) && i <= |keys|
    requires (i > 0 ==> keys[i - 1] < k) && (i < |keys| ==> k < keys[i])
    requires now == keys[..i] + [k] + keys[i..]
    ensures PutKey(p, Ends(keys), k) == Rise(p, Ends(now))
  {
    AddAt(keys, k, i);
  }

  lemma PutFork(p: Params, f: Frame, k: K, buf: seq<K>)
    requires p.Valid() && Even(f) && f.Fork? && buf == f.buf + [k]
    ensures var g := Fork(f.pivots, f.kids, buf);
      && Even(g)
      && PutKey(p, f, k) == if |buf| > p.bufferCap then Rise(p, Sink(p, g)) else g
  {
    hide Sink, Rise;
  }

  lemma GiveEnds(p: Params, keys: seq<K>, k: K, i: nat, now: seq<K>)
    requires p.Valid() && Increasing(keys) && i <= |keys|
    requires (i > 0 ==> keys[i - 1] < k) && (i < |keys| ==> k < keys[i])
    requires now == keys[..i] + [k] + keys[i..]
    ensures Give(p, Ends(keys), [k]) == Ends(now)
  {
    AddOne(keys, k);
    AddAt(keys, k, i);
  }

  lemma EvenTwo(pv: K, l: Frame, r: Frame, buf: seq<K>)
    requires Even(l) && Even(r)
    ensures Even(Fork([pv], [l, r], buf))
  {}

  lemma EvenThree(pv: K, qv: K, l: Frame, m: Frame, r: Frame, buf: seq<K>)
    requires Even(l) && Even(m) && Even(r)
    ensures Even(Fork([pv, qv], [l, m, r], buf))
  {}

  lemma EvenOne(c: Frame, buf: seq<K>)
    requires Even(c)
    ensures Even(Fork([], [c], buf))
  {}

  lemma EvenEnds(keys: seq<K>)
    ensures Even(Ends(keys))
  {}

  // ---------- A leaf ----------

  /** WithBlockSize(2), with the default epsilon. */
  const SMALL := Params(2, 1, 2)

  lemma FirstThree(a: K, b: K, c: K)
    requires a < b < c
    ensures PutKeys(SMALL, [a, b, c]) == Fork([b], [Ends([a]), Ends([b, c])], [])
  {
    hide PutKeys, PutKey, Halve, Rise;
    PutNone(SMALL);
    PutNext(SMALL, [], a);
    PutNext(SMALL, [a], b);
    PutNext(SMALL, [a, b], c);
    assert [] + [a] == [a] && [a] + [b] == [a, b] && [a, b] + [c] == [a, b, c];
    PutEnds(SMALL, [], a, 0, [a]);
    RiseTo(SMALL, Ends([a]));
    PutEnds(SMALL, [a], b, 1, [a, b]);
    RiseTo(SMALL, Ends([a, b]));
    PutEnds(SMALL, [a, b], c, 2, [a, b, c]);
    HalveEnds([a, b, c], [a], [b, c]);
    RiseTo(SMALL, Ends([a, b, c]));
  }

  lemma Fifth(k0: K, k1: K, k3: K, k4: K, k5: K)
    requires k0 < k1 < k3 < k4 < k5
    ensures PutKey(SMALL, Fork([k3], [Ends([k0]), Ends([k3, k4])], [k1]), k5)
      == Fork([k3], [Ends([k0, k1]), Ends([k3, k4])], [k5])
  {
    hide PutKey, Sink, Rise, Route, Give, Halve;
    var f := Fork([k3], [Ends([k0]), Ends([k3, k4])], [k1]);
    PutFork(SMALL, f, k5, [k1, k5]);
    RouteUnique([k3], k1, 0);
    RouteUnique([k3], k5, 1);
    GiveEnds(SMALL, [k0], k1, 1, [k0, k1]);
    SinkApart(SMALL, Fork(f.pivots, f.kids, [k1, k5]), k1, k5, 0, 1, Ends([k0, k1]));
    assert f.kids[0 := Ends([k0, k1])] == [Ends([k0, k1]), Ends([k3, k4])];
    RiseTo(SMALL, Fork([k3], [Ends([k0, k1]), Ends([k3, k4])], [k5]));
  }

  lemma Sixth(k0: K, k1: K, k2: K, k3: K, k4: K, k5: K)
    requires k0 < k1 < k2 < k3 < k4 < k5
    ensures PutKey(SMALL, Fork([k3], [Ends([k0, k1]), Ends([k3, k4])], [k5]), k2)
      == Fork([k3], [Fork([k1], [Ends([k0]), Ends([k1, k2])], []), Fork([], [Ends([k3, k4])], [k5])], [])
  {
    hide PutKey, Sink, Rise, Route, Give, Halve, HalveKid;
    var f := Fork([k3], [Ends([k0, k1]), Ends([k3, k4])], [k5]);
    var full := Ends([k0, k1, k2]);
    PutFork(SMALL, f, k2, [k5, k2]);
    RouteUnique([k3], k5, 1);
    RouteUnique([k3], k2, 0);
    GiveEnds(SMALL, [k0, k1], k2, 2, [k0, k1, k2]);
    SinkApart(SMALL, Fork(f.pivots, f.kids, [k5, k2]), k5, k2, 1, 0, full);
    assert f.kids[0 := full] == [full, Ends([k3, k4])];
    HalveEnds([k0, k1, k2], [k0], [k1, k2]);
    HalveFirst(Fork([k3], [full, Ends([k3, k4])], [k5]), Ends([k0]), k1, Ends([k1, k2]));
    assert [k1] + [k3] == [k1, k3];
    assert [Ends([k0]), Ends([k1, k2])] + [full, Ends([k3, k4])][1..] == [Ends([k0]), Ends([k1, k2]), Ends([k3, k4])];
    EvenThree(k1, k3, Ends([k0]), Ends([k1, k2]), Ends([k3, k4]), [k5]);
    RiseTo(SMALL, Fork([k1, k3], [Ends([k0]), Ends([k1, k2]), Ends([k3, k4])], [k5]));
    HalveThree(k1, k3, Ends([k0]), Ends([k1, k2]), Ends([k3, k4]), k5);
  }

  /** A fork with three children and one key that waits for the last of them. */
  lemma HalveThree(pv: K, qv: K, l: Frame, m: Frame, r: Frame, k: K)
    requires pv < qv < k
    ensures Halve(Fork([pv, qv], [l, m, r], [k])) == (Fork([pv], [l, m], []), qv, Fork([], [r], [k]))
  {
    FilterThree(k, k, k, In(Below(qv)));
    FilterThree(k, k, k, In(From(qv)));
    assert [pv, qv][..1] == [pv] && [pv, qv][2..] == [];
    assert [l, m, r][..2] == [l, m] && [l, m, r][2..] == [r];
  }

  lemma Eighth(left: Frame, k3: K, k4: K, k5: K, k6: K, k7: K)
    requires k3 < k4 < k5 < k6 < k7 && Even(left)
    ensures Even(Fork([k3], [left, Fork([], [Ends([k3, k4])], [k5])], [k6]))
    ensures PutKey(SMALL, Fork([k3], [left, Fork([], [Ends([k3, k4])], [k5])], [k6]), k7)
      == Fork([k3], [left, Fork([k5], [Ends([k3, k4]), Ends([k5, k6, k7])], [])], [])
  {
    hide PutKey, Sink, Rise, Route, Give, Halve, HalveKid, Even;
    var right := Fork([], [Ends([k3, k4])], [k5]);
    var after := Fork([k5], [Ends([k3, k4]), Ends([k5, k6, k7])], []);
    EvenEnds([k3, k4]);
    EvenEnds([k5, k6, k7]);
    EvenOne(Ends([k3, k4]), [k5]);
    EvenTwo(k3, left, right, [k6]);
    EvenTwo(k5, Ends([k3, k4]), Ends([k5, k6, k7]), []);
    EvenTwo(k3, left, after, []);
    PutFork(SMALL, Fork([k3], [left, right], [k6]), k7, [k6, k7]);
    RouteUnique([k3], k6, 1);
    RouteUnique([k3], k7, 1);
    GiveInner(k3, k4, k5, k6, k7);
    SinkBoth(SMALL, Fork([k3], [left, right], [k6, k7]), k6, k7, 1, after);
    assert [left, right][1 := after] == [left, after];
    RiseTo(SMALL, Fork([k3], [left, after], []));
  }

  lemma GiveInner(k3: K, k4: K, k5: K, k6: K, k7: K)
    requires k3 < k4 < k5 < k6 < k7
    ensures Even(Fork([], [Ends([k3, k4])], [k5]))
    ensures Give(SMALL, Fork([], [Ends([k3, k4])], [k5]), [k6, k7])
      == Fork([k5], [Ends([k3, k4]), Ends([k5, k6, k7])], [])
  {
    hide Sink;
    EvenEnds([k3, k4]);
    EvenOne(Ends([k3, k4]), [k5]);
    EvenOne(Ends([k3, k4]), [k5, k6, k7]);
    assert [k5] + [k6, k7] == [k5, k6, k7];
    Inner(k3, k4, k5, k6, k7);
  }

  lemma Inner(k3: K, k4: K, k5: K, k6: K, k7: K)
    requires k3 < k4 < k5 < k6 < k7
    ensures Even(Fork([], [Ends([k3, k4])], [k5, k6, k7]))
    ensures Sink(SMALL, Fork([], [Ends([k3, k4])], [k5, k6, k7]))
      == Fork([k5], [Ends([k3, k4]), Ends([k5, k6, k7])], [])
  {
    hide Halve, HalveKid, Sink, Part, Most, Others, Route, Give;
    var f := Fork([], [Ends([k3, k4])], [k5, k6, k7]);
    EvenEnds([k3, k4]);
    EvenOne(Ends([k3, k4]), [k5, k6, k7]);
    SolePart(f, k5, k6, k7);
    var c := Ends([k3, k4, k5, k6, k7]);
    GiveThree(k3, k4, k5, k6, k7);
    SinkTo(SMALL, f, 0, c, []);
    assert [Ends([k3, k4])][0 := c] == [c];
    assert [k3, k4, k5, k6, k7] == [k3, k4] + [k5, k6, k7];
    HalveEnds([k3, k4, k5, k6, k7], [k3, k4], [k5, k6, k7]);
    HalveLast(Fork([], [c], []), Ends([k3, k4]), k5, Ends([k5, k6, k7]));
    assert [] + [k5] == [k5];
    assert [c][..0] + [Ends([k3, k4]), Ends([k5, k6, k7])] == [Ends([k3, k4]), Ends([k5, k6, k7])];
  }

  /** An only child gets everything. */
  lemma SolePart(f: Frame, a: K, b: K, c: K)
    requires f.Fork? && f.pivots == [] && f.buf == [a, b, c]
    ensures Part(f, 0) == [a, b, c] && Most(f, 1) == 0 && Others(f, 0, 1) == []
  {
    hide Part;
    RouteUnique([], a, 0);
    RouteUnique([], b, 0);
    RouteUnique([], c, 0);
    Parts(f, a, b, c, 0, 0, 0, 0);
    assert [a] + [b] + [c] == [a, b, c];
    OthersUpto(f, 0);
  }

  lemma GiveThree(k3: K, k4: K, k5: K, k6: K, k7: K)
    requires k3 < k4 < k5 < k6 < k7
    ensures Even(Ends([k3, k4])) && Give(SMALL, Ends([k3, k4]), [k5, k6, k7]) == Ends([k3, k4, k5, k6, k7])
  {
    hide Add, AddAll;
    AddThree([k3, k4], k5, k6, k7);
    AddLast([k3, k4], k5, [k3, k4, k5]);
    AddLast([k3, k4, k5], k6, [k3, k4, k5, k6]);
    AddLast([k3, k4, k5, k6], k7, [k3, k4, k5, k6, k7]);
  }

  lemma AddLast(keys: seq<K>, k: K, now: seq<K>)
    requires Increasing(keys) && (keys != [] ==> keys[|keys| - 1] < k) && now == keys + [k]
    ensures Add(keys, k) == now
  {
    AddAt(keys, k, |keys|);
  }

  /** The frame after eight puts. */
  lemma EightPuts(k: seq<K>)
    requires |k| == 8 && Increasing(k)
    ensures PutKeys(SMALL, [k[0], k[3], k[4], k[1], k[5], k[2], k[6], k[7]])
      == Fork([k[3]], [Fork([k[1]], [Ends([k[0]]), Ends([k[1], k[2]])], []),
                       Fork([k[5]], [Ends([k[3], k[4]]), Ends([k[5], k[6], k[7]])], [])], [])
  {
    hide PutKeys, Sink, Rise;
    var k0, k1, k2, k3, k4, k5, k6, k7 := k[0], k[1], k[2], k[3], k[4], k[5], k[6], k[7];
    var left := Fork([k1], [Ends([k0]), Ends([k1, k2])], []);
    FirstThree(k0, k3, k4);
    PutNext(SMALL, [k0, k3, k4], k1);
    PutNext(SMALL, [k0, k3, k4, k1], k5);
    PutNext(SMALL, [k0, k3, k4, k1, k5], k2);
    PutNext(SMALL, [k0, k3, k4, k1, k5, k2], k6);
    PutNext(SMALL, [k0, k3, k4, k1, k5, k2, k6], k7);
    assert [k0, k3, k4] + [k1] == [k0, k3, k4, k1];
    assert [k0, k3, k4, k1] + [k5] == [k0, k3, k4, k1, k5];
    assert [k0, k3, k4, k1, k5] + [k2] == [k0, k3, k4, k1, k5, k2];
    assert [k0, k3, k4, k1, k5, k2] + [k6] == [k0, k3, k4, k1, k5, k2, k6];
    assert [k0, k3, k4, k1, k5, k2, k6] + [k7] == [k0, k3, k4, k1, k5, k2, k6, k7];
    PutFork(SMALL, Fork([k3], [Ends([k0]), Ends([k3, k4])], []), k1, [k1]);
    Fifth(k0, k1, k3, k4, k5);
    Sixth(k0, k1, k2, k3, k4, k5);
    PutFork(SMALL, Fork([k3], [left, Fork([], [Ends([k3, k4])], [k5])], []), k6, [k6]);
    Eighth(left, k3, k4, k5, k6, k7);
  }

  lemma {:induction false} PutOpsOf(keys: seq<K>, v: V)
    ensures (forall op :: op in Puts(keys, v) ==> op.DoPut?) && PutOps(Puts(keys, v)) == keys
  {
    if keys != [] {
      var keys' := keys[..|keys| - 1];
      PutOpsOf(keys', v);
      assert Puts(keys, v)[..|Puts(keys, v)| - 1] == Puts(keys', v);
    }
  }

  lemma PutsFrame(p: Params, keys: seq<K>, v: V)
    requires p.Valid()
    ensures FrameOf(Run(p, Puts(keys, v)).0.tree) == PutKeys(p, keys)
  {
    PutOpsOf(keys, v);
    RunFrame(p, Puts(keys, v));
  }

  /** Any eight keys, put in this order of size, leave a leaf of three keys where two are
      allowed. */
  lemma EightPutsOverfillLeaf(k: seq<K>, v: V)
    requires |k| == 8 && Increasing(k)
    ensures !LeavesFit(SMALL, Run(SMALL, Puts([k[0], k[3], k[4], k[1], k[5], k[2], k[6], k[7]], v)).0.tree)
  {
    hide Run, Puts, PutKeys;
    var keys := [k[0], k[3], k[4], k[1], k[5], k[2], k[6], k[7]];
    PutsFrame(SMALL, keys, v);
    EightPuts(k);
    DeepLeaf(SMALL, Run(SMALL, Puts(keys, v)).0.tree, k[5], k[6], k[7]);
  }

  lemma DeepLeaf(p: Params, t: Tree, a: K, b: K, c: K)
    requires p.leafCap == 2 && var f := FrameOf(t);
      f.Fork? && |f.kids| == 2 && f.kids[1].Fork? && |f.kids[1].kids| == 2 && f.kids[1].kids[1] == Ends([a, b, c])
    ensures !LeavesFit(p, t)
  {
    var kid := t.kids[1];
    assert FrameOf(kid) == FrameOf(t).kids[1];
    assert FrameOf(kid.kids[1]) == FrameOf(kid).kids[1];
    assert !LeavesFit(p, kid.kids[1]);
    assert !LeavesFit(p, kid);
  }

  // ---------- A buffer ----------

  /** WithBlockSize(3) and WithEpsilon(1). */
  const WIDE := Params(3, 1, 3)

  lemma FirstFour(a: K, b: K, c: K, d: K)
    requires a < b < c < d
    ensures PutKeys(WIDE, [a, c, b, d]) == Fork([c], [Ends([a, b]), Ends([c, d])], [])
  {
    hide PutKeys, PutKey, Halve, Rise;
    FirstOfFour(a, b, c);
    PutNext(WIDE, [a, c, b], d);
    assert [a, c, b] + [d] == [a, c, b, d];
    assert [a, b, c][..3] + [d] + [a, b, c][3..] == [a, b, c, d];
    PutEnds(WIDE, [a, b, c], d, 3, [a, b, c, d]);
    assert [a, b, c, d] == [a, b] + [c, d];
    HalveEnds([a, b, c, d], [a, b], [c, d]);
    RiseTo(WIDE, Ends([a, b, c, d]));
  }

  lemma FirstOfFour(a: K, b: K, c: K)
    requires a < b < c
    ensures PutKeys(WIDE, [a, c, b]) == Ends([a, b, c])
  {
    hide PutKeys, PutKey, Halve, Rise;
    PutNone(WIDE);
    PutNext(WIDE, [], a);
    PutNext(WIDE, [a], c);
    PutNext(WIDE, [a, c], b);
    assert [] + [a] == [a] && [a] + [c] == [a, c] && [a, c] + [b] == [a, c, b];
    PutEnds(WIDE, [], a, 0, [a]);
    RiseTo(WIDE, Ends([a]));
    PutEnds(WIDE, [a], c, 1, [a, c]);
    RiseTo(WIDE, Ends([a, c]));
    assert [a, c][..1] + [b] + [a, c][1..] == [a, b, c];
    PutEnds(WIDE, [a, c], b, 1, [a, b, c]);
    RiseTo(WIDE, Ends([a, b, c]));
  }

  /** Two keys for the last leaf, one between its keys and one beyond them, split it. */
  lemma SplitsLast(a: K, b: K, c: K, x: K, d: K, y: K)
    requires a < b < c < x < d < y
    ensures PutKey(WIDE, Fork([c], [Ends([a, b]), Ends([c, d])], [x]), y)
      == Fork([c, d], [Ends([a, b]), Ends([c, x]), Ends([d, y])], [])
  {
    hide PutKey, Sink, Rise, Route, Give, Halve, HalveKid;
    var f := Fork([c], [Ends([a, b]), Ends([c, d])], [x]);
    var full := Ends([c, x, d, y]);
    PutFork(WIDE, f, y, [x, y]);
    RouteUnique([c], x, 1);
    RouteUnique([c], y, 1);
    GiveTwo(c, d, x, y);
    SinkBoth(WIDE, Fork(f.pivots, f.kids, [x, y]), x, y, 1, full);
    assert f.kids[1 := full] == [Ends([a, b]), full];
    assert [c, x, d, y] == [c, x] + [d, y];
    HalveEnds([c, x, d, y], [c, x], [d, y]);
    HalveLast(Fork([c], [Ends([a, b]), full], []), Ends([c, x]), d, Ends([d, y]));
    assert [c] + [d] == [c, d];
    assert [Ends([a, b]), full][..1] + [Ends([c, x]), Ends([d, y])] == [Ends([a, b]), Ends([c, x]), Ends([d, y])];
    EvenThree(c, d, Ends([a, b]), Ends([c, x]), Ends([d, y]), []);
    RiseTo(WIDE, Fork([c, d], [Ends([a, b]), Ends([c, x]), Ends([d, y])], []));
  }

  lemma GiveTwo(c: K, d: K, x: K, y: K)
    requires c < x < d < y
    ensures Even(Ends([c, d])) && Give(WIDE, Ends([c, d]), [x, y]) == Ends([c, x, d, y])
    ensures Give(WIDE, Ends([c, d]), [y, x]) == Ends([c, x, d, y])
  {
    hide Add, AddAll;
    AddTwo([c, d], x, y);
    AddAt([c, d], x, 1);
    assert [c, d][..1] + [x] + [c, d][1..] == [c, x, d];
    AddLast([c, x, d], y, [c, x, d, y]);
    AddTwo([c, d], y, x);
    AddLast([c, d], y, [c, d, y]);
    AddAt([c, d, y], x, 1);
    assert [c, d, y][..1] + [x] + [c, d, y][1..] == [c, x, d, y];
  }

  /** One key for the first leaf, one for the last: the first goes down. */
  lemma FirstGoes(a: K, b: K, x: K, l: Frame, m: Frame, c: K, d: K, y: K)
    requires a < b < x < c < d < y && Even(l) && Even(m)
    ensures PutKey(WIDE, Fork([c, d], [Ends([a, b]), l, m], [x]), y)
      == Fork([c, d], [Ends([a, b, x]), l, m], [y])
  {
    hide PutKey, Sink, Rise, Route, Give, Halve, HalveKid;
    var f := Fork([c, d], [Ends([a, b]), l, m], [x]);
    EvenThree(c, d, Ends([a, b]), l, m, [x]);
    EvenThree(c, d, Ends([a, b]), l, m, [x, y]);
    EvenThree(c, d, Ends([a, b, x]), l, m, [y]);
    PutFork(WIDE, f, y, [x, y]);
    RouteUnique([c, d], x, 0);
    RouteUnique([c, d], y, 2);
    GiveEnds(WIDE, [a, b], x, 2, [a, b, x]);
    SinkApart(WIDE, Fork(f.pivots, f.kids, [x, y]), x, y, 0, 2, Ends([a, b, x]));
    assert f.kids[0 := Ends([a, b, x])] == [Ends([a, b, x]), l, m];
    RiseTo(WIDE, Fork([c, d], [Ends([a, b, x]), l, m], [y]));
  }

  /** The first leaf overflows: the root gets a fourth child and is split. */
  lemma RootSplits(a: K, x: K, b: K, e: K, l: Frame, m: Frame, c: K, d: K, y: K)
    requires a < x < b < e < c < d < y && Even(l) && Even(m)
    ensures PutKey(WIDE, Fork([c, d], [Ends([a, b, e]), l, m], [y]), x)
      == Fork([c], [Fork([b], [Ends([a, x]), Ends([b, e])], []), Fork([d], [l, m], [y])], [])
  {
    hide PutKey, Sink, Rise, Route, Give, Halve, HalveKid;
    var f := Fork([c, d], [Ends([a, b, e]), l, m], [y]);
    var full := Ends([a, x, b, e]);
    EvenThree(c, d, Ends([a, b, e]), l, m, [y]);
    EvenThree(c, d, Ends([a, b, e]), l, m, [y, x]);
    PutFork(WIDE, f, x, [y, x]);
    RouteUnique([c, d], y, 2);
    RouteUnique([c, d], x, 0);
    assert [a, b, e][..1] + [x] + [a, b, e][1..] == [a, x, b, e];
    GiveEnds(WIDE, [a, b, e], x, 1, [a, x, b, e]);
    SinkApart(WIDE, Fork(f.pivots, f.kids, [y, x]), y, x, 2, 0, full);
    assert f.kids[0 := full] == [full, l, m];
    assert [a, x, b, e] == [a, x] + [b, e];
    HalveEnds([a, x, b, e], [a, x], [b, e]);
    HalveFirst(Fork([c, d], [full, l, m], [y]), Ends([a, x]), b, Ends([b, e]));
    assert [b] + [c, d] == [b, c, d];
    assert [Ends([a, x]), Ends([b, e])] + [full, l, m][1..] == [Ends([a, x]), Ends([b, e]), l, m];
    EvenFour(b, c, d, Ends([a, x]), Ends([b, e]), l, m, [y]);
    RiseTo(WIDE, Fork([b, c, d], [Ends([a, x]), Ends([b, e]), l, m], [y]));
    HalveFour(b, c, d, Ends([a, x]), Ends([b, e]), l, m, y);
  }

  lemma EvenFour(a: K, b: K, c: K, q: Frame, r: Frame, s: Frame, t: Frame, buf: seq<K>)
    requires Even(q) && Even(r) && Even(s) && Even(t)
    ensures Even(Fork([a, b, c], [q, r, s, t], buf))
  {}

  lemma HalveFour(a: K, b: K, c: K, q: Frame, r: Frame, s: Frame, t: Frame, k: K)
    requires a < b < c < k
    ensures Halve(Fork([a, b, c], [q, r, s, t], [k])) == (Fork([a], [q, r], []), b, Fork([c], [s, t], [k]))
  {
    FilterThree(k, k, k, In(Below(b)));
    FilterThree(k, k, k, In(From(b)));
    assert [a, b, c][..1] == [a] && [a, b, c][2..] == [c];
    assert [q, r, s, t][..2] == [q, r] && [q, r, s, t][2..] == [s, t];
  }

  /** Of three waiting keys two are for the second child. */
  lemma SecondGoes(c: K, d: K, x: K, y: K, l: Frame, m: K, z: K)
    requires c < x < m < y < d < z && Even(l)
    ensures Even(Fork([m], [l, Ends([m, d])], [y]))
    ensures Give(WIDE, Fork([m], [l, Ends([m, d])], [y]), [x, z])
      == Fork([m, d], [l, Ends([m, y]), Ends([d, z])], [x])
  {
    hide Sink;
    EvenTwo(m, l, Ends([m, d]), [y]);
    EvenTwo(m, l, Ends([m, d]), [y, x, z]);
    assert [y] + [x, z] == [y, x, z];
    SecondSinks(c, d, x, y, l, m, z);
  }

  lemma SecondSinks(c: K, d: K, x: K, y: K, l: Frame, m: K, z: K)
    requires c < x < m < y < d < z && Even(l)
    ensures Even(Fork([m], [l, Ends([m, d])], [y, x, z]))
    ensures Sink(WIDE, Fork([m], [l, Ends([m, d])], [y, x, z]))
      == Fork([m, d], [l, Ends([m, y]), Ends([d, z])], [x])
  {
    hide Sink, Part, Most, Others, Route, Give, Halve, HalveKid;
    var f, full := Fork([m], [l, Ends([m, d])], [y, x, z]), Ends([m, y, d, z]);
    EvenTwo(m, l, Ends([m, d]), [y, x, z]);
    TwoParts(f, m, x, y, z);
    GiveTwo(m, d, y, z);
    SinkTo(WIDE, f, 1, full, [x]);
    assert [l, Ends([m, d])][1 := full] == [l, full];
    assert [m, y, d, z] == [m, y] + [d, z];
    HalveEnds([m, y, d, z], [m, y], [d, z]);
    HalveLast(Fork([m], [l, full], [x]), Ends([m, y]), d, Ends([d, z]));
    assert [m] + [d] == [m, d];
    assert [l, full][..1] + [Ends([m, y]), Ends([d, z])] == [l, Ends([m, y]), Ends([d, z])];
  }

  lemma TwoParts(f: Frame, m: K, x: K, y: K, z: K)
    requires f.Fork? && f.pivots == [m] && f.buf == [y, x, z] && x < m < y < z
    ensures Part(f, 1) == [y, z] && Most(f, 2) == 1 && Others(f, 1, 2) == [x]
  {
    hide Part;
    RouteUnique([m], y, 1);
    RouteUnique([m], x, 0);
    RouteUnique([m], z, 1);
    Parts(f, y, x, z, 1, 0, 1, 0);
    Parts(f, y, x, z, 1, 0, 1, 1);
    assert [] + [x] + [] == [x] && [y] + [] + [z] == [y, z];
    MostIs(f, 2, 1);
    OthersUpto(f, 1);
    PlusNil([x]);
  }

  /** Three keys wait for three children: the first goes down, two stay. */
  lemma TwoStay(a: K, b: K, m: K, d: K, l: Frame, r: Frame, z: K)
    requires a < b < m < d < z && Even(l) && Even(r)
    ensures Even(Fork([m, d], [Ends([a, b]), l, r], [b]))
    ensures Give(WIDE, Fork([m, d], [Ends([a, b]), l, r], [b]), [z, m])
      == Fork([m, d], [Ends([a, b]), l, r], [m, z])
  {
    hide Sink, Part, Most, Others, Route;
    var f := Fork([m, d], [Ends([a, b]), l, r], [b, z, m]);
    EvenThree(m, d, Ends([a, b]), l, r, [b]);
    EvenThree(m, d, Ends([a, b]), l, r, [b, z, m]);
    assert [b] + [z, m] == [b, z, m];
    ThreeParts(f, b, m, d, z);
    AddOne([a, b], b);
    AddOver([a, b], 1);
    SinkTo(WIDE, f, 0, Ends([a, b]), [m, z]);
    assert f.kids[0 := Ends([a, b])] == f.kids;
  }

  lemma ThreeParts(f: Frame, b: K, m: K, d: K, z: K)
    requires f.Fork? && f.pivots == [m, d] && f.buf == [b, z, m] && b < m < d < z
    ensures Part(f, 0) == [b] && Most(f, 3) == 0 && Others(f, 0, 3) == [m, z]
  {
    hide Part;
    RouteUnique([m, d], b, 0);
    RouteUnique([m, d], z, 2);
    RouteUnique([m, d], m, 1);
    Parts(f, b, z, m, 0, 2, 1, 0);
    Parts(f, b, z, m, 0, 2, 1, 1);
    Parts(f, b, z, m, 0, 2, 1, 2);
    assert [b] + [] + [] == [b] && [] + [] + [m] == [m] && [] + [z] + [] == [z];
    MostIs(f, 3, 0);
    OthersUpto(f, 0);
    assert [] + [m] == [m] && [m] + [z] == [m, z];
  }

  /** Two keys of the root go to its second child. */
  lemma DownRight(pv: K, left: Frame, right: Frame, x: K, y: K, after: Frame)
    requires pv <= x && pv <= y && Even(left) && Even(right) && Even(after)
    requires Give(WIDE, right, [x, y]) == after && !Full(WIDE, after)
    ensures Even(Fork([pv], [left, right], []))
    ensures PutKey(WIDE, Fork([pv], [left, right], []), x) == Fork([pv], [left, right], [x])
    ensures Even(Fork([pv], [left, right], [x]))
    ensures PutKey(WIDE, Fork([pv], [left, right], [x]), y) == Fork([pv], [left, after], [])
  {
    hide PutKey, Sink, Rise, Route, Give, HalveKid, Even;
    EvenTwo(pv, left, right, []);
    EvenTwo(pv, left, right, [x]);
    EvenTwo(pv, left, after, []);
    PutFork(WIDE, Fork([pv], [left, right], []), x, [x]);
    PutFork(WIDE, Fork([pv], [left, right], [x]), y, [x, y]);
    RouteUnique([pv], x, 1);
    RouteUnique([pv], y, 1);
    SinkBoth(WIDE, Fork([pv], [left, right], [x, y]), x, y, 1, after);
    assert [left, right][1 := after] == [left, after];
    RiseTo(WIDE, Fork([pv], [left, after], []));
  }

  /** Keys 1 to 9 of 13 puts. */
  lemma NinePuts(k: seq<K>)
    requires |k| == 11 && Increasing(k)
    ensures PutKeys(WIDE, [k[0], k[4], k[2], k[6], k[5], k[8], k[3], k[7], k[1]])
      == Fork([k[4]], [Fork([k[2]], [Ends([k[0], k[1]]), Ends([k[2], k[3]])], []),
                       Fork([k[6]], [Ends([k[4], k[5]]), Ends([k[6], k[8]])], [k[7]])], [])
  {
    hide PutKeys, Sink, Rise, Halve, HalveKid;
    var a, x, b, e, c, m, d, y, z := k[0], k[1], k[2], k[3], k[4], k[5], k[6], k[7], k[8];
    FirstFour(a, b, c, d);
    PutNext(WIDE, [a, c, b, d], m);
    PutNext(WIDE, [a, c, b, d, m], z);
    PutNext(WIDE, [a, c, b, d, m, z], e);
    PutNext(WIDE, [a, c, b, d, m, z, e], y);
    PutNext(WIDE, [a, c, b, d, m, z, e, y], x);
    assert [a, c, b, d] + [m] == [a, c, b, d, m];
    assert [a, c, b, d, m] + [z] == [a, c, b, d, m, z];
    assert [a, c, b, d, m, z] + [e] == [a, c, b, d, m, z, e];
    assert [a, c, b, d, m, z, e] + [y] == [a, c, b, d, m, z, e, y];
    assert [a, c, b, d, m, z, e, y] + [x] == [a, c, b, d, m, z, e, y, x];
    PutFork(WIDE, Fork([c], [Ends([a, b]), Ends([c, d])], []), m, [m]);
    SplitsLast(a, b, c, m, d, z);
    PutFork(WIDE, Fork([c, d], [Ends([a, b]), Ends([c, m]), Ends([d, z])], []), e, [e]);
    FirstGoes(a, b, e, Ends([c, m]), Ends([d, z]), c, d, y);
    RootSplits(a, x, b, e, Ends([c, m]), Ends([d, z]), c, d, y);
  }

  /** The last four. */
  lemma FourMorePuts(left: Frame, k: seq<K>)
    requires |k| == 11 && Increasing(k) && Even(left)
    ensures var f := Fork([k[4]], [left, Fork([k[6]], [Ends([k[4], k[5]]), Ends([k[6], k[8]])], [k[7]])], []);
      && Even(f)
      && PutKey(WIDE, PutKey(WIDE, PutKey(WIDE, PutKey(WIDE, f, k[5]), k[10]), k[9]), k[6])
        == Fork([k[4]], [left, Fork([k[6], k[8]], [Ends([k[4], k[5]]), Ends([k[6], k[7]]), Ends([k[8], k[10]])],
                                    [k[6], k[9]])], [])
  {
    hide PutKey, Give;
    var c, m, d, y, z, u, w := k[4], k[5], k[6], k[7], k[8], k[9], k[10];
    var r0 := Fork([d], [Ends([c, m]), Ends([d, z])], [y]);
    var r1 := Fork([d, z], [Ends([c, m]), Ends([d, y]), Ends([z, w])], [m]);
    var r2 := Fork([d, z], [Ends([c, m]), Ends([d, y]), Ends([z, w])], [d, u]);
    EvenThree(d, z, Ends([c, m]), Ends([d, y]), Ends([z, w]), [m]);
    EvenThree(d, z, Ends([c, m]), Ends([d, y]), Ends([z, w]), [d, u]);
    SecondGoes(c, z, m, y, Ends([c, m]), d, w);
    DownRight(c, left, r0, m, w, r1);
    TwoStay(c, m, d, z, Ends([d, y]), Ends([z, w]), u);
    DownRight(c, left, r1, u, d, r2);
  }

  /** Eleven keys, two of them put twice, in this order of size: no range was deleted and the
      root's buffer is empty, but two messages wait in a buffer below it that is for one. */
  lemma ThirteenPutsOverfillBuffer(k: seq<K>, v: V)
    requires |k| == 11 && Increasing(k)
    ensures var keys := [k[0], k[4], k[2], k[6], k[5], k[8], k[3], k[7], k[1], k[5], k[10], k[9], k[6]];
      var t := Run(WIDE, Puts(keys, v)).0.tree;
      t.Node? && |t.kids| == 2 && t.kids[1].Node? && |t.kids[1].buf| == 2 > WIDE.bufferCap
  {
    hide Run, Puts, PutKeys, PutKey;
    var nine := [k[0], k[4], k[2], k[6], k[5], k[8], k[3], k[7], k[1]];
    var keys := [k[0], k[4], k[2], k[6], k[5], k[8], k[3], k[7], k[1], k[5], k[10], k[9], k[6]];
    var left := Fork([k[2]], [Ends([k[0], k[1]]), Ends([k[2], k[3]])], []);
    NinePuts(k);
    EvenTwo(k[2], Ends([k[0], k[1]]), Ends([k[2], k[3]]), []);
    FourMorePuts(left, k);
    PutNext(WIDE, nine, k[5]);
    PutNext(WIDE, nine + [k[5]], k[10]);
    PutNext(WIDE, nine + [k[5]] + [k[10]], k[9]);
    PutNext(WIDE, nine + [k[5]] + [k[10]] + [k[9]], k[6]);
    assert keys == nine + [k[5]] + [k[10]] + [k[9]] + [k[6]];
    PutsFrame(WIDE, keys, v);
    var t := Run(WIDE, Puts(keys, v)).0.tree;
    assert FrameOf(t.kids[1]) == FrameOf(t).kids[1];
  }
}
