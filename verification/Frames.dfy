/** The frame of a tree: its keys and pivots and which keys wait where, without values. Where
    only puts were made the frame depends on their keys alone, which makes runs easy to follow. */
module Frames {
  import opened Seqs
  import opened Messages
  import opened Leaves
  import opened Trees
  import opened Flushing
  import opened Runs

  datatype Frame = Ends(keys: seq<K>) | Fork(pivots: seq<K>, kids: seq<Frame>, buf: seq<K>)

  /** One more child than pivots, everywhere. */
  ghost predicate Even(f: Frame) {
    match f
    case Ends(_) => true
    case Fork(pivots, kids, _) => |kids| == |pivots| + 1 && forall i :: 0 <= i < |kids| ==> Even(kids[i])
  }

  // ---------- The same steps on frames ----------

  function Add(keys: seq<K>, k: K): seq<K> {
    if Present(keys, k) then keys else InsertAt(keys, Locate(keys, k), k)
  }

  function AddAll(keys: seq<K>, ks: seq<K>): seq<K> {
    if ks == [] then keys else Add(AddAll(keys, ks[..|ks| - 1]), ks[|ks| - 1])
  }

  function In(r: Range): K -> bool { (k: K) => r.Has(k) }

  function Part(f: Frame, i: nat): seq<K>
    requires f.Fork? && i <= |f.pivots|
  {
    Filter(f.buf, In(KidSpan(EVERYTHING, f.pivots, i)))
  }

  function Most(f: Frame, n: nat): (h: nat)
    requires f.Fork? && 0 < n <= |f.pivots| + 1
    ensures h < n
    ensures forall i :: 0 <= i < n ==> |Part(f, i)| <= |Part(f, h)|
    ensures forall i :: 0 <= i < h ==> |Part(f, i)| < |Part(f, h)|
  {
    if n == 1 then 0
    else
      var h := Most(f, n - 1);
      if |Part(f, n - 1)| > |Part(f, h)| then n - 1 else h
  }

  function Others(f: Frame, h: nat, n: nat): seq<K>
    requires f.Fork? && n <= |f.pivots| + 1
  {
    if n == 0 then []
    else Others(f, h, n - 1) + if n - 1 == h then [] else Part(f, n - 1)
  }

  predicate Full(p: Params, f: Frame) {
    match f
    case Ends(keys) => |keys| > p.leafCap
    case Fork(_, kids, _) => |kids| > p.fanout
  }

  predicate Partable(f: Frame) {
    match f
    case Ends(keys) => |keys| >= 2
    case Fork(pivots, kids, _) => |kids| == |pivots| + 1 && |pivots| >= 1
  }

  function Halve(f: Frame): (Frame, K, Frame)
    requires Partable(f)
  {
    match f
    case Ends(keys) => (Ends(keys[..|keys| / 2]), keys[|keys| / 2], Ends(keys[|keys| / 2..]))
    case Fork(pivots, kids, buf) =>
      var mid := |pivots| / 2;
      (Fork(pivots[..mid], kids[..mid + 1], Filter(buf, In(Below(pivots[mid])))),
       pivots[mid],
       Fork(pivots[mid + 1..], kids[mid + 1..], Filter(buf, In(From(pivots[mid])))))
  }

  function HalveKid(f: Frame, i: nat): Frame
    requires f.Fork? && |f.kids| == |f.pivots| + 1 && i < |f.kids| && Partable(f.kids[i])
  {
    var (l, pv, r) := Halve(f.kids[i]);
    Fork(InsertAt(f.pivots, i, pv), InsertAt(f.kids[i := l], i + 1, r), f.buf)
  }

  lemma HalveKidEven(f: Frame, i: nat)
    requires f.Fork? && |f.kids| == |f.pivots| + 1 && i < |f.kids| && Partable(f.kids[i])
    requires forall j :: 0 <= j < |f.kids| ==> Even(f.kids[j])
    ensures Even(HalveKid(f, i))
  {
    var (l, pv, r) := Halve(f.kids[i]);
    assert Even(l) && Even(r);
  }

  ghost function Give(p: Params, f: Frame, ks: seq<K>): (f': Frame)
    requires p.Valid() && Even(f)
    ensures Even(f') && f'.Fork? == f.Fork?
    decreases f
  {
    match f
    case Ends(keys) => Ends(AddAll(keys, ks))
    case Fork(pivots, kids, buf) =>
      var g := Fork(pivots, kids, buf + ks);
      if |g.buf| > p.bufferCap then Sink(p, g) else g
  }

  ghost function Sunk(p: Params, f: Frame): (f': Frame)
    requires p.Valid() && Even(f) && f.Fork?
    ensures Even(f') && f'.Fork?
    decreases f.kids, 1
  {
    var h := Most(f, |f.kids|);
    Fork(f.pivots, f.kids[h := Give(p, f.kids[h], Part(f, h))], Others(f, h, |f.kids|))
  }

  ghost function Sink(p: Params, f: Frame): (f': Frame)
    requires p.Valid() && Even(f)
    ensures Even(f') && f'.Fork? == f.Fork?
    decreases if f.Fork? then f.kids else [], 2
  {
    if f.Ends? || f.buf == [] then f
    else
      var h, g := Most(f, |f.kids|), Sunk(p, f);
      if Full(p, g.kids[h]) then
        HalveKidEven(g, h);
        HalveKid(g, h)
      else g
  }

  ghost function Rise(p: Params, f: Frame): (f': Frame)
    requires p.Valid() && Even(f)
    ensures Even(f')
  {
    if Full(p, f) then
      HalveKidEven(Fork([], [f], []), 0);
      HalveKid(Fork([], [f], []), 0)
    else f
  }

  ghost function PutKey(p: Params, f: Frame, k: K): (f': Frame)
    requires p.Valid() && Even(f)
    ensures Even(f')
  {
    match f
    case Ends(keys) => Rise(p, Ends(Add(keys, k)))
    case Fork(pivots, kids, buf) =>
      var g := Fork(pivots, kids, buf + [k]);
      if |g.buf| > p.bufferCap then Rise(p, Sink(p, g)) else g
  }

  ghost function PutKeys(p: Params, keys: seq<K>): (f: Frame)
    requires p.Valid()
    ensures Even(f)
  {
    if keys == [] then Ends([]) else PutKey(p, PutKeys(p, keys[..|keys| - 1]), keys[|keys| - 1])
  }

  // ---------- Frames of trees ----------

  function KeysOf(ms: seq<Message>): (ks: seq<K>)
    ensures |ks| == |ms| && forall i :: 0 <= i < |ms| ==> ks[i] == ms[i].key
  {
    seq(|ms|, i requires 0 <= i < |ms| => ms[i].key)
  }

  ghost function FrameOf(t: Tree): Frame
    decreases t
  {
    match t
    case Leaf(pg) => Ends(pg.keys)
    case Node(pivots, kids, buf, _) => Fork(pivots, FramesOf(kids), KeysOf(buf))
  }

  ghost function FramesOf(kids: seq<Tree>): (fs: seq<Frame>)
    ensures |fs| == |kids| && forall i :: 0 <= i < |kids| ==> fs[i] == FrameOf(kids[i])
    decreases kids
  {
    if kids == [] then [] else FramesOf(kids[..|kids| - 1]) + [FrameOf(kids[|kids| - 1])]
  }

  /** Nothing but puts waits. */
  ghost predicate OnlyPuts(t: Tree)
    decreases t
  {
    t.Node? ==>
      (forall m :: m in t.buf ==> m.Put?) && forall i :: 0 <= i < |t.kids| ==> OnlyPuts(t.kids[i])
  }

  lemma {:induction false} FrameEven(t: Tree)
    requires Arity(t)
    ensures Even(FrameOf(t))
    decreases t
  {
    if t.Node? {
      forall i | 0 <= i < |t.kids| ensures Even(FrameOf(t).kids[i]) {
        FrameEven(t.kids[i]);
      }
    }
  }

  lemma KeysOfConcat(a: seq<Message>, b: seq<Message>)
    ensures KeysOf(a + b) == KeysOf(a) + KeysOf(b)
  {}

  lemma {:induction false} KeysOfSel(ms: seq<Message>, r: Range)
    ensures KeysOf(Sel(ms, r)) == Filter(KeysOf(ms), In(r))
  {
    if ms != [] {
      var ms', m := ms[..|ms| - 1], ms[|ms| - 1];
      KeysOfSel(ms', r);
      assert KeysOf(ms)[..|ms| - 1] == KeysOf(ms');
      KeysOfConcat(Sel(ms', r), [m]);
    }
  }

  lemma BucketPart(t: Tree, i: nat)
    requires t.Node? && i <= |t.pivots|
    ensures KeysOf(Bucket(t, i)) == Part(FrameOf(t), i)
  {
    KeysOfSel(t.buf, KidSpan(EVERYTHING, t.pivots, i));
  }

  lemma {:induction false} HeaviestMost(t: Tree, n: nat)
    requires t.Node? && 0 < n <= |t.pivots| + 1
    ensures Heaviest(t, n) == Most(FrameOf(t), n)
  {
    hide Bucket, Part;
    if n > 1 {
      HeaviestMost(t, n - 1);
      BucketPart(t, n - 1);
      BucketPart(t, Heaviest(t, n - 1));
    }
  }

  lemma {:induction false} UnflushedOthers(t: Tree, h: nat, n: nat)
    requires t.Node? && n <= |t.pivots| + 1
    ensures KeysOf(Unflushed(t, h, n)) == Others(FrameOf(t), h, n)
  {
    hide Bucket, Part;
    if n > 0 {
      UnflushedOthers(t, h, n - 1);
      BucketPart(t, n - 1);
      KeysOfConcat(Unflushed(t, h, n - 1), if n - 1 == h then [] else Bucket(t, n - 1));
    }
  }

  lemma {:induction false} RunAddAll(pg: Page, ms: seq<Message>)
    requires |pg.keys| == |pg.vals| && forall m :: m in ms ==> m.Put?
    ensures PageRun(pg, ms).keys == AddAll(pg.keys, KeysOf(ms))
  {
    if ms != [] {
      RunAddAll(pg, ms[..|ms| - 1]);
      assert KeysOf(ms)[..|ms| - 1] == KeysOf(ms[..|ms| - 1]);
      assert ms[|ms| - 1] in ms;
    }
  }

  lemma FramesSlice(kids: seq<Tree>, i: nat)
    requires i <= |kids|
    ensures FramesOf(kids[..i]) == FramesOf(kids)[..i] && FramesOf(kids[i..]) == FramesOf(kids)[i..]
  {
    hide FramesOf, FrameOf;
    var lo, hi := kids[..i], kids[i..];
    assert forall j :: 0 <= j < i ==> FramesOf(lo)[j] == FramesOf(kids)[..i][j];
    assert forall j :: 0 <= j < |hi| ==> FramesOf(hi)[j] == FramesOf(kids)[i..][j];
  }

  lemma SplitHalve(t: Tree)
    requires Splittable(t)
    ensures Partable(FrameOf(t))
    ensures var (l, pv, r) := Split(t); Halve(FrameOf(t)) == (FrameOf(l), pv, FrameOf(r))
  {
    hide FramesOf, Sel, In;
    if t.Leaf? {
      var keys, mid := t.page.keys, |t.page.keys| / 2;
      assert keys[0..mid] == keys[..mid] && keys[mid..|keys|] == keys[mid..];
    } else {
      var mid := |t.pivots| / 2;
      FramesSlice(t.kids, mid + 1);
      KeysOfSel(t.buf, Below(t.pivots[mid]));
      KeysOfSel(t.buf, From(t.pivots[mid]));
    }
  }

  lemma SplitKidHalve(t: Tree, i: nat)
    requires t.Node? && |t.kids| == |t.pivots| + 1 && i < |t.kids| && Splittable(t.kids[i])
    ensures Partable(FrameOf(t.kids[i])) && FrameOf(SplitKid(t, i)) == HalveKid(FrameOf(t), i)
  {
    hide Split, Halve;
    SplitHalve(t.kids[i]);
    var (l, pv, r) := Split(t.kids[i]);
    var ks, fs := InsertAt(t.kids[i := l], i + 1, r), InsertAt(FrameOf(t).kids[i := FrameOf(l)], i + 1, FrameOf(r));
    assert FramesOf(ks) == fs;
  }

  // ---------- A flush on frames ----------

  lemma {:induction false} DeliverGive(p: Params, c: Tree, b: seq<Message>)
    requires p.Valid() && Arity(c) && OnlyPuts(c) && forall m :: m in b ==> m.Put?
    ensures Even(FrameOf(c)) && OnlyPuts(Deliver(p, c, b).tree)
    ensures FrameOf(Deliver(p, c, b).tree) == Give(p, FrameOf(c), KeysOf(b))
    decreases c
  {
    FrameEven(c);
    match c
    case Leaf(pg) =>
      RunAddAll(pg, b);
    case Node(pivots, kids, buf, _) =>
      KeysOfConcat(buf, b);
      if |buf + b| > p.bufferCap {
        FlushSink(p, Tree.Node(pivots, kids, buf + b, false));
      }
  }

  lemma {:induction false} LoweredSunk(p: Params, t: Tree)
    requires p.Valid() && Arity(t) && OnlyPuts(t) && t.Node?
    ensures Even(FrameOf(t)) && OnlyPuts(Lowered(p, t))
    ensures FrameOf(Lowered(p, t)) == Sunk(p, FrameOf(t))
    decreases t.kids, 1
  {
    hide Bucket, Part, Unflushed, Others;
    FrameEven(t);
    var h, f := Heaviest(t, |t.kids|), FrameOf(t);
    HeaviestMost(t, |t.kids|);
    BucketPart(t, h);
    BucketPuts(t, h);
    DeliverGive(p, t.kids[h], Bucket(t, h));
    UnflushedOthers(t, h, |t.kids|);
    UnflushedMembers(t, h, |t.kids|);
    assert FramesOf(t.kids[h := Lower(p, t).tree]) == f.kids[h := Give(p, f.kids[h], Part(f, h))];
  }

  lemma BucketPuts(t: Tree, i: nat)
    requires t.Node? && i <= |t.pivots| && OnlyPuts(t)
    ensures forall m :: m in Bucket(t, i) ==> m.Put?
  {
    FilterMembers(t.buf, Within(KidSpan(EVERYTHING, t.pivots, i)));
  }

  lemma {:induction false} FlushSink(p: Params, t: Tree)
    requires p.Valid() && Arity(t) && OnlyPuts(t)
    ensures Even(FrameOf(t)) && OnlyPuts(Flush(p, t).tree)
    ensures FrameOf(Flush(p, t).tree) == Sink(p, FrameOf(t))
    decreases if t.Node? then t.kids else [], 2
  {
    FrameEven(t);
    if t.Node? && t.buf != [] {
      LoweredSunk(p, t);
      HeaviestMost(t, |t.kids|);
      var h, t' := Heaviest(t, |t.kids|), Lowered(p, t);
      assert t'.kids[h] == Lower(p, t).tree;
      if Overfull(p, t'.kids[h]) {
        SplitKidHalve(t', h);
        SplitKidPuts(t', h);
      }
    }
  }

  lemma SplitKidPuts(t: Tree, i: nat)
    requires t.Node? && |t.kids| == |t.pivots| + 1 && i < |t.kids| && Splittable(t.kids[i]) && OnlyPuts(t)
    ensures OnlyPuts(SplitKid(t, i))
  {
    SplitPuts(t.kids[i]);
    var s := SplitKid(t, i);
    forall j | 0 <= j < |s.kids| ensures OnlyPuts(s.kids[j]) {
      SplitKidAt(t, i, j);
    }
  }

  lemma SplitPuts(t: Tree)
    requires Splittable(t) && OnlyPuts(t)
    ensures OnlyPuts(Split(t).0) && OnlyPuts(Split(t).2)
  {
    if t.Node? {
      var pv := Split(t).1;
      FilterMembers(t.buf, Within(Below(pv)));
      FilterMembers(t.buf, Within(From(pv)));
    }
  }

  // ---------- Runs of puts ----------

  lemma GrowRise(p: Params, t: Tree)
    requires p.Valid() && Arity(t) && OnlyPuts(t)
    ensures Even(FrameOf(t)) && OnlyPuts(GrowRoot(p, t)) && FrameOf(GrowRoot(p, t)) == Rise(p, FrameOf(t))
  {
    FrameEven(t);
    if Overfull(p, t) {
      var t0 := Tree.Node([], [t], [], false);
      assert FrameOf(t0) == Fork([], [FrameOf(t)], []);
      assert OnlyPuts(t0);
      SplitKidHalve(t0, 0);
      SplitKidPuts(t0, 0);
    }
  }

  lemma PutFrame(p: Params, s: State, k: K, v: V)
    requires p.Valid() && Arity(s.tree) && OnlyPuts(s.tree)
    ensures var t' := PutStep(p, s, k, v, false).tree;
      Even(FrameOf(s.tree)) && OnlyPuts(t') && FrameOf(t') == PutKey(p, FrameOf(s.tree), k)
  {
    hide Flush, GrowRoot, Sink, Rise, TakenForNew;
    FrameEven(s.tree);
    match s.tree
    case Leaf(pg) =>
      GrowRise(p, Leaf(PageStep(pg, Put(k, v, false))));
    case Node(_, _, _, _) =>
      var m := Put(k, v, TakenForNew(s, k, false));
      var t := OnTop(s.tree, [m]);
      KeysOfConcat(s.tree.buf, [m]);
      assert FrameOf(t) == Fork(s.tree.pivots, FramesOf(s.tree.kids), KeysOf(s.tree.buf) + [k]);
      assert OnlyPuts(t);
      FrameEven(t);
      if |t.buf| > p.bufferCap {
        FlushSink(p, t);
        GrowRise(p, Flush(p, t).tree);
      }
  }

  function PutOps(ops: seq<Op>): (keys: seq<K>)
    requires forall op :: op in ops ==> op.DoPut?
    ensures |keys| == |ops|
  {
    if ops == [] then [] else PutOps(ops[..|ops| - 1]) + [ops[|ops| - 1].key]
  }

  /** After any run of puts the frame is determined by the keys that were put, in their order. */
  lemma {:induction false} RunFrame(p: Params, ops: seq<Op>)
    requires p.Valid() && forall op :: op in ops ==> op.DoPut?
    ensures var t := Run(p, ops).0.tree;
      OnlyPuts(t) && FrameOf(t) == PutKeys(p, PutOps(ops))
  {
    hide PutStep, PutKey;
    if ops != [] {
      var ops', op := ops[..|ops| - 1], ops[|ops| - 1];
      RunFrame(p, ops');
      assert op in ops;
      PutFrame(p, Run(p, ops').0, op.key, op.value);
      assert PutOps(ops)[..|ops| - 1] == PutOps(ops');
    }
  }
}
