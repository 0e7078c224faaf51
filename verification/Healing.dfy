/** A flush only heals the size counter: key by key it works the oldest messages into the leaf,
    so what it leaves waiting is never miscounted more often than before. */
module Healing {
  import opened Seqs
  import opened Messages
  import opened Leaves
  import opened Trees
  import opened Flushing
  import opened Ledgers
  import opened Contents
  import opened KeySets

  // ---------- The miscounts of one key ----------

  /** How many of a key's messages are miscounted, the oldest of them meeting the state o. */
  function OffAt(c: Miscount, ms: seq<Message>, o: Option<V>): nat {
    if ms == [] then 0
    else OffAt(c, ms[..|ms| - 1], o) + OffStep(c, ms[|ms| - 1], Fold(ms[..|ms| - 1], o))
  }

  lemma OffAtSnoc(c: Miscount, ms: seq<Message>, m: Message, o: Option<V>)
    ensures OffAt(c, ms + [m], o) == OffAt(c, ms, o) + OffStep(c, m, Fold(ms, o))
  {
    assert (ms + [m])[..|ms|] == ms;
  }

  lemma {:induction false} OffAtConcat(c: Miscount, a: seq<Message>, b: seq<Message>, o: Option<V>)
    ensures OffAt(c, a + b, o) == OffAt(c, a, o) + OffAt(c, b, Fold(a, o))
  {
    if b == [] {
      PlusNil(a);
    } else {
      var b', m := b[..|b| - 1], b[|b| - 1];
      assert b == b' + [m];
      OffAtConcat(c, a, b', o);
      Assoc(a, b', [m]);
      OffAtSnoc(c, a + b', m, o);
      FoldConcat(a, b', o);
    }
  }

  ghost function OffKey(c: Miscount, t: Tree, k: K): nat
    requires Arity(t)
  {
    OffAt(c, Path(t, k), Base(t, k))
  }

  // ---------- Sums over keys ----------

  ghost function OffKeys(c: Miscount, t: Tree, keys: seq<K>): nat
    requires Arity(t)
  {
    if keys == [] then 0 else OffKeys(c, t, keys[..|keys| - 1]) + OffKey(c, t, keys[|keys| - 1])
  }

  function RunKeys(c: Miscount, ms: seq<Message>, m: map<K, V>, keys: seq<K>): nat {
    if keys == [] then 0
    else RunKeys(c, ms, m, keys[..|keys| - 1]) + OffAt(c, At(ms, keys[|keys| - 1]), Get(m, keys[|keys| - 1]))
  }

  /** One more message counts at its own key. */
  lemma {:induction false} RunKeysSnoc(c: Miscount, ms: seq<Message>, x: Message, m: map<K, V>, keys: seq<K>)
    requires Increasing(keys)
    ensures RunKeys(c, ms + [x], m, keys) == RunKeys(c, ms, m, keys)
      + if x.key in keys then OffStep(c, x, Fold(At(ms, x.key), Get(m, x.key))) else 0
  {
    hide OffAt, At, OffStep, Fold;
    if keys != [] {
      var keys', k := keys[..|keys| - 1], keys[|keys| - 1];
      RunKeysSnoc(c, ms, x, m, keys');
      AtSnoc(ms, x, k);
      OffAtSnoc(c, At(ms, k), x, Get(m, k));
      assert keys == keys' + [k];
      assert k !in keys';
    }
  }

  lemma {:induction false} RunKeysNone(c: Miscount, m: map<K, V>, keys: seq<K>)
    ensures RunKeys(c, [], m, keys) == 0
  {
    if keys != [] {
      RunKeysNone(c, m, keys[..|keys| - 1]);
      AtNone(keys[|keys| - 1]);
    }
  }

  /** A buffer's miscounts are those of its keys, each seen on its own. */
  lemma {:induction false} RunByKey(c: Miscount, ms: seq<Message>, m: map<K, V>, keys: seq<K>)
    requires Increasing(keys) && forall x :: x in ms ==> x.key in keys
    ensures OffRun(c, ms, m) == RunKeys(c, ms, m, keys)
  {
    hide RunKeys, At, OffStep, Fold;
    if ms == [] {
      RunKeysNone(c, m, keys);
    } else {
      var ms', x := ms[..|ms| - 1], ms[|ms| - 1];
      assert ms == ms' + [x];
      RunByKey(c, ms', m, keys);
      RunKeysSnoc(c, ms', x, m, keys);
      GetRun(ms', m, x.key);
      assert x in ms;
    }
  }

  /** What the first n children's keys contribute below a node's buffer. */
  ghost function BelowKeys(c: Miscount, t: Tree, n: nat, keys: seq<K>): nat
    requires Arity(t) && t.Node?
  {
    if keys == [] then 0
    else
      var k := keys[|keys| - 1];
      BelowKeys(c, t, n, keys[..|keys| - 1])
      + if Route(t.pivots, k) < n then OffKey(c, t.kids[Route(t.pivots, k)], k) else 0
  }

  lemma {:induction false} BelowNone(c: Miscount, t: Tree, keys: seq<K>)
    requires Arity(t) && t.Node?
    ensures BelowKeys(c, t, 0, keys) == 0
  {
    if keys != [] {
      BelowNone(c, t, keys[..|keys| - 1]);
    }
  }

  lemma {:induction false} BelowNext(p: Params, c: Miscount, t: Tree, r: Range, h: nat, min: nat, max: nat,
                                     n: nat, keys: seq<K>)
    requires Shape(p, t, r, h, min, max) && HalfOpen(r) && Arity(t) && t.Node? && n < |t.kids|
    ensures BelowKeys(c, t, n + 1, keys) == BelowKeys(c, t, n, keys) + OffKeys(c, t.kids[n], keys)
    decreases keys
  {
    hide Path, Base, Route, Shape;
    if keys != [] {
      var k := keys[|keys| - 1];
      BelowNext(p, c, t, r, h, min, max, n, keys[..|keys| - 1]);
      if Route(t.pivots, k) != n {
        Elsewhere(p, t, r, h, min, max, n, k);
      }
    }
  }

  /** A node's miscounts at one key are those below, and those of its buffer over them. */
  lemma NodeKey(p: Params, c: Miscount, t: Tree, r: Range, h: nat, min: nat, max: nat, k: K)
    requires Shape(p, t, r, h, min, max) && HalfOpen(r) && Arity(t) && t.Node?
    ensures OffKey(c, t, k)
      == OffKey(c, t.kids[Route(t.pivots, k)], k) + OffAt(c, At(t.buf, k), Get(Merged(t.kids), k))
  {
    hide OffAt, Merged, Live;
    var kid := t.kids[Route(t.pivots, k)];
    OffAtConcat(c, Path(kid, k), At(t.buf, k), Base(kid, k));
    MergedIsLookup(p, t, r, h, min, max, |t.kids|, k);
    TakeAll(t.kids);
  }

  lemma {:induction false} NodeByKey(p: Params, c: Miscount, t: Tree, r: Range, h: nat, min: nat, max: nat, keys: seq<K>)
    requires Shape(p, t, r, h, min, max) && HalfOpen(r) && Arity(t) && t.Node?
    ensures OffKeys(c, t, keys) == BelowKeys(c, t, |t.kids|, keys) + RunKeys(c, t.buf, Merged(t.kids), keys)
    decreases keys
  {
    hide OffKey, OffAt, At, Merged, Shape;
    if keys != [] {
      NodeByKey(p, c, t, r, h, min, max, keys[..|keys| - 1]);
      NodeKey(p, c, t, r, h, min, max, keys[|keys| - 1]);
    }
  }

  /** All keys with a message waiting. */
  ghost predicate Covers(keys: seq<K>, t: Tree)
    requires Arity(t)
  {
    Increasing(keys) && forall k :: Path(t, k) != [] ==> k in keys
  }

  lemma CoversKid(p: Params, t: Tree, r: Range, h: nat, min: nat, max: nat, i: nat, keys: seq<K>)
    requires Shape(p, t, r, h, min, max) && HalfOpen(r) && Arity(t) && t.Node? && i < |t.kids| && Covers(keys, t)
    ensures Covers(keys, t.kids[i])
  {
    forall k | Path(t.kids[i], k) != [] ensures k in keys {
      if Route(t.pivots, k) != i {
        Elsewhere(p, t, r, h, min, max, i, k);
      }
      assert Path(t, k) != [];
    }
  }

  lemma CoversBuffer(t: Tree, keys: seq<K>)
    requires Arity(t) && t.Node? && Covers(keys, t)
    ensures forall x :: x in t.buf ==> x.key in keys
  {
    forall x | x in t.buf ensures x.key in keys {
      FilterMembers(t.buf, Within(Only(x.key)));
      assert x in At(t.buf, x.key);
      assert Path(t, x.key) != [];
    }
  }

  /** A tree's miscounts are those of its keys, each seen on its own path. */
  lemma {:induction false} TreeByKey(p: Params, c: Miscount, t: Tree, r: Range, h: nat, min: nat, max: nat, keys: seq<K>)
    requires Shape(p, t, r, h, min, max) && HalfOpen(r) && Arity(t) && Covers(keys, t)
    ensures Off(c, t) == OffKeys(c, t, keys)
    decreases t
  {
    if t.Leaf? {
      LeafByKey(c, t, keys);
    } else {
      KidsByKey(p, c, t, r, h, min, max, |t.kids|, keys);
      TakeAll(t.kids);
      CoversBuffer(t, keys);
      RunByKey(c, t.buf, Merged(t.kids), keys);
      NodeByKey(p, c, t, r, h, min, max, keys);
    }
  }

  lemma {:induction false} LeafByKey(c: Miscount, t: Tree, keys: seq<K>)
    requires Arity(t) && t.Leaf?
    ensures OffKeys(c, t, keys) == 0
    decreases keys
  {
    if keys != [] {
      LeafByKey(c, t, keys[..|keys| - 1]);
    }
  }

  lemma {:induction false} KidsByKey(p: Params, c: Miscount, t: Tree, r: Range, h: nat, min: nat, max: nat,
                                     n: nat, keys: seq<K>)
    requires Shape(p, t, r, h, min, max) && HalfOpen(r) && Arity(t) && t.Node? && n <= |t.kids| && Covers(keys, t)
    ensures Offs(c, t.kids[..n]) == BelowKeys(c, t, n, keys)
    decreases t, n
  {
    hide Covers, Off, OffKeys;
    if n == 0 {
      BelowNone(c, t, keys);
    } else {
      var kid := t.kids[n - 1];
      assert t.kids[..n][..n - 1] == t.kids[..n - 1];
      KidsByKey(p, c, t, r, h, min, max, n - 1, keys);
      CoversKid(p, t, r, h, min, max, n - 1, keys);
      TreeByKey(p, c, kid, KidSpan(r, t.pivots, n - 1), h - 1, p.Half(), p.fanout, keys);
      BelowNext(p, c, t, r, h, min, max, n - 1, keys);
    }
  }

  // ---------- There are finitely many keys ----------

  lemma {:induction false} SomeCover(t: Tree) returns (s: set<K>)
    requires Arity(t)
    ensures forall k :: Path(t, k) != [] ==> k in s
    decreases t
  {
    s := {};
    if t.Node? {
      s := BufferKeys(t.buf);
      var i := 0;
      while i < |t.kids|
        invariant i <= |t.kids|
        invariant forall k :: At(t.buf, k) != [] ==> k in s
        invariant forall j, k :: 0 <= j < i && Path(t.kids[j], k) != [] ==> k in s
      {
        var s' := SomeCover(t.kids[i]);
        s := s + s';
        i := i + 1;
      }
    }
  }

  lemma {:induction false} BufferKeys(ms: seq<Message>) returns (s: set<K>)
    ensures forall k :: At(ms, k) != [] ==> k in s
  {
    s := {};
    if ms != [] {
      s := BufferKeys(ms[..|ms| - 1]);
      s := s + {ms[|ms| - 1].key};
      forall k | At(ms, k) != [] ensures k in s {
        assert ms == ms[..|ms| - 1] + [ms[|ms| - 1]];
        AtSnoc(ms[..|ms| - 1], ms[|ms| - 1], k);
      }
    }
  }

  // ---------- Healing ----------

  /** Working a key's oldest messages into its leaf leaves no more of them miscounted. */
  lemma SettlesHeals(c: Miscount, ms: seq<Message>, o: Option<V>, ms': seq<Message>, o': Option<V>)
    requires Settles(ms, o, ms', o')
    ensures OffAt(c, ms', o') <= OffAt(c, ms, o)
  {
    var a := ms[..|ms| - |ms'|];
    assert ms == a + ms';
    OffAtConcat(c, a, ms', o);
  }

  lemma {:induction false} SumHeals(c: Miscount, t: Tree, t': Tree, keys: seq<K>)
    requires Arity(t) && Arity(t') && forall k :: SettlesAt(t, t', k)
    ensures OffKeys(c, t', keys) <= OffKeys(c, t, keys)
    decreases keys
  {
    if keys != [] {
      var k := keys[|keys| - 1];
      SumHeals(c, t, t', keys[..|keys| - 1]);
      assert SettlesAt(t, t', k);
      SettlesHeals(c, Path(t, k), Base(t, k), Path(t', k), Base(t', k));
    }
  }

  lemma CoversSettled(t: Tree, t': Tree, keys: seq<K>)
    requires Arity(t) && Arity(t') && Covers(keys, t) && forall k :: SettlesAt(t, t', k)
    ensures Covers(keys, t')
  {
    forall k | Path(t', k) != [] ensures k in keys {
      assert SettlesAt(t, t', k);
    }
  }

  /** Whatever settles every key of a tree heals it. */
  lemma Heals(p: Params, c: Miscount, t: Tree, r: Range, h: nat, min: nat, max: nat,
              t': Tree, h': nat, min': nat, max': nat)
    requires HalfOpen(r) && Shape(p, t, r, h, min, max) && Shape(p, t', r, h', min', max')
    requires Arity(t) && Arity(t') && forall k :: SettlesAt(t, t', k)
    ensures Off(c, t') <= Off(c, t)
  {
    hide Covers, Off, Shape, SettlesAt;
    var s := SomeCover(t);
    var keys := Ascending(s);
    CoveredBy(t, s);
    CoversSettled(t, t', keys);
    TreeByKey(p, c, t, r, h, min, max, keys);
    TreeByKey(p, c, t', r, h', min', max', keys);
    SumHeals(c, t, t', keys);
  }

  /** A flush leaves neither kind of miscount more often than it found it. */
  lemma FlushHeals(p: Params, c: Miscount, t: Tree, r: Range, h: nat, min: nat)
    requires p.Valid() && HalfOpen(r) && Shape(p, t, r, h, min, p.fanout) && Arity(t)
    ensures Off(c, Flush(p, t).tree) <= Off(c, t)
  {
    hide Flush, Off, Shape, SettlesAt, Arity;
    var t' := Flush(p, t).tree;
    forall k ensures SettlesAt(t, t', k) {
      FlushSettles(p, t, r, h, min, k);
    }
    FlushShape(p, t, r, h, min);
    Heals(p, c, t, r, h, min, p.fanout, t', h, min, p.fanout + 1);
  }

  lemma CoveredBy(t: Tree, s: set<K>)
    requires Arity(t) && forall k :: Path(t, k) != [] ==> k in s
    ensures Covers(Ascending(s), t)
  {}

  /** So the correction a flush makes to the counter takes back counted puts over live keys and
      adds upserts over absent ones, and no more than there are. */
  lemma FlushCorrects(p: Params, t: Tree, r: Range, h: nat, min: nat)
    requires p.Valid() && HalfOpen(r) && Shape(p, t, r, h, min, p.fanout) && Arity(t) && TreeHist(t)
    ensures var f := Flush(p, t);
      && f.size == (Off(Missed, t) - Off(Missed, f.tree)) - (Off(Twice, t) - Off(Twice, f.tree))
      && 0 - Off(Twice, t) <= f.size <= Off(Missed, t)
  {
    hide Flush, Off, Shape, Total, TreeHist;
    var t' := Flush(p, t).tree;
    FlushHeals(p, Twice, t, r, h, min);
    FlushHeals(p, Missed, t, r, h, min);
    FlushTotal(p, Size, t, r, h, min);
    FlushShape(p, t, r, h, min);
    FlushKeeps(p, t, r, h, min);
    SizeLaw(p, t, r, h, min, p.fanout);
    SizeLaw(p, t', r, h, min, p.fanout + 1);
    SameLive(p, t, t', r, h, min);
  }

  lemma SameLive(p: Params, t: Tree, t': Tree, r: Range, h: nat, min: nat)
    requires HalfOpen(r) && Arity(t) && Arity(t')
    requires Shape(p, t, r, h, min, p.fanout) && Shape(p, t', r, h, min, p.fanout + 1)
    requires forall k :: Lookup(t', k) == Lookup(t, k)
    ensures Live(t') == Live(t)
  {
    hide Live, Lookup, Shape;
    forall k ensures Get(Live(t'), k) == Get(Live(t), k) {
      LiveIsLookup(p, t, r, h, min, p.fanout, k);
      LiveIsLookup(p, t', r, h, min, p.fanout + 1, k);
    }
    MapEqual(Live(t'), Live(t));
  }
}
