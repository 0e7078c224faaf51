/** The contents of a leaf, and the simple way of applying messages to it: one at a time
    (node.go:141-181, flush.go:141-164). */
module Leaves {
  import opened Seqs
  import opened Messages

  /** A leaf's parallel key and value slices. */
  datatype Page = Page(keys: seq<K>, vals: seq<V>)

  const EMPTY := Page([], [])

  ghost predicate Increasing(s: seq<K>) {
    forall i, j :: 0 <= i < j < |s| ==> s[i] < s[j]
  }

  ghost predicate Sound(pg: Page) {
    |pg.keys| == |pg.vals| && Increasing(pg.keys)
  }

  /** Index of the first key >= k. */
  function Locate(keys: seq<K>, k: K): (i: nat)
    ensures i <= |keys|
    ensures forall j :: 0 <= j < i ==> keys[j] < k
    ensures i < |keys| ==> k <= keys[i]
  {
    if keys == [] || k <= keys[0] then 0 else 1 + Locate(keys[1..], k)
  }

  predicate Present(keys: seq<K>, k: K) {
    var i := Locate(keys, k);
    i < |keys| && keys[i] == k
  }

  function Val(pg: Page, k: K): Option<V>
    requires |pg.keys| == |pg.vals|
  {
    if Present(pg.keys, k) then Some(pg.vals[Locate(pg.keys, k)]) else None
  }

  lemma PresentIn(keys: seq<K>, k: K)
    requires Increasing(keys)
    ensures Present(keys, k) <==> k in keys
  {
    if k in keys {
      var i := Locate(keys, k);
      var j :| 0 <= j < |keys| && keys[j] == k;
    }
  }

  /** In an increasing list the place of a key is the only one that separates it. */
  lemma LocateUnique(keys: seq<K>, k: K, i: nat)
    requires i <= |keys|
    requires forall j :: 0 <= j < i ==> keys[j] < k
    requires i < |keys| ==> k <= keys[i]
    ensures Locate(keys, k) == i
  {}

  lemma ValAt(pg: Page, i: nat)
    requires Sound(pg) && i < |pg.keys|
    ensures Val(pg, pg.keys[i]) == Some(pg.vals[i])
  {
    LocateUnique(pg.keys, pg.keys[i], i);
  }

  function Join(a: Page, b: Page): Page { Page(a.keys + b.keys, a.vals + b.vals) }

  function Cut(pg: Page, i: nat, j: nat): Page
    requires |pg.keys| == |pg.vals| && i <= j <= |pg.keys|
  {
    Page(pg.keys[i..j], pg.vals[i..j])
  }

  ghost predicate Before(a: seq<K>, b: seq<K>) {
    forall i, j :: 0 <= i < |a| && 0 <= j < |b| ==> a[i] < b[j]
  }

  lemma ValJoin(a: Page, b: Page, k: K)
    requires Sound(a) && Sound(b) && Before(a.keys, b.keys)
    ensures Sound(Join(a, b))
    ensures Val(Join(a, b), k) == if Val(b, k).Some? then Val(b, k) else Val(a, k)
    ensures Val(a, k).Some? ==> Val(b, k).None?
  {
    var i, j := Locate(a.keys, k), Locate(b.keys, k);
    var ab := Join(a, b);
    if i < |a.keys| {
      LocateUnique(ab.keys, k, i);
      if |b.keys| > 0 {
        assert a.keys[i] < b.keys[0];
        LocateUnique(b.keys, k, 0);
      }
    } else {
      LocateUnique(ab.keys, k, |a.keys| + j);
    }
  }

  lemma ValCut(pg: Page, i: nat, k: K)
    requires Sound(pg) && i <= |pg.keys|
    ensures var low, high := Cut(pg, 0, i), Cut(pg, i, |pg.keys|);
      && Sound(low) && Sound(high)
      && Val(pg, k) == (if Val(high, k).Some? then Val(high, k) else Val(low, k))
      && (Val(low, k).Some? ==> Val(high, k).None?)
  {
    var low, high := Cut(pg, 0, i), Cut(pg, i, |pg.keys|);
    assert pg == Join(low, high);
    ValJoin(low, high, k);
  }

  lemma LastIsGreatest(a: seq<K>, k: K)
    requires Increasing(a) && a != [] && k in a
    ensures k <= a[|a| - 1]
    ensures k in a[..|a| - 1] <==> k != a[|a| - 1]
  {
    var i :| 0 <= i < |a| && a[i] == k;
    if i < |a| - 1 {
      assert a[..|a| - 1][i] == k;
    }
  }

  ghost predicate SameKeys(a: seq<K>, b: seq<K>) {
    forall k :: k in a <==> k in b
  }

  lemma KeysUnique(a: seq<K>, b: seq<K>)
    requires Increasing(a) && Increasing(b)
    requires forall k :: k in a <==> k in b
    ensures a == b
  {
    SameKeysUnique(a, b);
  }

  lemma {:induction false} SameKeysUnique(a: seq<K>, b: seq<K>)
    requires Increasing(a) && Increasing(b) && SameKeys(a, b)
    ensures a == b
  {
    hide SameKeys;
    SameKeysEmpty(a, b);
    if a != [] {
      SameKeysInit(a, b);
      SameKeysUnique(a[..|a| - 1], b[..|b| - 1]);
      assert a == a[..|a| - 1] + [a[|a| - 1]] && b == b[..|b| - 1] + [b[|b| - 1]];
    }
  }

  lemma SameKeysEmpty(a: seq<K>, b: seq<K>)
    requires SameKeys(a, b)
    ensures a == [] <==> b == []
  {
    if a != [] {
      var k := a[0];
      assert k in a && k in b;
    }
    if b != [] {
      var k := b[0];
      assert k in b && k in a;
    }
  }

  lemma SameKeysInit(a: seq<K>, b: seq<K>)
    requires Increasing(a) && Increasing(b) && SameKeys(a, b) && a != [] && b != []
    ensures a[|a| - 1] == b[|b| - 1] && SameKeys(a[..|a| - 1], b[..|b| - 1])
  {
    assert a[|a| - 1] in a && b[|b| - 1] in b;
    LastIsGreatest(a, b[|b| - 1]);
    LastIsGreatest(b, a[|a| - 1]);
    var a', b' := a[..|a| - 1], b[..|b| - 1];
    forall k ensures k in a' <==> k in b' {
      if k in a {
        LastIsGreatest(a, k);
        LastIsGreatest(b, k);
      }
    }
  }

  /** An increasing page is determined by the values it gives keys. */
  lemma PageUnique(a: Page, b: Page)
    requires Sound(a) && Sound(b)
    requires forall k :: Val(a, k) == Val(b, k)
    ensures a == b
  {
    forall k ensures k in a.keys <==> k in b.keys {
      assert Val(a, k) == Val(b, k);
      PresentIn(a.keys, k);
      PresentIn(b.keys, k);
    }
    KeysUnique(a.keys, b.keys);
    forall i | 0 <= i < |a.vals| ensures a.vals[i] == b.vals[i] {
      ValAt(a, i);
      ValAt(b, i);
    }
  }

  // ---------- One message at a time ----------

  function PagePut(pg: Page, k: K, v: V): Page
    requires |pg.keys| == |pg.vals|
  {
    var i := Locate(pg.keys, k);
    if Present(pg.keys, k) then Page(pg.keys, pg.vals[i := v])
    else Page(InsertAt(pg.keys, i, k), InsertAt(pg.vals, i, v))
  }

  function PageRemove(pg: Page, k: K): Page
    requires |pg.keys| == |pg.vals|
  {
    var i := Locate(pg.keys, k);
    if Present(pg.keys, k) then Page(RemoveAt(pg.keys, i), RemoveAt(pg.vals, i))
    else pg
  }

  function PageStep(pg: Page, m: Message): (r: Page)
    requires |pg.keys| == |pg.vals|
    ensures |r.keys| == |r.vals|
  {
    match m
    case Put(k, v, _) => PagePut(pg, k, v)
    case Delete(k) => PageRemove(pg, k)
    case DeleteRange(_, _) => pg
    case Upsert(k, fn) => PagePut(pg, k, fn(Val(pg, k)))
  }

  function PageRun(pg: Page, ms: seq<Message>): (r: Page)
    requires |pg.keys| == |pg.vals|
    ensures |r.keys| == |r.vals|
  {
    if ms == [] then pg else PageStep(PageRun(pg, ms[..|ms| - 1]), ms[|ms| - 1])
  }

  /** What applying one message at the leaf adds to the tree's size. */
  function SizeStep(pg: Page, m: Message): int {
    match m
    case Put(k, _, counted) =>
      if !Present(pg.keys, k) && !counted then 1
      else if Present(pg.keys, k) && counted then -1
      else 0
    case Delete(_) => 0
    case DeleteRange(_, _) => 0
    case Upsert(k, _) => if Present(pg.keys, k) then 0 else 1
  }

  function SizeRun(pg: Page, ms: seq<Message>): int
    requires |pg.keys| == |pg.vals|
  {
    if ms == [] then 0
    else SizeRun(pg, ms[..|ms| - 1]) + SizeStep(PageRun(pg, ms[..|ms| - 1]), ms[|ms| - 1])
  }

  /** Three stretches of keys in order. */
  lemma ValThree(a: Page, mid: Page, b: Page, x: K)
    requires Sound(a) && Sound(mid) && Sound(b)
    requires Before(a.keys, mid.keys) && Before(mid.keys, b.keys) && Before(a.keys, b.keys)
    ensures Sound(Join(Join(a, mid), b)) && Sound(Join(a, b))
    ensures Val(Join(Join(a, mid), b), x) == if Val(mid, x).Some? then Val(mid, x) else Val(Join(a, b), x)
    ensures Val(mid, x).Some? ==> Val(Join(a, b), x).None?
  {
    ValJoin(a, mid, x);
    ValJoin(Join(a, mid), b, x);
    ValJoin(mid, b, x);
    ValJoin(a, b, x);
  }

  lemma ValOne(k: K, v: V, x: K)
    ensures Sound(Page([k], [v]))
    ensures Val(Page([k], [v]), x) == if x == k then Some(v) else None
  {
    PresentIn([k], x);
    if x == k {
      ValAt(Page([k], [v]), 0);
    }
  }

  lemma CutHere(pg: Page, i: nat)
    requires Sound(pg) && i <= |pg.keys|
    ensures var a, b := Cut(pg, 0, i), Cut(pg, i, |pg.keys|);
      Sound(a) && Sound(b) && Before(a.keys, b.keys) && pg == Join(a, b)
  {}

  lemma JoinThree(pg: Page, i: nat, k: K, v: V)
    requires |pg.keys| == |pg.vals| && i <= |pg.keys|
    ensures Page(InsertAt(pg.keys, i, k), InsertAt(pg.vals, i, v))
      == Join(Join(Cut(pg, 0, i), Page([k], [v])), Cut(pg, i, |pg.keys|))
  {}

  lemma BeforeHere(pg: Page, i: nat, k: K, v: V)
    requires Sound(pg) && !Present(pg.keys, k) && i == Locate(pg.keys, k)
    ensures Before(Cut(pg, 0, i).keys, [k]) && Before([k], Cut(pg, i, |pg.keys|).keys)
  {}

  lemma ValOverwrite(pg: Page, k: K, v: V, x: K)
    requires Sound(pg) && Present(pg.keys, k)
    ensures Sound(PagePut(pg, k, v)) && |PagePut(pg, k, v).keys| == |pg.keys|
    ensures Val(PagePut(pg, k, v), x) == if x == k then Some(v) else Val(pg, x)
  {
    assert PagePut(pg, k, v).keys == pg.keys;
    if x != k && Present(pg.keys, x) {
      assert Locate(pg.keys, x) != Locate(pg.keys, k);
    }
  }

  lemma ValInsert(pg: Page, k: K, v: V, x: K)
    requires Sound(pg) && !Present(pg.keys, k)
    ensures Sound(PagePut(pg, k, v)) && |PagePut(pg, k, v).keys| == |pg.keys| + 1
    ensures Val(PagePut(pg, k, v), x) == if x == k then Some(v) else Val(pg, x)
  {
    hide Val, Before, Cut, Join;
    var i, n := Locate(pg.keys, k), |pg.keys|;
    var a, mid, b := Cut(pg, 0, i), Page([k], [v]), Cut(pg, i, n);
    CutHere(pg, i);
    JoinThree(pg, i, k, v);
    BeforeHere(pg, i, k, v);
    ValOne(k, v, x);
    ValThree(a, mid, b, x);
    PresentVal(pg, k);
  }

  lemma ValPut(pg: Page, k: K, v: V, x: K)
    requires Sound(pg)
    ensures Sound(PagePut(pg, k, v))
    ensures Val(PagePut(pg, k, v), x) == if x == k then Some(v) else Val(pg, x)
    ensures |PagePut(pg, k, v).keys| == |pg.keys| + if Present(pg.keys, k) then 0 else 1
  {
    if Present(pg.keys, k) {
      ValOverwrite(pg, k, v, x);
    } else {
      ValInsert(pg, k, v, x);
    }
  }

  lemma ValRemove(pg: Page, k: K, x: K)
    requires Sound(pg)
    ensures Sound(PageRemove(pg, k))
    ensures Val(PageRemove(pg, k), x) == if x == k then None else Val(pg, x)
    ensures |PageRemove(pg, k).keys| == |pg.keys| - if Present(pg.keys, k) then 1 else 0
  {
    hide Val, Before, Cut, Join;
    if Present(pg.keys, k) {
      var i, n := Locate(pg.keys, k), |pg.keys|;
      var a, mid, b := Cut(pg, 0, i), Cut(pg, i, i + 1), Cut(pg, i + 1, n);
      CutThree(pg, i);
      ValOne(k, pg.vals[i], x);
      ValThree(a, mid, b, x);
    } else {
      PresentVal(pg, k);
    }
  }

  lemma PresentVal(pg: Page, k: K)
    requires Sound(pg)
    ensures Present(pg.keys, k) <==> Val(pg, k).Some?
  {}

  lemma CutSound(pg: Page, i: nat, j: nat)
    requires Sound(pg) && i <= j <= |pg.keys|
    ensures Sound(Cut(pg, i, j))
  {}

  lemma CutThree(pg: Page, i: nat)
    requires Sound(pg) && i < |pg.keys|
    ensures var a, mid, b := Cut(pg, 0, i), Cut(pg, i, i + 1), Cut(pg, i + 1, |pg.keys|);
      && Sound(a) && Sound(mid) && Sound(b)
      && Before(a.keys, mid.keys) && Before(mid.keys, b.keys) && Before(a.keys, b.keys)
    ensures pg == Join(Join(Cut(pg, 0, i), Cut(pg, i, i + 1)), Cut(pg, i + 1, |pg.keys|))
    ensures Page(RemoveAt(pg.keys, i), RemoveAt(pg.vals, i)) == Join(Cut(pg, 0, i), Cut(pg, i + 1, |pg.keys|))
    ensures Cut(pg, i, i + 1) == Page([pg.keys[i]], [pg.vals[i]])
  {
    hide Increasing, Before;
    CutApart(pg, i);
  }

  lemma CutApart(pg: Page, i: nat)
    requires Sound(pg) && i < |pg.keys|
    ensures var a, mid, b := Cut(pg, 0, i), Cut(pg, i, i + 1), Cut(pg, i + 1, |pg.keys|);
      && Sound(a) && Sound(mid) && Sound(b)
      && Before(a.keys, mid.keys) && Before(mid.keys, b.keys) && Before(a.keys, b.keys)
  {}

  lemma ValStep(pg: Page, m: Message, k: K)
    requires Sound(pg)
    ensures Sound(PageStep(pg, m))
    ensures Val(PageStep(pg, m), k) == if m.key == k then Step(m, Val(pg, k)) else Val(pg, k)
  {
    match m
    case Put(x, v, _) => ValPut(pg, x, v, k);
    case Delete(x) => ValRemove(pg, x, k);
    case DeleteRange(_, _) =>
    case Upsert(x, fn) => ValPut(pg, x, fn(Val(pg, x)), k);
  }

  /** Applying messages to a leaf does to each key what the messages for that key say. */
  lemma {:induction false} ValRun(pg: Page, ms: seq<Message>, k: K)
    requires Sound(pg)
    ensures Sound(PageRun(pg, ms))
    ensures Val(PageRun(pg, ms), k) == Fold(At(ms, k), Val(pg, k))
  {
    hide Val, PageStep, Step;
    if ms != [] {
      var ms', m, o := ms[..|ms| - 1], ms[|ms| - 1], Val(pg, k);
      var q := PageRun(pg, ms');
      ValRun(pg, ms', k);
      assert ms == ms' + [m];
      AtSnoc(ms', m, k);
      FoldSnoc(At(ms', k), m, o);
      ValStep(q, m, k);
    }
  }

  lemma RunSound(pg: Page, ms: seq<Message>)
    requires Sound(pg)
    ensures Sound(PageRun(pg, ms))
  {
    ValRun(pg, ms, 0.0);
  }

  /** Keys only come from the leaf and from the messages. */
  lemma RunKeys(pg: Page, ms: seq<Message>, r: Range)
    requires Sound(pg) && AllWithin(ms, r)
    requires forall k :: k in pg.keys ==> r.Has(k)
    ensures forall k :: k in PageRun(pg, ms).keys ==> r.Has(k)
  {
    forall k | k in PageRun(pg, ms).keys && !r.Has(k)
      ensures false
    {
      ValRun(pg, ms, k);
      AtOutside(ms, r, k);
      PresentIn(PageRun(pg, ms).keys, k);
      PresentIn(pg.keys, k);
    }
  }

  // ---------- The size, message by message and for a whole batch ----------

  /** How many deletes in ms find no key to remove. */
  function IdleDeletes(pg: Page, ms: seq<Message>): nat
    requires |pg.keys| == |pg.vals|
  {
    if ms == [] then 0
    else
      var m := ms[|ms| - 1];
      IdleDeletes(pg, ms[..|ms| - 1])
      + if m.Delete? && !Present(PageRun(pg, ms[..|ms| - 1]).keys, m.key) then 1 else 0
  }

  /** What the batch path adds to the size: the change in the leaf's length, with the
      adjustments made on insertion undone (flush.go:137). */
  function BatchSize(pg: Page, ms: seq<Message>): int
    requires |pg.keys| == |pg.vals|
  {
    |PageRun(pg, ms).keys| - |pg.keys| - Counted(ms) + Deletes(ms)
  }

  /** The batch formula exceeds the message-by-message count by the deletes that missed:
      the two agree exactly when every delete removes something. */
  lemma {:induction false} BatchSizeGap(pg: Page, ms: seq<Message>)
    requires Sound(pg)
    ensures BatchSize(pg, ms) == SizeRun(pg, ms) + IdleDeletes(pg, ms)
  {
    if ms != [] {
      var ms', m := ms[..|ms| - 1], ms[|ms| - 1];
      BatchSizeGap(pg, ms');
      var q := PageRun(pg, ms');
      RunSound(pg, ms');
      match m
      case Put(x, v, _) => ValPut(q, x, v, x);
      case Delete(x) => ValRemove(q, x, x);
      case DeleteRange(_, _) =>
      case Upsert(x, fn) => ValPut(q, x, fn(Val(q, x)), x);
    }
  }

  /** Messages whose histories are in order on top of the leaf. */
  ghost predicate PageHist(pg: Page, ms: seq<Message>)
    requires |pg.keys| == |pg.vals|
  {
    forall k :: Hist(At(ms, k), Val(pg, k))
  }

  lemma PageHistPrefix(pg: Page, ms: seq<Message>, m: Message)
    requires Sound(pg) && PageHist(pg, ms + [m])
    ensures PageHist(pg, ms)
    ensures NeedsLive(m) ==> Present(PageRun(pg, ms).keys, m.key)
  {
    forall k ensures Hist(At(ms, k), Val(pg, k)) {
      AtSnoc(ms, m, k);
      assert Hist(At(ms + [m], k), Val(pg, k));
      HistSnoc(At(ms, k), m, Val(pg, k));
    }
    AtSnoc(ms, m, m.key);
    HistSnoc(At(ms, m.key), m, Val(pg, m.key));
    assert Hist(At(ms + [m], m.key), Val(pg, m.key));
    ValRun(pg, ms, m.key);
  }

  /** With histories in order no delete misses, so both paths change the size alike. */
  lemma {:induction false} NoneMissed(pg: Page, ms: seq<Message>)
    requires Sound(pg) && PageHist(pg, ms)
    ensures IdleDeletes(pg, ms) == 0
  {
    if ms != [] {
      var ms', m := ms[..|ms| - 1], ms[|ms| - 1];
      assert ms == ms' + [m];
      PageHistPrefix(pg, ms', m);
      NoneMissed(pg, ms');
    }
  }
}
