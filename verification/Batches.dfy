/** The fast ways of applying a batch to a leaf, as values: a batch with one put per key laid
    over a page, and a batch with deletes split into a compacted page and new puts. Each has
    the same effect on every key as the messages themselves, so each gives the page that
    applying the messages one by one gives. */
module Batches {
  import opened Seqs
  import opened Messages
  import opened Leaves

  predicate KeyLe(a: Message, b: Message) { a.key <= b.key }

  /** One message per key, in ascending order of key. */
  ghost predicate Strict(ms: seq<Message>) {
    forall i, j :: 0 <= i < j < |ms| ==> ms[i].key < ms[j].key
  }

  ghost predicate AllPuts(ms: seq<Message>) {
    forall i :: 0 <= i < |ms| ==> ms[i].Put?
  }

  ghost predicate PutsAndDeletes(ms: seq<Message>) {
    forall i :: 0 <= i < |ms| ==> ms[i].Put? || ms[i].Delete?
  }

  /** Two batches with the same effect on every key, from any value. */
  ghost predicate SameEffect(a: seq<Message>, b: seq<Message>) {
    forall k, o :: Fold(At(a, k), o) == Fold(At(b, k), o)
  }

  // ---------- Sorting keeps the effect ----------

  lemma AtIsSorted(ms: seq<Message>, k: K)
    ensures SortedBy(At(ms, k), KeyLe)
  {
    FilterMembers(ms, Within(Only(k)));
    assert forall m :: m in At(ms, k) ==> m.key == k;
  }

  lemma KeyLePreorder()
    ensures Preorder(KeyLe)
  {}

  /** The stable sort keeps every key's messages in their order of arrival. */
  lemma SortAt(ms: seq<Message>, k: K)
    ensures At(StableSort(ms, KeyLe), k) == At(ms, k)
  {
    KeyLePreorder();
    AtIsSorted(ms, k);
    SortStable(ms, KeyLe, Within(Only(k)));
  }

  // ---------- A batch with one message per key ----------

  lemma StrictAt(ms: seq<Message>, i: nat)
    requires Strict(ms) && i < |ms|
    ensures At(ms, ms[i].key) == [ms[i]]
  {
    var k := ms[i].key;
    assert ms == ms[..i] + ([ms[i]] + ms[i + 1..]);
    AtConcat(ms[..i], [ms[i]] + ms[i + 1..], k);
    AtConcat([ms[i]], ms[i + 1..], k);
    AtSnoc([], ms[i], k);
    assert [] + [ms[i]] == [ms[i]];
    FilterNone(ms[..i], Within(Only(k)));
    FilterNone(ms[i + 1..], Within(Only(k)));
  }

  lemma NoneAt(ms: seq<Message>, k: K)
    requires forall i :: 0 <= i < |ms| ==> ms[i].key != k
    ensures At(ms, k) == []
  {
    FilterNone(ms, Within(Only(k)));
  }

  /** The keys and values of a batch of puts. */
  ghost function PutsPage(ms: seq<Message>): (pg: Page)
    requires AllPuts(ms)
    ensures |pg.keys| == |pg.vals| == |ms|
    ensures forall i :: 0 <= i < |ms| ==> pg.keys[i] == ms[i].key && pg.vals[i] == ms[i].value
  {
    Page(seq(|ms|, i requires 0 <= i < |ms| => ms[i].key),
         seq(|ms|, i requires 0 <= i < |ms| => ms[i].value))
  }

  lemma PutsPageVal(ms: seq<Message>, k: K, o: Option<V>)
    requires AllPuts(ms) && Strict(ms)
    ensures Sound(PutsPage(ms))
    ensures Fold(At(ms, k), o) == if Val(PutsPage(ms), k).Some? then Val(PutsPage(ms), k) else o
  {
    var q := PutsPage(ms);
    PresentIn(q.keys, k);
    if k in q.keys {
      var i :| 0 <= i < |q.keys| && q.keys[i] == k;
      ValAt(q, i);
      StrictAt(ms, i);
      FoldOne(ms[i], o);
    } else {
      forall i | 0 <= i < |ms| ensures ms[i].key != k {
        assert q.keys[i] in q.keys;
      }
      NoneAt(ms, k);
    }
  }

  // ---------- Puts over a page ----------

  /** Page q laid over page pg, largest key first as the merge goes (flush.go:261-281). */
  function Over(pg: Page, q: Page): (r: Page)
    requires |pg.keys| == |pg.vals| && |q.keys| == |q.vals|
    ensures |r.keys| == |r.vals|
    decreases |q.keys|
  {
    if q.keys == [] then pg
    else
      var n := |q.keys| - 1;
      var k := q.keys[n];
      var pos := Locate(pg.keys, k);
      var start := if Present(pg.keys, k) then pos + 1 else pos;
      Join(Join(Over(Cut(pg, 0, pos), Cut(q, 0, n)), Page([k], [q.vals[n]])), Cut(pg, start, |pg.keys|))
  }

  /** Laying puts over a page sets their keys and no others. */
  lemma {:induction false} OverVal(pg: Page, q: Page, k: K)
    requires Sound(pg) && Sound(q)
    ensures Sound(Over(pg, q))
    ensures Val(Over(pg, q), k) == if Val(q, k).Some? then Val(q, k) else Val(pg, k)
    decreases |q.keys|
  {
    hide Val, Join, Before, Over, Locate, Present;
    PresentVal(q, k);
    if q.keys == [] {
      OverNothing(pg, q);
      NoneIn(q, k);
    } else {
      var n := |q.keys| - 1;
      var pos := Locate(pg.keys, q.keys[n]);
      CutSound(pg, 0, pos);
      CutSound(q, 0, n);
      OverVal(Cut(pg, 0, pos), Cut(q, 0, n), k);
      OverKeys(Cut(pg, 0, pos), Cut(q, 0, n), q.keys[n]);
      OverStep(pg, q, Over(Cut(pg, 0, pos), Cut(q, 0, n)), k);
      OverLast(pg, q);
    }
  }

  lemma OverNothing(pg: Page, q: Page)
    requires |pg.keys| == |pg.vals| && |q.keys| == |q.vals| && q.keys == []
    ensures Over(pg, q) == pg
  {}

  lemma NoneIn(pg: Page, k: K)
    requires pg.keys == [] && pg.vals == []
    ensures Val(pg, k) == None
  {}

  lemma OverLast(pg: Page, q: Page)
    requires |pg.keys| == |pg.vals| && |q.keys| == |q.vals| && q.keys != []
    ensures var n := |q.keys| - 1;
      var x := q.keys[n];
      var pos := Locate(pg.keys, x);
      var start := pos + if Present(pg.keys, x) then 1 else 0;
      Over(pg, q)
        == Join(Join(Over(Cut(pg, 0, pos), Cut(q, 0, n)), Page([x], [q.vals[n]])), Cut(pg, start, |pg.keys|))
  {
    hide Join, Locate, Present;
  }

  lemma {:induction false} OverKeys(pg: Page, q: Page, x: K)
    requires |pg.keys| == |pg.vals| && |q.keys| == |q.vals|
    requires forall i :: 0 <= i < |pg.keys| ==> pg.keys[i] < x
    requires forall i :: 0 <= i < |q.keys| ==> q.keys[i] < x
    ensures forall i :: 0 <= i < |Over(pg, q).keys| ==> Over(pg, q).keys[i] < x
    decreases |q.keys|
  {
    if q.keys != [] {
      var n := |q.keys| - 1;
      OverKeys(Cut(pg, 0, Locate(pg.keys, q.keys[n])), Cut(q, 0, n), x);
    }
  }

  /** One put, the largest, laid over a page whose part below it is done. */
  lemma OverStep(pg: Page, q: Page, below: Page, k: K)
    requires Sound(pg) && Sound(q) && |q.keys| > 0 && Sound(below)
    requires forall i :: 0 <= i < |below.keys| ==> below.keys[i] < q.keys[|q.keys| - 1]
    requires var low, q' := Cut(pg, 0, Locate(pg.keys, q.keys[|q.keys| - 1])), Cut(q, 0, |q.keys| - 1);
      Val(below, k) == if Val(q', k).Some? then Val(q', k) else Val(low, k)
    ensures var n := |q.keys| - 1;
      var x := q.keys[n];
      var start := Locate(pg.keys, x) + if Present(pg.keys, x) then 1 else 0;
      var r := Join(Join(below, Page([x], [q.vals[n]])), Cut(pg, start, |pg.keys|));
      Sound(r) && Val(r, k) == if Val(q, k).Some? then Val(q, k) else Val(pg, k)
  {
    hide Val, Join;
    var n := |q.keys| - 1;
    var x, v := q.keys[n], q.vals[n];
    var start := Locate(pg.keys, x) + if Present(pg.keys, x) then 1 else 0;
    var one, high := Page([x], [v]), Cut(pg, start, |pg.keys|);
    ValCut(pg, start, k);
    ValCut(q, n, k);
    assert Cut(q, n, |q.keys|) == one;
    ValOne(x, v, k);
    ValThree(below, one, high, k);
    if k != x {
      CutAround(pg, x, start, k);
      ValJoin(below, high, k);
    }
  }

  /** A page cut around key x. */
  lemma CutAround(pg: Page, x: K, start: nat, k: K)
    requires Sound(pg) && k != x
    requires start == Locate(pg.keys, x) + if Present(pg.keys, x) then 1 else 0
    ensures Val(pg, k) ==
      if Val(Cut(pg, start, |pg.keys|), k).Some? then Val(Cut(pg, start, |pg.keys|), k)
      else Val(Cut(pg, 0, Locate(pg.keys, x)), k)
  {
    hide Val;
    var pos := Locate(pg.keys, x);
    ValCut(pg, start, k);
    if Present(pg.keys, x) {
      var low := Cut(pg, 0, start);
      ValCut(low, pos, k);
      assert Cut(low, pos, start) == Page([x], [pg.vals[pos]]);
      assert Cut(low, 0, pos) == Cut(pg, 0, pos);
      ValOne(x, pg.vals[pos], k);
    }
  }

  /** Laying a batch of puts over a page has the effect of its messages. */
  lemma OverEffect(pg: Page, ms: seq<Message>)
    requires Sound(pg) && AllPuts(ms) && Strict(ms)
    ensures Over(pg, PutsPage(ms)) == PageRun(pg, ms)
  {
    var q := PutsPage(ms);
    PutsPageVal(ms, 0.0, None);
    OverVal(pg, q, 0.0);
    forall k ensures Val(Over(pg, q), k) == Val(PageRun(pg, ms), k) {
      PutsPageVal(ms, k, Val(pg, k));
      OverVal(pg, q, k);
      ValRun(pg, ms, k);
    }
    RunSound(pg, ms);
    PageUnique(Over(pg, q), PageRun(pg, ms));
  }

  /** Puts beyond a page's last key just go after it (flush.go:235-242). */
  lemma AppendEffect(pg: Page, ms: seq<Message>)
    requires Sound(pg) && AllPuts(ms) && Strict(ms) && |pg.keys| > 0 && |ms| > 0
    requires pg.keys[|pg.keys| - 1] < ms[0].key
    ensures Join(pg, PutsPage(ms)) == PageRun(pg, ms)
  {
    var q := PutsPage(ms);
    assert forall i :: 0 <= i < |pg.keys| ==> pg.keys[i] <= pg.keys[|pg.keys| - 1];
    assert forall j :: 0 <= j < |q.keys| ==> ms[0].key <= q.keys[j];
    forall k ensures Sound(q) && Sound(Join(pg, q)) && Val(Join(pg, q), k) == Val(PageRun(pg, ms), k) {
      PutsPageVal(ms, k, Val(pg, k));
      ValJoin(pg, q, k);
      ValRun(pg, ms, k);
    }
    RunSound(pg, ms);
    PageUnique(Join(pg, q), PageRun(pg, ms));
  }

  // ---------- Deletes ----------

  /** A page walked together with a batch: what stays of the page, overwrites included, and
      the puts whose keys it lacks (flush.go:305-345). */
  datatype Compacted = Compacted(kept: Page, news: seq<Message>)

  function Compact(pg: Page, ms: seq<Message>): (r: Compacted)
    requires |pg.keys| == |pg.vals|
    ensures |r.kept.keys| == |r.kept.vals|
    decreases |pg.keys| + |ms|
  {
    var n := |pg.keys|;
    if n == 0 && ms == [] then Compacted(EMPTY, [])
    else if ms == [] || (n > 0 && pg.keys[0] < ms[0].key) then
      var r := Compact(Cut(pg, 1, n), ms);
      Compacted(Join(Cut(pg, 0, 1), r.kept), r.news)
    else if n == 0 || ms[0].key < pg.keys[0] then
      var r := Compact(pg, ms[1..]);
      Compacted(r.kept, (if ms[0].Put? then [ms[0]] else []) + r.news)
    else
      var r := Compact(Cut(pg, 1, n), ms[1..]);
      Compacted(if ms[0].Put? then Join(Page([ms[0].key], [ms[0].value]), r.kept) else r.kept, r.news)
  }

  ghost predicate Above(x: K, c: Compacted) {
    && (forall i :: 0 <= i < |c.kept.keys| ==> x < c.kept.keys[i])
    && (forall i :: 0 <= i < |c.news| ==> x < c.news[i].key)
  }

  lemma {:induction false} CompactAbove(pg: Page, ms: seq<Message>, x: K)
    requires |pg.keys| == |pg.vals|
    requires forall i :: 0 <= i < |pg.keys| ==> x < pg.keys[i]
    requires forall i :: 0 <= i < |ms| ==> x < ms[i].key
    ensures Above(x, Compact(pg, ms))
    decreases |pg.keys| + |ms|
  {
    var n := |pg.keys|;
    if n == 0 && ms == [] {
    } else if ms == [] || (n > 0 && pg.keys[0] < ms[0].key) {
      CompactAbove(Cut(pg, 1, n), ms, x);
    } else if n == 0 || ms[0].key < pg.keys[0] {
      CompactAbove(pg, ms[1..], x);
    } else {
      CompactAbove(Cut(pg, 1, n), ms[1..], x);
    }
  }

  lemma {:induction false} CompactSound(pg: Page, ms: seq<Message>)
    requires Sound(pg) && Strict(ms) && PutsAndDeletes(ms)
    ensures var c := Compact(pg, ms); Sound(c.kept) && Strict(c.news) && AllPuts(c.news)
    decreases |pg.keys| + |ms|
  {
    var n := |pg.keys|;
    if n == 0 && ms == [] {
    } else if ms == [] || (n > 0 && pg.keys[0] < ms[0].key) {
      CompactSound(Cut(pg, 1, n), ms);
      CompactAbove(Cut(pg, 1, n), ms, pg.keys[0]);
    } else if n == 0 || ms[0].key < pg.keys[0] {
      CompactSound(pg, ms[1..]);
      CompactAbove(pg, ms[1..], ms[0].key);
    } else {
      CompactSound(Cut(pg, 1, n), ms[1..]);
      CompactAbove(Cut(pg, 1, n), ms[1..], ms[0].key);
    }
  }

  lemma AtCons(m: Message, ms: seq<Message>, k: K)
    ensures At([m] + ms, k) == if m.key == k then [m] + At(ms, k) else At(ms, k)
  {
    FilterCons(m, ms, Within(Only(k)));
  }

  lemma AboveAt(x: K, c: Compacted)
    requires Above(x, c) && Sound(c.kept)
    ensures At(c.news, x) == [] && Val(c.kept, x) == None
  {
    NoneAt(c.news, x);
    PresentIn(c.kept.keys, x);
  }

  /** What is kept, with the new puts on top, gives each key what the batch gives it. */
  lemma {:induction false} CompactEffect(pg: Page, ms: seq<Message>, k: K)
    requires Sound(pg) && Strict(ms) && PutsAndDeletes(ms)
    ensures var c := Compact(pg, ms); Sound(c.kept) && Fold(At(c.news, k), Val(c.kept, k)) == Fold(At(ms, k), Val(pg, k))
    decreases |pg.keys| + |ms|
  {
    var n := |pg.keys|;
    CompactSound(pg, ms);
    if n == 0 && ms == [] {
    } else if ms == [] || (n > 0 && pg.keys[0] < ms[0].key) {
      CompactKeep(pg, ms, k);
    } else if n == 0 || ms[0].key < pg.keys[0] {
      CompactCollect(pg, ms, k);
    } else {
      CompactMatch(pg, ms, k);
    }
  }

  lemma {:induction false} CompactKeep(pg: Page, ms: seq<Message>, k: K)
    requires Sound(pg) && Strict(ms) && PutsAndDeletes(ms) && |pg.keys| > 0
    requires ms == [] || pg.keys[0] < ms[0].key
    ensures var c := Compact(pg, ms); Sound(c.kept) && Fold(At(c.news, k), Val(c.kept, k)) == Fold(At(ms, k), Val(pg, k))
    decreases |pg.keys| + |ms|, 0
  {
    var x, first, rest := pg.keys[0], Cut(pg, 0, 1), Cut(pg, 1, |pg.keys|);
    var c := Compact(rest, ms);
    assert first == Page([x], [pg.vals[0]]);
    CompactEffect(rest, ms, k);
    CompactAbove(rest, ms, x);
    hide Val;
    AboveAt(x, c);
    NoneAt(ms, x);
    ValCut(pg, 1, k);
    ValOne(x, pg.vals[0], k);
    ValJoin(first, c.kept, k);
  }

  lemma HeadFirst(ms: seq<Message>)
    requires |ms| > 0
    ensures ms == [ms[0]] + ms[1..]
  {}

  lemma Collects(pg: Page, ms: seq<Message>)
    requires |pg.keys| == |pg.vals| && |ms| > 0 && (pg.keys == [] || ms[0].key < pg.keys[0])
    ensures var c := Compact(pg, ms[1..]);
      Compact(pg, ms) == Compacted(c.kept, (if ms[0].Put? then [ms[0]] else []) + c.news)
  {}

  lemma Matches(pg: Page, ms: seq<Message>)
    requires |pg.keys| == |pg.vals| && |pg.keys| > 0 && |ms| > 0 && pg.keys[0] == ms[0].key
    ensures var c, m := Compact(Cut(pg, 1, |pg.keys|), ms[1..]), ms[0];
      Compact(pg, ms) == Compacted(if m.Put? then Join(Page([m.key], [m.value]), c.kept) else c.kept, c.news)
  {}

  lemma NotBelow(pg: Page, x: K)
    requires Sound(pg) && (pg.keys == [] || x < pg.keys[0])
    ensures Val(pg, x) == None
  {
    PresentIn(pg.keys, x);
  }

  lemma {:induction false} CompactCollect(pg: Page, ms: seq<Message>, k: K)
    requires Sound(pg) && Strict(ms) && PutsAndDeletes(ms) && |ms| > 0
    requires pg.keys == [] || ms[0].key < pg.keys[0]
    ensures var c := Compact(pg, ms); Sound(c.kept) && Fold(At(c.news, k), Val(c.kept, k)) == Fold(At(ms, k), Val(pg, k))
    decreases |pg.keys| + |ms|, 0
  {
    hide Val, At, Fold, Compact;
    var m, rest := ms[0], ms[1..];
    var c := Compact(pg, rest);
    Collects(pg, ms);
    CompactEffect(pg, rest, k);
    CompactAbove(pg, rest, m.key);
    CompactSound(pg, rest);
    AboveAt(m.key, c);
    NoneAt(rest, m.key);
    HeadFirst(ms);
    AtCons(m, rest, k);
    AtCons(m, c.news, k);
    PlusNil([m]);
    assert [] + c.news == c.news;
    NotBelow(pg, m.key);
    FoldOne(m, None);
    FoldNone(None);
  }

  lemma {:induction false} CompactMatch(pg: Page, ms: seq<Message>, k: K)
    requires Sound(pg) && Strict(ms) && PutsAndDeletes(ms) && |pg.keys| > 0 && |ms| > 0
    requires pg.keys[0] == ms[0].key
    ensures var c := Compact(pg, ms); Sound(c.kept) && Fold(At(c.news, k), Val(c.kept, k)) == Fold(At(ms, k), Val(pg, k))
    decreases |pg.keys| + |ms|, 0
  {
    hide Val, At, Fold, Compact;
    var m, after, rest := ms[0], ms[1..], Cut(pg, 1, |pg.keys|);
    var c := Compact(rest, after);
    Matches(pg, ms);
    CompactSound(rest, after);
    CompactEffect(rest, after, k);
    CompactAbove(rest, after, m.key);
    AboveAt(m.key, c);
    NoneAt(after, m.key);
    HeadFirst(ms);
    AtCons(m, after, k);
    PlusNil([m]);
    FoldOne(m, Val(pg, k));
    ValCut(pg, 1, k);
    assert Cut(pg, 0, 1) == Page([m.key], [pg.vals[0]]);
    ValOne(m.key, pg.vals[0], k);
    if m.Put? {
      ValOne(m.key, m.value, k);
      ValJoin(Page([m.key], [m.value]), c.kept, k);
    }
    FoldNone(Val(Compact(pg, ms).kept, k));
  }

  /** Compacting a page and laying the new puts over it has the effect of the batch. */
  lemma CompactRun(pg: Page, ms: seq<Message>)
    requires Sound(pg) && Strict(ms) && PutsAndDeletes(ms)
    ensures var c := Compact(pg, ms); AllPuts(c.news) && Over(c.kept, PutsPage(c.news)) == PageRun(pg, ms)
  {
    var c := Compact(pg, ms);
    CompactSound(pg, ms);
    OverEffect(c.kept, c.news);
    var a, b := PageRun(c.kept, c.news), PageRun(pg, ms);
    RunSound(c.kept, c.news);
    RunSound(pg, ms);
    forall k ensures Val(a, k) == Val(b, k) {
      ValRun(c.kept, c.news, k);
      ValRun(pg, ms, k);
      CompactEffect(pg, ms, k);
    }
    PageUnique(a, b);
  }
}
