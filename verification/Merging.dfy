/** The in-place merges of a batch into a leaf's slices (flush.go:235-355), each proved to
    leave exactly the page the batch functions describe. */
module Merging {
  import opened Seqs
  import opened Messages
  import opened Leaves
  import opened Batches
  import opened Slices

  /** slices.BinarySearchFunc on keys: the leftmost place for k. */
  method BinarySearch(s: seq<K>, k: K) returns (pos: nat, found: bool)
    requires Increasing(s)
    ensures pos == Locate(s, k) && found == Present(s, k)
  {
    var lo, hi := 0, |s|;
    while lo < hi
      invariant 0 <= lo <= hi <= |s|
      invariant forall i :: 0 <= i < lo ==> s[i] < k
      invariant forall i :: hi <= i < |s| ==> k <= s[i]
    {
      var mid := (lo + hi) / 2;
      if Cmp(s[mid], k) < 0 {
        lo := mid + 1;
      } else {
        hi := mid;
      }
    }
    LocateUnique(s, k, lo);
    pos, found := lo, lo < |s| && Cmp(s[lo], k) == 0;
  }

  /** The reverse merge with its cursors: what is left to merge are the first r1 entries of the
      page and the first p1 puts; tail is done. */
  function Merge(pg: Page, q: Page, r1: nat, p1: nat, tail: Page): Page
    requires |pg.keys| == |pg.vals| && |q.keys| == |q.vals| && r1 <= |pg.keys| && p1 <= |q.keys|
    decreases p1
  {
    if p1 == 0 then Join(Cut(pg, 0, r1), tail)
    else
      var k := q.keys[p1 - 1];
      var pos := Locate(pg.keys[..r1], k);
      var start := if Present(pg.keys[..r1], k) then pos + 1 else pos;
      Merge(pg, q, pos, p1 - 1, Placed(pg, k, q.vals[p1 - 1], start, r1, tail))
  }

  function Placed(pg: Page, k: K, v: V, start: nat, r1: nat, tail: Page): (t: Page)
    requires |pg.keys| == |pg.vals| && start <= r1 <= |pg.keys|
    ensures t.keys == [k] + pg.keys[start..r1] + tail.keys
    ensures t.vals == [v] + pg.vals[start..r1] + tail.vals
  {
    Join(Join(Page([k], [v]), Cut(pg, start, r1)), tail)
  }

  lemma {:induction false} MergeIsOver(pg: Page, q: Page, r1: nat, p1: nat, tail: Page)
    requires |pg.keys| == |pg.vals| && |q.keys| == |q.vals| && r1 <= |pg.keys| && p1 <= |q.keys|
    ensures Merge(pg, q, r1, p1, tail) == Join(Over(Cut(pg, 0, r1), Cut(q, 0, p1)), tail)
    decreases p1
  {
    hide Over, Join, Merge, Placed, Locate, Present;
    if p1 == 0 {
      MergeDone(pg, q, r1, tail);
      OverNone(Cut(pg, 0, r1), Cut(q, 0, 0));
    } else {
      var pos := Locate(pg.keys[..r1], q.keys[p1 - 1]);
      var start := if Present(pg.keys[..r1], q.keys[p1 - 1]) then pos + 1 else pos;
      MergeStep(pg, q, r1, p1 - 1, tail, pos, start);
      MergeIsOver(pg, q, pos, p1 - 1, Placed(pg, q.keys[p1 - 1], q.vals[p1 - 1], start, r1, tail));
      OverPeel(pg, q, r1, p1 - 1, tail);
    }
  }

  lemma OverNone(pg: Page, q: Page)
    requires |pg.keys| == |pg.vals| && q.keys == [] && q.vals == []
    ensures Over(pg, q) == pg
  {}

  lemma OverPeel(pg: Page, q: Page, r1: nat, p: nat, tail: Page)
    requires |pg.keys| == |pg.vals| && |q.keys| == |q.vals| && r1 <= |pg.keys| && p < |q.keys|
    ensures var pos := Locate(pg.keys[..r1], q.keys[p]);
      var start := if Present(pg.keys[..r1], q.keys[p]) then pos + 1 else pos;
      Join(Over(Cut(pg, 0, r1), Cut(q, 0, p + 1)), tail)
        == Join(Over(Cut(pg, 0, pos), Cut(q, 0, p)), Placed(pg, q.keys[p], q.vals[p], start, r1, tail))
  {
    var pos := Locate(pg.keys[..r1], q.keys[p]);
    var start := if Present(pg.keys[..r1], q.keys[p]) then pos + 1 else pos;
    assert Cut(Cut(pg, 0, r1), 0, pos) == Cut(pg, 0, pos);
    assert Cut(Cut(pg, 0, r1), start, r1) == Cut(pg, start, r1);
    assert Cut(Cut(q, 0, p + 1), 0, p) == Cut(q, 0, p);
    JoinAssoc(Over(Cut(pg, 0, pos), Cut(q, 0, p)), Page([q.keys[p]], [q.vals[p]]), Cut(pg, start, r1), tail);
  }

  lemma JoinAssoc(a: Page, b: Page, c: Page, d: Page)
    ensures Join(Join(Join(a, b), c), d) == Join(a, Join(Join(b, c), d))
  {}

  lemma CutAll(pg: Page)
    requires |pg.keys| == |pg.vals|
    ensures Cut(pg, 0, |pg.keys|) == pg
  {}

  lemma JoinEmpty(pg: Page)
    ensures Join(pg, EMPTY) == pg
  {}

  lemma MergeAll(pg: Page, q: Page)
    requires |pg.keys| == |pg.vals| && |q.keys| == |q.vals|
    ensures Merge(pg, q, |pg.keys|, |q.keys|, EMPTY) == Over(pg, q)
  {
    hide Over, Merge;
    MergeIsOver(pg, q, |pg.keys|, |q.keys|, EMPTY);
    CutAll(pg);
    CutAll(q);
    JoinEmpty(Over(pg, q));
  }

  lemma MergeStep(pg: Page, q: Page, r1: nat, p: nat, tail: Page, pos: nat, start: nat)
    requires |pg.keys| == |pg.vals| && |q.keys| == |q.vals| && r1 <= |pg.keys| && p < |q.keys|
    requires pos == Locate(pg.keys[..r1], q.keys[p])
    requires start == if Present(pg.keys[..r1], q.keys[p]) then pos + 1 else pos
    ensures start <= r1
    ensures Merge(pg, q, r1, p + 1, tail) == Merge(pg, q, pos, p, Placed(pg, q.keys[p], q.vals[p], start, r1, tail))
  {}

  lemma MergeDone(pg: Page, q: Page, r1: nat, tail: Page)
    requires |pg.keys| == |pg.vals| && |q.keys| == |q.vals| && r1 <= |pg.keys|
    ensures Merge(pg, q, r1, 0, tail) == Join(Cut(pg, 0, r1), tail)
  {}

  /** mergeLeafPuts, on slices grown by numPuts: puts are placed largest first, each after
      shifting the old entries above it. The read and write cursors stay apart by the puts
      still to come plus the keys overwritten so far, so no unread entry is overwritten. */
  method MergePuts(keys: array<K>, vals: array<V>, oldLen: nat, msgs: seq<Message>)
    returns (len: nat)
    requires keys as object != vals as object
    requires keys.Length == vals.Length == oldLen + |msgs|
    requires Increasing(keys[..oldLen]) && AllPuts(msgs)
    modifies keys, vals
    ensures len <= keys.Length
    ensures Strict(msgs) ==> len == oldLen + |msgs| - Overwrites(old(keys[..oldLen]), PutsPage(msgs).keys)
    ensures Page(keys[..len], vals[..len])
      == Over(Page(old(keys[..oldLen]), old(vals[..oldLen])), PutsPage(msgs))
  {
    hide Merge, Placed, Over, Locate, Present, PutsPage, MergeAt;
    ghost var pg, q, tail := Page(keys[..oldLen], vals[..oldLen]), PutsPage(msgs), EMPTY;
    var n := oldLen + |msgs|;
    var w, r, overwrites, p := n - 1, oldLen - 1, 0, |msgs| - 1;
    MergeStart(keys, vals, oldLen, msgs);
    while p >= 0
      invariant -1 <= p < |msgs|
      invariant MergeAt(keys, vals, pg, msgs, w, r, overwrites, p, tail)
    {
      w, r, overwrites, tail := MergeRound(keys, vals, pg, msgs, w, r, overwrites, p, tail);
      p := p - 1;
    }
    len := MergeEnd(keys, vals, pg, msgs, w, r, overwrites, tail);
    if Strict(msgs) {
      PutsIncreasing(msgs);
      OverLength(pg, q);
    }
  }

  lemma PutsIncreasing(msgs: seq<Message>)
    requires AllPuts(msgs) && Strict(msgs)
    ensures Increasing(PutsPage(msgs).keys) && |PutsPage(msgs).keys| == |msgs|
  {}

  /** How many of the new keys are among the old ones. */
  function Overwrites(was: seq<K>, news: seq<K>): nat {
    if news == [] then 0
    else Overwrites(was, news[..|news| - 1]) + if Present(was, news[|news| - 1]) then 1 else 0
  }

  /** Only old keys below x matter to new keys below x. */
  lemma {:induction false} OverwritesBelow(was: seq<K>, x: K, news: seq<K>)
    requires Increasing(was) && forall i :: 0 <= i < |news| ==> news[i] < x
    ensures Overwrites(was[..Locate(was, x)], news) == Overwrites(was, news)
  {
    hide Locate, Present;
    if news != [] {
      OverwritesBelow(was, x, news[..|news| - 1]);
      PresentBelow(was, x, news[|news| - 1]);
    }
  }

  lemma PresentBelow(was: seq<K>, x: K, k: K)
    requires Increasing(was) && k < x
    ensures Present(was[..Locate(was, x)], k) <==> Present(was, k)
  {
    var low := was[..Locate(was, x)];
    PresentIn(was, k);
    PresentIn(low, k);
    if k in was {
      var i :| 0 <= i < |was| && was[i] == k;
      assert low[i] == k;
    }
  }

  /** A merge is as long as both lists, less the keys they share. */
  lemma {:induction false} OverLength(pg: Page, q: Page)
    requires |pg.keys| == |pg.vals| && |q.keys| == |q.vals| && Increasing(pg.keys) && Increasing(q.keys)
    ensures |Over(pg, q).keys| == |pg.keys| + |q.keys| - Overwrites(pg.keys, q.keys)
    decreases |q.keys|
  {
    if q.keys != [] {
      var n := |q.keys| - 1;
      var pos := Locate(pg.keys, q.keys[n]);
      var low, q' := Cut(pg, 0, pos), Cut(q, 0, n);
      OverLength(low, q');
      assert low.keys == pg.keys[..pos] && q'.keys == q.keys[..n];
      OverwritesBelow(pg.keys, q.keys[n], q'.keys);
    }
  }

  /** The cursors of the merge: entries up to r are unread, everything after w is done, and
      w - r is the number of puts still to come and of keys overwritten. */
  ghost predicate MergeAt(keys: array<K>, vals: array<V>, pg: Page, msgs: seq<Message>,
                          w: int, r: int, overwrites: int, p: int, tail: Page)
    reads keys, vals
  {
    && keys.Length == vals.Length == |pg.keys| + |msgs| && |pg.keys| == |pg.vals| && AllPuts(msgs)
    && -1 <= p < |msgs| && -1 <= r < |pg.keys| && 0 <= overwrites
    && w - r == (p + 1) + overwrites && w < keys.Length
    && Increasing(pg.keys)
    && keys[..r + 1] == pg.keys[..r + 1] && vals[..r + 1] == pg.vals[..r + 1]
    && keys[w + 1..] == tail.keys && vals[w + 1..] == tail.vals
    && Over(pg, PutsPage(msgs)) == Merge(pg, PutsPage(msgs), r + 1, p + 1, tail)
  }

  lemma MergeStart(keys: array<K>, vals: array<V>, oldLen: nat, msgs: seq<Message>)
    requires keys.Length == vals.Length == oldLen + |msgs|
    requires Increasing(keys[..oldLen]) && AllPuts(msgs)
    ensures MergeAt(keys, vals, Page(keys[..oldLen], vals[..oldLen]), msgs,
                    oldLen + |msgs| - 1, oldLen - 1, 0, |msgs| - 1, EMPTY)
  {
    hide Over, Merge;
    MergeAll(Page(keys[..oldLen], vals[..oldLen]), PutsPage(msgs));
  }

  /** One round: the next put is placed below the old entries that follow it. */
  method MergeRound(keys: array<K>, vals: array<V>, ghost pg: Page, msgs: seq<Message>,
                    w: int, r: int, overwrites: int, p: int, ghost tail: Page)
    returns (w': int, r': int, overwrites': int, ghost tail': Page)
    requires keys as object != vals as object
    requires MergeAt(keys, vals, pg, msgs, w, r, overwrites, p, tail) && p >= 0
    modifies keys, vals
    ensures MergeAt(keys, vals, pg, msgs, w', r', overwrites', p - 1, tail')
  {
    hide Merge, Over, Locate, Present;
    ghost var q := PutsPage(msgs);
    var m := msgs[p];
    IncreasingPrefix(pg.keys, r + 1);
    var pos: int, found: bool := BinarySearch(keys[..r + 1], m.key);
    overwrites' := overwrites;
    var chunkStart := pos;
    if found {
      chunkStart := pos + 1;
      overwrites' := overwrites + 1;
    }
    MergeStep(pg, q, r + 1, p, tail, pos, chunkStart);
    w' := Place(keys, vals, pg, tail, pos, chunkStart, r, w, m.key, m.value);
    tail' := Placed(pg, m.key, m.value, chunkStart, r + 1, tail);
    r' := pos - 1;
  }

  method MergeEnd(keys: array<K>, vals: array<V>, ghost pg: Page, msgs: seq<Message>,
                  w: int, r: int, overwrites: int, ghost tail: Page)
    returns (len: nat)
    requires keys as object != vals as object
    requires MergeAt(keys, vals, pg, msgs, w, r, overwrites, -1, tail)
    modifies keys, vals
    ensures len <= keys.Length
    ensures Page(keys[..len], vals[..len]) == Over(pg, PutsPage(msgs))
  {
    hide Merge, Over, PutsPage;
    MergeDone(pg, PutsPage(msgs), r + 1, tail);
    len := CloseGap(keys, vals, pg, w, r, overwrites, tail);
  }

  lemma IncreasingPrefix(s: seq<K>, n: nat)
    requires Increasing(s) && n <= |s|
    ensures Increasing(s[..n])
  {}

  /** The closing copy: the merged tail moves down over the slots the overwrites freed. */
  method CloseGap(keys: array<K>, vals: array<V>, ghost pg: Page, w: int, r: int, overwrites: nat, ghost tail: Page)
    returns (len: nat)
    requires keys as object != vals as object
    requires keys.Length == vals.Length && |pg.keys| == |pg.vals|
    requires -1 <= r < |pg.keys| && w == r + overwrites < keys.Length
    requires keys[..r + 1] == pg.keys[..r + 1] && vals[..r + 1] == pg.vals[..r + 1]
    requires keys[w + 1..] == tail.keys && vals[w + 1..] == tail.vals
    modifies keys, vals
    ensures len == keys.Length - overwrites
    ensures Page(keys[..len], vals[..len]) == Join(Cut(pg, 0, r + 1), tail)
  {
    JoinCut(pg, r + 1, tail);
    len := keys.Length - overwrites;
    if overwrites > 0 {
      CloseSlot(keys, pg.keys, w, r, tail.keys);
      CloseSlot(vals, pg.vals, w, r, tail.vals);
    } else {
      Glue(keys[..], r + 1);
      Glue(vals[..], r + 1);
    }
  }

  lemma JoinCut(pg: Page, i: nat, tail: Page)
    requires |pg.keys| == |pg.vals| && i <= |pg.keys|
    ensures Join(Cut(pg, 0, i), tail) == Page(pg.keys[..i] + tail.keys, pg.vals[..i] + tail.vals)
  {}

  lemma Glue<T>(s: seq<T>, i: nat)
    requires i <= |s|
    ensures s == s[..i] + s[i..] && s[..|s|] == s
  {}

  method CloseSlot<T>(a: array<T>, ghost was: seq<T>, w: int, r: int, ghost tail: seq<T>)
    requires -1 <= r < |was| && r < w < a.Length
    requires a[..r + 1] == was[..r + 1] && a[w + 1..] == tail
    modifies a
    ensures a[..a.Length - (w - r)] == was[..r + 1] + tail
  {
    var n := a.Length;
    ghost var before := a[..];
    assert before[..r + 1] == was[..r + 1] && before[w + 1..n] == tail;
    CopyWithin(a, r + 1, w + 1, n - w - 1);
    Glue(a[..n - (w - r)], r + 1);
    assert a[..n - (w - r)][..r + 1] == before[..r + 1];
    assert a[..n - (w - r)][r + 1..] == before[w + 1..n];
  }

  /** A round on both slices. */
  method Place(keys: array<K>, vals: array<V>, ghost pg: Page, ghost tail: Page,
               ghost pos: nat, start: nat, r: int, w: int, k: K, v: V)
    returns (w': int)
    requires keys as object != vals as object
    requires keys.Length == vals.Length && |pg.keys| == |pg.vals|
    requires pos <= start <= pos + 1 && start <= r + 1 <= |pg.keys| && r < w < keys.Length
    requires pos <= w - (r - start + 1)
    requires keys[..r + 1] == pg.keys[..r + 1] && vals[..r + 1] == pg.vals[..r + 1]
    requires keys[w + 1..] == tail.keys && vals[w + 1..] == tail.vals
    modifies keys, vals
    ensures w' == w - (r - start + 1) - 1
    ensures keys[w' + 1..] == [k] + pg.keys[start..r + 1] + tail.keys
    ensures vals[w' + 1..] == [v] + pg.vals[start..r + 1] + tail.vals
    ensures keys[..pos] == pg.keys[..pos] && vals[..pos] == pg.vals[..pos]
  {
    w' := PlaceSlot(keys, pg.keys, pos, start, r, w, k);
    var _ := PlaceSlot(vals, pg.vals, pos, start, r, w, v);
  }

  /** One slice's part of a round: the old entries start..r move up to end at w, and x goes
      right below them. */
  method PlaceSlot<T>(a: array<T>, ghost was: seq<T>, ghost pos: nat, start: nat, r: int, w: int, x: T)
    returns (w': int)
    requires pos <= start <= pos + 1 && start <= r + 1 <= |was| && r < w < a.Length
    requires pos <= w - (r - start + 1)
    requires a[..r + 1] == was[..r + 1]
    modifies a
    ensures w' == w - (r - start + 1) - 1
    ensures a[w' + 1..] == [x] + was[start..r + 1] + old(a[w + 1..])
    ensures a[..pos] == was[..pos]
  {
    ghost var end := a[w + 1..];
    w' := ShiftChunk(a, was, pos, start, r, w);
    ghost var moved := a[..];
    WriteAt(a, w', x);
    assert a[w'..] == [x] + moved[w' + 1..];
    assert a[..pos] == moved[..w'][..pos];
    Assoc([x], was[start..r + 1], end);
    w' := w' - 1;
  }

  /** The chunk's move, ending at w. */
  method ShiftChunk<T>(a: array<T>, ghost was: seq<T>, ghost pos: nat, start: nat, r: int, w: int)
    returns (w': int)
    requires pos <= start <= r + 1 <= |was| && r < w < a.Length && pos <= w - (r - start + 1)
    requires a[..r + 1] == was[..r + 1]
    modifies a
    ensures w' == w - (r - start + 1)
    ensures a[w' + 1..] == was[start..r + 1] + old(a[w + 1..])
    ensures a[..pos] == was[..pos]
  {
    w' := w;
    var chunk := r - start + 1;
    ghost var before := a[..];
    SlicePrefix(before, was, start, r + 1);
    if chunk > 0 {
      CopyWithin(a, w - chunk + 1, start, chunk);
      w' := w - chunk;
    }
    assert a[w' + 1..w + 1] == before[start..r + 1];
    assert a[w + 1..] == before[w + 1..];
    assert a[..pos] == before[..pos];
    Parts(a[..], w' + 1, w + 1);
  }

  lemma SlicePrefix<T>(s: seq<T>, t: seq<T>, i: nat, j: nat)
    requires i <= j <= |s| && j <= |t| && s[..j] == t[..j]
    ensures s[i..j] == t[i..j]
    ensures forall k :: 0 <= k <= j ==> s[..k] == t[..k]
  {
    assert s[i..j] == s[..j][i..] && t[i..j] == t[..j][i..];
    forall k | 0 <= k <= j ensures s[..k] == t[..k] {
      assert s[..k] == s[..j][..k] && t[..k] == t[..j][..k];
    }
  }

  lemma Parts<T>(s: seq<T>, i: nat, j: nat)
    requires i <= j <= |s|
    ensures s[i..] == s[i..j] + s[j..]
  {}

  // ---------- Compaction ----------

  function Snoc(pg: Page, k: K, v: V): Page { Page(pg.keys + [k], pg.vals + [v]) }

  /** The walk with its cursors, what it kept and what it collected so far. */
  function Walk(pg: Page, ms: seq<Message>, li: nat, mi: nat, kept: Page, news: seq<Message>): Compacted
    requires |pg.keys| == |pg.vals| && li <= |pg.keys| && mi <= |ms|
    decreases |pg.keys| - li + (|ms| - mi)
  {
    var n := |pg.keys|;
    if li == n && mi == |ms| then Compacted(kept, news)
    else if mi == |ms| || (li < n && pg.keys[li] < ms[mi].key) then
      Walk(pg, ms, li + 1, mi, Snoc(kept, pg.keys[li], pg.vals[li]), news)
    else if li == n || ms[mi].key < pg.keys[li] then
      Walk(pg, ms, li, mi + 1, kept, if ms[mi].Put? then news + [ms[mi]] else news)
    else
      Walk(pg, ms, li + 1, mi + 1, if ms[mi].Put? then Snoc(kept, ms[mi].key, ms[mi].value) else kept, news)
  }

  function With(kept: Page, news: seq<Message>, c: Compacted): Compacted {
    Compacted(Join(kept, c.kept), news + c.news)
  }

  lemma WithOne(kept: Page, news: seq<Message>, k: K, v: V, c: Compacted)
    ensures With(Snoc(kept, k, v), news, c) == With(kept, news, Compacted(Join(Page([k], [v]), c.kept), c.news))
  {
    assert (kept.keys + [k]) + c.kept.keys == kept.keys + ([k] + c.kept.keys);
    assert (kept.vals + [v]) + c.kept.vals == kept.vals + ([v] + c.kept.vals);
  }

  lemma WithNew(kept: Page, news: seq<Message>, m: Message, c: Compacted)
    ensures With(kept, news + [m], c) == With(kept, news, Compacted(c.kept, [m] + c.news))
    ensures [] + c.news == c.news
  {
    assert (news + [m]) + c.news == news + ([m] + c.news);
  }

  lemma CompactStep(pg: Page, ms: seq<Message>, li: nat, mi: nat)
    requires |pg.keys| == |pg.vals| && li <= |pg.keys| && mi <= |ms|
    ensures var n := |pg.keys|;
      Compact(Cut(pg, li, n), ms[mi..]) ==
        if li == n && mi == |ms| then Compacted(EMPTY, [])
        else if mi == |ms| || (li < n && pg.keys[li] < ms[mi].key) then
          var c := Compact(Cut(pg, li + 1, n), ms[mi..]);
          Compacted(Join(Page([pg.keys[li]], [pg.vals[li]]), c.kept), c.news)
        else if li == n || ms[mi].key < pg.keys[li] then
          var c := Compact(Cut(pg, li, n), ms[mi + 1..]);
          Compacted(c.kept, (if ms[mi].Put? then [ms[mi]] else []) + c.news)
        else
          var c := Compact(Cut(pg, li + 1, n), ms[mi + 1..]);
          Compacted(if ms[mi].Put? then Join(Page([ms[mi].key], [ms[mi].value]), c.kept) else c.kept, c.news)
  {
    var n := |pg.keys|;
    assert li < n ==> Cut(Cut(pg, li, n), 1, n - li) == Cut(pg, li + 1, n);
    assert li < n ==> Cut(Cut(pg, li, n), 0, 1) == Page([pg.keys[li]], [pg.vals[li]]);
    assert mi < |ms| ==> ms[mi..][1..] == ms[mi + 1..];
  }

  lemma {:induction false} WalkIsCompact(
      pg: Page, ms: seq<Message>, li: nat, mi: nat, kept: Page, news: seq<Message>)
    requires |pg.keys| == |pg.vals| && li <= |pg.keys| && mi <= |ms|
    ensures Walk(pg, ms, li, mi, kept, news) == With(kept, news, Compact(Cut(pg, li, |pg.keys|), ms[mi..]))
    decreases |pg.keys| - li + (|ms| - mi)
  {
    hide Compact, With;
    var n := |pg.keys|;
    CompactStep(pg, ms, li, mi);
    if li == n && mi == |ms| {
      WithNothing(kept, news);
    } else if mi == |ms| || (li < n && pg.keys[li] < ms[mi].key) {
      WalkIsCompact(pg, ms, li + 1, mi, Snoc(kept, pg.keys[li], pg.vals[li]), news);
      WithOne(kept, news, pg.keys[li], pg.vals[li], Compact(Cut(pg, li + 1, n), ms[mi..]));
    } else if li == n || ms[mi].key < pg.keys[li] {
      WalkIsCompact(pg, ms, li, mi + 1, kept, if ms[mi].Put? then news + [ms[mi]] else news);
      WithNew(kept, news, ms[mi], Compact(Cut(pg, li, n), ms[mi + 1..]));
    } else {
      var c := Compact(Cut(pg, li + 1, n), ms[mi + 1..]);
      if ms[mi].Put? {
        WalkIsCompact(pg, ms, li + 1, mi + 1, Snoc(kept, ms[mi].key, ms[mi].value), news);
        WithOne(kept, news, ms[mi].key, ms[mi].value, c);
      } else {
        WalkIsCompact(pg, ms, li + 1, mi + 1, kept, news);
      }
    }
  }

  lemma WithNothing(kept: Page, news: seq<Message>)
    ensures With(kept, news, Compacted(EMPTY, [])) == Compacted(kept, news)
  {}

  lemma WalkAll(pg: Page, ms: seq<Message>)
    requires |pg.keys| == |pg.vals|
    ensures Walk(pg, ms, 0, 0, EMPTY, []) == Compact(pg, ms)
  {
    hide Compact, Walk;
    WalkIsCompact(pg, ms, 0, 0, EMPTY, []);
    CutAll(pg);
    assert ms[0..] == ms;
    FromNothing(Compact(pg, ms));
  }

  lemma FromNothing(c: Compacted)
    ensures With(EMPTY, [], c) == c
  {}

  /** What the cursors of the compaction mean: a kept prefix of the leaf, collected puts in the
      consumed prefix of the batch, and both rests untouched. */
  ghost predicate Walking(keys: array<K>, vals: array<V>, msgs: array<Message>, pg: Page, ms: seq<Message>,
                          li: nat, mi: nat, w: nat, numNew: nat, kept: Page, news: seq<Message>)
    reads keys, vals, msgs
  {
    && keys.Length == vals.Length == |pg.keys| == |pg.vals| && |ms| <= msgs.Length
    && w <= li <= |pg.keys| && numNew <= mi <= |ms|
    && keys[..w] == kept.keys && vals[..w] == kept.vals && msgs[..numNew] == news
    && keys[li..] == pg.keys[li..] && vals[li..] == pg.vals[li..] && msgs[mi..|ms|] == ms[mi..]
  }

  /** A leaf entry, k and v, written at the end of the kept prefix (flush.go:311-313, 323-325). */
  method Keep(keys: array<K>, vals: array<V>, msgs: array<Message>, ghost pg: Page, ghost ms: seq<Message>,
              ghost li: nat, ghost mi: nat, w: nat, ghost numNew: nat, ghost kept: Page, ghost news: seq<Message>,
              k: K, v: V)
    requires Apart(keys, vals, msgs)
    requires Walking(keys, vals, msgs, pg, ms, li, mi, w, numNew, kept, news) && li < |pg.keys|
    modifies keys, vals
    ensures Walking(keys, vals, msgs, pg, ms, li + 1, mi, w + 1, numNew, Snoc(kept, k, v), news)
  {
    ghost var k0, v0 := keys[..], vals[..];
    Store(keys, w, k);
    Store(vals, w, v);
    SuffixKept(k0, keys[..], w + 1, li + 1);
    SuffixKept(v0, vals[..], w + 1, li + 1);
    assert keys[li + 1..] == k0[li + 1..] == k0[li..][1..] == pg.keys[li + 1..];
    assert vals[li + 1..] == v0[li + 1..] == v0[li..][1..] == pg.vals[li + 1..];
  }

  /** A put for a new key, written into the consumed prefix of the batch (flush.go:317-318). */
  method Collect(keys: array<K>, vals: array<V>, msgs: array<Message>, ghost pg: Page, ghost ms: seq<Message>,
                 ghost li: nat, mi: nat, ghost w: nat, numNew: nat, ghost kept: Page, ghost news: seq<Message>)
    requires Apart(keys, vals, msgs)
    requires Walking(keys, vals, msgs, pg, ms, li, mi, w, numNew, kept, news) && mi < |ms|
    modifies msgs
    ensures Walking(keys, vals, msgs, pg, ms, li, mi + 1, w, numNew + 1, kept, news + [ms[mi]])
  {
    ghost var m0 := msgs[..];
    assert msgs[mi] == msgs[mi..|ms|][0] == ms[mi];
    Store(msgs, numNew, msgs[mi]);
    SuffixKept(m0, msgs[..], numNew + 1, mi + 1);
    assert msgs[mi + 1..|ms|] == m0[mi + 1..][..|ms| - mi - 1] == m0[mi..|ms|][1..] == ms[mi + 1..];
  }

  ghost predicate Apart(keys: array<K>, vals: array<V>, msgs: array<Message>) {
    keys as object != vals as object && keys as object != msgs as object && vals as object != msgs as object
  }

  lemma Heads(keys: array<K>, vals: array<V>, msgs: array<Message>, pg: Page, ms: seq<Message>,
              li: nat, mi: nat, w: nat, numNew: nat, kept: Page, news: seq<Message>)
    requires Walking(keys, vals, msgs, pg, ms, li, mi, w, numNew, kept, news)
    ensures keys.Length == vals.Length == |pg.keys| == |pg.vals| && |ms| <= msgs.Length
    ensures w <= li <= |pg.keys| && numNew <= mi <= |ms|
    ensures keys[..w] == kept.keys && vals[..w] == kept.vals && msgs[..numNew] == news
    ensures li < |pg.keys| ==> keys[li] == pg.keys[li] && vals[li] == pg.vals[li]
    ensures mi < |ms| ==> msgs[mi] == ms[mi]
  {
    assert li < |pg.keys| ==> keys[li] == keys[li..][0] && vals[li] == vals[li..][0];
    assert mi < |ms| ==> msgs[mi] == msgs[mi..|ms|][0];
  }

  lemma SkipMessage(keys: array<K>, vals: array<V>, msgs: array<Message>, pg: Page, ms: seq<Message>,
                    li: nat, mi: nat, w: nat, numNew: nat, kept: Page, news: seq<Message>)
    requires Walking(keys, vals, msgs, pg, ms, li, mi, w, numNew, kept, news) && mi < |ms|
    ensures Walking(keys, vals, msgs, pg, ms, li, mi + 1, w, numNew, kept, news)
  {
    assert msgs[mi + 1..|ms|] == msgs[mi..|ms|][1..];
  }

  lemma SkipKey(keys: array<K>, vals: array<V>, msgs: array<Message>, pg: Page, ms: seq<Message>,
                li: nat, mi: nat, w: nat, numNew: nat, kept: Page, news: seq<Message>)
    requires Walking(keys, vals, msgs, pg, ms, li, mi, w, numNew, kept, news) && li < |pg.keys|
    ensures Walking(keys, vals, msgs, pg, ms, li + 1, mi, w, numNew, kept, news)
  {
    assert keys[li + 1..] == keys[li..][1..] && vals[li + 1..] == vals[li..][1..];
  }

  lemma WalkStep(pg: Page, ms: seq<Message>, li: nat, mi: nat, kept: Page, news: seq<Message>)
    requires |pg.keys| == |pg.vals| && li <= |pg.keys| && mi <= |ms|
    ensures var n, now := |pg.keys|, Walk(pg, ms, li, mi, kept, news);
      if li == n && mi == |ms| then now == Compacted(kept, news)
      else if mi == |ms| || (li < n && pg.keys[li] < ms[mi].key) then
        now == Walk(pg, ms, li + 1, mi, Snoc(kept, pg.keys[li], pg.vals[li]), news)
      else if li == n || ms[mi].key < pg.keys[li] then
        now == Walk(pg, ms, li, mi + 1, kept, if ms[mi].Put? then news + [ms[mi]] else news)
      else
        now == Walk(pg, ms, li + 1, mi + 1, if ms[mi].Put? then Snoc(kept, ms[mi].key, ms[mi].value) else kept, news)
  {}

  /** One round of the walk, with both the leaf and the batch unfinished (flush.go:307-329). */
  method CompactRound(keys: array<K>, vals: array<V>, msgs: array<Message>, ghost pg: Page, ghost ms: seq<Message>,
                      li: nat, mi: nat, w: nat, numNew: nat, ghost kept: Page, ghost news: seq<Message>)
    returns (li': nat, mi': nat, w': nat, numNew': nat, ghost kept': Page, ghost news': seq<Message>)
    requires Apart(keys, vals, msgs)
    requires Walking(keys, vals, msgs, pg, ms, li, mi, w, numNew, kept, news) && li < |pg.keys| && mi < |ms|
    modifies keys, vals, msgs
    ensures Walking(keys, vals, msgs, pg, ms, li', mi', w', numNew', kept', news')
    ensures li <= li' <= |pg.keys| && mi <= mi' <= |ms| && li + mi < li' + mi'
    ensures Walk(pg, ms, li', mi', kept', news') == Walk(pg, ms, li, mi, kept, news)
  {
    li', mi', w', numNew', kept', news' := li, mi, w, numNew, kept, news;
    Heads(keys, vals, msgs, pg, ms, li, mi, w, numNew, kept, news);
    WalkStep(pg, ms, li, mi, kept, news);
    hide Walking, Walk;
    var m := msgs[mi];
    var c := Cmp(keys[li], m.key);
    if c < 0 {
      var k, v := keys[li], vals[li];
      Keep(keys, vals, msgs, pg, ms, li, mi, w, numNew, kept, news, k, v);
      kept' := Snoc(kept, k, v);
      w', li' := w + 1, li + 1;
    } else if c > 0 {
      if m.Put? {
        Collect(keys, vals, msgs, pg, ms, li, mi, w, numNew, kept, news);
        news' := news + [m];
        numNew' := numNew + 1;
      } else {
        SkipMessage(keys, vals, msgs, pg, ms, li, mi, w, numNew, kept, news);
      }
      mi' := mi + 1;
    } else {
      SkipMessage(keys, vals, msgs, pg, ms, li, mi, w, numNew, kept, news);
      if m.Put? {
        Keep(keys, vals, msgs, pg, ms, li, mi + 1, w, numNew, kept, news, m.key, m.value);
        kept' := Snoc(kept, m.key, m.value);
        w' := w + 1;
      } else {
        SkipKey(keys, vals, msgs, pg, ms, li, mi + 1, w, numNew, kept, news);
      }
      li', mi' := li + 1, mi + 1;
    }
  }

  lemma WalkStart(keys: array<K>, vals: array<V>, msgs: array<Message>, n: nat)
    requires keys.Length == vals.Length && n <= msgs.Length
    ensures Walking(keys, vals, msgs, Page(keys[..], vals[..]), msgs[..n], 0, 0, 0, 0, EMPTY, [])
  {}

  /** The first phase of mergeLeafWithDeletes, in place: the leaf's slices keep what stays, and
      the consumed prefix of the batch takes the puts for new keys. The write cursors never
      pass the read cursors. */
  method CompactInPlace(keys: array<K>, vals: array<V>, msgs: array<Message>, n: nat)
    returns (w: nat, numNew: nat)
    requires Apart(keys, vals, msgs) && keys.Length == vals.Length && n <= msgs.Length
    modifies keys, vals, msgs
    ensures w <= keys.Length && numNew <= n
    ensures Compacted(Page(keys[..w], vals[..w]), msgs[..numNew])
      == Compact(Page(old(keys[..]), old(vals[..])), old(msgs[..n]))
  {
    hide Walking, Walk, Compact;
    ghost var pg, ms := Page(keys[..], vals[..]), msgs[..n];
    ghost var kept, news := EMPTY, [];
    var li, mi := 0, 0;
    w, numNew := 0, 0;
    WalkAll(pg, ms);
    WalkStart(keys, vals, msgs, n);
    while li < keys.Length && mi < n
      invariant Walking(keys, vals, msgs, pg, ms, li, mi, w, numNew, kept, news)
      invariant li <= |pg.keys| && mi <= |ms| && Walk(pg, ms, li, mi, kept, news) == Compact(pg, ms)
      decreases keys.Length - li + (n - mi)
    {
      li, mi, w, numNew, kept, news := CompactRound(keys, vals, msgs, pg, ms, li, mi, w, numNew, kept, news);
    }
    while li < keys.Length
      invariant Walking(keys, vals, msgs, pg, ms, li, mi, w, numNew, kept, news)
      invariant li <= |pg.keys| && mi <= |ms| && Walk(pg, ms, li, mi, kept, news) == Compact(pg, ms)
      invariant li < |pg.keys| ==> mi == |ms|
    {
      Heads(keys, vals, msgs, pg, ms, li, mi, w, numNew, kept, news);
      WalkStep(pg, ms, li, mi, kept, news);
      var k, v := keys[li], vals[li];
      Keep(keys, vals, msgs, pg, ms, li, mi, w, numNew, kept, news, k, v);
      kept := Snoc(kept, k, v);
      w, li := w + 1, li + 1;
    }
    while mi < n
      invariant Walking(keys, vals, msgs, pg, ms, li, mi, w, numNew, kept, news)
      invariant li == |pg.keys| && mi <= |ms| && Walk(pg, ms, li, mi, kept, news) == Compact(pg, ms)
    {
      Heads(keys, vals, msgs, pg, ms, li, mi, w, numNew, kept, news);
      WalkStep(pg, ms, li, mi, kept, news);
      if msgs[mi].Put? {
        Collect(keys, vals, msgs, pg, ms, li, mi, w, numNew, kept, news);
        news := news + [ms[mi]];
        numNew := numNew + 1;
      } else {
        SkipMessage(keys, vals, msgs, pg, ms, li, mi, w, numNew, kept, news);
      }
      mi := mi + 1;
    }
    Heads(keys, vals, msgs, pg, ms, li, mi, w, numNew, kept, news);
    WalkStep(pg, ms, li, mi, kept, news);
  }
}
