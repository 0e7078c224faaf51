/** Turning collected entries into live pairs in ascending order (iterator.go:194-257). */
module Listing {
  import opened Seqs
  import opened Messages
  import opened Leaves
  import opened Iteration

  ghost function PairsPage(ps: seq<Pair>): (pg: Page)
    ensures |pg.keys| == |pg.vals| == |ps|
    ensures forall i :: 0 <= i < |ps| ==> pg.keys[i] == ps[i].key && pg.vals[i] == ps[i].value
  {
    Page(seq(|ps|, i requires 0 <= i < |ps| => ps[i].key), seq(|ps|, i requires 0 <= i < |ps| => ps[i].value))
  }

  /** Folds one key's entries, given root first: level by level from the deepest, each level
      oldest to newest. */
  method ResolveKeyEntries(entries: seq<Entry>) returns (base: Option<V>)
    ensures base == ResolveRuns(entries, None)
  {
    base := None;
    var k := |entries| - 1;
    TakeAll(entries);
    hide ResolveRuns;
    while k >= 0
      invariant -1 <= k < |entries|
      invariant ResolveRuns(entries[..k + 1], base) == ResolveRuns(entries, None)
    {
      k, base := ResolveLevel(entries, k, base);
    }
    ResolveNone(entries[..k + 1], base);
  }

  /** One level: the entries of entry k's depth. */
  method ResolveLevel(entries: seq<Entry>, k: int, base: Option<V>) returns (before: int, r: Option<V>)
    requires 0 <= k < |entries|
    ensures -1 <= before < k
    ensures ResolveRuns(entries[..before + 1], r) == ResolveRuns(entries[..k + 1], base)
  {
    hide ResolveRuns, Fold, Unwrap;
    var groupEnd := k + 1;
    before := LevelStart(entries, k);
    PeelRun(entries, before + 1, groupEnd, base);
    r := FoldRun(entries[before + 1..groupEnd], entries, before + 1, groupEnd, base);
  }

  lemma ResolveNone(es: seq<Entry>, o: Option<V>)
    requires es == []
    ensures ResolveRuns(es, o) == o
  {}

  /** The last index before the run of entry k's depth. */
  method LevelStart(entries: seq<Entry>, k: int) returns (before: int)
    requires 0 <= k < |entries|
    ensures -1 <= before < k && forall i :: before < i <= k ==> entries[i].depth == entries[k].depth
    ensures before >= 0 ==> entries[before].depth != entries[k].depth
  {
    before := k;
    while before >= 0 && entries[before].depth == entries[k].depth
      invariant -1 <= before <= k
      invariant forall i :: before < i <= k ==> entries[i].depth == entries[k].depth
    {
      before := before - 1;
    }
  }

  lemma PeelRun(es: seq<Entry>, start: nat, end: nat, o: Option<V>)
    requires start < end <= |es| && forall i :: start <= i < end ==> es[i].depth == es[end - 1].depth
    requires start > 0 ==> es[start - 1].depth != es[end - 1].depth
    ensures ResolveRuns(es[..end], o) == ResolveRuns(es[..start], Fold(Unwrap(es[start..end]), o))
  {
    LastRunUnique(es[..end], start);
    ResolveLast(es[..end], start, o);
    TakeSlice(es, start, end);
  }

  /** One level's entries applied to the value from below. */
  method FoldRun(ghost run: seq<Entry>, entries: seq<Entry>, groupStart: nat, groupEnd: nat, base: Option<V>)
    returns (r: Option<V>)
    requires groupStart <= groupEnd <= |entries| && run == entries[groupStart..groupEnd]
    ensures r == Fold(Unwrap(run), base)
  {
    r := base;
    var g := groupStart;
    while g < groupEnd
      invariant groupStart <= g <= groupEnd
      invariant r == Fold(Unwrap(run)[..g - groupStart], base)
    {
      var e := entries[g];
      assert Unwrap(run)[..g + 1 - groupStart] == Unwrap(run)[..g - groupStart] + [e.msg];
      FoldSnoc(Unwrap(run)[..g - groupStart], e.msg, base);
      match e.msg {
        case Put(_, v, _) => r := Some(v);
        case Delete(_) => r := None;
        case DeleteRange(_, _) =>
        case Upsert(_, fn) => r := Some(fn(r));
      }
      g := g + 1;
    }
    assert Unwrap(run)[..g - groupStart] == Unwrap(run);
  }

  lemma EntryLePreorder()
    ensures Preorder(EntryLe)
  {}

  /** Sorting keeps each key's entries, which were collected in order of depth. */
  lemma SortedAt(entries: seq<Entry>, k: K)
    requires ByDepth(EntriesAt(entries, k))
    ensures EntriesAt(StableSort(entries, EntryLe), k) == EntriesAt(entries, k)
  {
    EntryLePreorder();
    FilterMembers(entries, AtKey(k));
    var es := EntriesAt(entries, k);
    forall i, j | 0 <= i < j < |es| ensures EntryLe(es[i], es[j]) {
      assert es[i] in es && es[j] in es;
    }
    SortStable(entries, EntryLe, AtKey(k));
  }

  /** What has been listed so far, from the entries before the current group. */
  ghost predicate Listed(ps: seq<Pair>, from: seq<Entry>) {
    && Sound(PairsPage(ps))
    && (forall k :: Val(PairsPage(ps), k) == ResolveRuns(EntriesAt(from, k), None))
  }

  lemma PairsSnoc(ps: seq<Pair>, q: Pair)
    ensures PairsPage(ps + [q]) == Join(PairsPage(ps), Page([q.key], [q.value]))
  {}

  lemma ListedBelow(ps: seq<Pair>, from: seq<Entry>, x: K)
    requires Listed(ps, from) && forall e :: e in from ==> e.msg.key < x
    ensures forall i :: 0 <= i < |ps| ==> ps[i].key < x
  {
    forall i | 0 <= i < |ps| ensures ps[i].key < x {
      var k := ps[i].key;
      ValAt(PairsPage(ps), i);
      assert Val(PairsPage(ps), k) == ResolveRuns(EntriesAt(from, k), None);
      FilterMembers(from, AtKey(k));
      assert EntriesAt(from, k)[0] in EntriesAt(from, k);
    }
  }

  lemma ListStep(ps: seq<Pair>, from: seq<Entry>, g: seq<Entry>, x: K, o: Option<V>)
    requires Listed(ps, from) && forall e :: e in g ==> e.msg.key == x
    requires forall e :: e in from ==> e.msg.key < x
    requires o == ResolveRuns(g, None)
    ensures Listed(if o.Some? then ps + [Pair(x, o.value)] else ps, from + g)
  {
    hide Val, Sound, ResolveRuns, EntriesAt;
    var ps' := if o.Some? then ps + [Pair(x, o.value)] else ps;
    ListedBelow(ps, from, x);
    assert Val(PairsPage(ps), x) == ResolveRuns(EntriesAt(from, x), None);
    ListAt(ps, from, g, x, o, x);
    forall k ensures Val(PairsPage(ps'), k) == ResolveRuns(EntriesAt(from + g, k), None) {
      assert Val(PairsPage(ps), k) == ResolveRuns(EntriesAt(from, k), None);
      ListAt(ps, from, g, x, o, k);
    }
  }

  lemma ListAt(ps: seq<Pair>, from: seq<Entry>, g: seq<Entry>, x: K, o: Option<V>, k: K)
    requires Sound(PairsPage(ps)) && Val(PairsPage(ps), k) == ResolveRuns(EntriesAt(from, k), None)
    requires forall i :: 0 <= i < |ps| ==> ps[i].key < x
    requires forall e :: e in g ==> e.msg.key == x
    requires forall e :: e in from ==> e.msg.key < x
    requires o == ResolveRuns(g, None)
    ensures var ps' := if o.Some? then ps + [Pair(x, o.value)] else ps;
      Sound(PairsPage(ps')) && Val(PairsPage(ps'), k) == ResolveRuns(EntriesAt(from + g, k), None)
  {
    GroupAt(from, g, x, k);
    if o.Some? {
      PairsSnoc(ps, Pair(x, o.value));
      ValOne(x, o.value, k);
      ValJoin(PairsPage(ps), Page([x], [o.value]), k);
    }
  }

  lemma GroupAt(from: seq<Entry>, g: seq<Entry>, x: K, k: K)
    requires forall e :: e in g ==> e.msg.key == x
    requires forall e :: e in from ==> e.msg.key < x
    ensures EntriesAt(from + g, k) == if k == x then g else EntriesAt(from, k)
    ensures k == x ==> EntriesAt(from, k) == []
  {
    FilterConcat(from, g, AtKey(k));
    if k == x {
      FilterNone(from, AtKey(k));
      FilterAll(g, AtKey(k));
      assert [] + g == g;
    } else {
      FilterNone(g, AtKey(k));
      assert EntriesAt(from, k) + [] == EntriesAt(from, k);
    }
  }

  /** The live pairs of the collected entries, in ascending order of key. */
  method ResolveEntries(entries: seq<Entry>) returns (result: seq<Pair>)
    requires Layered(entries)
    ensures Sound(PairsPage(result))
    ensures forall k :: Val(PairsPage(result), k) == ResolveRuns(EntriesAt(entries, k), None)
  {
    result := [];
    if |entries| == 0 {
      return;
    }
    var s := StableSort(entries, EntryLe);
    SortedEntries(entries);
    var i := 0;
    ListedNothing();
    hide SortedBy, Listed, Layered;
    while i < |s|
      invariant i <= |s|
      invariant Listed(result, s[..i])
      invariant 0 < i < |s| ==> s[i - 1].msg.key < s[i].msg.key
    {
      var j := i + 1;
      while j < |s| && Cmp(s[j].msg.key, s[i].msg.key) == 0
        invariant i < j <= |s|
        invariant forall x :: i <= x < j ==> s[x].msg.key == s[i].msg.key
      {
        j := j + 1;
      }
      var v := ResolveKeyEntries(s[i..j]);
      ListUpto(result, s, i, j, v);
      if v.Some? {
        result := result + [Pair(s[i].msg.key, v.value)];
      }
      i := j;
    }
    TakeAll(s);
    ListedMeans(result, entries);
  }

  /** Each key's entries were collected from the root down. */
  ghost predicate Layered(entries: seq<Entry>) {
    forall k :: ByDepth(EntriesAt(entries, k))
  }

  lemma SortedEntries(entries: seq<Entry>)
    ensures SortedBy(StableSort(entries, EntryLe), EntryLe)
  {
    EntryLePreorder();
    SortSorts(entries, EntryLe);
  }

  lemma ListedNothing()
    ensures Listed([], [])
  {}

  lemma ListUpto(ps: seq<Pair>, s: seq<Entry>, i: nat, j: nat, o: Option<V>)
    requires SortedBy(s, EntryLe) && i < j <= |s| && Listed(ps, s[..i])
    requires forall x :: i <= x < j ==> s[x].msg.key == s[i].msg.key
    requires 0 < i ==> s[i - 1].msg.key < s[i].msg.key
    requires j < |s| ==> s[j].msg.key != s[i].msg.key
    requires o == ResolveRuns(s[i..j], None)
    ensures Listed(if o.Some? then ps + [Pair(s[i].msg.key, o.value)] else ps, s[..j])
    ensures j < |s| ==> s[j - 1].msg.key < s[j].msg.key
  {
    TakeSlice(s, i, j);
    assert j < |s| ==> EntryLe(s[j - 1], s[j]);
    GroupBounds(s, i, j);
    ListStep(ps, s[..i], s[i..j], s[i].msg.key, o);
  }

  lemma GroupBounds(s: seq<Entry>, i: nat, j: nat)
    requires SortedBy(s, EntryLe) && i < j <= |s|
    requires forall x :: i <= x < j ==> s[x].msg.key == s[i].msg.key
    requires 0 < i ==> s[i - 1].msg.key < s[i].msg.key
    ensures forall e :: e in s[..i] ==> e.msg.key < s[i].msg.key
    ensures forall e :: e in s[i..j] ==> e.msg.key == s[i].msg.key
  {
    forall x | 0 <= x < i ensures s[x].msg.key < s[i].msg.key {
      assert x < i - 1 ==> EntryLe(s[x], s[i - 1]);
    }
  }

  lemma ListedMeans(ps: seq<Pair>, entries: seq<Entry>)
    requires Listed(ps, StableSort(entries, EntryLe)) && Layered(entries)
    ensures Sound(PairsPage(ps))
    ensures forall k :: Val(PairsPage(ps), k) == ResolveRuns(EntriesAt(entries, k), None)
  {
    forall k ensures Val(PairsPage(ps), k) == ResolveRuns(EntriesAt(entries, k), None) {
      SortedAt(entries, k);
    }
  }
}
