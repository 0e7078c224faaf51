/** Sorting a batch by key and folding each key's messages into one (flush.go:166-229), in
    place in the batch's own storage. */
module Resolving {
  import opened Seqs
  import opened Messages
  import opened Leaves
  import opened Batches
  import opened Slices

  /** One message with the effect of a whole group, oldest first, for one key. */
  method ResolveKeyGroup(group: seq<Message>) returns (result: Message)
    requires |group| > 0 && Point(group) && forall m :: m in group ==> m.key == group[0].key
    ensures result.key == group[0].key && !result.DeleteRange?
    ensures forall o :: Step(result, o) == Fold(group, o)
    ensures result.Delete? ==> exists m :: m in group && m.Delete?
  {
    result := group[0];
    assert group[..1] == [group[0]];
    forall o ensures Fold(group[..1], o) == Step(result, o) {
      FoldOne(group[0], o);
    }
    var i := 1;
    while i < |group|
      invariant 1 <= i <= |group|
      invariant result.key == group[0].key && !result.DeleteRange?
      invariant forall o :: Step(result, o) == Fold(group[..i], o)
      invariant result.Delete? ==> result in group
    {
      var m := group[i];
      assert group[..i + 1] == group[..i] + [m];
      ghost var before := result;
      match m {
        case Put(_, _, _) => result := m;
        case Delete(_) => result := m;
        case DeleteRange(_, _) =>
        case Upsert(_, curr) =>
          match result {
            case Put(k, v, counted) => result := Put(k, curr(Some(v)), counted);
            case Delete(k) => result := Put(k, curr(None), false);
            case DeleteRange(_, _) =>
            case Upsert(k, prev) => result := Upsert(k, (o: Option<V>) => curr(Some(prev(o))));
          }
      }
      forall o ensures Step(result, o) == Fold(group[..i + 1], o) {
        FoldSnoc(group[..i], m, o);
        assert Step(before, o) == Fold(group[..i], o);
      }
      i := i + 1;
    }
    assert group[..i] == group;
  }

  /** The messages of one key make up the whole of a group of that key. */
  lemma AtGroup(g: seq<Message>, k: K, x: K)
    requires forall m :: m in g ==> m.key == k
    ensures At(g, x) == if x == k then g else []
  {
    if x == k {
      FilterAll(g, Within(Only(k)));
    } else {
      FilterNone(g, Within(Only(x)));
    }
  }

  /** What has been resolved so far: one message per key, below the keys still to come, with
      the effect of the messages they came from. */
  ghost predicate Resolved(done: seq<Message>, from: seq<Message>) {
    && Strict(done) && Point(done) && |done| <= |from|
    && SameEffect(done, from)
    && (|from| > 0 ==> |done| > 0 && done[|done| - 1].key == from[|from| - 1].key)
    && ((exists m :: m in done && m.Delete?) ==> exists m :: m in from && m.Delete?)
  }

  lemma ResolveStep(done: seq<Message>, from: seq<Message>, g: seq<Message>, r: Message)
    requires Resolved(done, from) && |g| > 0 && (forall m :: m in g ==> m.key == g[0].key)
    requires |from| > 0 ==> from[|from| - 1].key < g[0].key
    requires r.key == g[0].key && !r.DeleteRange? && forall o :: Step(r, o) == Fold(g, o)
    requires r.Delete? ==> exists m :: m in g && m.Delete?
    ensures Resolved(done + [r], from + g)
  {
    hide Fold, At, Step;
    var k := g[0].key;
    assert forall i :: 0 <= i < |done| ==> done[i].key < k;
    forall x, o ensures Fold(At(done + [r], x), o) == Fold(At(from + g, x), o) {
      assert Fold(At(done, x), o) == Fold(At(from, x), o);
      ResolveAt(done, from, g, r, x, o);
    }
    StepDeletes(done, from, g, r);
  }

  lemma StepDeletes(done: seq<Message>, from: seq<Message>, g: seq<Message>, r: Message)
    requires (exists m :: m in done && m.Delete?) ==> exists m :: m in from && m.Delete?
    requires r.Delete? ==> exists m :: m in g && m.Delete?
    ensures (exists m :: m in done + [r] && m.Delete?) ==> exists m :: m in from + g && m.Delete?
  {}

  lemma ResolveAt(done: seq<Message>, from: seq<Message>, g: seq<Message>, r: Message, x: K, o: Option<V>)
    requires |g| > 0 && (forall m :: m in g ==> m.key == g[0].key)
    requires forall i :: 0 <= i < |done| ==> done[i].key < g[0].key
    requires Fold(At(done, x), o) == Fold(At(from, x), o)
    requires r.key == g[0].key && forall y :: Step(r, y) == Fold(g, y)
    ensures Fold(At(done + [r], x), o) == Fold(At(from + g, x), o)
  {
    hide Fold, At, Step;
    AtSnoc(done, r, x);
    AtConcat(from, g, x);
    AtGroup(g, g[0].key, x);
    FoldConcat(At(from, x), At(g, x), o);
    FoldNone(Fold(At(from, x), o));
    if x == g[0].key {
      NoneAt(done, x);
      FoldNone(o);
      FoldSnoc([], r, o);
      assert [] + [r] == [r];
    }
  }

  lemma ResolveUpto(done: seq<Message>, s: seq<Message>, i: nat, j: nat, r: Message)
    requires i < j <= |s| && Resolved(done, s[..i]) && forall m :: m in s[i..j] ==> m.key == s[i..j][0].key
    requires 0 < i ==> s[i - 1].key < s[i].key
    requires r.key == s[i..j][0].key && !r.DeleteRange? && forall o :: Step(r, o) == Fold(s[i..j], o)
    requires r.Delete? ==> exists m :: m in s[i..j] && m.Delete?
    ensures Resolved(done + [r], s[..j])
  {
    ResolveStep(done, s[..i], s[i..j], r);
    assert s[..j] == s[..i] + s[i..j];
  }

  lemma SortedRest(s: seq<Message>, i: nat, j: nat)
    requires SortedBy(s, KeyLe) && i < j < |s| && s[j].key != s[i].key
    ensures s[i].key < s[j].key
  {
    assert KeyLe(s[i], s[j]);
  }

  /** resolveMessages: the batch sorted, then folded group by group into its own front. */
  method ResolveMessages(msgs: array<Message>) returns (n: nat)
    requires Point(msgs[..])
    modifies msgs
    ensures n <= msgs.Length && (msgs.Length > 0 ==> n > 0)
    ensures Strict(msgs[..n]) && Point(msgs[..n])
    ensures SameEffect(msgs[..n], old(msgs[..]))
    ensures (exists m :: m in msgs[..n] && m.Delete?) ==> exists m :: m in old(msgs[..]) && m.Delete?
  {
    ghost var was := msgs[..];
    SortMessages(msgs);
    ghost var s := msgs[..];
    SortedPoint(s, was);
    n := 0;
    var i := 0;
    ResolvedNothing();
    hide Resolved, SameEffect, Rearranged, Point, SortedBy, Strict;
    while i < msgs.Length
      invariant n <= i <= msgs.Length
      invariant msgs[i..] == s[i..]
      invariant Resolved(msgs[..n], s[..i])
      invariant 0 < i < msgs.Length ==> s[i - 1].key < s[i].key
    {
      var j := GroupEnd(msgs, i);
      GroupFacts(s, msgs[..], i, j);
      var r := ResolveRun(msgs[i..j]);
      ResolveUpto(msgs[..n], s, i, j, r);
      Emit(msgs, n, r, s, i, j);
      n := n + 1;
      if j < msgs.Length {
        SortedRest(s, j - 1, j);
      }
      i := j;
    }
    assert s[..i] == s;
    ResolvedMeans(msgs[..n], s, was);
  }

  /** One resolved message goes to the front of the storage, below the run it came from. */
  method Emit(msgs: array<Message>, n: nat, r: Message, ghost s: seq<Message>, ghost i: nat, ghost j: nat)
    requires n <= i < j <= msgs.Length == |s| && msgs[i..] == s[i..]
    modifies msgs
    ensures msgs[..n + 1] == old(msgs[..n]) + [r]
    ensures msgs[j..] == s[j..]
  {
    ghost var before := msgs[..];
    Store(msgs, n, r);
    SuffixKept(before, msgs[..], n + 1, j);
    assert before[j..] == before[i..][j - i..];
  }

  lemma SortedPoint(s: seq<Message>, was: seq<Message>)
    requires Rearranged(s, was) && Point(was)
    ensures Point(s) && |s| == |was|
  {}

  lemma GroupFacts(s: seq<Message>, now: seq<Message>, i: nat, j: nat)
    requires i < j <= |s| == |now| && now[i..] == s[i..] && Point(s)
    requires forall x :: i <= x < j ==> now[x].key == now[i].key
    requires j < |s| ==> now[j].key != now[i].key
    ensures now[i..j] == s[i..j] && Point(s[i..j])
    ensures forall m :: m in s[i..j] ==> m.key == s[i..j][0].key
    ensures s[j - 1].key == s[i].key && (j < |s| ==> s[j].key != s[j - 1].key)
  {
    assert now[i..j] == now[i..][..j - i] == s[i..j];
    assert forall x :: i <= x < |s| ==> now[x] == now[i..][x - i] == s[x];
    assert forall m :: m in s[i..j] ==> m in s;
  }

  lemma ResolvedNothing()
    ensures Resolved([], [])
  {}

  lemma ResolvedMeans(done: seq<Message>, s: seq<Message>, was: seq<Message>)
    requires Resolved(done, s)
    requires Rearranged(s, was)
    ensures Strict(done) && Point(done) && SameEffect(done, was)
    ensures |s| > 0 ==> |done| > 0
    ensures (exists m :: m in done && m.Delete?) ==> exists m :: m in was && m.Delete?
  {
    forall k, o ensures Fold(At(done, k), o) == Fold(At(was, k), o) {
      assert Fold(At(done, k), o) == Fold(At(s, k), o);
    }
  }

  /** A run of one message stands for itself (flush.go:190-194). */
  method ResolveRun(group: seq<Message>) returns (result: Message)
    requires |group| > 0 && Point(group) && forall m :: m in group ==> m.key == group[0].key
    ensures result.key == group[0].key && !result.DeleteRange?
    ensures forall o :: Step(result, o) == Fold(group, o)
    ensures result.Delete? ==> exists m :: m in group && m.Delete?
  {
    if |group| == 1 {
      result := group[0];
      assert group == [result];
      forall o ensures Step(result, o) == Fold(group, o) {
        FoldOne(result, o);
      }
    } else {
      result := ResolveKeyGroup(group);
    }
  }

  /** The end of the run of messages with the key of message i. */
  method GroupEnd(msgs: array<Message>, i: nat) returns (j: nat)
    requires i < msgs.Length
    ensures i < j <= msgs.Length
    ensures forall x :: i <= x < j ==> msgs[x].key == msgs[i].key
    ensures j < msgs.Length ==> msgs[j].key != msgs[i].key
  {
    j := i + 1;
    while j < msgs.Length && Cmp(msgs[i].key, msgs[j].key) == 0
      invariant i < j <= msgs.Length
      invariant forall x :: i <= x < j ==> msgs[x].key == msgs[i].key
    {
      j := j + 1;
    }
  }

  /** The same messages, those of any one key in the same order. */
  ghost predicate Rearranged(s: seq<Message>, was: seq<Message>) {
    && |s| == |was|
    && (forall m :: m in s <==> m in was)
    && (forall k :: At(s, k) == At(was, k))
  }

  /** Sorts the batch, unless a scan finds it already strictly sorted (flush.go:171-182). */
  method SortMessages(msgs: array<Message>)
    modifies msgs
    ensures SortedBy(msgs[..], KeyLe) && Rearranged(msgs[..], old(msgs[..]))
  {
    ghost var was := msgs[..];
    var sorted, i := true, 1;
    while i < msgs.Length
      invariant sorted && i >= 1
      invariant forall x, y :: 0 <= x < y < i && y < msgs.Length ==> msgs[x].key < msgs[y].key
    {
      if Cmp(msgs[i - 1].key, msgs[i].key) >= 0 {
        sorted := false;
        break;
      }
      i := i + 1;
    }
    if !sorted {
      KeyLePreorder();
      SortSorts(was, KeyLe);
      SortMembers(was, KeyLe);
      forall k ensures At(StableSort(was, KeyLe), k) == At(was, k) {
        SortAt(was, k);
      }
      var s := StableSort(msgs[..], KeyLe);
      forall x | 0 <= x < msgs.Length {
        msgs[x] := s[x];
      }
      assert msgs[..] == s;
    }
  }
}
