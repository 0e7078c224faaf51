/** Joining two trees with a pair of cursors (examples/mergejoin/main.go). What the program
    prints is returned. */
module MergeJoins {
  import opened Seqs
  import opened Messages
  import opened Iteration
  import opened Snapshots
  import opened Cursors
  import opened Runs
  import opened Contents
  import opened BETrees

  /** The pairs of a whose key is (or is not) among the keys of b. */
  function Matched(b: seq<Pair>, wanted: bool): Pair -> bool {
    (x: Pair) => (exists j :: 0 <= j < |b| && b[j].key == x.key) == wanted
  }

  /** How far both scans have come: a's first i pairs are decided, and b's first j keys lie
      before all others of a. */
  ghost predicate Joined(out: seq<Pair>, a: seq<Pair>, i: nat, b: seq<Pair>, j: nat, wanted: bool) {
    && i <= |a| && j <= |b| && KeysAscend(a) && KeysAscend(b)
    && out == Filter(a[..i], Matched(b, wanted))
    && (i < |a| ==> forall y :: 0 <= y < j ==> b[y].key < a[i].key)
  }

  lemma JoinStart(a: seq<Pair>, b: seq<Pair>, wanted: bool)
    requires KeysAscend(a) && KeysAscend(b)
    ensures Joined([], a, 0, b, 0, wanted)
  {}

  /** a's next pair goes out or is passed over, and with a match both scans move on. */
  lemma JoinLeft(out: seq<Pair>, a: seq<Pair>, i: nat, b: seq<Pair>, j: nat, wanted: bool)
    requires Joined(out, a, i, b, j, wanted) && i < |a|
    requires j < |b| ==> a[i].key <= b[j].key
    ensures var match' := j < |b| && a[i].key == b[j].key;
      Joined(if match' == wanted then out + [a[i]] else out, a, i + 1, b, if match' then j + 1 else j, wanted)
  {
    TakeSlice(a, i, i + 1);
    FilterSnoc(a[..i], a[i], Matched(b, wanted));
    assert a[i..i + 1] == [a[i]];
  }

  /** b's next key is before all that is left of a. */
  lemma JoinRight(out: seq<Pair>, a: seq<Pair>, i: nat, b: seq<Pair>, j: nat, wanted: bool)
    requires Joined(out, a, i, b, j, wanted) && i < |a| && j < |b| && b[j].key < a[i].key
    ensures Joined(out, a, i, b, j + 1, wanted)
  {}

  /** Once b is exhausted nothing more of a matches. */
  lemma JoinEnd(out: seq<Pair>, a: seq<Pair>, i: nat, b: seq<Pair>, j: nat, wanted: bool)
    requires Joined(out, a, i, b, j, wanted) && (i == |a| || (j == |b| && wanted))
    ensures out == Filter(a, Matched(b, wanted))
  {
    TakeAll(a);
    if i < |a| {
      assert a == a[..i] + a[i..];
      FilterConcat(a[..i], a[i..], Matched(b, wanted));
      FilterNone(a[i..], Matched(b, wanted));
    }
  }

  lemma {:induction false} FilterAscends(a: seq<Pair>, f: Pair -> bool)
    requires KeysAscend(a)
    ensures KeysAscend(Filter(a, f))
  {
    if a != [] {
      FilterAscends(a[..|a| - 1], f);
      FilterMembers(a[..|a| - 1], f);
      var rest := Filter(a[..|a| - 1], f);
      forall i | 0 <= i < |rest| ensures rest[i].key < a[|a| - 1].key {
        assert rest[i] in a[..|a| - 1];
      }
    }
  }

  /** The filtered snapshot lists the filtered map. */
  lemma FilterLists(a: seq<Pair>, m: map<K, V>, b: seq<Pair>, n: map<K, V>, wanted: bool, joined: map<K, V>)
    requires Lists(a, m, EVERYTHING) && Lists(b, n, EVERYTHING)
    requires joined == if wanted then m - (m.Keys - n.Keys) else m - n.Keys
    ensures Lists(Filter(a, Matched(b, wanted)), joined, EVERYTHING)
  {
    var f := Matched(b, wanted);
    var out := Filter(a, f);
    FilterAscends(a, f);
    FilterMembers(a, f);
    forall x: Pair ensures f(x) <==> (x.key in n) == wanted {
      ListedKeys(b, n, EVERYTHING, x.key);
    }
    forall i | 0 <= i < |out| ensures out[i].key in joined && joined[out[i].key] == out[i].value {
      assert out[i] in out;
    }
    forall k | k in joined ensures exists i :: 0 <= i < |out| && out[i].key == k {
      var i :| 0 <= i < |a| && a[i].key == k;
      assert a[i] in out;
    }
  }

  /** Every key in both trees, once, ascending, with the first tree's value
      (examples/mergejoin/main.go:50-76). */
  method MergeJoin(signups: BETree, purchases: BETree) returns (out: seq<Pair>)
    requires signups.Valid() && purchases.Valid()
    ensures var a, b := signups.Model(), purchases.Model();
      && Lists(out, a - (a.Keys - b.Keys), EVERYTHING)
      && (forall i, j :: 0 <= i < j < |out| ==> out[i].key < out[j].key)
      && (forall x :: x in out <==> x.key in a && x.key in b && x.value == a[x.key])
  {
    hide Filter, Good, Live, Lists;
    var ca := signups.Cursor();
    var cb := purchases.Cursor();
    ghost var a, b := ca.pairs, cb.pairs;
    ghost var ma, mb := signups.Model(), purchases.Model();
    out := JoinCursors(ca, cb);
    FilterLists(a, ma, b, mb, true, ma - (ma.Keys - mb.Keys));
    ListsAll(out, ma - (ma.Keys - mb.Keys));
    ca.Close();
    cb.Close();
  }

  method JoinCursors(ca: Cursor, cb: Cursor) returns (out: seq<Pair>)
    requires ca != cb && ca.Ok() && cb.Ok() && !ca.valid && !cb.valid
    requires KeysAscend(ca.pairs) && KeysAscend(cb.pairs)
    modifies ca, cb
    ensures out == Filter(old(ca.pairs), Matched(old(cb.pairs), true))
  {
    ghost var a, b, i, j := ca.pairs, cb.pairs, 0, 0;
    var aOk := ca.Next();
    var bOk := cb.Next();
    out := [];
    JoinStart(a, b, true);
    hide Joined;
    while aOk && bOk
      invariant ca.Ok() && cb.Ok() && ca.pairs == a && cb.pairs == b && aOk == ca.valid && bOk == cb.valid
      invariant i <= |a| && j <= |b|
      invariant ca.At() == (if i < |a| then Some(i) else None) && cb.At() == if j < |b| then Some(j) else None
      invariant Joined(out, a, i, b, j, true)
      decreases |a| - i + |b| - j
    {
      var ak := ca.Key();
      var bk := cb.Key();
      if ak == bk {
        JoinLeft(out, a, i, b, j, true);
        var value := ca.Value();
        out := out + [Pair(ak, value)];
        aOk := ca.Next();
        bOk := cb.Next();
        i, j := i + 1, j + 1;
      } else if ak < bk {
        JoinLeft(out, a, i, b, j, true);
        aOk := ca.Next();
        i := i + 1;
      } else {
        JoinRight(out, a, i, b, j, true);
        bOk := cb.Next();
        j := j + 1;
      }
    }
    JoinEnd(out, a, i, b, j, true);
  }

  /** Every key of the first tree that is not in the second, once, ascending
      (examples/mergejoin/main.go:79-101). */
  method AntiJoin(signups: BETree, purchases: BETree) returns (out: seq<Pair>)
    requires signups.Valid() && purchases.Valid()
    ensures var a, b := signups.Model(), purchases.Model();
      && Lists(out, a - b.Keys, EVERYTHING)
      && (forall i, j :: 0 <= i < j < |out| ==> out[i].key < out[j].key)
      && (forall x :: x in out <==> x.key in a && x.key !in b && x.value == a[x.key])
  {
    hide Filter, Good, Live, Lists;
    var ca := signups.Cursor();
    var cb := purchases.Cursor();
    ghost var a, b := ca.pairs, cb.pairs;
    ghost var ma, mb := signups.Model(), purchases.Model();
    out := AntiJoinCursors(ca, cb);
    FilterLists(a, ma, b, mb, false, ma - mb.Keys);
    ListsAll(out, ma - mb.Keys);
    ca.Close();
    cb.Close();
  }

  method AntiJoinCursors(ca: Cursor, cb: Cursor) returns (out: seq<Pair>)
    requires ca != cb && ca.Ok() && cb.Ok() && !ca.valid && !cb.valid
    requires KeysAscend(ca.pairs) && KeysAscend(cb.pairs)
    modifies ca, cb
    ensures out == Filter(old(ca.pairs), Matched(old(cb.pairs), false))
  {
    ghost var a, b, i, j := ca.pairs, cb.pairs, 0, 0;
    var aOk := ca.Next();
    var bOk := cb.Next();
    out := [];
    JoinStart(a, b, false);
    hide Joined;
    while aOk
      invariant ca.Ok() && cb.Ok() && ca.pairs == a && cb.pairs == b && aOk == ca.valid && bOk == cb.valid
      invariant i <= |a| && j <= |b|
      invariant ca.At() == (if i < |a| then Some(i) else None) && cb.At() == if j < |b| then Some(j) else None
      invariant Joined(out, a, i, b, j, false)
      decreases |a| - i + |b| - j
    {
      var ak := ca.Key();
      var before := !bOk;
      if bOk {
        var bk := cb.Key();
        before := ak < bk;
      }
      if before {
        JoinLeft(out, a, i, b, j, false);
        var value := ca.Value();
        out := out + [Pair(ak, value)];
        aOk := ca.Next();
        i := i + 1;
      } else {
        var bk := cb.Key();
        if ak == bk {
          JoinLeft(out, a, i, b, j, false);
          aOk := ca.Next();
          bOk := cb.Next();
          i, j := i + 1, j + 1;
        } else {
          JoinRight(out, a, i, b, j, false);
          bOk := cb.Next();
          j := j + 1;
        }
      }
    }
    JoinEnd(out, a, i, b, j, false);
  }
}
