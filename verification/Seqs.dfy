/** Facts about sequences that hold for any element type: filtering, and a stable sort.
    The sort stands for the standard library's slices.SortStableFunc; what matters of it is
    its contract, which the lemmas below state: a sorted rearrangement that keeps the order
    of elements the comparison does not separate. */
module Seqs {

  /** slices.Insert of one element. */
  function InsertAt<T>(s: seq<T>, i: nat, x: T): (r: seq<T>)
    requires i <= |s|
    ensures |r| == |s| + 1
    ensures forall j :: 0 <= j < |r| ==> r[j] == if j < i then s[j] else if j == i then x else s[j - 1]
  {
    s[..i] + [x] + s[i..]
  }

  /** slices.Delete of one element. */
  function RemoveAt<T>(s: seq<T>, i: nat): (r: seq<T>)
    requires i < |s|
    ensures |r| == |s| - 1
    ensures forall j :: 0 <= j < |r| ==> r[j] == if j < i then s[j] else s[j + 1]
  {
    s[..i] + s[i + 1..]
  }

  lemma TakeSlice<T>(s: seq<T>, i: nat, j: nat)
    requires i <= j <= |s|
    ensures s[..j] == s[..i] + s[i..j] && s[..j][i..] == s[i..j] && s[..j][..i] == s[..i]
  {}

  lemma TakeAll<T>(s: seq<T>)
    ensures s[..|s|] == s
  {}

  lemma Assoc<T>(a: seq<T>, b: seq<T>, c: seq<T>)
    ensures (a + b) + c == a + (b + c)
  {}

  lemma PlusNil<T>(a: seq<T>)
    ensures a + [] == a
  {}

  lemma SliceConcat<T>(a: seq<T>, b: seq<T>, i: nat)
    requires i <= |b|
    ensures (a + b)[..|a| + i] == a + b[..i] && (a + b)[|a| + i..] == b[i..]
  {}

  /** The elements of s satisfying f, in order. */
  function Filter<T>(s: seq<T>, f: T -> bool): seq<T> {
    if s == [] then []
    else
      var rest := Filter(s[..|s| - 1], f);
      if f(s[|s| - 1]) then rest + [s[|s| - 1]] else rest
  }

  lemma {:induction false} FilterConcat<T>(a: seq<T>, b: seq<T>, f: T -> bool)
    ensures Filter(a + b, f) == Filter(a, f) + Filter(b, f)
  {
    if b == [] {
      assert a + b == a;
    } else {
      assert (a + b)[..|a + b| - 1] == a + b[..|b| - 1];
      FilterConcat(a, b[..|b| - 1], f);
    }
  }

  lemma FilterSnoc<T>(s: seq<T>, x: T, f: T -> bool)
    ensures Filter(s + [x], f) == if f(x) then Filter(s, f) + [x] else Filter(s, f)
  {
    assert (s + [x])[..|s|] == s;
  }

  lemma FilterCons<T>(x: T, s: seq<T>, f: T -> bool)
    ensures Filter([x] + s, f) == if f(x) then [x] + Filter(s, f) else Filter(s, f)
  {
    FilterConcat([x], s, f);
    FilterSnoc([], x, f);
    assert [] + [x] == [x];
  }

  lemma {:induction false} FilterMembers<T>(s: seq<T>, f: T -> bool)
    ensures |Filter(s, f)| <= |s|
    ensures forall x :: x in Filter(s, f) <==> x in s && f(x)
  {
    if s != [] {
      FilterMembers(s[..|s| - 1], f);
      assert s == s[..|s| - 1] + [s[|s| - 1]];
    }
  }

  lemma {:induction false} FilterAll<T>(s: seq<T>, f: T -> bool)
    requires forall x :: x in s ==> f(x)
    ensures Filter(s, f) == s
  {
    if s != [] {
      FilterAll(s[..|s| - 1], f);
      assert s == s[..|s| - 1] + [s[|s| - 1]];
    }
  }

  lemma {:induction false} FilterNone<T>(s: seq<T>, f: T -> bool)
    requires forall x :: x in s ==> !f(x)
    ensures Filter(s, f) == []
  {
    if s != [] {
      FilterNone(s[..|s| - 1], f);
    }
  }

  /** Filtering by g after f is filtering by g, where g only accepts what f accepts. */
  lemma {:induction false} FilterWithin<T(!new)>(s: seq<T>, f: T -> bool, g: T -> bool)
    requires forall x :: g(x) ==> f(x)
    ensures Filter(Filter(s, f), g) == Filter(s, g)
  {
    if s != [] {
      FilterWithin(s[..|s| - 1], f, g);
      FilterSnoc(Filter(s[..|s| - 1], f), s[|s| - 1], g);
    }
  }

  ghost predicate Preorder<T(!new)>(le: (T, T) -> bool) {
    && (forall x, y :: le(x, y) || le(y, x))
    && (forall x, y, z :: le(x, y) && le(y, z) ==> le(x, z))
  }

  ghost predicate SortedBy<T>(s: seq<T>, le: (T, T) -> bool) {
    forall i, j :: 0 <= i < j < |s| ==> le(s[i], s[j])
  }

  function Insert<T>(x: T, s: seq<T>, le: (T, T) -> bool): seq<T> {
    if s == [] || le(x, s[0]) then [x] + s else [s[0]] + Insert(x, s[1..], le)
  }

  function StableSort<T>(s: seq<T>, le: (T, T) -> bool): seq<T> {
    if s == [] then [] else Insert(s[0], StableSort(s[1..], le), le)
  }

  lemma {:induction false} InsertMembers<T>(x: T, s: seq<T>, le: (T, T) -> bool)
    ensures multiset(Insert(x, s, le)) == multiset{x} + multiset(s)
  {
    if !(s == [] || le(x, s[0])) {
      InsertMembers(x, s[1..], le);
      assert s == [s[0]] + s[1..];
    }
  }

  lemma {:induction false} InsertSorted<T(!new)>(x: T, s: seq<T>, le: (T, T) -> bool)
    requires Preorder(le) && SortedBy(s, le)
    ensures SortedBy(Insert(x, s, le), le)
  {
    if s == [] {
    } else if le(x, s[0]) {
      assert forall j :: 0 <= j < |s| ==> le(x, s[j]);
    } else {
      InsertSorted(x, s[1..], le);
      var t := Insert(x, s[1..], le);
      InsertMembers(x, s[1..], le);
      forall y | y in t
        ensures le(s[0], y)
      {
        assert y in multiset(t);
        assert y == x || y in multiset(s[1..]);
        if y != x {
          assert y in s[1..];
        }
      }
    }
  }

  /** The sort returns a sorted rearrangement of its input. */
  lemma {:induction false} SortSorts<T(!new)>(s: seq<T>, le: (T, T) -> bool)
    requires Preorder(le)
    ensures SortedBy(StableSort(s, le), le)
    ensures multiset(StableSort(s, le)) == multiset(s)
  {
    if s != [] {
      SortSorts(s[1..], le);
      InsertSorted(s[0], StableSort(s[1..], le), le);
      InsertMembers(s[0], StableSort(s[1..], le), le);
      assert s == [s[0]] + s[1..];
    }
  }

  lemma SortMembers<T(!new)>(s: seq<T>, le: (T, T) -> bool)
    requires Preorder(le)
    ensures |StableSort(s, le)| == |s|
    ensures forall x :: x in StableSort(s, le) <==> x in s
  {
    SortSorts(s, le);
    var t := StableSort(s, le);
    assert |t| == |multiset(t)| == |multiset(s)| == |s|;
    forall x ensures x in t <==> x in s {
      assert x in t <==> x in multiset(t);
      assert x in s <==> x in multiset(s);
    }
  }

  lemma {:induction false} InsertFilter<T(!new)>(x: T, s: seq<T>, le: (T, T) -> bool, f: T -> bool)
    requires f(x) ==> forall y :: y in s && f(y) ==> le(x, y)
    ensures Filter(Insert(x, s, le), f) == if f(x) then [x] + Filter(s, f) else Filter(s, f)
  {
    FilterCons(x, s, f);
    if !(s == [] || le(x, s[0])) {
      InsertFilter(x, s[1..], le, f);
      FilterCons(s[0], Insert(x, s[1..], le), f);
      FilterCons(s[0], s[1..], f);
      assert s == [s[0]] + s[1..];
    }
  }

  /** Stability: elements picked out by f that were already in order stay in that order. */
  lemma {:induction false} SortStable<T(!new)>(s: seq<T>, le: (T, T) -> bool, f: T -> bool)
    requires Preorder(le)
    requires SortedBy(Filter(s, f), le)
    ensures Filter(StableSort(s, le), f) == Filter(s, f)
  {
    if s != [] {
      var x, rest := s[0], s[1..];
      assert s == [x] + rest;
      FilterCons(x, rest, f);
      if f(x) {
        assert Filter(rest, f) == Filter(s, f)[1..];
        forall y | y in rest && f(y)
          ensures le(x, y)
        {
          FilterMembers(rest, f);
          assert y in Filter(rest, f);
          var j :| 0 <= j < |Filter(rest, f)| && Filter(rest, f)[j] == y;
          assert Filter(s, f)[j + 1] == y;
        }
      }
      SortStable(rest, le, f);
      SortMembers(rest, le);
      InsertFilter(x, StableSort(rest, le), le, f);
    }
  }

  lemma {:induction false} SortOfSorted<T>(s: seq<T>, le: (T, T) -> bool)
    requires SortedBy(s, le)
    ensures StableSort(s, le) == s
  {
    if |s| > 1 {
      SortOfSorted(s[1..], le);
    }
  }
}
