/** Go slices as arrays: growing one gives a longer array whose tail holds anything, cutting
    one keeps a prefix, and copy moves entries within one. */
module Slices {

  /** slices.Grow followed by reslicing to the full length. */
  method Grow<T(0)>(s: seq<T>, n: nat) returns (a: array<T>)
    ensures fresh(a) && a.Length == |s| + n && a[..|s|] == s
  {
    a := new T[|s| + n];
    forall i | 0 <= i < |s| {
      a[i] := s[i];
    }
  }

  /** copy within one slice: the ranges may overlap. */
  method CopyWithin<T>(a: array<T>, dst: nat, src: nat, n: nat)
    requires dst + n <= a.Length && src + n <= a.Length
    modifies a
    ensures a[..dst] == old(a[..dst])
    ensures a[dst..dst + n] == old(a[src..src + n])
    ensures a[dst + n..] == old(a[dst + n..])
  {
    forall i | dst <= i < dst + n {
      a[i] := a[src + (i - dst)];
    }
  }

  method WriteAt<T>(a: array<T>, i: nat, x: T)
    requires i < a.Length
    modifies a
    ensures a[..i] == old(a[..i]) && a[i..] == [x] + old(a[i + 1..])
  {
    a[i] := x;
  }

  /** Writes one element, as a step of a prefix that grows. */
  method Store<T>(a: array<T>, i: nat, x: T)
    requires i < a.Length
    modifies a
    ensures a[..i + 1] == old(a[..i]) + [x]
    ensures a[i + 1..] == old(a[i + 1..])
  {
    a[i] := x;
  }

  /** A suffix that was not written to. */
  lemma SuffixKept<T>(was: seq<T>, now: seq<T>, i: nat, j: nat)
    requires i <= j <= |was| == |now| && now[i..] == was[i..]
    ensures now[j..] == was[j..]
  {
    assert now[j..] == now[i..][j - i..];
    assert was[j..] == was[i..][j - i..];
  }
}
