/** Cursors over a snapshot (cursor.go). */
module Cursors {
  import opened Messages
  import opened Iteration
  import opened Snapshots

  // ---------- Positions ----------

  // A cursor over n pairs stands at one of them, or nowhere (None).

  predicate Place(n: nat, at: Option<nat>) { at.Some? ==> at.value < n }

  /** Where Next leads: off the end comes nowhere, and from nowhere it starts over. */
  function NextPos(n: nat, at: Option<nat>): Option<nat> {
    var i := if at.Some? then at.value + 1 else 0;
    if i < n then Some(i) else None
  }

  function PrevPos(n: nat, at: Option<nat>): Option<nat> {
    match at
    case None => if n > 0 then Some(n - 1) else None
    case Some(i) => if i > 0 then Some(i - 1) else None
  }

  /** Next and Prev undo each other, also across the ends. */
  lemma NextPrev(n: nat, at: Option<nat>)
    requires Place(n, at)
    ensures Place(n, NextPos(n, at)) && PrevPos(n, NextPos(n, at)) == at
    ensures Place(n, PrevPos(n, at)) && NextPos(n, PrevPos(n, at)) == at
  {}

  function NextTimes(n: nat, at: Option<nat>, times: nat): Option<nat> {
    if times == 0 then at else NextPos(n, NextTimes(n, at, times - 1))
  }

  function PrevTimes(n: nat, at: Option<nat>, times: nat): Option<nat> {
    if times == 0 then at else PrevPos(n, PrevTimes(n, at, times - 1))
  }

  /** From nowhere, repeated Next visits every pair in order, and then rewinds. */
  lemma {:induction false} NextVisitsAll(n: nat, i: nat)
    requires i <= n
    ensures NextTimes(n, None, i + 1) == if i < n then Some(i) else None
  {
    if i > 0 {
      NextVisitsAll(n, i - 1);
    } else {
      assert NextTimes(n, None, 0) == None;
    }
  }

  lemma {:induction false} PrevVisitsAll(n: nat, i: nat)
    requires i <= n
    ensures PrevTimes(n, None, i + 1) == if i < n then Some(n - 1 - i) else None
  {
    if i > 0 {
      PrevVisitsAll(n, i - 1);
    } else {
      assert PrevTimes(n, None, 0) == None;
    }
  }

  // ---------- The cursor object ----------

  class Cursor {
    var pairs: seq<Pair>
    var pos: int
    var valid: bool

    predicate Ok()
      reads this
    {
      valid ==> 0 <= pos < |pairs|
    }

    function At(): (at: Option<nat>)
      requires Ok()
      reads this
      ensures Place(|pairs|, at)
    {
      if valid then Some(pos) else None
    }

    /** tree.go:398-407 */
    constructor (pairs: seq<Pair>)
      ensures Ok() && this.pairs == pairs && !valid
    {
      this.pairs := pairs;
      pos := 0;
      valid := false;
    }

    method Next() returns (moved: bool)
      requires Ok()
      modifies this
      ensures Ok() && pairs == old(pairs) && moved == valid
      ensures At() == NextPos(|pairs|, old(At()))
    {
      if !valid {
        if |pairs| > 0 {
          pos := 0;
          valid := true;
          return true;
        }
        return false;
      }
      pos := pos + 1;
      if pos >= |pairs| {
        valid := false;
        return false;
      }
      return true;
    }

    method Prev() returns (moved: bool)
      requires Ok()
      modifies this
      ensures Ok() && pairs == old(pairs) && moved == valid
      ensures At() == PrevPos(|pairs|, old(At()))
    {
      if !valid {
        if |pairs| > 0 {
          pos := |pairs| - 1;
          valid := true;
          return true;
        }
        return false;
      }
      pos := pos - 1;
      if pos < 0 {
        valid := false;
        return false;
      }
      return true;
    }

    /** Goes to the first key from the given one on, if there is one. */
    method Seek(key: K) returns (found: bool)
      requires Ok() && KeysAscend(pairs)
      modifies this
      ensures Ok() && pairs == old(pairs) && found == valid
      ensures found ==> pairs[pos].key >= key && forall i :: 0 <= i < pos ==> pairs[i].key < key
      ensures !found ==> forall i :: 0 <= i < |pairs| ==> pairs[i].key < key
    {
      var lo, hi := 0, |pairs|;
      while lo < hi
        invariant 0 <= lo <= hi <= |pairs|
        invariant forall i :: 0 <= i < lo ==> pairs[i].key < key
        invariant forall i :: hi <= i < |pairs| ==> pairs[i].key >= key
      {
        var mid := lo + (hi - lo) / 2;
        if Cmp(pairs[mid].key, key) < 0 {
          lo := mid + 1;
        } else {
          hi := mid;
        }
      }
      if lo >= |pairs| {
        valid := false;
        return false;
      }
      pos := lo;
      valid := true;
      return true;
    }

    method Key() returns (key: K)
      requires Ok() && valid
      ensures key == pairs[pos].key
    {
      key := pairs[pos].key;
    }

    method Value() returns (value: V)
      requires Ok() && valid
      ensures value == pairs[pos].value
    {
      value := pairs[pos].value;
    }

    method Close()
      modifies this
      ensures Ok() && !valid && pairs == []
    {
      valid := false;
      pairs := [];
    }
  }
}
