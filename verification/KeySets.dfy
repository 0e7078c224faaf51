/** Finite sets of keys listed in ascending order. */
module KeySets {
  import opened Messages
  import opened Leaves

  ghost function Greatest(s: set<K>): (m: K)
    requires s != {}
    ensures m in s && forall k :: k in s ==> k <= m
  {
    GreatestExists(s);
    var m :| m in s && forall k :: k in s ==> k <= m;
    m
  }

  lemma Pick(s: set<K>) returns (x: K)
    requires s != {}
    ensures x in s
  {
    assert (forall k :: k !in s) ==> s == {};
    x :| x in s;
  }

  lemma {:induction false} GreatestExists(s: set<K>)
    requires s != {}
    ensures exists m :: m in s && forall k :: k in s ==> k <= m
  {
    var x := Pick(s);
    if s == {x} {
      assert forall k :: k in s ==> k <= x;
    } else {
      GreatestExists(s - {x});
      var m :| m in s - {x} && forall k :: k in s - {x} ==> k <= m;
      var top := if x <= m then m else x;
      assert forall k :: k in s ==> k in s - {x} || k == x;
      assert top in s && forall k :: k in s ==> k <= top;
    }
  }

  /** A set of keys in ascending order. */
  ghost function Ascending(s: set<K>): (q: seq<K>)
    ensures Increasing(q) && |q| == |s|
    ensures forall k :: k in q <==> k in s
  {
    if s == {} then [] else
      var m := Greatest(s);
      Ascending(s - {m}) + [m]
  }
}
