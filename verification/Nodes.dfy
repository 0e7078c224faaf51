/** A node object (node.go): its slices, and the searches and updates of one node. The ghost
    field view is the tree value the node and all below it hold. */
module Nodes {
  import opened Seqs
  import opened Messages
  import opened Leaves
  import opened Trees
  import opened Runs

  /** Valid nodes with nothing in common, all within below, that hold the given trees. */
  ghost predicate Family(nodes: seq<Node>, kids: seq<Tree>, below: set<Node>)
    reads below
  {
    && |kids| == |nodes|
    && (forall i :: 0 <= i < |nodes| ==>
          nodes[i] in below && nodes[i].Repr <= below && nodes[i].Valid() && nodes[i].view == kids[i])
    && (forall i, j :: 0 <= i < j < |nodes| ==> nodes[i].Repr !! nodes[j].Repr)
  }

  class Node {
    const leaf: bool
    // Internal nodes.
    var pivots: seq<K>
    var children: seq<Node>
    var buffer: seq<Message>
    var bufferSorted: bool
    // Leaves.
    var keys: seq<K>
    var values: seq<V>

    ghost var view: Tree
    ghost var Repr: set<Node>

    ghost predicate Valid()
      reads this, Repr
      ensures Valid() ==> this in Repr
      decreases Repr
    {
      && this in Repr
      && (leaf ==> Repr == {this} && view == Leaf(Page(keys, values)))
      && (!leaf ==>
            && view.Node? && view.pivots == pivots && view.buf == buffer && view.sorted == bufferSorted
            && |view.kids| == |children|
            && (forall i :: 0 <= i < |children| ==>
                  && children[i] in Repr && children[i].Repr <= Repr && this !in children[i].Repr
                  && children[i].view == view.kids[i]
                  && children[i].Valid())
            && (forall i, j :: 0 <= i < j < |children| ==> children[i].Repr !! children[j].Repr))
    }

    /** An empty leaf, or one holding a copy of the given entries. */
    constructor OfLeaf(keys: seq<K>, values: seq<V>)
      ensures Valid() && fresh(Repr) && leaf && view == Leaf(Page(keys, values))
    {
      leaf := true;
      this.keys, this.values := keys, values;
      pivots, children, buffer, bufferSorted := [], [], [], false;
      view := Leaf(Page(keys, values));
      Repr := {this};
    }

    /** An internal node over valid children with nothing in common. */
    constructor OfChildren(pivots: seq<K>, children: seq<Node>, buffer: seq<Message>, sorted: bool,
                           ghost kids: seq<Tree>, ghost below: set<Node>)
      requires Family(children, kids, below)
      ensures Valid() && fresh(this) && !leaf && Repr == below + {this}
      ensures view == Tree.Node(pivots, kids, buffer, sorted)
      ensures this.children == children
    {
      leaf := false;
      this.pivots, this.children, this.buffer, bufferSorted := pivots, children, buffer, sorted;
      keys, values := [], [];
      view := Tree.Node(pivots, kids, buffer, sorted);
      Repr := below + {this};
    }

    /** Gives an internal node new pivots, children and buffer. */
    method Refill(pivots: seq<K>, children: seq<Node>, buffer: seq<Message>, sorted: bool,
                  ghost kids: seq<Tree>, ghost below: set<Node>)
      requires !leaf && this !in below
      requires Family(children, kids, below)
      modifies this
      ensures Valid() && Repr == below + {this} && view == Tree.Node(pivots, kids, buffer, sorted)
      ensures this.children == children
    {
      this.pivots, this.children, this.buffer, bufferSorted := pivots, children, buffer, sorted;
      view := Tree.Node(pivots, kids, buffer, sorted);
      Repr := below + {this};
    }

    /** Gives a leaf new slices. */
    method SetEntries(keys: seq<K>, values: seq<V>)
      requires leaf && Repr == {this}
      modifies this
      ensures Valid() && Repr == {this} && view == Leaf(Page(keys, values))
    {
      this.keys, this.values := keys, values;
      view := Leaf(Page(keys, values));
    }

    // ---------- Searches ----------

    /** Binary search for the child a key belongs to (node.go:126-137). */
    method FindChildIndex(key: K) returns (i: nat)
      requires Increasing(pivots)
      ensures i == Route(pivots, key)
    {
      var lo, hi := 0, |pivots|;
      while lo < hi
        invariant 0 <= lo <= hi <= |pivots|
        invariant forall j :: 0 <= j < lo ==> pivots[j] <= key
        invariant forall j :: hi <= j < |pivots| ==> key < pivots[j]
      {
        var mid := lo + (hi - lo) / 2;
        if Cmp(pivots[mid], key) <= 0 {
          lo := mid + 1;
        } else {
          hi := mid;
        }
      }
      RouteUnique(pivots, key, lo);
      i := lo;
    }

    /** Binary search in a leaf (node.go:141-156). */
    method LeafSearch(key: K) returns (i: nat, found: bool)
      requires Increasing(keys)
      ensures i == Locate(keys, key) && found == Present(keys, key)
    {
      var lo, hi := 0, |keys|;
      while lo < hi
        invariant 0 <= lo <= hi <= |keys|
        invariant forall j :: 0 <= j < lo ==> keys[j] < key
        invariant forall j :: hi <= j < |keys| ==> key < keys[j]
      {
        var mid := lo + (hi - lo) / 2;
        var c := Cmp(keys[mid], key);
        if c == 0 {
          LocateUnique(keys, key, mid);
          return mid, true;
        }
        if c < 0 {
          lo := mid + 1;
        } else {
          hi := mid;
        }
      }
      LocateUnique(keys, key, lo);
      return lo, false;
    }

    /** slices.BinarySearchFunc over the buffer: the first message with a key >= key. */
    method BufferSearch(key: K) returns (pos: nat)
      requires KeySorted(buffer)
      ensures pos <= |buffer|
      ensures forall i :: 0 <= i < pos ==> buffer[i].key < key
      ensures forall i :: pos <= i < |buffer| ==> key <= buffer[i].key
    {
      var lo, hi := 0, |buffer|;
      while lo < hi
        invariant 0 <= lo <= hi <= |buffer|
        invariant forall i :: 0 <= i < lo ==> buffer[i].key < key
        invariant forall i :: hi <= i < |buffer| ==> key <= buffer[i].key
      {
        var mid := lo + (hi - lo) / 2;
        if Cmp(buffer[mid].key, key) < 0 {
          lo := mid + 1;
        } else {
          hi := mid;
        }
      }
      pos := lo;
    }

    /** The end of the run of messages for key that starts at pos. */
    method RunEnd(key: K, pos: nat) returns (end: nat)
      requires KeySorted(buffer) && pos <= |buffer|
      requires forall i :: pos <= i < |buffer| ==> key <= buffer[i].key
      ensures pos <= end <= |buffer|
      ensures forall i :: pos <= i < end ==> buffer[i].key == key
      ensures forall i :: end <= i < |buffer| ==> key < buffer[i].key
    {
      end := pos;
      while end < |buffer| && Cmp(buffer[end].key, key) == 0
        invariant pos <= end <= |buffer|
        invariant forall i :: pos <= i < end ==> buffer[i].key == key
      {
        end := end + 1;
      }
    }

    /** All messages for key, oldest first: the binary search on a sorted buffer finds the same
        ones, in the same order, as the scan of an unsorted one (node.go:36-58). */
    method BufferMessagesForKey(key: K) returns (msgs: seq<Message>)
      requires bufferSorted ==> KeySorted(buffer)
      ensures msgs == At(buffer, key)
    {
      if bufferSorted {
        var i := BufferSearch(key);
        if !(i < |buffer| && Cmp(buffer[i].key, key) == 0) {
          SortedSlice(buffer, Only(key), i, i);
          return [];
        }
        var end := RunEnd(key, i);
        SortedSlice(buffer, Only(key), i, end);
        return buffer[i..end];
      }
      msgs := [];
      var i := 0;
      while i < |buffer|
        invariant i <= |buffer|
        invariant msgs == At(buffer[..i], key)
      {
        assert buffer[..i + 1] == buffer[..i] + [buffer[i]];
        AtSnoc(buffer[..i], buffer[i], key);
        if Cmp(buffer[i].key, key) == 0 {
          msgs := msgs + [buffer[i]];
        }
        i := i + 1;
      }
      assert buffer[..i] == buffer;
    }

    /** The messages with keys between lo and hi, each end included or not, in buffer order:
        again the same from both paths (node.go:63-109). */
    method BufferSlice(lo: K, hi: K, loInc: bool, hiInc: bool) returns (msgs: seq<Message>)
      requires bufferSorted ==> KeySorted(buffer)
      ensures msgs == Sel(buffer, Range(Some(lo), loInc, Some(hi), hiInc))
      ensures forall m :: m in msgs <==>
        && m in buffer
        && (if loInc then lo <= m.key else lo < m.key)
        && (if hiInc then m.key <= hi else m.key < hi)
    {
      FilterMembers(buffer, Within(Range(Some(lo), loInc, Some(hi), hiInc)));
      if |buffer| == 0 {
        return [];
      }
      if !bufferSorted {
        msgs := BufferSliceScan(lo, hi, loInc, hiInc);
        return;
      }
      var start := BufferSearch(lo);
      if !loInc {
        start := RunEnd(lo, start);
      }
      var end := BufferSearch(hi);
      if hiInc {
        end := RunEnd(hi, end);
      }
      SortedSlice(buffer, Range(Some(lo), loInc, Some(hi), hiInc), start, end);
      if start >= end {
        return [];
      }
      return buffer[start..end];
    }

    method BufferSliceScan(lo: K, hi: K, loInc: bool, hiInc: bool) returns (msgs: seq<Message>)
      ensures msgs == Sel(buffer, Range(Some(lo), loInc, Some(hi), hiInc))
      ensures forall m :: m in msgs <==>
        && m in buffer
        && (if loInc then lo <= m.key else lo < m.key)
        && (if hiInc then m.key <= hi else m.key < hi)
    {
      FilterMembers(buffer, Within(Range(Some(lo), loInc, Some(hi), hiInc)));
      ghost var r := Range(Some(lo), loInc, Some(hi), hiInc);
      msgs := [];
      var i := 0;
      while i < |buffer|
        invariant i <= |buffer|
        invariant msgs == Sel(buffer[..i], r)
      {
        assert buffer[..i + 1] == buffer[..i] + [buffer[i]];
        FilterSnoc(buffer[..i], buffer[i], Within(r));
        var cLo, cHi := Cmp(buffer[i].key, lo), Cmp(buffer[i].key, hi);
        var inLo := (loInc && cLo >= 0) || (!loInc && cLo > 0);
        var inHi := (hiInc && cHi <= 0) || (!hiInc && cHi < 0);
        if inLo && inHi {
          msgs := msgs + [buffer[i]];
        }
        i := i + 1;
      }
      assert buffer[..i] == buffer;
    }

    // ---------- Updates ----------

    /** Appends a message (node.go:27-30). */
    method AppendToBuffer(msg: Message)
      requires Valid() && !leaf
      modifies this
      ensures Valid() && view == OnTop(old(view), [msg]) && Repr == old(Repr) && children == old(children)
      ensures buffer == old(buffer) + [msg] && (bufferSorted <==> |buffer| <= 1)
    {
      buffer := buffer + [msg];
      bufferSorted := |buffer| <= 1;
      view := Tree.Node(pivots, view.kids, buffer, bufferSorted);
    }

    /** Gives an internal node another buffer. */
    method SetBuffer(buffer: seq<Message>, sorted: bool)
      requires Valid() && !leaf && (sorted ==> KeySorted(buffer))
      modifies this
      ensures Valid() && Repr == old(Repr) && children == old(children)
      ensures view == Tree.Node(old(view.pivots), old(view.kids), buffer, sorted)
    {
      this.buffer, bufferSorted := buffer, sorted;
      view := Tree.Node(pivots, view.kids, buffer, sorted);
    }

    /** Inserts or overwrites, and tells whether the key is new (node.go:160-169). */
    method LeafInsert(key: K, value: V) returns (isNew: bool)
      requires Valid() && leaf && Sound(view.page)
      modifies this
      ensures Valid() && Repr == old(Repr) && view == Leaf(PagePut(old(view.page), key, value))
      ensures Sound(view.page)
      ensures isNew == !Present(old(keys), key)
    {
      ValPut(view.page, key, value, key);
      var i, found := LeafSearch(key);
      if found {
        values := values[i := value];
        isNew := false;
      } else {
        keys := InsertAt(keys, i, key);
        values := InsertAt(values, i, value);
        isNew := true;
      }
      view := Leaf(Page(keys, values));
    }

    /** Removes a key, and tells whether it was there (node.go:173-181). */
    method LeafDelete(key: K) returns (removed: bool)
      requires Valid() && leaf && Sound(view.page)
      modifies this
      ensures Valid() && Repr == old(Repr) && view == Leaf(PageRemove(old(view.page), key))
      ensures Sound(view.page)
      ensures removed == Present(old(keys), key)
    {
      ValRemove(view.page, key, key);
      var i, found := LeafSearch(key);
      if !found {
        return false;
      }
      keys := RemoveAt(keys, i);
      values := RemoveAt(values, i);
      view := Leaf(Page(keys, values));
      removed := true;
    }
  }

  /** In a list where exactly the messages lo..hi lie in r, selecting by r is slicing. */
  lemma SortedSlice(ms: seq<Message>, r: Range, lo: nat, hi: nat)
    requires lo <= |ms| && hi <= |ms|
    requires forall i :: 0 <= i < |ms| ==> (r.Has(ms[i].key) <==> lo <= i < hi)
    ensures Sel(ms, r) == if lo <= hi then ms[lo..hi] else []
  {
    if lo <= hi {
      assert ms == ms[..lo] + (ms[lo..hi] + ms[hi..]);
      FilterConcat(ms[..lo], ms[lo..hi] + ms[hi..], Within(r));
      FilterConcat(ms[lo..hi], ms[hi..], Within(r));
      FilterNone(ms[..lo], Within(r));
      FilterAll(ms[lo..hi], Within(r));
      FilterNone(ms[hi..], Within(r));
    } else {
      FilterNone(ms, Within(r));
    }
  }
}
