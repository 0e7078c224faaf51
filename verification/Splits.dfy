/** Splitting node objects in place (flush.go:357-442). */
module Splits {
  import opened Seqs
  import opened Messages
  import opened Leaves
  import opened Trees
  import opened Flushing
  import opened Nodes

  ghost function Under(nodes: seq<Node>): set<Node>
    reads nodes
  {
    set i, o | 0 <= i < |nodes| && o in nodes[i].Repr :: o
  }

  /** The left half stays in the leaf, the right half moves to a new one. */
  method SplitLeaf(child: Node) returns (right: Node, pivot: K)
    requires child.Valid() && child.leaf && Splittable(child.view)
    modifies child
    ensures child.Valid() && right.Valid() && fresh(right) && right.leaf
    ensures child.Repr == old(child.Repr) && right.Repr == {right}
    ensures (child.view, pivot, right.view) == Split(old(child.view))
  {
    var mid := |child.keys| / 2;
    right := new Node.OfLeaf(child.keys[mid..], child.values[mid..]);
    pivot := right.keys[0];
    child.keys := child.keys[..mid];
    child.values := child.values[..mid];
    child.view := Leaf(Page(child.keys, child.values));
    ghost var n := |old(child.keys)|;
    assert child.keys == old(child.keys)[0..mid] && child.values == old(child.values)[0..mid];
    assert old(child.keys)[mid..] == old(child.keys)[mid..n] && old(child.values)[mid..] == old(child.values)[mid..n];
  }

  /** The buffer's messages on either side of the promoted pivot, in order (flush.go:408-416). */
  method PartitionBuffer(buffer: seq<Message>, pivot: K) returns (left: seq<Message>, right: seq<Message>)
    ensures left == Sel(buffer, Below(pivot)) && right == Sel(buffer, From(pivot))
  {
    left, right := [], [];
    var i := 0;
    while i < |buffer|
      invariant i <= |buffer|
      invariant left == Sel(buffer[..i], Below(pivot)) && right == Sel(buffer[..i], From(pivot))
    {
      assert buffer[..i + 1] == buffer[..i] + [buffer[i]];
      FilterSnoc(buffer[..i], buffer[i], Within(Below(pivot)));
      FilterSnoc(buffer[..i], buffer[i], Within(From(pivot)));
      if Cmp(buffer[i].key, pivot) < 0 {
        left := left + [buffer[i]];
      } else {
        right := right + [buffer[i]];
      }
      i := i + 1;
    }
    assert buffer[..i] == buffer;
  }

  method SplitInternal(child: Node) returns (right: Node, pivot: K)
    requires child.Valid() && !child.leaf && Splittable(child.view)
    modifies child
    ensures child.Valid() && right.Valid() && fresh(right) && !right.leaf
    ensures child.Repr <= old(child.Repr) && right.Repr <= old(child.Repr) + {right}
    ensures child.Repr !! right.Repr
    ensures (child.view, pivot, right.view) == Split(old(child.view))
    ensures child.bufferSorted == right.bufferSorted == old(child.bufferSorted)
  {
    var mid := |child.pivots| / 2;
    pivot := child.pivots[mid];
    ghost var kids, was := child.view.kids, child.children;
    var leftBuf, rightBuf := PartitionBuffer(child.buffer, pivot);
    var lower, upper := child.children[..mid + 1], child.children[mid + 1..];
    var pivots, sorted := child.pivots, child.bufferSorted;
    ghost var below, above := Halves(child, mid + 1);
    hide Family;
    right := new Node.OfChildren(pivots[mid + 1..], upper, rightBuf, sorted, kids[mid + 1..], above);
    child.Refill(pivots[..mid], lower, leftBuf, sorted, kids[..mid + 1], below);
  }

  /** Some of a node's children, as children of their own. */
  lemma UnderPart(n: Node, i: nat, j: nat)
    requires n.Valid() && !n.leaf && i <= j <= |n.children|
    ensures |n.view.kids| == |n.children|
    ensures var part, kids := n.children[i..j], n.view.kids[i..j];
      Under(part) <= n.Repr && n !in Under(part) && Family(part, kids, Under(part))
  {
    var part := n.children[i..j];
    var below := Under(part);
    forall x | 0 <= x < |part|
      ensures part[x] in below && part[x].Repr <= below
      ensures part[x].Valid() && part[x].view == n.view.kids[i..j][x]
      ensures part[x].Repr <= n.Repr && n !in part[x].Repr
    {
      assert part[x] == n.children[i + x];
      assert part[x] in part[x].Repr;
    }
    PartApart(n, i, j);
  }

  lemma PartApart(n: Node, i: nat, j: nat)
    requires n.Valid() && !n.leaf && i <= j <= |n.children|
    ensures var part := n.children[i..j];
      forall x, y :: 0 <= x < y < |part| ==> part[x].Repr !! part[y].Repr
  {
    var part := n.children[i..j];
    forall x, y | 0 <= x < y < |part| ensures part[x].Repr !! part[y].Repr {
      assert part[x] == n.children[i + x] && part[y] == n.children[i + y];
    }
  }

  /** A node's first children and its others, with what lies under each. */
  lemma Halves(n: Node, i: nat) returns (below: set<Node>, above: set<Node>)
    requires n.Valid() && !n.leaf && i <= |n.children|
    ensures |n.view.kids| == |n.children|
    ensures Family(n.children[..i], n.view.kids[..i], below) && Family(n.children[i..], n.view.kids[i..], above)
    ensures below + above <= n.Repr && n !in below + above && below !! above
  {
    below, above := Under(n.children[..i]), Under(n.children[i..]);
    UnderPart(n, 0, i);
    UnderPart(n, i, |n.children|);
    SliceEnds(n.children, i);
    SliceEnds(n.view.kids, i);
  }

  lemma SliceEnds<T>(s: seq<T>, i: nat)
    requires i <= |s|
    ensures s[0..i] == s[..i] && s[i..|s|] == s[i..]
  {}

  method SplitNode(child: Node) returns (right: Node, pivot: K)
    requires child.Valid() && Splittable(child.view)
    modifies child
    ensures child.Valid() && right.Valid() && fresh(right)
    ensures child.Repr <= old(child.Repr) && right.Repr <= old(child.Repr) + {right}
    ensures child.Repr !! right.Repr
    ensures (child.view, pivot, right.view) == Split(old(child.view))
  {
    if child.leaf {
      right, pivot := SplitLeaf(child);
    } else {
      right, pivot := SplitInternal(child);
    }
  }

  lemma FamilyInsert(nodes: seq<Node>, kids: seq<Tree>, below: set<Node>, i: nat, right: Node)
    requires Family(nodes, kids, below) && i <= |nodes| && right.Valid()
    requires forall j :: 0 <= j < |nodes| ==> nodes[j].Repr !! right.Repr
    ensures Family(InsertAt(nodes, i, right), InsertAt(kids, i, right.view), below + right.Repr)
  {
    var ns, ks, b := InsertAt(nodes, i, right), InsertAt(kids, i, right.view), below + right.Repr;
    forall j | 0 <= j < |ns|
      ensures ns[j] in b && ns[j].Repr <= b && ns[j].Valid() && ns[j].view == ks[j]
    {
      assert ns[j] == if j < i then nodes[j] else if j == i then right else nodes[j - 1];
    }
    forall j, k | 0 <= j < k < |ns| ensures ns[j].Repr !! ns[k].Repr {
      assert ns[j] == if j < i then nodes[j] else if j == i then right else nodes[j - 1];
      assert ns[k] == if k < i then nodes[k] else if k == i then right else nodes[k - 1];
    }
  }

  lemma ValidFamily(n: Node)
    requires n.Valid() && !n.leaf
    ensures Family(n.children, n.view.kids, n.Repr - {n})
  {}

  /** Splits one member of a family, which stays one. */
  method SplitMember(nodes: seq<Node>, i: nat, ghost kids: seq<Tree>, ghost below: set<Node>)
    returns (right: Node, pivot: K)
    requires Family(nodes, kids, below) && i < |nodes| && Splittable(kids[i])
    modifies nodes[i]
    ensures Family(InsertAt(nodes, i + 1, right),
                   InsertAt(kids[i := Split(kids[i]).0], i + 1, Split(kids[i]).2), below + right.Repr)
    ensures fresh(right) && right.Repr <= below + {right} && pivot == Split(kids[i]).1
  {
    right, pivot := SplitNode(nodes[i]);
    forall j | 0 <= j < |nodes| && j != i ensures nodes[j].Valid() && nodes[i] !in nodes[j].Repr {
      assert nodes[i] in old(nodes[i].Repr);
    }
    assert Family(nodes, kids[i := nodes[i].view], below);
    FamilyInsert(nodes, kids[i := nodes[i].view], below, i + 1, right);
  }

  /** Splits a child and gives the parent its new pivot and child (flush.go:359-366). */
  method SplitChild(parent: Node, idx: nat)
    requires parent.Valid() && !parent.leaf && |parent.view.kids| == |parent.view.pivots| + 1
    requires idx < |parent.children| && Splittable(parent.view.kids[idx])
    modifies parent, parent.children[idx]
    ensures parent.Valid() && parent.view == SplitKid(old(parent.view), idx)
    ensures fresh(parent.Repr - old(parent.Repr))
  {
    ghost var kids, below := parent.view.kids, parent.Repr - {parent};
    ValidFamily(parent);
    hide Family;
    var right, pivot := SplitMember(parent.children, idx, kids, below);
    parent.Refill(InsertAt(parent.pivots, idx, pivot), InsertAt(parent.children, idx + 1, right),
                  parent.buffer, parent.bufferSorted,
                  InsertAt(kids[idx := Split(kids[idx]).0], idx + 1, Split(kids[idx]).2), below + right.Repr);
  }
}
