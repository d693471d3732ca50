/** The doubly linked list of adlist.c on the heap, and iterators over it. */
module Adlist {
  import opened Sequences

  class Node<T> {
    const value: T
    var prev: Node?<T>
    var next: Node?<T>

    constructor (value: T)
      ensures this.value == value && prev == null && next == null
    {
      this.value := value;
      prev, next := null, null;
    }
  }

  /** The node at a position, none outside the list. */
  ghost function At<T>(nodes: seq<Node<T>>, i: int): Node?<T> {
    if 0 <= i < |nodes| then nodes[i] else null
  }

  /** The values of a list, in order. */
  ghost function Values<T>(nodes: seq<Node<T>>): (vs: seq<T>)
    ensures |vs| == |nodes| && forall i :: 0 <= i < |vs| ==> vs[i] == nodes[i].value
  {
    seq(|nodes|, i requires 0 <= i < |nodes| => nodes[i].value)
  }

  /** Neighbours are linked to each other, both ways. */
  ghost predicate Linked<T>(nodes: seq<Node<T>>)
    reads nodes
  {
    forall i :: 0 <= i < |nodes| ==> nodes[i].prev == At(nodes, i - 1) && nodes[i].next == At(nodes, i + 1)
  }

  /** No node stands at two positions. */
  lemma Unique<T>(nodes: seq<Node<T>>, p: int)
    requires NoDuplicates(nodes)
    ensures 0 <= p < |nodes| ==> forall i :: 0 <= i < |nodes| && nodes[i] == nodes[p] ==> i == p
  {
  }

  class List<T(==)> {
    var head: Node?<T>
    var tail: Node?<T>
    var len: nat
    /** The nodes from head to tail. */
    ghost var nodes: seq<Node<T>>

    ghost predicate Valid()
      reads this, nodes
    {
      && NoDuplicates(nodes) && Linked(nodes)
      && head == At(nodes, 0) && tail == At(nodes, |nodes| - 1) && len == |nodes|
    }

    /** `listCreate`. */
    constructor ()
      ensures Valid() && nodes == []
    {
      head, tail, len, nodes := null, null, 0, [];
    }

    /** Links a new node between positions `q - 1` and `q`. */
    method Link(n: Node<T>, ghost q: nat)
      requires NoDuplicates(nodes) && Linked(nodes) && q <= |nodes| && n !in nodes
      requires n.prev == At(nodes, q - 1) && n.next == At(nodes, q)
      modifies nodes
      ensures Linked(Put(nodes, q, n))
    {
      hide NoDuplicates, Put;
      PutFacts(nodes, q, n);
      Unique(nodes, q - 1);
      Unique(nodes, q);
      if n.prev != null {
        n.prev.next := n;
      }
      if n.next != null {
        n.next.prev := n;
      }
      ghost var r := Put(nodes, q, n);
      forall i | 0 <= i < |r| ensures r[i].prev == At(r, i - 1) && r[i].next == At(r, i + 1) {
        if i < q {
          assert r[i] == nodes[i];
        } else if i > q {
          assert r[i] == nodes[i - 1];
        }
      }
    }

    /** `listAddNodeHead`. */
    method AddNodeHead(value: T)
      requires Valid()
      modifies this, nodes
      ensures Valid() && |nodes| == |old(nodes)| + 1 && nodes == [nodes[0]] + old(nodes)
      ensures fresh(nodes[0]) && nodes[0].value == value
    {
      hide NoDuplicates, Put, Linked;
      var n := new Node(value);
      PutFacts(nodes, 0, n);
      PutAtEnds(nodes, n);
      n.next := head;
      if len == 0 {
        tail := n;
      }
      Link(n, 0);
      head, len, nodes := n, len + 1, [n] + nodes;
    }

    /** `listAddNodeTail`. */
    method AddNodeTail(value: T)
      requires Valid()
      modifies this, nodes
      ensures Valid() && |nodes| == |old(nodes)| + 1 && nodes == old(nodes) + [nodes[|nodes| - 1]]
      ensures fresh(nodes[|nodes| - 1]) && nodes[|nodes| - 1].value == value
    {
      hide NoDuplicates, Put, Linked;
      var n := new Node(value);
      PutFacts(nodes, |nodes|, n);
      PutAtEnds(nodes, n);
      n.prev := tail;
      if len == 0 {
        head := n;
      }
      Link(n, |nodes|);
      tail, len, nodes := n, len + 1, nodes + [n];
    }

    lemma Length()
      requires Valid()
      ensures len == |nodes|
    {
    }

    lemma Neighbours(p: nat)
      requires Valid() && p < |nodes|
      ensures nodes[p].prev == At(nodes, p - 1) && nodes[p].next == At(nodes, p + 1)
      ensures tail == nodes[p] <==> p == |nodes| - 1
      ensures head == nodes[p] <==> p == 0
    {
    }

    /** `listInsertNode`, next to the node at position `p`. */
    method InsertNode(oldNode: Node<T>, value: T, after: bool, ghost p: nat)
      requires Valid() && p < |nodes| && nodes[p] == oldNode
      modifies this, nodes
      ensures var q := if after then p + 1 else p;
              && Valid() && |nodes| == |old(nodes)| + 1 && nodes == Put(old(nodes), q, nodes[q])
              && fresh(nodes[q]) && nodes[q].value == value
    {
      hide NoDuplicates, Put, Linked;
      var n := new Node(value);
      ghost var q := if after then p + 1 else p;
      PutFacts(nodes, q, n);
      Neighbours(p);
      if after {
        n.prev, n.next := oldNode, oldNode.next;
        if tail == oldNode {
          tail := n;
        }
      } else {
        n.next, n.prev := oldNode, oldNode.prev;
        if head == oldNode {
          head := n;
        }
      }
      Link(n, q);
      len, nodes := len + 1, Put(nodes, q, n);
    }

    /** Links the neighbours of the node at position `p` to each other. */
    method Bridge(node: Node<T>, ghost p: nat)
      requires Valid() && p < |nodes| && nodes[p] == node
      modifies nodes
      ensures Linked(Cut(nodes, p)) && node.prev == At(nodes, p - 1) && node.next == At(nodes, p + 1)
    {
      hide NoDuplicates, Cut;
      CutFacts(nodes, p);
      Unique(nodes, p - 1);
      Unique(nodes, p);
      Unique(nodes, p + 1);
      if node.prev != null {
        node.prev.next := node.next;
      }
      if node.next != null {
        node.next.prev := node.prev;
      }
      ghost var r := Cut(nodes, p);
      forall i | 0 <= i < |r| ensures r[i].prev == At(r, i - 1) && r[i].next == At(r, i + 1) {
        if i < p {
          assert r[i] == nodes[i];
        } else {
          assert r[i] == nodes[i + 1];
        }
      }
    }

    /** `listDelNode` of the node at position `p`. */
    method DelNode(node: Node<T>, ghost p: nat)
      requires Valid() && p < |nodes| && nodes[p] == node
      modifies this, nodes
      ensures Valid() && nodes == Cut(old(nodes), p)
    {
      hide NoDuplicates, Cut, Linked;
      CutFacts(nodes, p);
      Bridge(node, p);
      if node.prev == null {
        head := node.next;
      }
      if node.next == null {
        tail := node.prev;
      }
      len, nodes := len - 1, Cut(nodes, p);
    }

    /** `listSearchKey` without a match function: the first node with the value. */
    method SearchKey(key: T) returns (node: Node?<T>, ghost p: nat)
      requires Valid()
      ensures p <= |nodes| && node == At(nodes, p) && (node != null ==> node.value == key)
      ensures forall i :: 0 <= i < p ==> nodes[i].value != key
    {
      node, p := head, 0;
      while node != null && node.value != key
        invariant p <= |nodes| && node == At(nodes, p) && forall i :: 0 <= i < p ==> nodes[i].value != key
        decreases |nodes| - p
      {
        node, p := node.next, p + 1;
      }
    }

    /** `listIndex`: positions from the head, negative ones from the tail. */
    method Index(index: int) returns (node: Node?<T>)
      requires Valid()
      ensures node == At(nodes, if index < 0 then |nodes| + index else index)
    {
      var left := if index < 0 then -index - 1 else index;
      ghost var p: int := if index < 0 then |nodes| - 1 else 0;
      node := if index < 0 then tail else head;
      while left > 0 && node != null
        invariant left >= 0 && node == At(nodes, p)
        invariant node != null ==> if index < 0 then p - left == |nodes| + index else p + left == index
        invariant node == null ==> At(nodes, if index < 0 then |nodes| + index else index) == null
        decreases left
      {
        node := if index < 0 then node.prev else node.next;
        p, left := if index < 0 then p - 1 else p + 1, left - 1;
      }
    }

    /** Relinks the last node in front of the first one. */
    method LastToFront()
      requires Valid() && |nodes| > 1
      modifies nodes
      ensures Linked(Rotated(nodes)) && tail.next == head && tail.prev == null && nodes[|nodes| - 2].next == null
    {
      hide NoDuplicates, Rotated;
      ghost var n := |nodes|;
      ghost var r := Rotated(nodes);
      RotatedFacts(nodes);
      Unique(nodes, 0);
      Unique(nodes, n - 2);
      Unique(nodes, n - 1);
      tail.prev.next := null;
      head.prev := tail;
      tail.prev := null;
      tail.next := head;
      forall i | 0 <= i < n ensures r[i].prev == At(r, i - 1) && r[i].next == At(r, i + 1) {
        if i > 0 {
          assert r[i] == nodes[i - 1];
        }
      }
    }

    /** `listRotate`: the tail becomes the head. */
    method Rotate()
      requires Valid()
      modifies this, nodes
      ensures Valid()
      ensures nodes == if |old(nodes)| <= 1 then old(nodes) else Rotated(old(nodes))
    {
      hide NoDuplicates, Rotated, Linked;
      if len <= 1 {
        return;
      }
      RotatedFacts(nodes);
      Neighbours(|nodes| - 1);
      var last, second := tail, tail.prev;
      LastToFront();
      head, tail, nodes := last, second, Rotated(nodes);
    }

    /** `listDup`: a new list of the same values; this one is not modified. */
    method Dup() returns (copy: List<T>)
      requires Valid()
      ensures fresh(copy) && copy.Valid() && Values(copy.nodes) == Values(nodes)
      ensures forall i :: 0 <= i < |copy.nodes| ==> fresh(copy.nodes[i])
    {
      hide List.Valid, Values;
      copy := new List<T>();
      var iter := new Iterator(this, true);
      var node := iter.Next(this, 0);
      ghost var p := 0;
      NoValues<T>(nodes);
      while node != null
        invariant p <= |nodes| && node == At(nodes, p) && copy.Valid() && fresh(copy) && fresh(iter) && Valid()
        invariant node != null ==> iter.next == At(nodes, p + 1) && iter.forward
        invariant Values(copy.nodes) == Values(nodes[..p])
        invariant forall i :: 0 <= i < |copy.nodes| ==> fresh(copy.nodes[i])
        decreases |nodes| - p
      {
        assert forall n :: n in copy.nodes ==> fresh(n);
        ghost var before := copy.nodes;
        copy.AddNodeTail(node.value);
        OneMoreValue(before, copy.nodes[|before|], nodes, p);
        node := iter.Next(this, p + 1);
        p := p + 1;
      }
      assert nodes[..p] == nodes;
    }
  }

  lemma NoValues<T>(nodes: seq<Node<T>>)
    ensures Values<T>([]) == Values(nodes[..0])
  {
  }

  lemma OneMoreValue<T>(copied: seq<Node<T>>, n: Node<T>, nodes: seq<Node<T>>, p: nat)
    requires p < |nodes| && Values(copied) == Values(nodes[..p]) && n.value == nodes[p].value
    ensures Values(copied + [n]) == Values(nodes[..p + 1])
  {
    assert Values(nodes[..p + 1]) == Values(nodes[..p]) + [nodes[p].value];
    assert Values(copied + [n]) == Values(copied) + [n.value];
  }

  lemma PutAtEnds<T>(nodes: seq<Node<T>>, n: Node<T>)
    ensures Put(nodes, 0, n) == [n] + nodes && Put(nodes, |nodes|, n) == nodes + [n]
  {
  }

  ghost function Rotated<T>(nodes: seq<Node<T>>): seq<Node<T>>
    requires |nodes| > 0
  {
    [nodes[|nodes| - 1]] + nodes[..|nodes| - 1]
  }

  lemma RotatedFacts<T>(nodes: seq<Node<T>>)
    requires NoDuplicates(nodes) && |nodes| > 1
    ensures var n := |nodes|; var r := Rotated(nodes);
            NoDuplicates(r) && |r| == n && r[0] == nodes[n - 1] && forall i :: 0 < i < n ==> r[i] == nodes[i - 1]
  {
  }

  /** `listIter`: the node to return next, and the direction. */
  class Iterator<T(==)> {
    const forward: bool
    var next: Node?<T>

    /** `listRewind` and `listRewindTail`. */
    constructor (l: List<T>, forward: bool)
      requires l.Valid()
      ensures this.forward == forward
      ensures next == At(l.nodes, if forward then 0 else |l.nodes| - 1)
    {
      this.forward := forward;
      next := if forward then l.head else l.tail;
    }

    /** `listNext`, with the iterator at position `p` of the list. */
    method Next(ghost l: List<T>, ghost p: int) returns (current: Node?<T>)
      requires l.Valid() && next == At(l.nodes, p)
      modifies this
      ensures current == At(l.nodes, p)
      ensures current != null ==> next == At(l.nodes, if forward then p + 1 else p - 1)
    {
      current := next;
      if current != null {
        next := if forward then current.next else current.prev;
      }
    }
  }

  /** Deleting the node just returned leaves an iterator at the node that followed it, in either direction. */
  lemma DeletionKeepsPlace<T>(nodes: seq<Node<T>>, p: nat)
    requires p < |nodes|
    ensures At(Cut(nodes, p), p) == At(nodes, p + 1) && At(Cut(nodes, p), p - 1) == At(nodes, p - 1)
    ensures Values(Cut(nodes, p)) == Values(nodes)[..p] + Values(nodes)[p + 1..]
  {
  }
}
