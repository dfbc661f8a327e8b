/** The intrusive doubly linked list that the kernel's other lists are instances of. The links live
    in the elements; `nodes` is the sequence they spell out, and the sequence is what other modules
    use.
 */
module AnchorList {
  import opened Sequences

  class Node {
    var next: Node?
    var prev: Node?

    constructor ()
      ensures next == null && prev == null
    {
      next, prev := null, null;
    }
  }

  /** The element at position `i`, or none when there is no such position. */
  function At(ns: seq<Node>, i: int): Node? {
    if 0 <= i < |ns| then ns[i] else null
  }

  ghost predicate LinkedAt(ns: seq<Node>, i: nat)
    requires i < |ns|
    reads ns[i]
  {
    ns[i].next == At(ns, i + 1) && ns[i].prev == At(ns, i - 1)
  }

  class List {
    var head: Node?
    var tail: Node?
    ghost var nodes: seq<Node>

    ghost predicate Valid()
      reads this, nodes
    {
      && NoDup(nodes)
      && head == At(nodes, 0) && tail == At(nodes, |nodes| - 1)
      && forall i :: 0 <= i < |nodes| ==> LinkedAt(nodes, i)
    }

    constructor ()
      ensures Valid() && nodes == []
    {
      head, tail, nodes := null, null, [];
    }

    method PushBack(t: Node)
      requires Valid() && t !in nodes
      modifies this, t, tail
      ensures Valid() && nodes == old(nodes) + [t]
    {
      t.next := null;
      t.prev := tail;
      if head == null {
        head, tail := t, t;
      } else {
        tail.next := t;
        tail := t;
      }
      ghost var n := |nodes|;
      nodes := nodes + [t];
      forall k | 0 <= k < |nodes|
        ensures LinkedAt(nodes, k)
      {
        if k < n { assert nodes[k] == old(nodes)[k] && old(LinkedAt(nodes, k)); }
      }
    }

    /** Takes out the element at position `i`; its own links are left as they were. */
    method Erase(t: Node, ghost i: nat)
      requires Valid() && i < |nodes| && nodes[i] == t
      modifies this, nodes
      ensures Valid() && nodes == RemoveAt(old(nodes), i)
      ensures t.next == old(t.next) && t.prev == old(t.prev)
    {
      ghost var before := nodes;
      assert LinkedAt(before, i);
      if t.prev != null {
        t.prev.next := t.next;
      } else {
        head := t.next;
      }
      if t.next != null {
        t.next.prev := t.prev;
      } else {
        tail := t.prev;
      }
      nodes := RemoveAt(before, i);
      forall k | 0 <= k < |nodes|
        ensures LinkedAt(nodes, k)
      {
        var j := if k < i then k else k + 1;
        assert nodes[k] == before[j] && old(LinkedAt(nodes, j));
        assert j != i;
      }
    }

    /** Walks along the next links; every element comes up once, in order. */
    method Contains(t: Node) returns (found: bool, ghost i: nat)
      requires Valid()
      ensures found == (t in nodes) && (found ==> i < |nodes| && nodes[i] == t)
    {
      var a := head;
      i := 0;
      while a != null
        invariant i <= |nodes| && a == At(nodes, i)
        invariant forall k :: 0 <= k < i ==> nodes[k] != t
        decreases |nodes| - i
      {
        if a == t { return true, i; }
        assert LinkedAt(nodes, i);
        a := a.next;
        i := i + 1;
      }
      found := false;
    }

    /** erase(const T*): nothing happens when the element is not in the list. */
    method Remove(t: Node)
      requires Valid()
      modifies this, nodes
      ensures Valid()
      ensures if t in old(nodes) then exists i :: 0 <= i < |old(nodes)| && old(nodes)[i] == t && nodes == RemoveAt(old(nodes), i)
              else nodes == old(nodes)
    {
      var found, i := Contains(t);
      if found { Erase(t, i); }
    }

    method PopFront() returns (t: Node)
      requires Valid() && nodes != []
      modifies this, nodes
      ensures Valid() && t == old(nodes)[0] && nodes == old(nodes)[1..]
    {
      t := head;
      Erase(t, 0);
    }

    method PopBack() returns (t: Node)
      requires Valid() && nodes != []
      modifies this, nodes
      ensures Valid() && nodes + [t] == old(nodes)
    {
      t := tail;
      Erase(t, |nodes| - 1);
    }
  }

  /** No element is reached twice: positions and elements determine each other. */
  lemma {:induction false} WalkIsList(l: List, n: nat)
    requires l.Valid() && n <= |l.nodes|
    ensures Walk(l.head, n, l.nodes) == At(l.nodes, n)
  {
    if n > 0 {
      WalkIsList(l, n - 1);
      assert LinkedAt(l.nodes, n - 1);
    }
  }

  /** Following `n` next links from `a`, inside the given elements. */
  ghost function Walk(a: Node?, n: nat, within: seq<Node>): Node?
    reads within
  {
    if n == 0 then a
    else
      var b := Walk(a, n - 1, within);
      if b != null && b in within then b.next else null
  }
}
