/** wepoll's intrusive circular queue: the head and the enqueued nodes form a ring of pointers. */
module WepollQueue {

  class QueueNode {
    var prev: QueueNode
    var next: QueueNode

    /** queue_node_init: a node that is in no queue is a ring of its own. */
    constructor ()
      ensures Ring([this])
    {
      prev := this;
      next := this;
    }
  }

  function Succ(i: nat, n: nat): nat { if i + 1 == n then 0 else i + 1 }

  /** The nodes of s, each once, point to each other in a circle. */
  ghost predicate Ring(s: seq<QueueNode>)
    reads s
  {
    && s != []
    && (forall i, j :: 0 <= i < j < |s| ==> s[i] != s[j])
    && (forall i :: 0 <= i < |s| ==> s[i].next == s[Succ(i, |s|)] && s[Succ(i, |s|)].prev == s[i])
  }

  lemma RingEnds(s: seq<QueueNode>)
    requires Ring(s)
    ensures s[0].prev == s[|s| - 1] && s[|s| - 1].next == s[0]
    ensures forall i :: 0 < i < |s| ==> s[i].prev == s[i - 1]
  {
    assert Succ(|s| - 1, |s|) == 0;
    forall i | 0 < i < |s| ensures s[i].prev == s[i - 1] {
      assert Succ(i - 1, |s|) == i;
    }
  }

  ghost predicate Enqueued(s: seq<QueueNode>) { |s| > 1 }

  /** queue_is_enqueued. */
  method IsEnqueued(node: QueueNode, ghost ring: seq<QueueNode>) returns (r: bool)
    requires Ring(ring) && node in ring
    ensures r <==> Enqueued(ring)
  {
    RingEnds(ring);
    ghost var k :| 0 <= k < |ring| && ring[k] == node;
    ghost var before := if k == 0 then |ring| - 1 else k - 1;
    assert node.prev == ring[before];
    assert before != k ==> ring[before] != ring[k];
    r := node.prev != node;
  }

  /** A ring whose pointers lead past the node at position k. */
  lemma RingDropped(s: seq<QueueNode>, k: nat)
    requires 0 < k < |s| && (forall i, j :: 0 <= i < j < |s| ==> s[i] != s[j])
    requires forall i :: 0 <= i < |s| && i != k && i != k - 1 ==> s[i].next == s[Succ(i, |s|)] && s[Succ(i, |s|)].prev == s[i]
    requires s[k - 1].next == s[Succ(k, |s|)] && s[Succ(k, |s|)].prev == s[k - 1]
    ensures Ring(s[..k] + s[k + 1..])
  {
    var t := s[..k] + s[k + 1..];
    assert forall i :: 0 <= i < |t| ==> t[i] == if i < k then s[i] else s[i + 1];
    forall i | 0 <= i < |t| ensures t[i].next == t[Succ(i, |t|)] && t[Succ(i, |t|)].prev == t[i] {
      if i < k - 1 {
        assert t[Succ(i, |t|)] == s[Succ(i, |s|)];
      } else if i == k - 1 {
        assert t[Succ(i, |t|)] == s[Succ(k, |s|)];
      } else {
        assert t[Succ(i, |t|)] == s[Succ(i + 1, |s|)];
      }
    }
  }

  /** queue__detach_node: the neighbours close the gap; the node keeps its stale pointers. */
  method DetachNode(node: QueueNode, ghost ring: seq<QueueNode>, ghost k: nat)
    requires Ring(ring) && 0 < k < |ring| && node == ring[k]
    modifies ring
    ensures Ring(ring[..k] + ring[k + 1..])
  {
    RingEnds(ring);
    assert node.prev == ring[k - 1] && node.next == ring[Succ(k, |ring|)];
    node.prev.next := node.next;
    node.next.prev := node.prev;
    RingDropped(ring, k);
  }

  ghost function Inserted(s: seq<QueueNode>, k: nat, node: QueueNode): seq<QueueNode>
    requires k < |s|
  {
    s[..k + 1] + [node] + s[k + 1..]
  }

  lemma InsertedAt(s: seq<QueueNode>, k: nat, node: QueueNode)
    requires k < |s| && node !in s && (forall i, j :: 0 <= i < j < |s| ==> s[i] != s[j])
    ensures var t := Inserted(s, k, node);
            && (forall i :: 0 <= i < |t| ==> t[i] == if i <= k then s[i] else if i == k + 1 then node else s[i - 1])
            && (forall i, j :: 0 <= i < j < |t| ==> t[i] != t[j])
  {
  }

  /** A ring whose pointers lead through a new node after position k. */
  lemma RingInserted(s: seq<QueueNode>, k: nat, node: QueueNode)
    requires k < |s| && node !in s && (forall i, j :: 0 <= i < j < |s| ==> s[i] != s[j])
    requires forall i :: 0 <= i < |s| && i != k ==> s[i].next == s[Succ(i, |s|)] && s[Succ(i, |s|)].prev == s[i]
    requires s[k].next == node && node.prev == s[k] && node.next == s[Succ(k, |s|)] && s[Succ(k, |s|)].prev == node
    ensures Ring(Inserted(s, k, node))
  {
    var t := Inserted(s, k, node);
    InsertedAt(s, k, node);
    forall i | 0 <= i < |t| ensures t[i].next == t[Succ(i, |t|)] && t[Succ(i, |t|)].prev == t[i] {
      if i < k {
        assert t[Succ(i, |t|)] == s[Succ(i, |s|)];
      } else if i > k + 1 {
        assert t[Succ(i, |t|)] == s[Succ(i - 1, |s|)];
      }
    }
  }

  lemma NotInRest(s: seq<QueueNode>, k: nat)
    requires Ring(s) && k < |s|
    ensures s[k] !in s[..k] + s[k + 1..]
  {
  }

  class Queue {
    const head: QueueNode
    ghost var items: seq<QueueNode>

    ghost predicate Valid()
      reads this, head, items
    {
      Ring([head] + items)
    }

    constructor ()
      ensures Valid() && items == [] && fresh(head)
    {
      var node := new QueueNode();
      head := node;
      items := [];
      new;
      assert [head] + items == [head];
    }

    method IsEmpty() returns (r: bool)
      requires Valid()
      ensures r <==> items == []
    {
      var b := IsEnqueued(head, [head] + items);
      r := !b;
    }

    method First() returns (node: QueueNode?)
      requires Valid()
      ensures node == if items == [] then null else items[0]
    {
      RingEnds([head] + items);
      var empty := IsEmpty();
      if empty {
        return null;
      }
      assert ([head] + items)[1] == items[0];
      node := head.next;
    }

    method Last() returns (node: QueueNode?)
      requires Valid()
      ensures node == if items == [] then null else items[|items| - 1]
    {
      RingEnds([head] + items);
      var empty := IsEmpty();
      if empty {
        return null;
      }
      node := head.prev;
    }

    method Prepend(node: QueueNode)
      requires Valid() && node != head && node !in items
      modifies this`items, head, items, node
      ensures Valid() && items == [node] + old(items)
    {
      ghost var ring := [head] + items;
      RingEnds(ring);
      assert Succ(0, |ring|) == if |items| == 0 then 0 else 1;
      node.next := head.next;
      node.prev := head;
      node.next.prev := node;
      head.next := node;
      items := [node] + items;
      RingInserted(ring, 0, node);
      assert Inserted(ring, 0, node) == [head] + items;
    }

    method Append(node: QueueNode)
      requires Valid() && node != head && node !in items
      modifies this`items, head, items, node
      ensures Valid() && items == old(items) + [node]
    {
      ghost var ring := [head] + items;
      RingEnds(ring);
      node.next := head;
      node.prev := head.prev;
      node.prev.next := node;
      head.prev := node;
      items := items + [node];
      RingInserted(ring, |ring| - 1, node);
      assert Inserted(ring, |ring| - 1, node) == [head] + items;
    }

    /** The queue without its node at position k. */
    method Detach(node: QueueNode, ghost k: nat)
      requires Valid() && k < |items| && node == items[k]
      modifies this`items, head, items
      ensures Valid() && items == old(items[..k] + items[k + 1..]) && node !in items && node != head
    {
      hide Ring;
      ghost var ring := [head] + items;
      assert ring[k + 1] == node && ring[..k + 1] + ring[k + 2..] == [head] + (items[..k] + items[k + 1..]);
      NotInRest(ring, k + 1);
      DetachNode(node, ring, k + 1);
      items := items[..k] + items[k + 1..];
    }

    /** queue_remove: the node becomes a ring of its own again. */
    method Remove(node: QueueNode, ghost k: nat)
      requires Valid() && k < |items| && node == items[k]
      modifies this`items, head, items
      ensures Valid() && items == old(items[..k] + items[k + 1..]) && Ring([node])
    {
      Detach(node, k);
      node.prev := node;
      node.next := node;
    }

    method MoveToStart(node: QueueNode, ghost k: nat)
      requires Valid() && k < |items| && node == items[k]
      modifies this`items, head, items
      ensures Valid() && items == [node] + old(items[..k] + items[k + 1..])
    {
      Detach(node, k);
      Prepend(node);
    }

    method MoveToEnd(node: QueueNode, ghost k: nat)
      requires Valid() && k < |items| && node == items[k]
      modifies this`items, head, items
      ensures Valid() && items == old(items[..k] + items[k + 1..]) + [node]
    {
      Detach(node, k);
      Append(node);
    }
  }
}
