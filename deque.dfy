/**
 * A double-ended queue over a doubly linked chain of nodes.
 *
 * The chain is described by the ghost sequence `Nodes` (front to back) and
 * the items it holds by the ghost sequence `Contents`.  Java's `null` item is
 * the `None` argument; the exceptions are `Fail`/`Failure` results.
 */
module Deques {
  import opened Errors

  /** A link of the chain: an item and the links to its two neighbours. */
  class Node<T> {
    var item: T
    var next: Node?<T>
    var prev: Node?<T>

    constructor (item: T, next: Node?<T>, prev: Node?<T>)
      ensures this.item == item && this.next == next && this.prev == prev
    {
      this.item := item;
      this.next := next;
      this.prev := prev;
    }
  }

  class Deque<T> {
    var first: Node?<T>
    var last: Node?<T>
    var count: int
    /** The items, front to back. */
    ghost var Contents: seq<T>
    /** The nodes of the chain, front to back. */
    ghost var Nodes: seq<Node<T>>
    /** Every node this deque has allocated; the chain is among them. */
    ghost var Repr: set<object>

    /**
     * `count` is the number of nodes; `first`/`last` are the ends of the
     * chain, both null exactly when it is empty; each node's `next` is the
     * node after it and its `prev` the node before it; the nodes are
     * distinct and hold the contents in order.
     */
    ghost predicate Valid()
      reads this, Repr
    {
      && |Nodes| == |Contents| == count
      && (forall i | 0 <= i < |Nodes| :: Nodes[i] in Repr)
      && (forall i, j | 0 <= i < j < |Nodes| :: Nodes[i] != Nodes[j])
      && (count == 0 ==> first == null && last == null)
      && (count > 0 ==> first == Nodes[0] && last == Nodes[count - 1])
      && (forall i | 0 <= i < |Nodes| :: Nodes[i].item == Contents[i])
      && (count > 0 ==> first.prev == null && last.next == null)
      && (forall i | 0 <= i < |Nodes| - 1 :: Nodes[i].next == Nodes[i + 1])
      && (forall i | 0 < i < |Nodes| :: Nodes[i].prev == Nodes[i - 1])
    }

    /** `new Deque()`: an empty deque. */
    constructor ()
      ensures Valid() && Contents == [] && Nodes == [] && Repr == {}
    {
      first := null;
      last := null;
      count := 0;
      Contents := [];
      Nodes := [];
      Repr := {};
    }

    /** isEmpty(): there is no first node, which is the case exactly when the deque holds nothing. */
    method IsEmpty() returns (b: bool)
      requires Valid()
      ensures b <==> Contents == []
    {
      b := first == null;
    }

    /** size(): the number of items. */
    method Size() returns (n: int)
      requires Valid()
      ensures n == |Contents|
    {
      n := count;
    }

    /** addFirst(item): a null item fails and changes nothing; otherwise the item goes in front. */
    method AddFirst(item: Option<T>) returns (o: Outcome)
      requires Valid()
      modifies this, Repr
      ensures Valid()
      ensures item.None? ==> o == Fail(NullItem) && unchanged(this) && unchanged(Repr)
      ensures item.Some? ==> o == Pass && Contents == [item.value] + old(Contents) && |Nodes| == old(|Nodes|) + 1
      ensures fresh(Repr - old(Repr))
    {
      if item.None? {
        return Fail(NullItem);
      }
      ghost var nodes0 := Nodes;
      var newNode := new Node(item.value, first, null);
      if first != null {
        first.prev := newNode;
      } else {
        last := newNode;
      }
      first := newNode;
      count := count + 1;
      Contents := [item.value] + Contents;
      Nodes := [newNode] + Nodes;
      Repr := Repr + {newNode};
      forall i | 1 <= i < |Nodes|
        ensures Nodes[i].item == Contents[i]
        ensures i < |Nodes| - 1 ==> Nodes[i].next == Nodes[i + 1]
        ensures Nodes[i].prev == Nodes[i - 1]
      {
        var n := nodes0[i - 1];
        assert Nodes[i] == n && n != newNode;
        assert n.item == old(n.item) && n.next == old(n.next);
        if i > 1 {
          assert n != nodes0[0];
          assert n.prev == old(n.prev);
        }
      }
      o := Pass;
    }

    /** addLast(item): a null item fails and changes nothing; otherwise the item goes at the back. */
    method AddLast(item: Option<T>) returns (o: Outcome)
      requires Valid()
      modifies this, Repr
      ensures Valid()
      ensures item.None? ==> o == Fail(NullItem) && unchanged(this) && unchanged(Repr)
      ensures item.Some? ==> o == Pass && Contents == old(Contents) + [item.value] && |Nodes| == old(|Nodes|) + 1
      ensures fresh(Repr - old(Repr))
    {
      if item.None? {
        return Fail(NullItem);
      }
      ghost var nodes0 := Nodes;
      var newNode := new Node(item.value, null, last);
      if last != null {
        last.next := newNode;
      } else {
        first := newNode;
      }
      last := newNode;
      count := count + 1;
      Contents := Contents + [item.value];
      Nodes := Nodes + [newNode];
      Repr := Repr + {newNode};
      forall i | 0 <= i < |Nodes| - 1
        ensures Nodes[i].item == Contents[i]
        ensures Nodes[i].next == Nodes[i + 1]
        ensures i > 0 ==> Nodes[i].prev == Nodes[i - 1]
      {
        var n := nodes0[i];
        assert Nodes[i] == n && n != newNode;
        assert n.item == old(n.item) && n.prev == old(n.prev);
        if i < |nodes0| - 1 {
          assert n != nodes0[|nodes0| - 1];
          assert n.next == old(n.next);
        }
      }
      o := Pass;
    }

    /** removeFirst(): fails on an empty deque; otherwise takes the front item off and returns it. */
    method RemoveFirst() returns (r: Result<T>)
      requires Valid()
      modifies this, Repr
      ensures Valid()
      ensures old(Contents) == [] ==> r == Failure(NoSuchElement) && unchanged(this) && unchanged(Repr)
      ensures old(Contents) != [] ==> r == Success(old(Contents)[0]) && Contents == old(Contents)[1..]
      ensures Repr == old(Repr)
    {
      if first == null {
        return Failure(NoSuchElement);
      }
      var oldFirst := first;
      var newFirst := first.next;
      assert newFirst == if count > 1 then Nodes[1] else null;
      if newFirst != null {
        newFirst.prev := null;
      } else {
        first := null;
        last := null;
      }
      first := newFirst;
      count := count - 1;
      r := Success(oldFirst.item);
      Contents := Contents[1..];
      Nodes := Nodes[1..];
    }

    /** removeLast(): fails on an empty deque; otherwise takes the back item off and returns it. */
    method RemoveLast() returns (r: Result<T>)
      requires Valid()
      modifies this, Repr
      ensures Valid()
      ensures old(Contents) == [] ==> r == Failure(NoSuchElement) && unchanged(this) && unchanged(Repr)
      ensures old(Contents) != [] ==>
        r == Success(old(Contents)[|old(Contents)| - 1]) && Contents == old(Contents)[..|old(Contents)| - 1]
      ensures Repr == old(Repr)
    {
      if first == null {
        return Failure(NoSuchElement);
      }
      var oldLast := last;
      var newLast := last.prev;
      assert newLast == if count > 1 then Nodes[count - 2] else null;
      if newLast != null {
        newLast.next := null;
      } else {
        first := null;
        last := null;
      }
      last := newLast;
      count := count - 1;
      r := Success(oldLast.item);
      Contents := Contents[..count];
      Nodes := Nodes[..count];
    }

    /** iterator(): a front-to-back iterator positioned before the first item. */
    method Iterator() returns (it: DequeIterator<T>)
      requires Valid()
      ensures fresh(it) && it.Valid() && it.deque == this && it.Position == 0
    {
      it := new DequeIterator(this);
    }
  }

  /**
   * The front-to-back iterator.  `Position` counts the items already
   * returned; `current` is the node holding the next one.
   */
  class DequeIterator<T> {
    var current: Node?<T>
    ghost const deque: Deque<T>
    ghost var Position: nat

    ghost predicate Valid()
      reads this, deque, deque.Repr
    {
      && deque.Valid()
      && Position <= |deque.Nodes|
      && current == if Position < |deque.Nodes| then deque.Nodes[Position] else null
    }

    constructor (d: Deque<T>)
      requires d.Valid()
      ensures Valid() && deque == d && Position == 0
    {
      deque := d;
      current := d.first;
      Position := 0;
    }

    /** hasNext(): some item is still to come. */
    method HasNext() returns (b: bool)
      requires Valid()
      ensures b <==> Position < |deque.Contents|
    {
      b := current != null;
    }

    /**
     * next(): past the end, fails and changes nothing; otherwise returns the
     * item at the current position and moves one step towards the back.
     * The deque itself is never changed.
     */
    method Next() returns (r: Result<T>)
      requires Valid()
      modifies this
      ensures Valid()
      ensures old(Position) == |deque.Contents| ==> r == Failure(NoSuchElement) && Position == old(Position)
      ensures old(Position) < |deque.Contents| ==>
        r == Success(deque.Contents[old(Position)]) && Position == old(Position) + 1
    {
      if current == null {
        return Failure(NoSuchElement);
      }
      assert current == deque.Nodes[Position];
      r := Success(current.item);
      current := current.next;
      Position := Position + 1;
    }

    /** remove(): not supported. */
    method Remove() returns (o: Outcome)
      ensures o == Fail(Unsupported)
    {
      o := Fail(Unsupported);
    }
  }

  /** A for-each loop over the deque: it yields the contents front to back and leaves the deque as it was. */
  method Elements<T>(d: Deque<T>) returns (items: seq<T>)
    requires d.Valid()
    ensures items == d.Contents
  {
    var it := d.Iterator();
    items := [];
    var more := it.HasNext();
    while more
      invariant it.Valid() && it.deque == d
      invariant items == d.Contents[..it.Position]
      invariant more <==> it.Position < |d.Contents|
      decreases |d.Contents| - it.Position
    {
      var r := it.Next();
      items := items + [r.value];
      more := it.HasNext();
    }
  }

  /** The call sequence of Deque's `main`. */
  method Demo() returns (removedLast: Result<int>, removedFirst: Result<int>, items: seq<int>)
    ensures removedLast == Success(10) && removedFirst == Success(11) && items == [7, 9, 8]
  {
    var d := new Deque<int>();
    var _ := d.AddFirst(Some(10));
    removedLast := d.RemoveLast();
    var _ := d.AddFirst(Some(11));
    removedFirst := d.RemoveFirst();
    var _ := d.AddLast(Some(9));
    var _ := d.AddLast(Some(8));
    var _ := d.AddFirst(Some(7));
    items := Elements(d);
  }
}
