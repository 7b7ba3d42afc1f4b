/**
 * A randomized queue over a resizable array.  `enqueue` appends (doubling
 * the array when it is full), `dequeue` removes the item at a random index
 * and moves the last item into the hole, `sample` reads the item at a random
 * index.
 *
 * The random index is the `choice` argument, in [0, size).  Slots beyond the
 * items hold `None`, Java's `null`; a null item passed in is also `None`.
 */
module RandomizedQueues {
  import opened Errors

  /** The growth factor of the storage. */
  const GrowthFactor := 2

  /**
   * The items after removing the one at index i by moving the last item into
   * its place.
   */
  function SwapRemove<T>(s: seq<T>, i: int): (r: seq<T>)
    requires 0 <= i < |s|
    ensures |r| == |s| - 1
    ensures forall k | 0 <= k < |r| && k != i :: r[k] == s[k]
    ensures i < |r| ==> r[i] == s[|s| - 1]
  {
    s[i := s[|s| - 1]][..|s| - 1]
  }

  /** Swap-removal takes out exactly the item at index i. */
  lemma SwapRemoveMultiset<T>(s: seq<T>, i: int)
    requires 0 <= i < |s|
    ensures multiset(SwapRemove(s, i)) + multiset{s[i]} == multiset(s)
  {
    var last := |s| - 1;
    if i == last {
      assert SwapRemove(s, i) == s[..last];
      assert s == s[..last] + [s[last]];
    } else {
      var front, middle := s[..i], s[i + 1..last];
      assert s == front + [s[i]] + middle + [s[last]];
      assert SwapRemove(s, i) == front + [s[last]] + middle;
    }
  }

  /** With at most `capacity` items and at least one slot, a quarter of the count is below the capacity. */
  lemma ShrinkConditionNeverHolds(count: int, capacity: int)
    requires 1 <= capacity && 0 <= count <= capacity
    ensures count / 4 < capacity
  {
  }

  class RandomizedQueue<T> {
    var storage: array<Option<T>>
    var capacity: int
    var count: int
    /** The items, in storage order. */
    ghost var Contents: seq<T>

    /**
     * The storage has `capacity` >= 1 slots; the first `count` of them hold
     * the items and the rest are empty.
     */
    ghost predicate Valid()
      reads this, storage
    {
      && 1 <= capacity == storage.Length
      && 0 <= count <= capacity
      && |Contents| == count
      && (forall i | 0 <= i < count :: storage[i] == Some(Contents[i]))
      && (forall i | count <= i < capacity :: storage[i] == None)
    }

    /** `new RandomizedQueue()`: one empty slot, no items. */
    constructor ()
      ensures Valid() && fresh(storage) && Contents == [] && capacity == 1
    {
      capacity := 1;
      count := 0;
      storage := new Option<T>[1](_ => None);
      Contents := [];
    }

    /** isEmpty(): no items. */
    method IsEmpty() returns (b: bool)
      requires Valid()
      ensures b <==> Contents == []
    {
      b := count == 0;
    }

    /** size(): the number of items. */
    method Size() returns (n: int)
      requires Valid()
      ensures n == |Contents|
    {
      n := count;
    }

    /**
     * enqueue(item): a null item fails and changes nothing; otherwise the
     * storage doubles when it is full and the item is appended.
     */
    method Enqueue(item: Option<T>) returns (o: Outcome)
      requires Valid()
      modifies this, storage
      ensures Valid()
      ensures item.None? ==> o == Fail(NullItem) && unchanged(this) && unchanged(storage)
      ensures item.Some? ==>
        && o == Pass
        && Contents == old(Contents) + [item.value]
        && capacity == if old(count) == old(capacity) then GrowthFactor * old(capacity) else old(capacity)
      ensures storage == old(storage) || fresh(storage)
    {
      if item.None? {
        return Fail(NullItem);
      }
      if count >= capacity {
        GrowStorage();
      }
      storage[count] := item;
      count := count + 1;
      Contents := Contents + [item.value];
      o := Pass;
    }

    /**
     * dequeue(): fails on an empty queue.  Otherwise returns the item at
     * index `choice`, moves the last item into its slot and empties the last
     * slot.  The capacity never shrinks: the shrink test is never true.
     */
    method Dequeue(choice: int) returns (r: Result<T>)
      requires Valid()
      requires Contents != [] ==> 0 <= choice < |Contents|
      modifies this, storage
      ensures Valid() && storage == old(storage) && capacity == old(capacity)
      ensures old(Contents) == [] ==> r == Failure(NoSuchElement) && unchanged(this) && unchanged(storage)
      ensures old(Contents) != [] ==>
        && r == Success(old(Contents)[choice])
        && Contents == SwapRemove(old(Contents), choice)
        && multiset(Contents) + multiset{r.value} == old(multiset(Contents))
    {
      if count == 0 {
        return Failure(NoSuchElement);
      }
      ShrinkConditionNeverHolds(count, capacity);
      if count / 4 >= capacity {
        assert false;
      }
      var lastIndex := count - 1;
      var item := storage[choice];
      var replacement := storage[lastIndex];
      storage[choice] := replacement;
      storage[lastIndex] := None;
      count := count - 1;
      SwapRemoveMultiset(Contents, choice);
      Contents := SwapRemove(Contents, choice);
      r := Success(item.value);
    }

    /** sample(): fails on an empty queue; otherwise returns the item at index `choice` and changes nothing. */
    method Sample(choice: int) returns (r: Result<T>)
      requires Valid()
      requires Contents != [] ==> 0 <= choice < |Contents|
      ensures Contents == [] ==> r == Failure(NoSuchElement)
      ensures Contents != [] ==> r == Success(Contents[choice]) && r.value in Contents
    {
      if count == 0 {
        return Failure(NoSuchElement);
      }
      var item := storage[choice];
      r := Success(item.value);
    }

    /** growQueueStorage: doubles the capacity, keeping the items. */
    method GrowStorage()
      requires Valid()
      modifies this
      ensures Valid() && fresh(storage) && Contents == old(Contents)
      ensures capacity == GrowthFactor * old(capacity)
    {
      ResizeStorage(capacity * GrowthFactor);
    }

    /**
     * shrinkQueueStorage: halves the capacity, rounding down, keeping the
     * slots that still fit.  Never called: see Dequeue.
     */
    method ShrinkStorage()
      requires 0 <= capacity <= storage.Length
      modifies this
      ensures fresh(storage) && capacity == old(capacity) / GrowthFactor
      ensures storage[..] == old(storage[..capacity / GrowthFactor])
      ensures count == old(count) && Contents == old(Contents)
    {
      ResizeStorage(capacity / GrowthFactor);
    }

    /**
     * resizeQueueStorage(newCapacity): a fresh array of that length whose
     * first min(capacity, newCapacity) slots are copied from the old one
     * and whose other slots are empty.
     */
    method ResizeStorage(newCapacity: int)
      requires 0 <= newCapacity && 0 <= capacity <= storage.Length
      modifies this
      ensures fresh(storage) && storage.Length == newCapacity && capacity == newCapacity
      ensures var kept := if old(capacity) > newCapacity then newCapacity else old(capacity);
        && storage[..kept] == old(storage[..kept])
        && forall i | kept <= i < newCapacity :: storage[i] == None
      ensures count == old(count) && Contents == old(Contents)
    {
      var newStorage := new Option<T>[newCapacity](_ => None);
      var kept := if capacity > newCapacity then newCapacity else capacity;
      var i := 0;
      while i < kept
        modifies newStorage
        invariant 0 <= i <= kept
        invariant forall j | 0 <= j < i :: newStorage[j] == storage[j]
        invariant forall j | kept <= j < newCapacity :: newStorage[j] == None
      {
        newStorage[i] := storage[i];
        i := i + 1;
      }
      storage := newStorage;
      capacity := newCapacity;
    }

    /** iterator(): the iterator over this queue. */
    method Iterator() returns (it: RandomizedQueueIterator<T>)
      ensures fresh(it) && it.queue == this
    {
      it := new RandomizedQueueIterator(this);
    }
  }

  /** The iterator: each `next()` is a `dequeue()` on the queue itself. */
  class RandomizedQueueIterator<T> {
    const queue: RandomizedQueue<T>

    constructor (q: RandomizedQueue<T>)
      ensures queue == q
    {
      queue := q;
    }

    /** hasNext(): the queue is not empty. */
    method HasNext() returns (b: bool)
      requires queue.Valid()
      ensures b <==> queue.Contents != []
    {
      b := queue.IsEmpty();
      b := !b;
    }

    /** next(): fails once the queue is empty; otherwise dequeues the item at index `choice`. */
    method Next(choice: int) returns (r: Result<T>)
      requires queue.Valid()
      requires queue.Contents != [] ==> 0 <= choice < |queue.Contents|
      modifies queue, queue.storage
      ensures queue.Valid() && queue.storage == old(queue.storage)
      ensures old(queue.Contents) == [] ==> r == Failure(NoSuchElement) && unchanged(queue) && unchanged(queue.storage)
      ensures old(queue.Contents) != [] ==>
        && r == Success(old(queue.Contents)[choice])
        && queue.Contents == SwapRemove(old(queue.Contents), choice)
        && multiset(queue.Contents) + multiset{r.value} == old(multiset(queue.Contents))
    {
      var more := HasNext();
      if !more {
        return Failure(NoSuchElement);
      }
      r := queue.Dequeue(choice);
    }

    /** remove(): not supported. */
    method Remove() returns (o: Outcome)
      ensures o == Fail(Unsupported)
    {
      o := Fail(Unsupported);
    }
  }

  /** choices[k] is a valid random index when k items have already been taken from n. */
  predicate ValidChoices(choices: seq<int>, n: int) {
    |choices| == n && forall k | 0 <= k < n :: 0 <= choices[k] < n - k
  }

  /**
   * A for-each loop over the queue, with the k-th random index choices[k]:
   * it yields every item exactly once and leaves the queue empty.
   */
  method IterateAll<T>(q: RandomizedQueue<T>, choices: seq<int>) returns (items: seq<T>)
    requires q.Valid() && ValidChoices(choices, |q.Contents|)
    modifies q, q.storage
    ensures q.Valid() && q.Contents == [] && q.storage == old(q.storage)
    ensures multiset(items) == old(multiset(q.Contents)) && |items| == old(|q.Contents|)
  {
    var it := q.Iterator();
    items := [];
    var more := it.HasNext();
    ghost var n := |q.Contents|;
    while more
      invariant q.Valid() && it.queue == q && q.storage == old(q.storage)
      invariant |items| + |q.Contents| == n
      invariant multiset(items) + multiset(q.Contents) == old(multiset(q.Contents))
      invariant more <==> q.Contents != []
      decreases |q.Contents|
    {
      var r := it.Next(choices[|items|]);
      items := items + [r.value];
      more := it.HasNext();
    }
  }

  /**
   * Enqueueing items one by one and then dequeueing until the queue is
   * empty, with the k-th random index choices[k], returns each item exactly
   * once.
   */
  method EnqueueThenDrain<T>(xs: seq<T>, choices: seq<int>) returns (ys: seq<T>)
    requires ValidChoices(choices, |xs|)
    ensures multiset(ys) == multiset(xs) && |ys| == |xs|
  {
    var q := new RandomizedQueue<T>();
    var i := 0;
    while i < |xs|
      invariant 0 <= i <= |xs|
      invariant q.Valid() && fresh(q.storage) && q.Contents == xs[..i]
    {
      var _ := q.Enqueue(Some(xs[i]));
      assert xs[..i + 1] == xs[..i] + [xs[i]];
      i := i + 1;
    }
    assert xs[..|xs|] == xs;
    ys := [];
    while |ys| < |xs|
      invariant q.Valid() && fresh(q.storage) && |ys| + |q.Contents| == |xs|
      invariant multiset(ys) + multiset(q.Contents) == multiset(xs)
    {
      var r := q.Dequeue(choices[|ys|]);
      ys := ys + [r.value];
    }
  }

  /**
   * A random-order iterator that draws from its own copy of the items, so
   * that iterating leaves the queue as it was.
   */
  class ShuffledIterator<T> {
    /** The items not yet returned. */
    var pending: seq<T>

    constructor (q: RandomizedQueue<T>)
      requires q.Valid()
      ensures pending == q.Contents
    {
      var items: seq<T> := [];
      var i := 0;
      while i < q.count
        invariant 0 <= i <= q.count && items == q.Contents[..i]
      {
        items := items + [q.storage[i].value];
        i := i + 1;
      }
      assert items == q.Contents;
      pending := items;
    }

    /** Some item is still to come. */
    method HasNext() returns (b: bool)
      ensures b <==> pending != []
    {
      b := pending != [];
    }

    /** Fails once every item was returned; otherwise returns and drops the pending item at index `choice`. */
    method Next(choice: int) returns (r: Result<T>)
      requires pending != [] ==> 0 <= choice < |pending|
      modifies this
      ensures old(pending) == [] ==> r == Failure(NoSuchElement) && pending == []
      ensures old(pending) != [] ==>
        && r == Success(old(pending)[choice])
        && pending == SwapRemove(old(pending), choice)
        && multiset(pending) + multiset{r.value} == old(multiset(pending))
    {
      if pending == [] {
        return Failure(NoSuchElement);
      }
      r := Success(pending[choice]);
      SwapRemoveMultiset(pending, choice);
      pending := SwapRemove(pending, choice);
    }
  }

  /**
   * A for-each loop with the shuffled iterator: it yields every item exactly
   * once and the queue keeps them all.
   */
  method IterateShuffled<T>(q: RandomizedQueue<T>, choices: seq<int>) returns (items: seq<T>)
    requires q.Valid() && ValidChoices(choices, |q.Contents|)
    ensures multiset(items) == multiset(q.Contents) && |items| == |q.Contents|
  {
    var it := new ShuffledIterator(q);
    items := [];
    var more := it.HasNext();
    while more
      invariant |items| + |it.pending| == |q.Contents|
      invariant multiset(items) + multiset(it.pending) == multiset(q.Contents)
      invariant more <==> it.pending != []
      decreases |it.pending|
    {
      var r := it.Next(choices[|items|]);
      items := items + [r.value];
      more := it.HasNext();
    }
  }

  /**
   * The call sequence of RandomizedQueue's `main`, with the random indices
   * as arguments: the loop returns the five items left after two dequeues
   * and empties the queue, so the final dequeue fails.
   */
  method MainAsWritten(c1: int, c2: int, loopChoices: seq<int>, c3: int)
    returns (first: Result<int>, second: Result<int>, items: seq<int>, final: Result<int>)
    requires 0 <= c1 < 3 && 0 <= c2 < 5 && ValidChoices(loopChoices, 5)
    ensures first.Success? && first.value in {10, 11, 12} && second.Success? && |items| == 5
    ensures final == Failure(NoSuchElement)
  {
    var q, contents := MainPrefix(c1, c2);
    first, second := contents.0, contents.1;
    items := IterateAll(q, loopChoices);
    final := q.Dequeue(c3);
  }

  /**
   * The same call sequence with the shuffled iterator: the loop returns the
   * five items without removing them, so the final dequeue returns one.
   */
  method MainWithShuffledIterator(c1: int, c2: int, loopChoices: seq<int>, c3: int)
    returns (first: Result<int>, second: Result<int>, items: seq<int>, final: Result<int>)
    requires 0 <= c1 < 3 && 0 <= c2 < 5 && ValidChoices(loopChoices, 5) && 0 <= c3 < 5
    ensures first.Success? && first.value in {10, 11, 12} && second.Success? && |items| == 5
    ensures final.Success? && final.value in items
  {
    var q, contents := MainPrefix(c1, c2);
    first, second := contents.0, contents.1;
    items := IterateShuffled(q, loopChoices);
    final := q.Dequeue(c3);
    assert final.value in multiset(items);
  }

  /** The first calls of `main`: three enqueues and a dequeue, which returns one of the three. */
  method MainFirstRound(c1: int) returns (q: RandomizedQueue<int>, a: Result<int>)
    requires 0 <= c1 < 3
    ensures fresh(q) && fresh(q.storage) && q.Valid() && |q.Contents| == 2
    ensures a.Success? && a.value in {10, 11, 12}
  {
    q := new RandomizedQueue<int>();
    var _ := q.Enqueue(Some(10));
    var _ := q.Enqueue(Some(11));
    var _ := q.Enqueue(Some(12));
    assert q.Contents == [10, 11, 12];
    a := q.Dequeue(c1);
  }

  /**
   * The calls of `main` before its loop: seven enqueues and two dequeues
   * leave five items.
   */
  method MainPrefix(c1: int, c2: int) returns (q: RandomizedQueue<int>, removed: (Result<int>, Result<int>))
    requires 0 <= c1 < 3 && 0 <= c2 < 5
    ensures fresh(q) && fresh(q.storage) && q.Valid() && |q.Contents| == 5
    ensures removed.0.Success? && removed.0.value in {10, 11, 12} && removed.1.Success?
  {
    var a;
    q, a := MainFirstRound(c1);
    var _ := q.Enqueue(Some(13));
    var _ := q.Enqueue(Some(14));
    var _ := q.Enqueue(Some(15));
    var b := q.Dequeue(c2);
    var _ := q.Enqueue(Some(16));
    removed := (a, b);
  }
}
