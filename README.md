# Percolation, Deque and RandomizedQueue in Dafny

This project models three sequential data structures and proves properties of them.

**Percolation** is an n-by-n grid of sites, each open or closed. Its state is:
- an open-status table;
- a counter of open sites;
- a union-find structure over n*n + 2 ids. Site (r, c) has id (r - 1) * n + (c - 1); the virtual top is id 0, which it shares with site (1, 1); the virtual bottom is id n*n; id n*n + 1 is allocated but never used.

`open(row, col)` takes 1-based coordinates and opens a closed site. It joins the site to:
- the virtual top, when the site is in the first row;
- the virtual bottom, when it is in the last row;
- every open neighbour.

`isFull` asks whether an open site is connected to the virtual top. `percolates` asks whether the virtual top is connected to the virtual bottom.

**Deque** is a double-ended queue over a doubly linked chain of nodes, with a front-to-back iterator.

**RandomizedQueue** is a resizable array of items:
- `enqueue` appends an item and doubles the array when it is full;
- `dequeue` removes the item at a random index and moves the last item into its slot;
- `sample` reads the item at a random index;
- its iterator dequeues as it goes.

Modules and files:

| module | file | what it holds |
|---|---|---|
| `Errors` | `errors.dfy` | The error conditions. `IllegalArgumentException`, `NoSuchElementException` and `UnsupportedOperationException` become `Failure`/`Fail` values. |
| `UnionFind` | `union_find.dfy` | The connectivity structure: a quick-find class `QuickFindUF`. It is specified by the graph whose edges are the unions performed so far: two ids are connected exactly when a path of unions joins them (`Reach`). |
| `PercolationGrid` | `percolation_grid.dfy` | The id layout (`SiteId`, `VirtualTop`, `VirtualBottom`), coordinate validation, and `Flow`, the graph of links the open sites induce. It also holds the proof that opening a site keeps the recorded unions equal, up to direction, to the links of `Flow`. |
| `Percolations` | `percolation.dfy` | The `Percolation` class: a `bool` table, the counter, and a `QuickFindUF`. |
| `PercolationProperties` | `percolation_properties.dfy` | What the answers mean for the grid: connections only grow, open paths make sites full, backwash, and the id collision. |
| `Deques` | `deque.dfy` | `Node`, `Deque` and `DequeIterator`. The chain is tied to a ghost sequence of nodes and a ghost sequence of items. |
| `RandomizedQueues` | `randomized_queue.dfy` | `RandomizedQueue` over an `array<Option<T>>` (`None` is Java's `null`), its draining iterator, and a non-destructive `ShuffledIterator`. |

Modelling conventions:
- A null item argument is `None`.
- A thrown exception is a `Failure(e)` or `Fail(e)` result, and the state is then unchanged.
- The random index that `StdRandom.uniform(0, count)` would draw is a `choice` argument, required to lie in `[0, count)`.

Properties proved:
- **Percolation**
  - `isFull(row, col)` holds exactly when the site is open and its id reaches id 0 in `Flow`. `percolates()` holds exactly when id 0 reaches id n*n in `Flow`.
  - Open paths from the first row make a site full.
  - Backwash: once the grid percolates, every open last-row site is full. A 3-by-3 example shows a full site that no open path from the first row reaches.
  - Site (1, 1) shares id 0 with the virtual top, so a closed (1, 1) can be connected to an open site. `isFull` is only right because it checks openness first.
- **Deque**: the chain invariant, the exact new contents after each operation, and iteration that yields the contents in order without changing the deque.
- **RandomizedQueue**
  - The array invariant.
  - The dead shrink branch, so the capacity never decreases.
  - A dequeue removes exactly the returned item from the multiset of contents.
  - A full iteration returns every item exactly once and leaves the queue empty.

## Model

| member | source | states |
|---|---|---|
| UnionFind.QuickFindUF.constructor | Percolation/src/Percolation.java:28-29 | A structure over n ids in which each id is connected only to itself. |
| UnionFind.QuickFindUF.Union | Percolation/src/Percolation.java:103 | Records the union of p and q. Afterwards two ids are connected exactly when they were before, or one was with p and the other with q. The invariant "same label iff a chain of unions joins them" is kept. |
| UnionFind.QuickFindUF.Connected | Percolation/src/Percolation.java:130-132 | The answer is true exactly when a chain of recorded unions joins p and q. |
| PercolationGrid.ValidateCoordinates | Percolation/src/Percolation.java:160-173 | Passes exactly when 1 <= row <= n and 1 <= col <= n. Otherwise it is an illegal-argument failure, and the row is checked before the column. |
| PercolationGrid.SiteIdInRange | Percolation/src/Percolation.java:153-158 | The id n*row + col of a 0-based site lies in [0, n*n), below the virtual bottom id and the universe size n*n + 2. |
| PercolationGrid.SiteId | Percolation/src/Percolation.java:153-158 | For a site inside the grid the id is row-major: dividing it by n gives back the row, and the remainder is the column. |
| PercolationGrid.RowMajorDivMod | Percolation/src/Percolation.java:153-158 | n * row + col with col in [0, n) has quotient row and remainder col by n. |
| PercolationGrid.SiteIdInjective | Percolation/src/Percolation.java:153-158 | Two 0-based sites in the grid have the same id exactly when they are the same site. |
| PercolationGrid.VirtualIdsInRange | Percolation/src/Percolation.java:20-29 | For n > 0 the virtual top id 0 is below the virtual bottom id n*n, which is below the universe size n*n + 2. |
| PercolationGrid.FlowInUniverse | Percolation/src/Percolation.java:28 | Every link of the open sites joins two ids in [0, n*n + 2). |
| PercolationGrid.FlowAfterOpening | Percolation/src/Percolation.java:51-66 | Opening a closed site keeps every old link. It adds the link to the virtual top (first row), to the virtual bottom (last row) and to each open neighbour. |
| PercolationGrid.FlowEdgeAfterOpening | Percolation/src/Percolation.java:51-66 | Every link after opening a site is an old link or one of the links that opening adds. |
| PercolationGrid.NeighbourUnionsInFlow | Percolation/src/Percolation.java:69-93 | The unions with open neighbours are links of the open sites. |
| PercolationGrid.AdjacentCases | Percolation/src/Percolation.java:73-91 | A grid neighbour of a site is one of the four sites the four guarded calls visit. |
| PercolationGrid.NeighbourUnionsByDirection | Percolation/src/Percolation.java:73-91 | For a site in the grid, the unions with all its open neighbours equal the unions the four guarded calls make, each present only when that neighbour is inside the grid and open. |
| PercolationGrid.OpeningKeepsFlowInvariant | Percolation/src/Percolation.java:32-67 | If the unions join exactly what the links join, that still holds after opening a closed site with its virtual and neighbour unions. |
| Percolations.Percolation.constructor | Percolation/src/Percolation.java:14-30 | For n > 0: every site closed, zero open sites, the virtual ids at 0 and n*n, and n*n + 2 ids each connected only to itself. |
| Percolations.NewPercolation | Percolation/src/Percolation.java:14-18 | n <= 0 is an illegal-argument failure. Otherwise a valid grid of dimension n with no open sites. |
| Percolations.Percolation.UnionsAreFlow | Percolation/src/Percolation.java:32-67 | When the recorded unions are, up to direction, the links of the open sites (part of the invariant), the union-find joins two ids exactly when those links do. |
| Percolations.Percolation.IsOpen | Percolation/src/Percolation.java:106-116 | Fails like the coordinate check on bad input. Otherwise reports whether the 0-based site (row - 1, col - 1) is open. |
| Percolations.Percolation.IsFull | Percolation/src/Percolation.java:118-136 | Fails like the coordinate check on bad input. Otherwise true exactly when the site is open and its id reaches the virtual top. |
| Percolations.Percolation.ConnectedToTop | Percolation/src/Percolation.java:127-133 | The union-find answer for an in-grid site is true exactly when its id reaches the virtual top through the links of the open sites. |
| Percolations.Percolation.NumberOfOpenSites | Percolation/src/Percolation.java:138-141 | The result is the number of open sites. |
| Percolations.Percolation.Percolates | Percolation/src/Percolation.java:143-151 | True exactly when the virtual top reaches the virtual bottom. |
| Percolations.Percolation.ConnectSites | Percolation/src/Percolation.java:95-104 | Adds the union of the given id with the site when that site is open, and nothing otherwise. |
| Percolations.Percolation.JoinWithAdjacentSites | Percolation/src/Percolation.java:69-93 | Adds exactly the unions of the site with its open neighbours. |
| Percolations.Percolation.MarkOpen | Percolation/src/Percolation.java:63-65 | Marks the closed site open in the table, leaves every other cell, and adds one to the counter. |
| Percolations.Percolation.JoinWithVirtualSites | Percolation/src/Percolation.java:51-61 | Adds exactly the union with the virtual top for a first-row site and with the virtual bottom for a last-row site, and leaves the table. |
| Percolations.Percolation.OpenClosedSite | Percolation/src/Percolation.java:46-66 | A closed site becomes open, is counted once, and gains exactly the virtual and neighbour unions. The invariant is kept. |
| Percolations.Percolation.Open | Percolation/src/Percolation.java:32-67 | Bad coordinates fail and an open site is left, both with no change. A closed site becomes open, is counted once, and gains exactly the virtual and neighbour unions. The invariant is kept. |
| PercolationProperties.ConnectionsOnlyGrow | Percolation/src/Percolation.java:32-67 | Opening more sites never disconnects two ids. |
| PercolationProperties.OpenedSiteConnections | Percolation/src/Percolation.java:51-66 | A newly opened site reaches the virtual top (first row), the virtual bottom (last row) and each neighbour that was open. |
| PercolationProperties.OpenPathIsFull | Percolation/src/Percolation.java:118-136 | The last site of a chain of open neighbours starting in the first row reaches the virtual top. |
| PercolationProperties.BottomSitesFullOncePercolating | Percolation/src/Percolation.java:57-61 | Backwash: once the grid percolates, every open last-row site reaches the virtual top. |
| PercolationProperties.BackwashExamplePercolates | Percolation/src/Percolation.java:143-151 | The 3-by-3 grid with the left column and the corner (3, 3) open percolates. |
| PercolationProperties.BackwashExampleFull | Percolation/src/Percolation.java:118-136 | In that grid the corner (3, 3) is full. |
| PercolationProperties.BackwashExampleNoOpenPath | Percolation/src/Percolation.java:118-136 | In that grid no chain of open neighbours from the first row ends at the corner. |
| PercolationProperties.FreshGridDoesNotPercolate | Percolation/src/Percolation.java:143-151 | With no open site, the virtual top does not reach the virtual bottom. |
| PercolationProperties.SingleSitePercolates | Percolation/src/Percolation.java:175-181 | In the 1-by-1 grid with its site open, the grid percolates and the site is full. |
| PercolationProperties.CollisionExample | Percolation/src/Percolation.java:22 | In the 2-by-2 grid with only (1, 2) open, the closed site (1, 1) is connected to it through the shared id 0. |
| PercolationProperties.ClosedSitesUntouched | Percolation/src/Percolation.java:95-104 | A closed site other than (1, 1) is on no link, and the id n*n + 1 never is. |
| PercolationProperties.SingleSiteDemo | Percolation/src/Percolation.java:175-181 | Opening the only site of a 1-by-1 grid passes, the grid percolates and the site is full. |
| PercolationProperties.CollisionDemo | Percolation/src/Percolation.java:118-136 | In a 2-by-2 grid with only (1, 2) opened, `open` passes and isFull(1, 1) is false, although (1, 1) shares id 0 with the virtual top. |
| Deques.Node.constructor | Permutation/src/Deque.java:14-19 | A node holding the item and the two given links. |
| Deques.Deque.constructor | Permutation/src/Deque.java:50-55 | An empty deque with both ends null. |
| Deques.Deque.IsEmpty | Permutation/src/Deque.java:59-62 | True exactly when the deque holds no item. |
| Deques.Deque.Size | Permutation/src/Deque.java:64-67 | The number of items. |
| Deques.Deque.AddFirst | Permutation/src/Deque.java:69-88 | A null item fails with no change. Otherwise the contents become the item followed by the old contents, with one more node. The chain invariant is kept. |
| Deques.Deque.AddLast | Permutation/src/Deque.java:90-109 | A null item fails with no change. Otherwise the contents become the old contents followed by the item, with one more node. The chain invariant is kept. |
| Deques.Deque.RemoveFirst | Permutation/src/Deque.java:111-135 | An empty deque fails with no change. Otherwise returns the first item and leaves the rest. |
| Deques.Deque.RemoveLast | Permutation/src/Deque.java:137-162 | An empty deque fails with no change. Otherwise returns the last item and leaves all but it. |
| Deques.Deque.Iterator | Permutation/src/Deque.java:164-167 | A new iterator over this deque positioned before the first item. |
| Deques.DequeIterator.constructor | Permutation/src/Deque.java:169-171 | Starts at the first node. |
| Deques.DequeIterator.HasNext | Permutation/src/Deque.java:174-177 | True exactly when items remain after the current position. |
| Deques.DequeIterator.Next | Permutation/src/Deque.java:180-191 | Past the end, fails. Otherwise returns the item at the current position and advances one. The deque is unchanged. |
| Deques.DequeIterator.Remove | Permutation/src/Deque.java:194-198 | Always fails as unsupported. |
| Deques.Elements | Permutation/src/Deque.java:216-218 | A for-each loop over the deque yields exactly its contents, front to back. |
| Deques.Demo | Permutation/src/Deque.java:201-219 | The main sequence: removeLast returns 10, removeFirst returns 11, and iteration yields 7, 9, 8. |
| RandomizedQueues.SwapRemove | Permutation/src/RandomizedQueue.java:58-70 | Removing the item at i leaves one item fewer: every other slot keeps its item, and slot i, when it remains, holds the former last item. |
| RandomizedQueues.SwapRemoveMultiset | Permutation/src/RandomizedQueue.java:58-70 | Moving the last item into slot i and dropping the last slot removes exactly the item at i from the multiset. |
| RandomizedQueues.ShrinkConditionNeverHolds | Permutation/src/RandomizedQueue.java:54-56 | With at least one slot and at most capacity items, count / 4 is below the capacity, so the shrink test is never true. |
| RandomizedQueues.RandomizedQueue.constructor | Permutation/src/RandomizedQueue.java:11-18 | One empty slot, capacity 1, no items. |
| RandomizedQueues.RandomizedQueue.IsEmpty | Permutation/src/RandomizedQueue.java:22-25 | True exactly when there is no item. |
| RandomizedQueues.RandomizedQueue.Size | Permutation/src/RandomizedQueue.java:27-30 | The number of items. |
| RandomizedQueues.RandomizedQueue.Enqueue | Permutation/src/RandomizedQueue.java:32-45 | A null item fails with no change. Otherwise the item is appended; the capacity doubles exactly when the array was full; the array invariant is kept. |
| RandomizedQueues.RandomizedQueue.Dequeue | Permutation/src/RandomizedQueue.java:47-71 | An empty queue fails with no change. Otherwise returns the item at the chosen index and moves the last item into its place. The multiset loses exactly that item, the capacity is unchanged, and the invariant is kept. |
| RandomizedQueues.RandomizedQueue.Sample | Permutation/src/RandomizedQueue.java:73-85 | An empty queue fails. Otherwise returns the item at the chosen index, a member of the contents, with no change. |
| RandomizedQueues.RandomizedQueue.GrowStorage | Permutation/src/RandomizedQueue.java:89-94 | Doubles the capacity, keeps the items, and keeps the array invariant. |
| RandomizedQueues.RandomizedQueue.ShrinkStorage | Permutation/src/RandomizedQueue.java:96-102 | A new array of half the capacity, rounded down, holding the old slots that fit. |
| RandomizedQueues.RandomizedQueue.ResizeStorage | Permutation/src/RandomizedQueue.java:104-118 | A new array of the given length whose first min(old capacity, new capacity) slots equal the old ones and whose other slots are empty; capacity becomes the new length. |
| RandomizedQueues.RandomizedQueue.Iterator | Permutation/src/RandomizedQueue.java:120-123 | A new iterator over this queue. |
| RandomizedQueues.RandomizedQueueIterator.constructor | Permutation/src/RandomizedQueue.java:125 | An iterator bound to the queue. |
| RandomizedQueues.RandomizedQueueIterator.HasNext | Permutation/src/RandomizedQueue.java:128-131 | True exactly when the queue is not empty. |
| RandomizedQueues.RandomizedQueueIterator.Next | Permutation/src/RandomizedQueue.java:134-144 | On an empty queue, fails. Otherwise it is a dequeue at the chosen index and takes the item out of the queue. |
| RandomizedQueues.RandomizedQueueIterator.Remove | Permutation/src/RandomizedQueue.java:147-150 | Always fails as unsupported. |
| RandomizedQueues.IterateAll | Permutation/src/RandomizedQueue.java:173-176 | A for-each loop returns every item exactly once (equal multisets) and leaves the queue empty. |
| RandomizedQueues.EnqueueThenDrain | Permutation/src/RandomizedQueue.java:32-71 | Enqueueing a sequence and then dequeueing until empty returns each item exactly once. |
| RandomizedQueues.MainFirstRound | Permutation/src/RandomizedQueue.java:155-162 | After three enqueues and a dequeue, two items remain and the dequeued one is 10, 11 or 12. |
| RandomizedQueues.MainPrefix | Permutation/src/RandomizedQueue.java:155-170 | The calls before main's loop leave five items, and both dequeues succeed. |
| RandomizedQueues.MainAsWritten | Permutation/src/RandomizedQueue.java:153-179 | Main as written: the loop yields five items and empties the queue, so the final dequeue fails with an empty-collection error. |
| RandomizedQueues.ShuffledIterator.constructor | Permutation/src/RandomizedQueue.java:120-123 | A random-order iterator holding its own copy of the items. |
| RandomizedQueues.ShuffledIterator.HasNext | Permutation/src/RandomizedQueue.java:128-131 | True exactly when items remain to be returned. |
| RandomizedQueues.ShuffledIterator.Next | Permutation/src/RandomizedQueue.java:134-144 | Returns the pending item at the chosen index and drops exactly it from the pending items. The queue is untouched. |
| RandomizedQueues.IterateShuffled | Permutation/src/RandomizedQueue.java:173-176 | A for-each loop with the random-order iterator returns every item exactly once and leaves the queue as it was. |
| RandomizedQueues.MainWithShuffledIterator | Permutation/src/RandomizedQueue.java:153-179 | Main with the random-order iterator: the final dequeue succeeds and returns one of the items the loop yielded. |

## Findings

| source | as written | input that shows it | evidently intended | confidence | as-written member | corrected member |
|---|---|---|---|---|---|---|
| Permutation/src/RandomizedQueue.java:173-178 | The for-each loop's `next()` dequeues, so the loop empties the queue. The `dequeue()` on line 178 then always throws `NoSuchElementException`. | `main` itself, whatever random indices are drawn. | Iteration returns the items in random order without removing them, and the final dequeue returns an item. | high; not executed | RandomizedQueues.MainAsWritten | RandomizedQueues.MainWithShuffledIterator |

`RandomizedQueueIterator` and `IterateAll` model the iterator as the code writes it. `ShuffledIterator` and `IterateShuffled` are the non-destructive iterator that the corrected `main` uses.

## Left out

- `WeightedQuickUnionUF` (algs4) is not part of this model. It is replaced by a quick-find structure with the same answers to `union` and `connected`. Weighting and path compression only change running time.
- Running-time claims: amortized O(1) queue operations and near-constant-time union-find.
- Randomness: `StdRandom.uniform` is replaced by a caller-supplied index. Uniformity of the draws, and hence of the iteration order, is not modelled.
- Console output: the `StdOut` printing in the three `main` methods is left out. Their call sequences are kept as `SingleSiteDemo`, `Demo`, `MainAsWritten` and `MainPrefix`.
- Java `int` overflow: integers are unbounded. `n * n + 2` (Percolation) and `capacity * 2` (RandomizedQueue) do not wrap around.
- The Node getters and setters of Deque are modelled as direct field access.
- Iterator behaviour when the deque is changed during iteration is not modelled. `DequeIterator` requires the deque to be valid and unchanged.
- `RandomizedQueues.RandomizedQueue.ShrinkStorage` is modelled but never called: the shrink test in `dequeue` is never true (see `ShrinkConditionNeverHolds`). The code never shrinks the array, so no halve-at-quarter policy is modelled.
- The virtual top and site (1, 1) share id 0, and the model keeps that collision (see `CollisionExample`).
- Percolation/src/PercolationStats.java: the Monte-Carlo driver works in floating point over random draws and is not modelled.
- Permutation/src/Permutation.java: command-line and standard-input plumbing, not modelled.
