/**
 * The percolation model: an n-by-n grid of sites, each open or closed, with
 * a union-find structure over n*n + 2 ids (the sites, a virtual top id and a
 * virtual bottom id).  Opening a site joins it to the virtual top when it is
 * in the first row, to the virtual bottom when it is in the last row, and to
 * every open neighbour.
 *
 * The virtual top id is 0, which is also the id of site (1, 1): the model
 * keeps that collision, and the id n*n + 1 is allocated but never used.
 */
module Percolations {
  import opened Errors
  import opened UnionFind
  import opened PercolationGrid

  class Percolation {
    const dimension: int
    const virtualTop: int
    const virtualBottom: int
    const uf: QuickFindUF
    /** siteOpen[r, c] is the open status of 0-based site (r, c). */
    const siteOpen: array2<bool>
    var openSitesCount: int
    /** The open sites, 0-based. */
    ghost var OpenSites: set<Site>

    /** The open-status table, the counter and the ghost set of open sites agree. */
    ghost predicate TableValid()
      reads this, siteOpen
    {
      && dimension > 0
      && siteOpen.Length0 == dimension && siteOpen.Length1 == dimension
      && (forall s | s in OpenSites :: InGrid(dimension, s))
      && (forall r, c | 0 <= r < dimension && 0 <= c < dimension :: siteOpen[r, c] <==> (r, c) in OpenSites)
      && openSitesCount == |OpenSites|
    }

    /** The union-find structure is well formed and has the right size. */
    ghost predicate UnionFindValid()
      reads this, uf, uf.id
    {
      && virtualTop == VirtualTop
      && virtualBottom == VirtualBottom(dimension)
      && uf.id.Length == NodeCount(dimension)
      && 0 < virtualBottom < uf.id.Length
      && uf.Valid()
    }

    /**
     * Object invariant.  Besides the two parts above: the unions performed
     * so far are, up to direction, exactly the links of the Flow graph of
     * the open sites.
     */
    ghost predicate Valid()
      reads this, siteOpen, uf, uf.id
    {
      && TableValid()
      && UnionFindValid()
      && EdgesMatchFlow(dimension, OpenSites, uf.Edges)
    }

    /** The recorded unions join two ids exactly when the Flow graph joins them. */
    lemma UnionsAreFlow(x: int, y: int)
      requires EdgesMatchFlow(dimension, OpenSites, uf.Edges)
      ensures Reach(uf.Edges, x, y) <==> Reach(Flow(dimension, OpenSites), x, y)
    {
      if Reach(uf.Edges, x, y) {
        ReachThrough(uf.Edges, Flow(dimension, OpenSites), x, y);
      } else if Reach(Flow(dimension, OpenSites), x, y) {
        ReachThrough(Flow(dimension, OpenSites), uf.Edges, x, y);
      }
    }

    /** `new Percolation(n)` for n > 0: every site closed, no unions. */
    constructor (n: int)
      requires n > 0
      ensures Valid() && fresh(uf) && fresh(uf.id) && fresh(siteOpen)
      ensures dimension == n && OpenSites == {} && openSitesCount == 0
      ensures forall x, y | 0 <= x < NodeCount(n) && 0 <= y < NodeCount(n) :: uf.InSameComponent(x, y) <==> x == y
    {
      dimension := n;
      openSitesCount := 0;
      virtualTop := VirtualTop;
      virtualBottom := VirtualBottom(n);
      siteOpen := new bool[n, n]((r, c) => false);
      uf := new QuickFindUF(NodeCount(n));
      OpenSites := {};
      new;
      VirtualIdsInRange(n);
      assert Flow(n, {}) == {};
    }

    /**
     * isOpen(row, col), 1-based.  Needs only the table part of the invariant,
     * because `open` consults it half-way through its update.
     */
    method IsOpen(row: int, col: int) returns (r: Result<bool>)
      requires TableValid()
      ensures ValidateCoordinates(dimension, row, col).Fail? ==> r == Failure(ValidateCoordinates(dimension, row, col).error)
      ensures ValidateCoordinates(dimension, row, col).Pass? ==> r == Success((row - 1, col - 1) in OpenSites)
    {
      var v := ValidateCoordinates(dimension, row, col);
      if v.Fail? {
        return Failure(v.error);
      }
      r := Success(siteOpen[row - 1, col - 1]);
    }

    /**
     * isFull(row, col), 1-based: an open site whose id the Flow graph joins
     * to the virtual top.  Because the virtual bottom is in the same graph,
     * once the grid percolates every open bottom-row site is full too
     * (see BottomSitesFullOncePercolating).
     */
    method IsFull(row: int, col: int) returns (r: Result<bool>)
      requires Valid()
      ensures ValidateCoordinates(dimension, row, col).Fail? ==> r == Failure(ValidateCoordinates(dimension, row, col).error)
      ensures ValidateCoordinates(dimension, row, col).Pass? ==>
        r == Success((row - 1, col - 1) in OpenSites &&
                     Reach(Flow(dimension, OpenSites), SiteId(dimension, row - 1, col - 1), VirtualTop))
    {
      var v := ValidateCoordinates(dimension, row, col);
      if v.Fail? {
        return Failure(v.error);
      }
      var full := false;
      var open := IsOpen(row, col);
      if open == Success(true) {
        full := ConnectedToTop(row - 1, col - 1);
      }
      r := Success(full);
    }

    /**
     * The union-find query of isFull for 0-based site (r, c): whether its id
     * and the virtual top are in one component, which under the invariant is
     * whether Flow joins them.
     */
    method ConnectedToTop(r: int, c: int) returns (b: bool)
      requires Valid() && InGrid(dimension, (r, c))
      ensures b <==> Reach(Flow(dimension, OpenSites), SiteId(dimension, r, c), VirtualTop)
    {
      var nodeIndex := SiteId(dimension, r, c);
      SiteIdInRange(dimension, r, c);
      b := uf.Connected(nodeIndex, virtualTop);
      UnionsAreFlow(nodeIndex, virtualTop);
    }

    /** numberOfOpenSites(): the number of open sites. */
    method NumberOfOpenSites() returns (count: int)
      requires Valid()
      ensures count == |OpenSites| && 0 <= count
    {
      count := openSitesCount;
    }

    /** percolates(): the Flow graph joins the virtual top to the virtual bottom. */
    method Percolates() returns (b: bool)
      requires Valid()
      ensures b <==> Reach(Flow(dimension, OpenSites), VirtualTop, VirtualBottom(dimension))
    {
      b := uf.Connected(virtualTop, virtualBottom);
      UnionsAreFlow(virtualTop, virtualBottom);
    }

    /**
     * connectSites: joins id `nodeIndex` to 0-based site (newRow, newCol) when
     * that site is open, and does nothing otherwise.
     */
    method ConnectSites(nodeIndex: int, newRow: int, newCol: int)
      requires TableValid() && UnionFindValid()
      requires 0 <= nodeIndex < NodeCount(dimension) && InGrid(dimension, (newRow, newCol))
      modifies uf, uf.id
      ensures UnionFindValid() && TableValid() && OpenSites == old(OpenSites)
      ensures uf.Edges == old(uf.Edges) + UnionWith(dimension, old(OpenSites), nodeIndex, (newRow, newCol))
    {
      var open := IsOpen(newRow + 1, newCol + 1);
      if open != Success(true) {
        assert UnionWith(dimension, OpenSites, nodeIndex, (newRow, newCol)) == {};
        return;
      }
      SiteIdInRange(dimension, newRow, newCol);
      uf.Union(nodeIndex, SiteId(dimension, newRow, newCol));
    }

    /**
     * joinWithAdjacentSites: joins 0-based site (row, col) to each open
     * neighbour among the up to four sites beside it, and to nothing else.
     */
    method JoinWithAdjacentSites(row: int, col: int)
      requires TableValid() && UnionFindValid() && InGrid(dimension, (row, col))
      modifies uf, uf.id
      ensures UnionFindValid() && TableValid() && OpenSites == old(OpenSites)
      ensures uf.Edges == old(uf.Edges) + NeighbourUnions(dimension, OpenSites, (row, col))
    {
      var siteIndex := SiteId(dimension, row, col);
      SiteIdInRange(dimension, row, col);
      ghost var open, s := OpenSites, (row, col);
      assert forall u | u in open :: InGrid(dimension, u);
      ghost var e0 := uf.Edges;
      if row > 0 {
        ConnectSites(siteIndex, row - 1, col);
      }
      GuardedStep(s.0 > 0, e0, uf.Edges, UnionWith(dimension, open, SiteId(dimension, s.0, s.1), (s.0 - 1, s.1)));
      ghost var e1 := uf.Edges;
      if row < dimension - 1 {
        ConnectSites(siteIndex, row + 1, col);
      }
      GuardedStep(s.0 < dimension - 1, e1, uf.Edges, UnionWith(dimension, open, SiteId(dimension, s.0, s.1), (s.0 + 1, s.1)));
      ghost var e2 := uf.Edges;
      if col > 0 {
        ConnectSites(siteIndex, row, col - 1);
      }
      GuardedStep(s.1 > 0, e2, uf.Edges, UnionWith(dimension, open, SiteId(dimension, s.0, s.1), (s.0, s.1 - 1)));
      ghost var e3 := uf.Edges;
      if col < dimension - 1 {
        ConnectSites(siteIndex, row, col + 1);
      }
      GuardedStep(s.1 < dimension - 1, e3, uf.Edges, UnionWith(dimension, open, SiteId(dimension, s.0, s.1), (s.0, s.1 + 1)));
      NeighbourUnionsStepwise(dimension, open, s, e0, e1, e2, e3, uf.Edges);
    }

    /**
     * The step of `open` that joins 0-based site (r, c) to the virtual top
     * when it is in the first row and to the virtual bottom when it is in the
     * last row (both, in a 1-by-1 grid).
     */
    method JoinWithVirtualSites(r: int, c: int)
      requires TableValid() && UnionFindValid() && InGrid(dimension, (r, c))
      modifies uf, uf.id
      ensures UnionFindValid() && TableValid() && OpenSites == old(OpenSites)
      ensures uf.Edges == old(uf.Edges) + VirtualUnions(dimension, (r, c))
    {
      var siteIndex := SiteId(dimension, r, c);
      SiteIdInRange(dimension, r, c);
      ghost var edges0 := uf.Edges;
      if r == 0 {
        uf.Union(siteIndex, virtualTop);
      }
      ghost var edges1 := uf.Edges;
      if r == dimension - 1 {
        uf.Union(siteIndex, virtualBottom);
      }
      VirtualUnionsStepwise(dimension, (r, c), edges0, edges1, uf.Edges);
    }

    /**
     * The step of `open` that marks the closed 0-based site (r, c) open in
     * the table and counts it.
     */
    method MarkOpen(r: int, c: int)
      requires TableValid() && InGrid(dimension, (r, c)) && (r, c) !in OpenSites
      modifies this`OpenSites, this`openSitesCount, siteOpen
      ensures TableValid()
      ensures OpenSites == old(OpenSites) + {(r, c)}
      ensures openSitesCount == old(openSitesCount) + 1
    {
      siteOpen[r, c] := true;
      CardinalityAfterOpening(OpenSites, (r, c));
      OpenSites := OpenSites + {(r, c)};
      openSitesCount := openSitesCount + 1;
      forall i, j | 0 <= i < dimension && 0 <= j < dimension
        ensures siteOpen[i, j] <==> (i, j) in OpenSites
      {
        if (i, j) != (r, c) {
          assert siteOpen[i, j] == old(siteOpen[i, j]);
        }
      }
    }

    /**
     * open(row, col), 1-based.  Invalid coordinates fail and change nothing;
     * an open site is left as it is; a closed site is opened, counted, and
     * joined to the virtual top (first row), the virtual bottom (last row)
     * and its open neighbours, and to nothing else.
     */
    method Open(row: int, col: int) returns (o: Outcome)
      requires Valid()
      modifies this, uf, uf.id, siteOpen
      ensures Valid()
      ensures o == ValidateCoordinates(dimension, row, col)
      ensures o.Fail? || old((row - 1, col - 1) in OpenSites) ==> unchanged(this, uf, uf.id, siteOpen)
      ensures o.Pass? && old((row - 1, col - 1) !in OpenSites) ==>
        && OpenSites == old(OpenSites) + {(row - 1, col - 1)}
        && openSitesCount == old(openSitesCount) + 1
        && uf.Edges == old(uf.Edges) + VirtualUnions(dimension, (row - 1, col - 1))
                       + NeighbourUnions(dimension, OpenSites, (row - 1, col - 1))
    {
      o := ValidateCoordinates(dimension, row, col);
      if o.Fail? {
        return;
      }
      var alreadyOpen := IsOpen(row, col);
      if alreadyOpen == Success(true) {
        return;
      }
      OpenClosedSite(row - 1, col - 1);
    }

    /**
     * The part of `open` past its two early returns, for the closed 0-based
     * site (r, c): the unions with the virtual sites, the table update and
     * the unions with the open neighbours, in the order `open` makes them.
     */
    method OpenClosedSite(r: int, c: int)
      requires Valid() && InGrid(dimension, (r, c)) && (r, c) !in OpenSites
      modifies this, uf, uf.id, siteOpen
      ensures Valid()
      ensures OpenSites == old(OpenSites) + {(r, c)}
      ensures openSitesCount == old(openSitesCount) + 1
      ensures uf.Edges == old(uf.Edges) + VirtualUnions(dimension, (r, c)) + NeighbourUnions(dimension, OpenSites, (r, c))
    {
      ghost var open0, edges0 := OpenSites, uf.Edges;
      JoinWithVirtualSites(r, c);
      MarkOpen(r, c);
      JoinWithAdjacentSites(r, c);
      OpeningKeepsFlowInvariant(dimension, open0, (r, c), edges0);
    }
  }

  /** `new Percolation(n)`: fails with an illegal-argument error when n <= 0. */
  method NewPercolation(n: int) returns (r: Result<Percolation>)
    ensures n <= 0 ==> r == Failure(InvalidDimension(n))
    ensures n > 0 ==> r.Success? && fresh(r.value) && r.value.Valid() && r.value.dimension == n && r.value.OpenSites == {}
  {
    if n <= 0 {
      return Failure(InvalidDimension(n));
    }
    var p := new Percolation(n);
    r := Success(p);
  }
}
