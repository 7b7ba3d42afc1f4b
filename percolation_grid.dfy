/**
 * The pure side of the percolation model: the n-by-n grid, the mapping of
 * its sites (and of the two virtual sites) to connectivity ids, coordinate
 * validation, and the graph of unions that a set of open sites produces.
 *
 * Sites are written 0-based here, as the pair (row, col) with
 * 0 <= row, col < n; the public API is 1-based and subtracts one first.
 */
module PercolationGrid {
  import opened Errors
  import opened UnionFind

  type Site = (int, int)

  /** Id of the virtual top site.  It is also the id of grid site (0, 0). */
  const VirtualTop := 0

  /** Id of the virtual bottom site. */
  function VirtualBottom(n: int): int { n * n }

  /** Size of the connectivity universe: n*n sites and two virtual ids (n*n + 1 is never used). */
  function NodeCount(n: int): int { n * n + 2 }

  /**
   * convert2DTo1DCoordinate: the connectivity id of 0-based site (row, col),
   * in row-major order, so that for a site in the grid the row and column
   * are the quotient and remainder of the id by n.
   */
  function SiteId(n: int, row: int, col: int): (id: int)
    ensures 0 <= row < n && 0 <= col < n ==> id / n == row && id % n == col
  {
    if 0 <= row < n && 0 <= col < n then RowMajorDivMod(n, row, col); n * row + col
    else n * row + col
  }

  /** Dividing n * row + col by n, with col in [0, n), gives back row and col. */
  lemma RowMajorDivMod(n: int, row: int, col: int)
    requires 0 < n && 0 <= col < n
    ensures (n * row + col) / n == row && (n * row + col) % n == col
  {
    var x := n * row + col;
    var q, r := x / n, x % n;
    assert x == n * q + r && 0 <= r < n;
    if q < row {
      MulLeftMono(n, q + 1, row);
    } else if q > row {
      MulLeftMono(n, row + 1, q);
    }
  }

  /** Every grid site gets an id in [0, n*n): below the virtual bottom id and inside the universe. */
  lemma SiteIdInRange(n: int, row: int, col: int)
    requires 0 <= row < n && 0 <= col < n
    ensures 0 <= SiteId(n, row, col) < VirtualBottom(n) < NodeCount(n)
  {
    MulLeftMono(n, row, n - 1);
  }

  predicate InGrid(n: int, s: Site) { 0 <= s.0 < n && 0 <= s.1 < n }

  /** s and t share a side: up, down, left or right. */
  predicate Adjacent(s: Site, t: Site) {
    || (s.0 == t.0 && (s.1 == t.1 + 1 || t.1 == s.1 + 1))
    || (s.1 == t.1 && (s.0 == t.0 + 1 || t.0 == s.0 + 1))
  }

  /**
   * validateCoordinatesInput: 1-based (row, col) must both lie in [1, n];
   * the row is checked first, so a bad row is reported even when the column
   * is bad too.
   */
  function ValidateCoordinates(n: int, row: int, col: int): (o: Outcome)
    ensures o.Pass? <==> 1 <= row <= n && 1 <= col <= n
    ensures o.Fail? ==> o.error.IsIllegalArgument()
    ensures !(1 <= row <= n) ==> o == Fail(RowOutOfBounds(row, col))
    ensures 1 <= row <= n && !(1 <= col <= n) ==> o == Fail(ColOutOfBounds(row, col))
  {
    if row < 1 || row > n then Fail(RowOutOfBounds(row, col))
    else if col < 1 || col > n then Fail(ColOutOfBounds(row, col))
    else Pass
  }

  /** The virtual ids lie inside the universe, with the bottom id above the top id. */
  lemma VirtualIdsInRange(n: int)
    requires n > 0
    ensures VirtualTop < VirtualBottom(n) < NodeCount(n)
  {
    MulLeftMono(n, 1, n);
  }

  lemma MulLeftMono(n: int, a: int, b: int)
    requires n >= 0 && a <= b
    ensures n * a <= n * b
  {
    assert n * b - n * a == n * (b - a);
  }

  /** Distinct grid sites get distinct ids. */
  lemma SiteIdInjective(n: int, r1: int, c1: int, r2: int, c2: int)
    requires 0 <= r1 < n && 0 <= c1 < n && 0 <= r2 < n && 0 <= c2 < n
    ensures SiteId(n, r1, c1) == SiteId(n, r2, c2) <==> r1 == r2 && c1 == c2
  {
    if r1 < r2 {
      MulLeftMono(n, r1 + 1, r2);
    } else if r2 < r1 {
      MulLeftMono(n, r2 + 1, r1);
    }
  }

  /**
   * The unions that the open sites have caused, as a graph on ids: an open
   * top-row site is joined to the virtual top, an open bottom-row site to the
   * virtual bottom, and every two side-by-side open sites to each other.
   */
  ghost function Flow(n: int, open: set<Site>): set<(int, int)> {
    (set s | s in open && s.0 == 0 :: (SiteId(n, s.0, s.1), VirtualTop))
    + (set s | s in open && s.0 == n - 1 :: (SiteId(n, s.0, s.1), VirtualBottom(n)))
    + (set s, t | s in open && t in open && Adjacent(s, t) :: (SiteId(n, s.0, s.1), SiteId(n, t.0, t.1)))
  }

  /** All ids in the union graph are inside the connectivity universe. */
  lemma FlowInUniverse(n: int, open: set<Site>)
    requires forall s | s in open :: InGrid(n, s)
    ensures forall e | e in Flow(n, open) :: 0 <= e.0 < NodeCount(n) && 0 <= e.1 < NodeCount(n)
  {
    forall e | e in Flow(n, open)
      ensures 0 <= e.0 < NodeCount(n) && 0 <= e.1 < NodeCount(n)
    {
      if s :| s in open && s.0 == 0 && e == (SiteId(n, s.0, s.1), VirtualTop) {
        SiteIdInRange(n, s.0, s.1);
      } else if s :| s in open && s.0 == n - 1 && e == (SiteId(n, s.0, s.1), VirtualBottom(n)) {
        SiteIdInRange(n, s.0, s.1);
      } else {
        var s, t :| s in open && t in open && Adjacent(s, t) && e == (SiteId(n, s.0, s.1), SiteId(n, t.0, t.1));
        SiteIdInRange(n, s.0, s.1);
        SiteIdInRange(n, t.0, t.1);
      }
    }
  }

  /** Opening more sites only adds unions. */
  lemma FlowMono(n: int, a: set<Site>, b: set<Site>)
    requires a <= b
    ensures Flow(n, a) <= Flow(n, b)
  {
    forall e | e in Flow(n, a)
      ensures e in Flow(n, b)
    {
      if s :| s in a && s.0 == 0 && e == (SiteId(n, s.0, s.1), VirtualTop) {
        assert s in b;
      } else if s :| s in a && s.0 == n - 1 && e == (SiteId(n, s.0, s.1), VirtualBottom(n)) {
        assert s in b;
      } else {
        var s, t :| s in a && t in a && Adjacent(s, t) && e == (SiteId(n, s.0, s.1), SiteId(n, t.0, t.1));
        assert s in b && t in b;
      }
    }
  }

  /**
   * Opening the closed site s adds the unions that `open` performs: s with
   * the virtual top when s is in the top row, with the virtual bottom when s
   * is in the bottom row, and with each already-open neighbour.
   */
  lemma FlowAfterOpening(n: int, open: set<Site>, s: Site)
    requires s !in open
    ensures Flow(n, open) <= Flow(n, open + {s})
    ensures s.0 == 0 ==> (SiteId(n, s.0, s.1), VirtualTop) in Flow(n, open + {s})
    ensures s.0 == n - 1 ==> (SiteId(n, s.0, s.1), VirtualBottom(n)) in Flow(n, open + {s})
    ensures forall t | t in open && Adjacent(s, t) :: (SiteId(n, s.0, s.1), SiteId(n, t.0, t.1)) in Flow(n, open + {s})
  {
    var b := open + {s};
    FlowMono(n, open, b);
    forall t | t in open && Adjacent(s, t)
      ensures (SiteId(n, s.0, s.1), SiteId(n, t.0, t.1)) in Flow(n, b)
    {
      assert s in b && t in b;
    }
  }

  /** ... and nothing else: each edge of the new Flow graph is old or one of those unions. */
  lemma FlowEdgeAfterOpening(n: int, open: set<Site>, s: Site, e: (int, int))
    requires s !in open && e in Flow(n, open + {s})
    ensures || e in Flow(n, open)
            || (s.0 == 0 && e == (SiteId(n, s.0, s.1), VirtualTop))
            || (s.0 == n - 1 && e == (SiteId(n, s.0, s.1), VirtualBottom(n)))
            || exists t :: t in open && Adjacent(s, t) &&
                 (e == (SiteId(n, s.0, s.1), SiteId(n, t.0, t.1)) || e == (SiteId(n, t.0, t.1), SiteId(n, s.0, s.1)))
  {
    var b := open + {s};
    if u :| u in b && u.0 == 0 && e == (SiteId(n, u.0, u.1), VirtualTop) {
      if u != s {
        assert e in Flow(n, open);
      }
    } else if u :| u in b && u.0 == n - 1 && e == (SiteId(n, u.0, u.1), VirtualBottom(n)) {
      if u != s {
        assert e in Flow(n, open);
      }
    } else {
      var u, t :| u in b && t in b && Adjacent(u, t) && e == (SiteId(n, u.0, u.1), SiteId(n, t.0, t.1));
      if u != s && t != s {
        assert e in Flow(n, open);
      }
    }
  }

  /** The unions joinWithAdjacentSites may perform for site s: s with each open neighbour. */
  ghost function NeighbourUnions(n: int, open: set<Site>, s: Site): set<(int, int)> {
    set t | t in open && Adjacent(s, t) :: (SiteId(n, s.0, s.1), SiteId(n, t.0, t.1))
  }

  lemma NeighbourUnionMember(n: int, open: set<Site>, s: Site, t: Site)
    requires t in open && Adjacent(s, t)
    ensures (SiteId(n, s.0, s.1), SiteId(n, t.0, t.1)) in NeighbourUnions(n, open, s)
  {
  }

  lemma NeighbourUnionsInFlow(n: int, open: set<Site>, s: Site)
    requires s in open
    ensures NeighbourUnions(n, open, s) <= Flow(n, open)
  {
    forall e | e in NeighbourUnions(n, open, s)
      ensures e in Flow(n, open)
    {
      var t :| t in open && Adjacent(s, t) && e == (SiteId(n, s.0, s.1), SiteId(n, t.0, t.1));
    }
  }

  /** A neighbour inside the grid is one of the four sites beside s. */
  lemma AdjacentCases(n: int, s: Site, t: Site)
    requires InGrid(n, s) && InGrid(n, t) && Adjacent(s, t)
    ensures || (s.0 > 0 && t == (s.0 - 1, s.1))
            || (s.0 < n - 1 && t == (s.0 + 1, s.1))
            || (s.1 > 0 && t == (s.0, s.1 - 1))
            || (s.1 < n - 1 && t == (s.0, s.1 + 1))
  {
  }

  /**
   * The recorded unions and the Flow graph of `open` have the same edges,
   * each taken in either direction, so they join the same pairs of ids.
   */
  ghost predicate EdgesMatchFlow(n: int, open: set<Site>, edges: set<(int, int)>) {
    && (forall e | e in edges :: HasEdge(Flow(n, open), e.0, e.1))
    && (forall e | e in Flow(n, open) :: HasEdge(edges, e.0, e.1))
  }

  /** The union connectSites performs between id a and site t: one when t is open, none otherwise. */
  ghost function UnionWith(n: int, open: set<Site>, a: int, t: Site): set<(int, int)> {
    if t in open then {(a, SiteId(n, t.0, t.1))} else {}
  }

  /**
   * The unions joinWithAdjacentSites performs for site s, direction by
   * direction (up, down, left, right): one UnionWith for each neighbour that
   * is inside the grid.
   */
  ghost function AdjacentUnions(n: int, open: set<Site>, s: Site): set<(int, int)> {
    (if s.0 > 0 then UnionWith(n, open, SiteId(n, s.0, s.1), (s.0 - 1, s.1)) else {})
    + (if s.0 < n - 1 then UnionWith(n, open, SiteId(n, s.0, s.1), (s.0 + 1, s.1)) else {})
    + (if s.1 > 0 then UnionWith(n, open, SiteId(n, s.0, s.1), (s.0, s.1 - 1)) else {})
    + (if s.1 < n - 1 then UnionWith(n, open, SiteId(n, s.0, s.1), (s.0, s.1 + 1)) else {})
  }

  /** For a site inside the grid, the four directions reach exactly its open neighbours. */
  lemma NeighbourUnionsByDirection(n: int, open: set<Site>, s: Site)
    requires InGrid(n, s) && forall u | u in open :: InGrid(n, u)
    ensures NeighbourUnions(n, open, s) == AdjacentUnions(n, open, s)
  {
    var byDirection := AdjacentUnions(n, open, s);
    forall e | e in NeighbourUnions(n, open, s)
      ensures e in byDirection
    {
      var t :| t in open && Adjacent(s, t) && e == (SiteId(n, s.0, s.1), SiteId(n, t.0, t.1));
      AdjacentCases(n, s, t);
    }
    forall e | e in byDirection
      ensures e in NeighbourUnions(n, open, s)
    {
      var sid := SiteId(n, s.0, s.1);
      if s.0 > 0 && (s.0 - 1, s.1) in open && e == (sid, SiteId(n, s.0 - 1, s.1)) {
        NeighbourUnionMember(n, open, s, (s.0 - 1, s.1));
      } else if s.0 < n - 1 && (s.0 + 1, s.1) in open && e == (sid, SiteId(n, s.0 + 1, s.1)) {
        NeighbourUnionMember(n, open, s, (s.0 + 1, s.1));
      } else if s.1 > 0 && (s.0, s.1 - 1) in open && e == (sid, SiteId(n, s.0, s.1 - 1)) {
        NeighbourUnionMember(n, open, s, (s.0, s.1 - 1));
      } else {
        NeighbourUnionMember(n, open, s, (s.0, s.1 + 1));
      }
    }
  }

  /** A step guarded by c adds x when c holds and nothing otherwise. */
  lemma GuardedStep(c: bool, e0: set<(int, int)>, e1: set<(int, int)>, x: set<(int, int)>)
    requires if c then e1 == e0 + x else e1 == e0
    ensures e1 == e0 + (if c then x else {})
  {
  }

  /**
   * Four steps that each add the union with one neighbour (when that
   * neighbour is inside the grid) add NeighbourUnions in total.
   */
  lemma NeighbourUnionsStepwise(n: int, open: set<Site>, s: Site,
                                e0: set<(int, int)>, e1: set<(int, int)>, e2: set<(int, int)>,
                                e3: set<(int, int)>, e4: set<(int, int)>)
    requires InGrid(n, s) && forall u | u in open :: InGrid(n, u)
    requires e1 == e0 + (if s.0 > 0 then UnionWith(n, open, SiteId(n, s.0, s.1), (s.0 - 1, s.1)) else {})
    requires e2 == e1 + (if s.0 < n - 1 then UnionWith(n, open, SiteId(n, s.0, s.1), (s.0 + 1, s.1)) else {})
    requires e3 == e2 + (if s.1 > 0 then UnionWith(n, open, SiteId(n, s.0, s.1), (s.0, s.1 - 1)) else {})
    requires e4 == e3 + (if s.1 < n - 1 then UnionWith(n, open, SiteId(n, s.0, s.1), (s.0, s.1 + 1)) else {})
    ensures e4 == e0 + NeighbourUnions(n, open, s)
  {
    NeighbourUnionsByDirection(n, open, s);
  }

  /** The unions `open` performs with the virtual sites for site s. */
  ghost function VirtualUnions(n: int, s: Site): set<(int, int)> {
    (if s.0 == 0 then {(SiteId(n, s.0, s.1), VirtualTop)} else {})
    + (if s.0 == n - 1 then {(SiteId(n, s.0, s.1), VirtualBottom(n))} else {})
  }

  /** The union with the virtual top (top row) and then with the virtual bottom (bottom row) add VirtualUnions. */
  lemma VirtualUnionsStepwise(n: int, s: Site, e0: set<(int, int)>, e1: set<(int, int)>, e2: set<(int, int)>)
    requires if s.0 == 0 then e1 == e0 + {(SiteId(n, s.0, s.1), VirtualTop)} else e1 == e0
    requires if s.0 == n - 1 then e2 == e1 + {(SiteId(n, s.0, s.1), VirtualBottom(n))} else e2 == e1
    ensures e2 == e0 + VirtualUnions(n, s)
  {
  }

  /**
   * Opening the closed site s and recording the unions with the virtual
   * sites and with the open neighbours keeps the recorded unions equal to
   * the Flow graph.
   */
  lemma OpeningKeepsFlowInvariant(n: int, open0: set<Site>, s: Site, edges0: set<(int, int)>)
    requires s !in open0 && EdgesMatchFlow(n, open0, edges0)
    ensures EdgesMatchFlow(n, open0 + {s}, edges0 + VirtualUnions(n, s) + NeighbourUnions(n, open0 + {s}, s))
  {
    var open1 := open0 + {s};
    var edges1 := edges0 + VirtualUnions(n, s) + NeighbourUnions(n, open1, s);
    var sid := SiteId(n, s.0, s.1);
    FlowAfterOpening(n, open0, s);
    NeighbourUnionsInFlow(n, open1, s);
    forall e | e in edges1
      ensures HasEdge(Flow(n, open1), e.0, e.1)
    {
      if e in edges0 {
        assert HasEdge(Flow(n, open0), e.0, e.1);
      } else if e in VirtualUnions(n, s) {
      } else {
        assert e in NeighbourUnions(n, open1, s);
      }
    }
    forall e | e in Flow(n, open1)
      ensures HasEdge(edges1, e.0, e.1)
    {
      FlowEdgeAfterOpening(n, open0, s, e);
      if e in Flow(n, open0) {
        assert HasEdge(edges0, e.0, e.1);
      } else if s.0 == 0 && e == (sid, VirtualTop) {
      } else if s.0 == n - 1 && e == (sid, VirtualBottom(n)) {
      } else {
        var t :| t in open0 && Adjacent(s, t) && (e == (sid, SiteId(n, t.0, t.1)) || e == (SiteId(n, t.0, t.1), sid));
        NeighbourUnionMember(n, open1, s, t);
      }
    }
  }

  /** Opening a closed site adds one to the number of open sites. */
  lemma CardinalityAfterOpening(open: set<Site>, s: Site)
    requires s !in open
    ensures |open + {s}| == |open| + 1
  {
  }
}
