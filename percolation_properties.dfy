/**
 * What the connectivity answers of the percolation model mean for the grid:
 * connections only grow, an opened site is joined to what `open` joins it
 * to, open paths from the first row make sites full, and the two quirks of
 * the id layout (backwash through the virtual bottom, and the virtual top
 * sharing id 0 with site (1, 1)).
 */
module PercolationProperties {
  import opened Errors
  import opened UnionFind
  import opened PercolationGrid
  import opened Percolations

  /** Opening more sites never disconnects two ids. */
  lemma ConnectionsOnlyGrow(n: int, a: set<Site>, b: set<Site>, x: int, y: int)
    requires a <= b && Reach(Flow(n, a), x, y)
    ensures Reach(Flow(n, b), x, y)
  {
    FlowMono(n, a, b);
    forall e | e in Flow(n, a)
      ensures HasEdge(Flow(n, b), e.0, e.1)
    {
      assert (e.0, e.1) == e;
    }
    ReachThrough(Flow(n, a), Flow(n, b), x, y);
  }

  /** One edge is a walk. */
  lemma EdgeReach(edges: set<(int, int)>, a: int, b: int)
    requires (a, b) in edges
    ensures Reach(edges, a, b) && Reach(edges, b, a)
  {
    assert IsPath(edges, [a, b]);
    assert IsPath(edges, [b, a]);
  }

  /**
   * After the closed site s is opened, it is connected to the virtual top
   * when it is in the first row, to the virtual bottom when it is in the
   * last row, and to every neighbour that was already open.
   */
  lemma OpenedSiteConnections(n: int, open0: set<Site>, s: Site)
    requires s !in open0
    ensures s.0 == 0 ==> Reach(Flow(n, open0 + {s}), SiteId(n, s.0, s.1), VirtualTop)
    ensures s.0 == n - 1 ==> Reach(Flow(n, open0 + {s}), SiteId(n, s.0, s.1), VirtualBottom(n))
    ensures forall t | t in open0 && Adjacent(s, t) ::
      Reach(Flow(n, open0 + {s}), SiteId(n, s.0, s.1), SiteId(n, t.0, t.1))
  {
    var f := Flow(n, open0 + {s});
    FlowAfterOpening(n, open0, s);
    if s.0 == 0 {
      EdgeReach(f, SiteId(n, s.0, s.1), VirtualTop);
    }
    if s.0 == n - 1 {
      EdgeReach(f, SiteId(n, s.0, s.1), VirtualBottom(n));
    }
    forall t | t in open0 && Adjacent(s, t)
      ensures Reach(f, SiteId(n, s.0, s.1), SiteId(n, t.0, t.1))
    {
      EdgeReach(f, SiteId(n, s.0, s.1), SiteId(n, t.0, t.1));
    }
  }

  /** p is a chain of open sites, each beside the next. */
  ghost predicate OpenPath(open: set<Site>, p: seq<Site>) {
    && |p| > 0
    && (forall k | 0 <= k < |p| :: p[k] in open)
    && (forall k | 0 <= k < |p| - 1 :: Adjacent(p[k], p[k + 1]))
  }

  /** A chain of open sites that starts in the first row makes its last site full. */
  lemma {:induction false} OpenPathIsFull(n: int, open: set<Site>, p: seq<Site>)
    requires OpenPath(open, p) && p[0].0 == 0
    ensures Reach(Flow(n, open), SiteId(n, p[|p| - 1].0, p[|p| - 1].1), VirtualTop)
    decreases |p|
  {
    var f := Flow(n, open);
    var last := p[|p| - 1];
    if |p| == 1 {
      assert (SiteId(n, last.0, last.1), VirtualTop) in f;
      EdgeReach(f, SiteId(n, last.0, last.1), VirtualTop);
    } else {
      var q := p[..|p| - 1];
      var prev := q[|q| - 1];
      assert OpenPath(open, q);
      OpenPathIsFull(n, open, q);
      assert prev in open && last in open && Adjacent(last, prev);
      assert (SiteId(n, last.0, last.1), SiteId(n, prev.0, prev.1)) in f;
      ReachRefl(f, SiteId(n, last.0, last.1));
      ReachJoin(f, SiteId(n, last.0, last.1), SiteId(n, last.0, last.1), SiteId(n, prev.0, prev.1), VirtualTop);
    }
  }

  /**
   * Backwash: once the virtual top reaches the virtual bottom, every open
   * last-row site reaches the virtual top through the virtual bottom, so
   * isFull reports it full whether or not an open chain joins it to the
   * first row.
   */
  lemma BottomSitesFullOncePercolating(n: int, open: set<Site>, s: Site)
    requires Reach(Flow(n, open), VirtualTop, VirtualBottom(n))
    requires s in open && s.0 == n - 1
    ensures Reach(Flow(n, open), SiteId(n, s.0, s.1), VirtualTop)
  {
    var f := Flow(n, open);
    assert (SiteId(n, s.0, s.1), VirtualBottom(n)) in f;
    ReachSym(f, VirtualTop, VirtualBottom(n));
    ReachRefl(f, SiteId(n, s.0, s.1));
    ReachJoin(f, SiteId(n, s.0, s.1), SiteId(n, s.0, s.1), VirtualBottom(n), VirtualTop);
  }

  /** Two side-by-side open sites are linked in the Flow graph. */
  lemma FlowHasLink(n: int, open: set<Site>, s: Site, t: Site)
    requires s in open && t in open && Adjacent(s, t)
    ensures (SiteId(n, s.0, s.1), SiteId(n, t.0, t.1)) in Flow(n, open)
  {
  }

  /** An open bottom-row site is linked to the virtual bottom in the Flow graph. */
  lemma FlowHasBottomLink(n: int, open: set<Site>, s: Site)
    requires s in open && s.0 == n - 1
    ensures (SiteId(n, s.0, s.1), VirtualBottom(n)) in Flow(n, open)
  {
  }

  /** The open sites of the 3-by-3 backwash example: the left column and the bottom-right corner. */
  const BackwashSites: set<Site> := {(0, 0), (1, 0), (2, 0), (2, 2)}

  /** In the 3-by-3 backwash example the open left column makes the grid percolate ... */
  lemma BackwashExamplePercolates()
    ensures Reach(Flow(3, BackwashSites), VirtualTop, VirtualBottom(3))
  {
    var f := Flow(3, BackwashSites);
    FlowHasLink(3, BackwashSites, (0, 0), (1, 0));
    FlowHasLink(3, BackwashSites, (1, 0), (2, 0));
    FlowHasBottomLink(3, BackwashSites, (2, 0));
    var path := [VirtualTop, SiteId(3, 1, 0), SiteId(3, 2, 0), VirtualBottom(3)];
    assert IsPath(f, path);
  }

  /** ... and so the open corner (3, 3) is full ... */
  lemma BackwashExampleFull()
    ensures Reach(Flow(3, BackwashSites), SiteId(3, 2, 2), VirtualTop)
  {
    BackwashExamplePercolates();
    BottomSitesFullOncePercolating(3, BackwashSites, (2, 2));
  }

  /** No open site of the example is beside the corner (3, 3). */
  lemma CornerHasNoOpenNeighbour(t: Site)
    requires t in BackwashSites
    ensures !Adjacent(t, (2, 2))
  {
  }

  /** ... although no open chain from the first row reaches it. */
  lemma BackwashExampleNoOpenPath()
    ensures forall p: seq<Site> | OpenPath(BackwashSites, p) && p[|p| - 1] == (2, 2) :: p[0].0 != 0
  {
    forall p: seq<Site> | OpenPath(BackwashSites, p) && p[|p| - 1] == (2, 2)
      ensures p[0].0 != 0
    {
      if |p| > 1 {
        CornerHasNoOpenNeighbour(p[|p| - 2]);
        assert false;
      }
    }
  }

  /** A fresh grid does not percolate: without unions the virtual top reaches only itself. */
  lemma FreshGridDoesNotPercolate(n: int)
    requires n > 0
    ensures !Reach(Flow(n, {}), VirtualTop, VirtualBottom(n))
  {
    assert Flow(n, {}) == {};
    VirtualIdsInRange(n);
    if Reach(Flow(n, {}), VirtualTop, VirtualBottom(n)) {
      ReachWithoutEdges(VirtualTop, VirtualBottom(n));
    }
  }

  /** In the 1-by-1 grid, opening the only site makes the grid percolate and the site full. */
  lemma SingleSitePercolates()
    ensures Reach(Flow(1, {(0, 0)}), VirtualTop, VirtualBottom(1))
    ensures Reach(Flow(1, {(0, 0)}), SiteId(1, 0, 0), VirtualTop)
  {
    var f := Flow(1, {(0, 0)});
    assert (SiteId(1, 0, 0), VirtualBottom(1)) in f;
    EdgeReach(f, SiteId(1, 0, 0), VirtualBottom(1));
    ReachRefl(f, VirtualTop);
  }

  /**
   * Id collision: site (1, 1) has id 0, the virtual top id.  In the 2-by-2
   * grid with only (1, 2) open, the closed site (1, 1) is connected to the
   * open site (1, 2), which is why isFull must check openness first.
   */
  lemma CollisionExample()
    ensures Reach(Flow(2, {(0, 1)}), SiteId(2, 0, 0), SiteId(2, 0, 1))
  {
    var f := Flow(2, {(0, 1)});
    assert (SiteId(2, 0, 1), VirtualTop) in f;
    EdgeReach(f, SiteId(2, 0, 1), VirtualTop);
  }

  /**
   * Apart from the one sharing id 0 with the virtual top, a closed site's id
   * is on no union at all, and the id n*n + 1 never is.
   */
  lemma ClosedSitesUntouched(n: int, open: set<Site>, s: Site)
    requires n > 0 && forall u | u in open :: InGrid(n, u)
    requires InGrid(n, s) && s !in open && s != (0, 0)
    ensures forall e | e in Flow(n, open) ::
      && e.0 != SiteId(n, s.0, s.1) && e.1 != SiteId(n, s.0, s.1)
      && e.0 != VirtualBottom(n) + 1 && e.1 != VirtualBottom(n) + 1
  {
    var sid := SiteId(n, s.0, s.1);
    SiteIdInRange(n, s.0, s.1);
    SiteIdInjective(n, s.0, s.1, 0, 0);
    forall e | e in Flow(n, open)
      ensures e.0 != sid && e.1 != sid && e.0 != VirtualBottom(n) + 1 && e.1 != VirtualBottom(n) + 1
    {
      if u :| u in open && u.0 == 0 && e == (SiteId(n, u.0, u.1), VirtualTop) {
        SiteIdInjective(n, s.0, s.1, u.0, u.1);
        SiteIdInRange(n, u.0, u.1);
      } else if u :| u in open && u.0 == n - 1 && e == (SiteId(n, u.0, u.1), VirtualBottom(n)) {
        SiteIdInjective(n, s.0, s.1, u.0, u.1);
        SiteIdInRange(n, u.0, u.1);
      } else {
        var u, t :| u in open && t in open && Adjacent(u, t) && e == (SiteId(n, u.0, u.1), SiteId(n, t.0, t.1));
        SiteIdInjective(n, s.0, s.1, u.0, u.1);
        SiteIdInjective(n, s.0, s.1, t.0, t.1);
        SiteIdInRange(n, u.0, u.1);
        SiteIdInRange(n, t.0, t.1);
      }
    }
  }

  /** The call sequence of Percolation's `main`: a 1-by-1 grid percolates once its site is opened. */
  method SingleSiteDemo() returns (outcome: Outcome, percolates: bool, full: Result<bool>)
    ensures outcome == Pass && percolates && full == Success(true)
  {
    var p := new Percolation(1);
    outcome := p.Open(1, 1);
    assert p.OpenSites == {(0, 0)};
    percolates := p.Percolates();
    full := p.IsFull(1, 1);
    SingleSitePercolates();
  }

  /**
   * The id collision seen through the class: in a 2-by-2 grid with only
   * (1, 2) opened, the closed site (1, 1) shares id 0 with the virtual top
   * and is joined to the open (1, 2), yet isFull(1, 1) answers false
   * because it checks openness first.
   */
  method CollisionDemo() returns (outcome: Outcome, full: Result<bool>)
    ensures outcome == Pass && full == Success(false)
  {
    var p := new Percolation(2);
    outcome := p.Open(1, 2);
    assert p.OpenSites == {(0, 1)};
    full := p.IsFull(1, 1);
  }
}
