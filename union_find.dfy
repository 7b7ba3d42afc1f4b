/**
 * The dynamic-connectivity structure the percolation model delegates to
 * (algs4's WeightedQuickUnionUF, whose source is not part of this model).
 *
 * Only its observable behaviour is modelled: `union(p, q)` merges the
 * components of p and q, and `connected(p, q)` tells whether p and q are in
 * the same component.  The implementation here is quick-find (one label per
 * element, a union relabels a whole component); weighting and path
 * compression only change running time, not answers.
 *
 * The specification is the graph reading of union-find: the unions performed
 * so far are the edges of an undirected graph, and two elements are connected
 * exactly when a path of such edges joins them.
 */
module UnionFind {

  /** a and b are joined by an edge of `edges`, taken in either direction. */
  ghost predicate HasEdge(edges: set<(int, int)>, a: int, b: int) {
    (a, b) in edges || (b, a) in edges
  }

  /** `path` is a non-empty walk along edges of `edges`. */
  ghost predicate IsPath(edges: set<(int, int)>, path: seq<int>) {
    |path| > 0 && forall k | 0 <= k < |path| - 1 :: HasEdge(edges, path[k], path[k + 1])
  }

  /** Some walk along `edges` leads from x to y. */
  ghost predicate Reach(edges: set<(int, int)>, x: int, y: int) {
    exists path :: IsPath(edges, path) && path[0] == x && path[|path| - 1] == y
  }

  /** Every edge joins two elements of [0, |labels|) that carry the same label. */
  ghost predicate Respects(edges: set<(int, int)>, labels: seq<int>) {
    forall e | e in edges :: 0 <= e.0 < |labels| && 0 <= e.1 < |labels| && labels[e.0] == labels[e.1]
  }

  lemma ReachRefl(edges: set<(int, int)>, x: int)
    ensures Reach(edges, x, x)
  {
    assert IsPath(edges, [x]);
  }

  /** A walk to a, one edge a-b, and a walk from b make a walk. */
  lemma {:induction false} ReachJoin(edges: set<(int, int)>, x: int, a: int, b: int, y: int)
    requires Reach(edges, x, a) && HasEdge(edges, a, b) && Reach(edges, b, y)
    ensures Reach(edges, x, y)
  {
    var p :| IsPath(edges, p) && p[0] == x && p[|p| - 1] == a;
    var q :| IsPath(edges, q) && q[0] == b && q[|q| - 1] == y;
    var r := p + q;
    forall k | 0 <= k < |r| - 1
      ensures HasEdge(edges, r[k], r[k + 1])
    {
      if k < |p| - 1 {
        assert r[k] == p[k] && r[k + 1] == p[k + 1];
      } else if k == |p| - 1 {
        assert r[k] == a && r[k + 1] == b;
      } else {
        assert r[k] == q[k - |p|] && r[k + 1] == q[k + 1 - |p|];
      }
    }
    assert IsPath(edges, r) && r[0] == x && r[|r| - 1] == y;
  }

  lemma NoEdgeInEmpty(a: int, b: int)
    ensures !HasEdge({}, a, b)
  {
  }

  /** Without edges, an element reaches only itself. */
  lemma ReachWithoutEdges(x: int, y: int)
    requires Reach({}, x, y)
    ensures x == y
  {
    var p :| IsPath({}, p) && p[0] == x && p[|p| - 1] == y;
    if |p| > 1 {
      NoEdgeInEmpty(p[0], p[1]);
      assert false;
    }
  }

  /** Walks can be taken backwards. */
  lemma {:induction false} ReachSym(edges: set<(int, int)>, x: int, y: int)
    requires Reach(edges, x, y)
    ensures Reach(edges, y, x)
  {
    var p :| IsPath(edges, p) && p[0] == x && p[|p| - 1] == y;
    var r := seq(|p|, k requires 0 <= k < |p| => p[|p| - 1 - k]);
    forall k | 0 <= k < |r| - 1
      ensures HasEdge(edges, r[k], r[k + 1])
    {
      var j := |p| - 2 - k;
      assert HasEdge(edges, p[j], p[j + 1]);
    }
    assert IsPath(edges, r) && r[0] == y && r[|r| - 1] == x;
  }

  /** A walk stays a walk when every edge it may use is also an edge of `other`. */
  lemma {:induction false} ReachThrough(edges: set<(int, int)>, other: set<(int, int)>, x: int, y: int)
    requires forall e | e in edges :: HasEdge(other, e.0, e.1)
    requires Reach(edges, x, y)
    ensures Reach(other, x, y)
  {
    var p :| IsPath(edges, p) && p[0] == x && p[|p| - 1] == y;
    forall k | 0 <= k < |p| - 1
      ensures HasEdge(other, p[k], p[k + 1])
    {
      assert HasEdge(edges, p[k], p[k + 1]);
      if (p[k], p[k + 1]) in edges {
        var e := (p[k], p[k + 1]);
        assert HasEdge(other, e.0, e.1);
      } else {
        var e := (p[k + 1], p[k]);
        assert HasEdge(other, e.0, e.1);
      }
    }
    assert IsPath(other, p);
  }

  /** Walking along label-respecting edges never changes the label. */
  lemma {:induction false} PathKeepsLabel(edges: set<(int, int)>, labels: seq<int>, path: seq<int>)
    requires Respects(edges, labels) && IsPath(edges, path) && 0 <= path[0] < |labels|
    ensures 0 <= path[|path| - 1] < |labels| && labels[path[|path| - 1]] == labels[path[0]]
    decreases |path|
  {
    if |path| > 1 {
      var prefix := path[..|path| - 1];
      assert IsPath(edges, prefix) by {
        forall k | 0 <= k < |prefix| - 1
          ensures HasEdge(edges, prefix[k], prefix[k + 1])
        {
          assert prefix[k] == path[k] && prefix[k + 1] == path[k + 1];
        }
      }
      PathKeepsLabel(edges, labels, prefix);
      var a, b := path[|path| - 2], path[|path| - 1];
      assert HasEdge(edges, a, b);
      if (a, b) in edges {
        var e := (a, b);
        assert labels[e.0] == labels[e.1];
      } else {
        var e := (b, a);
        assert labels[e.0] == labels[e.1];
      }
    }
  }

  /** If every edge respects the labels, reachable elements share their label. */
  lemma ReachKeepsLabel(edges: set<(int, int)>, labels: seq<int>, x: int, y: int)
    requires Respects(edges, labels) && 0 <= x < |labels| && Reach(edges, x, y)
    ensures 0 <= y < |labels| && labels[y] == labels[x]
  {
    var p :| IsPath(edges, p) && p[0] == x && p[|p| - 1] == y;
    PathKeepsLabel(edges, labels, p);
  }

  /**
   * Quick-find union-find over the elements [0, id.Length).
   * `Edges` records the unions performed; `Valid` says that two elements
   * share a label exactly when the recorded unions join them.
   */
  class QuickFindUF {
    /** id[x] labels the component of x. */
    const id: array<int>
    /** The pairs passed to `Union` so far. */
    ghost var Edges: set<(int, int)>

    ghost predicate Valid()
      reads this, id
    {
      && Respects(Edges, id[..])
      && forall x, y | 0 <= x < id.Length && 0 <= y < id.Length && id[x] == id[y] :: Reach(Edges, x, y)
    }

    /** x and y are elements that are currently in the same component. */
    ghost predicate InSameComponent(x: int, y: int)
      reads id
    {
      0 <= x < id.Length && 0 <= y < id.Length && id[x] == id[y]
    }

    /** `new WeightedQuickUnionUF(n)`: n singleton components. */
    constructor (n: nat)
      ensures Valid() && fresh(id) && id.Length == n && Edges == {}
      ensures forall x, y | 0 <= x < n && 0 <= y < n :: InSameComponent(x, y) <==> x == y
    {
      var a := new int[n];
      var i := 0;
      while i < n
        invariant 0 <= i <= n
        invariant forall j | 0 <= j < i :: a[j] == j
      {
        a[i] := i;
        i := i + 1;
      }
      id := a;
      Edges := {};
      new;
      forall x, y | 0 <= x < id.Length && 0 <= y < id.Length && id[x] == id[y]
        ensures Reach(Edges, x, y)
      {
        ReachRefl(Edges, x);
      }
    }

    /** `connected(p, q)`: some chain of unions joins p and q. */
    method Connected(p: int, q: int) returns (b: bool)
      requires Valid() && 0 <= p < id.Length && 0 <= q < id.Length
      ensures b <==> Reach(Edges, p, q)
    {
      b := id[p] == id[q];
      if !b && Reach(Edges, p, q) {
        ReachKeepsLabel(Edges, id[..], p, q);
      }
    }

    /**
     * `union(p, q)`: records the edge p-q and merges the two components;
     * no other pair becomes connected and no pair is separated.
     */
    method Union(p: int, q: int)
      requires Valid() && 0 <= p < id.Length && 0 <= q < id.Length
      modifies this, id
      ensures Valid() && Edges == old(Edges) + {(p, q)}
      ensures InSameComponent(p, q)
      ensures forall x, y | 0 <= x < id.Length && 0 <= y < id.Length ::
        InSameComponent(x, y) <==>
          || old(InSameComponent(x, y))
          || (old(InSameComponent(x, p)) && old(InSameComponent(q, y)))
          || (old(InSameComponent(x, q)) && old(InSameComponent(p, y)))
    {
      ghost var edges0, label0 := Edges, id[..];
      assert Respects(edges0, label0);
      assert forall x, y | 0 <= x < id.Length && 0 <= y < id.Length && label0[x] == label0[y] :: Reach(edges0, x, y);
      var pid, qid := id[p], id[q];
      if pid != qid {
        var i := 0;
        while i < id.Length
          modifies id
          invariant 0 <= i <= id.Length
          invariant forall j | 0 <= j < i :: id[j] == (if label0[j] == pid then qid else label0[j])
          invariant forall j | i <= j < id.Length :: id[j] == label0[j]
        {
          if id[i] == pid {
            id[i] := qid;
          }
          i := i + 1;
        }
      }
      assert forall j | 0 <= j < id.Length :: id[j] == (if label0[j] == pid then qid else label0[j]);
      Edges := Edges + {(p, q)};
      forall e | e in Edges
        ensures 0 <= e.0 < id.Length && 0 <= e.1 < id.Length && id[e.0] == id[e.1]
      {
        if e in edges0 {
          assert 0 <= e.0 < |label0| && 0 <= e.1 < |label0| && label0[e.0] == label0[e.1];
        }
      }
      forall e | e in edges0
        ensures HasEdge(Edges, e.0, e.1)
      {
        assert (e.0, e.1) == e;
      }
      forall x, y | 0 <= x < id.Length && 0 <= y < id.Length && id[x] == id[y]
        ensures Reach(Edges, x, y)
      {
        if label0[x] == label0[y] {
          ReachThrough(edges0, Edges, x, y);
        } else if label0[x] == pid {
          ReachThrough(edges0, Edges, x, p);
          ReachThrough(edges0, Edges, q, y);
          ReachJoin(Edges, x, p, q, y);
        } else {
          ReachThrough(edges0, Edges, x, q);
          ReachThrough(edges0, Edges, p, y);
          ReachJoin(Edges, x, q, p, y);
        }
      }
    }
  }
}
