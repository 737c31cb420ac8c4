/** Connectivity of an undirected multigraph given as a vertex set and an edge list
    (parallel edges and self-loops allowed), as `networkx.MultiGraph` with
    `networkx.is_connected`. The reference definition is walk-based; `IsConnected`
    computes it by growing the component of one vertex to a fixpoint. */
module Reach {

  datatype Edge<T> = Edge(a: T, b: T)

  /** Some edge joins `u` and `v` (in either direction). */
  ghost predicate Adjacent<T>(edges: seq<Edge<T>>, u: T, v: T) {
    exists i :: 0 <= i < |edges| && Joins(edges[i], u, v)
  }

  predicate Joins<T(==)>(e: Edge<T>, u: T, v: T) {
    (e.a == u && e.b == v) || (e.a == v && e.b == u)
  }

  ghost predicate IsWalk<T>(edges: seq<Edge<T>>, p: seq<T>) {
    |p| >= 1 && forall i :: 0 <= i < |p| - 1 ==> Adjacent(edges, p[i], p[i + 1])
  }

  /** There is a walk from `u` to `v`. */
  ghost predicate Reachable<T(!new)>(edges: seq<Edge<T>>, u: T, v: T) {
    exists p :: IsWalk(edges, p) && p[0] == u && p[|p| - 1] == v
  }

  /** Every vertex reaches every other: a single connected component. */
  ghost predicate Connected<T(!new)>(vertices: set<T>, edges: seq<Edge<T>>) {
    forall u, v :: u in vertices && v in vertices ==> Reachable(edges, u, v)
  }

  /** No edge leaves the set `c`. */
  ghost predicate Closed<T>(edges: seq<Edge<T>>, c: set<T>) {
    forall j :: 0 <= j < |edges| ==> (edges[j].a in c <==> edges[j].b in c)
  }

  lemma ReachStep<T(!new)>(edges: seq<Edge<T>>, u: T, x: T, y: T, i: nat)
    requires Reachable(edges, u, x)
    requires i < |edges| && Joins(edges[i], x, y)
    ensures Reachable(edges, u, y)
  {
    var p :| IsWalk(edges, p) && p[0] == u && p[|p| - 1] == x;
    var q := p + [y];
    assert forall k :: 0 <= k < |q| - 1 ==> Adjacent(edges, q[k], q[k + 1]) by {
      forall k | 0 <= k < |q| - 1 ensures Adjacent(edges, q[k], q[k + 1]) {
        if k < |p| - 1 {
          assert q[k] == p[k] && q[k + 1] == p[k + 1];
        } else {
          assert q[k] == x && q[k + 1] == y;
        }
      }
    }
    assert IsWalk(edges, q);
  }

  lemma {:induction false} ReverseWalk<T>(edges: seq<Edge<T>>, p: seq<T>) returns (q: seq<T>)
    requires IsWalk(edges, p)
    ensures IsWalk(edges, q) && |q| == |p| && q[0] == p[|p| - 1] && q[|q| - 1] == p[0]
  {
    q := seq(|p|, k requires 0 <= k < |p| => p[|p| - 1 - k]);
    forall k | 0 <= k < |q| - 1 ensures Adjacent(edges, q[k], q[k + 1]) {
      var m := |p| - 2 - k;
      assert Adjacent(edges, p[m], p[m + 1]);
      var i :| 0 <= i < |edges| && Joins(edges[i], p[m], p[m + 1]);
      assert Joins(edges[i], q[k], q[k + 1]);
    }
  }

  lemma ReachSymmetric<T(!new)>(edges: seq<Edge<T>>, u: T, v: T)
    requires Reachable(edges, u, v)
    ensures Reachable(edges, v, u)
  {
    var p :| IsWalk(edges, p) && p[0] == u && p[|p| - 1] == v;
    var q := ReverseWalk(edges, p);
  }

  lemma ReachTransitive<T(!new)>(edges: seq<Edge<T>>, u: T, v: T, w: T)
    requires Reachable(edges, u, v) && Reachable(edges, v, w)
    ensures Reachable(edges, u, w)
  {
    var p :| IsWalk(edges, p) && p[0] == u && p[|p| - 1] == v;
    var q :| IsWalk(edges, q) && q[0] == v && q[|q| - 1] == w;
    var r := p + q[1..];
    forall k | 0 <= k < |r| - 1 ensures Adjacent(edges, r[k], r[k + 1]) {
      if k < |p| - 1 {
        assert r[k] == p[k] && r[k + 1] == p[k + 1];
      } else {
        var m := k - |p| + 1;
        assert r[k] == q[m] && r[k + 1] == q[m + 1];
      }
    }
    assert IsWalk(edges, r);
  }

  /** A walk that starts inside a closed set never leaves it. */
  lemma {:induction false} WalkStaysInClosed<T>(edges: seq<Edge<T>>, c: set<T>, p: seq<T>)
    requires Closed(edges, c) && IsWalk(edges, p) && p[0] in c
    ensures p[|p| - 1] in c
    decreases |p|
  {
    if |p| > 1 {
      var p' := p[..|p| - 1];
      assert IsWalk(edges, p') by {
        forall k | 0 <= k < |p'| - 1 ensures Adjacent(edges, p'[k], p'[k + 1]) {
          assert p'[k] == p[k] && p'[k + 1] == p[k + 1];
        }
      }
      WalkStaysInClosed(edges, c, p');
      var x, y := p[|p| - 2], p[|p| - 1];
      assert Adjacent(edges, x, y);
      var i :| 0 <= i < |edges| && Joins(edges[i], x, y);
    }
  }

  /** Decides `Connected(vertices, edges)`. The vertex set must already hold every edge
      endpoint (`MultiGraph.add_edge` adds missing endpoints) and must not be empty
      (`networkx.is_connected` raises on the null graph). */
  method IsConnected<T(==,!new)>(vertices: set<T>, edges: seq<Edge<T>>) returns (b: bool)
    requires vertices != {}
    requires forall j :: 0 <= j < |edges| ==> edges[j].a in vertices && edges[j].b in vertices
    ensures b <==> Connected(vertices, edges)
  {
    var v0 :| v0 in vertices;
    var comp := {v0};
    assert IsWalk(edges, [v0]);
    var changed := true;
    while changed
      invariant v0 in comp && comp <= vertices
      invariant forall x :: x in comp ==> Reachable(edges, v0, x)
      invariant !changed ==> Closed(edges, comp)
      decreases |vertices - comp| + (if changed then 1 else 0)
    {
      changed := false;
      ghost var start := comp;
      var i := 0;
      while i < |edges|
        invariant 0 <= i <= |edges|
        invariant start <= comp <= vertices
        invariant forall x :: x in comp ==> Reachable(edges, v0, x)
        invariant !changed ==> comp == start
        invariant changed ==> |vertices - comp| < |vertices - start|
        invariant !changed ==> forall j :: 0 <= j < i ==> (edges[j].a in comp <==> edges[j].b in comp)
      {
        var e := edges[i];
        if e.a in comp && e.b !in comp {
          ReachStep(edges, v0, e.a, e.b, i);
          Shrinks(vertices, comp, e.b);
          comp := comp + {e.b};
          changed := true;
        } else if e.b in comp && e.a !in comp {
          ReachStep(edges, v0, e.b, e.a, i);
          Shrinks(vertices, comp, e.a);
          comp := comp + {e.a};
          changed := true;
        }
        i := i + 1;
      }
    }
    b := comp == vertices;
    if b {
      forall u, v | u in vertices && v in vertices ensures Reachable(edges, u, v) {
        ReachSymmetric(edges, v0, u);
        ReachTransitive(edges, u, v0, v);
      }
    } else {
      var w :| w in vertices && w !in comp;
      if Reachable(edges, v0, w) {
        var p :| IsWalk(edges, p) && p[0] == v0 && p[|p| - 1] == w;
        WalkStaysInClosed(edges, comp, p);
      }
    }
  }

  lemma Shrinks<T>(vertices: set<T>, comp: set<T>, x: T)
    requires x in vertices && x !in comp
    ensures |vertices - (comp + {x})| < |vertices - comp|
  {
    assert vertices - (comp + {x}) == (vertices - comp) - {x};
  }
}
