/**
 Directed graphs with labelled edges, as adjacency lists, and reachability along the edges a
 filter accepts (listappend/listappend.go, edge and adj).
 */
module Graphs {

  datatype Kind = WW | WR | RW | Realtime

  datatype Edge = Edge(to: nat, kind: Kind)

  type Adj = seq<seq<Edge>>

  /** A graph, and the kinds of edges in use. */
  datatype Graph = Graph(adj: Adj, ok: Kind -> bool)

  ghost predicate Valid(g: Graph) {
    forall v, j :: 0 <= v < |g.adj| && 0 <= j < |g.adj[v]| ==> g.adj[v][j].to < |g.adj|
  }

  /** The `j`-th edge out of `u` is in use and leads to `v`. */
  ghost predicate Via(g: Graph, u: nat, j: nat, v: nat) {
    u < |g.adj| && j < |g.adj[u]| && g.adj[u][j].to == v && g.ok(g.adj[u][j].kind)
  }

  ghost predicate Arc(g: Graph, u: nat, v: nat) {
    exists j: nat :: Via(g, u, j, v)
  }

  ghost predicate IsPath(g: Graph, p: seq<nat>) {
    |p| > 0 && forall k :: 0 <= k < |p| - 1 ==> Arc(g, p[k], p[k + 1])
  }

  ghost predicate Reach(g: Graph, u: nat, v: nat) {
    exists p :: IsPath(g, p) && p[0] == u && p[|p| - 1] == v
  }

  ghost predicate Mutual(g: Graph, u: nat, v: nat) {
    Reach(g, u, v) && Reach(g, v, u)
  }

  lemma ReachSelf(g: Graph, u: nat)
    ensures Reach(g, u, u)
  {
    assert IsPath(g, [u]);
  }

  lemma ReachArc(g: Graph, u: nat, v: nat)
    requires Arc(g, u, v)
    ensures Reach(g, u, v)
  {
    assert IsPath(g, [u, v]);
  }

  lemma ReachTrans(g: Graph, u: nat, v: nat, w: nat)
    requires Reach(g, u, v) && Reach(g, v, w)
    ensures Reach(g, u, w)
  {
    var p :| IsPath(g, p) && p[0] == u && p[|p| - 1] == v;
    var q :| IsPath(g, q) && q[0] == v && q[|q| - 1] == w;
    var r := p + q[1..];
    forall k | 0 <= k < |r| - 1 ensures Arc(g, r[k], r[k + 1]) {
      if k < |p| - 1 {
        assert Arc(g, p[k], p[k + 1]);
      } else {
        assert Arc(g, q[k - |p| + 1], q[k - |p| + 2]);
      }
    }
    assert IsPath(g, r);
  }

  ghost predicate Closed(g: Graph, s: set<nat>) {
    forall u, v :: u in s && Arc(g, u, v) ==> v in s
  }

  lemma {:induction false} PathInClosed(g: Graph, s: set<nat>, p: seq<nat>)
    requires Closed(g, s) && IsPath(g, p) && p[0] in s
    ensures p[|p| - 1] in s
  {
    if |p| > 1 {
      assert Arc(g, p[0], p[1]);
      var q := p[1..];
      forall k | 0 <= k < |q| - 1 ensures Arc(g, q[k], q[k + 1]) {
        assert Arc(g, p[k + 1], p[k + 2]);
      }
      PathInClosed(g, s, q);
    }
  }

  /** What a closed set reaches is in it. */
  lemma ReachInClosed(g: Graph, s: set<nat>, u: nat, v: nat)
    requires Closed(g, s) && u in s && Reach(g, u, v)
    ensures v in s
  {
    var p :| IsPath(g, p) && p[0] == u && p[|p| - 1] == v;
    PathInClosed(g, s, p);
  }
}
