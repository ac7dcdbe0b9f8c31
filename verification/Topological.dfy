/** An acyclic graph has an order that keeps its edges. */
module Topological {
  import opened Seqs
  import opened Sorting
  import opened Graphs
  import opened Cycles
  import opened Classify
  import opened Txns

  ghost function Ancestors(g: Graph, v: nat): set<nat> {
    set u: nat | u < |g.adj| && Reach(g, u, v)
  }

  ghost function Rank(g: Graph, v: nat): nat {
    |Ancestors(g, v)|
  }

  /** What reaches a vertex has fewer ancestors. */
  lemma RankGrows(adj: Adj, u: nat, v: nat)
    requires Acyclic(adj) && u < |adj| && v < |adj| && u != v && Reach(Graph(adj, AnyKind), u, v)
    ensures Rank(Graph(adj, AnyKind), u) < Rank(Graph(adj, AnyKind), v)
  {
    hide Reach;
    var g := Graph(adj, AnyKind);
    forall x | x in Ancestors(g, u) ensures x in Ancestors(g, v) {
      ReachTrans(g, x, u, v);
    }
    ReachSelf(g, v);
    assert !Mutual(g, u, v);
    assert v in Ancestors(g, v) && v !in Ancestors(g, u);
    SubsetSize(Ancestors(g, u), Ancestors(g, v));
  }

  ghost function KeptUpto(n: nat, keep: set<nat>): (s: seq<nat>)
    ensures forall i :: i in s <==> i < n && i in keep
    ensures Distinct(s)
  {
    if n == 0 then [] else KeptUpto(n - 1, keep) + if n - 1 in keep then [n - 1] else []
  }

  ghost predicate NoLater(g: Graph, u: nat, v: nat) {
    Rank(g, u) <= Rank(g, v)
  }

  /** `pi` puts each vertex before what it reaches. */
  ghost predicate Follows(adj: Adj, pi: seq<nat>) {
    forall u, v :: u in pi && v in pi && u != v && Reach(Graph(adj, AnyKind), u, v) ==> Pos(pi, u) < Pos(pi, v)
  }

  lemma TopologicalOrder(adj: Adj, keep: set<nat>) returns (pi: seq<nat>)
    requires Acyclic(adj) && forall i :: i in keep ==> i < |adj|
    ensures Distinct(pi) && (forall i :: i in pi <==> i in keep) && Follows(adj, pi)
  {
    hide Acyclic, Rank, Reach;
    var g := Graph(adj, AnyKind);
    var all, le := KeptUpto(|adj|, keep), (u: nat, v: nat) => NoLater(g, u, v);
    pi := Sort(all, le);
    SortSorted(all, le);
    SameElements(all, pi);
    SameDistinct(all, pi);
    SortedFollows(adj, pi, le);
  }

  lemma SortedFollows(adj: Adj, pi: seq<nat>, le: (nat, nat) -> bool)
    requires Acyclic(adj) && Sorted(pi, le) && (forall i :: i in pi ==> i < |adj|) && forall u, v :: le(u, v) ==>
      NoLater(Graph(adj, AnyKind), u, v)
    ensures Follows(adj, pi)
  {
    hide Acyclic, Rank, Reach;
    var g := Graph(adj, AnyKind);
    forall u, v | u in pi && v in pi && u != v && Reach(g, u, v) ensures Pos(pi, u) < Pos(pi, v) {
      assert Pos(pi, v) < Pos(pi, u) ==> le(pi[Pos(pi, v)], pi[Pos(pi, u)]);
      RankGrows(adj, u, v);
    }
  }

  lemma {:induction false} PathForward(g: Graph, pi: seq<nat>, p: seq<nat>)
    requires IsPath(g, p) && |p| > 1
    requires forall u: nat, v: nat :: Arc(g, u, v) ==> u in pi && v in pi && Pos(pi, u) < Pos(pi, v)
    ensures Pos(pi, p[0]) < Pos(pi, p[|p| - 1])
  {
    assert Arc(g, p[0], p[0 + 1]);
    if |p| > 2 {
      var q := p[1..];
      forall k | 0 <= k < |q| - 1 ensures Arc(g, q[k], q[k + 1]) {
        assert Arc(g, p[k + 1], p[k + 1 + 1]);
      }
      PathForward(g, pi, q);
    }
  }

  /** A graph whose edges all go forward in some order is acyclic. */
  lemma ForwardAcyclic(adj: Adj, pi: seq<nat>)
    requires forall u: nat, v: nat :: Arc(Graph(adj, AnyKind), u, v) ==> u in pi && v in pi && Pos(pi, u) < Pos(pi, v)
    ensures Acyclic(adj)
  {
    var g := Graph(adj, AnyKind);
    forall u: nat, v: nat | u < |adj| && u != v ensures !Mutual(g, u, v) {
      if Mutual(g, u, v) {
        ReachForward(g, pi, u, v);
        ReachForward(g, pi, v, u);
        assert false;
      }
    }
  }

  lemma ReachForward(g: Graph, pi: seq<nat>, u: nat, v: nat)
    requires Reach(g, u, v) && u != v
    requires forall u: nat, v: nat :: Arc(g, u, v) ==> u in pi && v in pi && Pos(pi, u) < Pos(pi, v)
    ensures Pos(pi, u) < Pos(pi, v)
  {
    var p :| IsPath(g, p) && p[0] == u && p[|p| - 1] == v;
    PathForward(g, pi, p);
  }
}
