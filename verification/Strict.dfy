/**
 The edges that carry real time: few, and still the whole order of transactions that returned
 before others began (listappend/listappend.go, edges).
 */
module Strict {
  import opened History
  import opened Graphs
  import opened Txns

  /** The one begins after the other returned. */
  predicate Succeeds(txns: seq<Txn>, took: seq<bool>, i: nat, j: nat)
    requires i < |txns| && j < |txns| && |took| == |txns|
  {
    txns[j].call > txns[i].ret && took[j]
  }

  /** The least return of a committed transaction that succeeds `i`, or -1, as the loop finds it. */
  function FirstReturn(txns: seq<Txn>, took: seq<bool>, i: nat, n: nat): int64
    requires i < |txns| && n <= |txns| && |took| == |txns|
  {
    if n == 0 then -1
    else
      var first, u := FirstReturn(txns, took, i, n - 1), txns[n - 1];
      if Succeeds(txns, took, i, n - 1) && u.status.Committed? && (first < 0 || u.ret < first) then u.ret else first
  }

  /** The edges made for real time. */
  ghost predicate RealtimeDep(txns: seq<Txn>, took: seq<bool>, i: nat, j: nat) {
    && i < |txns| && j < |txns| && |took| == |txns| && txns[i].status.Committed? && Succeeds(txns, took, i, j)
    && (FirstReturn(txns, took, i, |txns|) < 0 || txns[j].call <= FirstReturn(txns, took, i, |txns|))
  }

  /** A committed transaction returned no earlier than it began. */
  ghost predicate Timed(txns: seq<Txn>) {
    forall i :: 0 <= i < |txns| && txns[i].status.Committed? ==> txns[i].call <= txns[i].ret
  }

  lemma {:induction false} FirstIsReturn(txns: seq<Txn>, took: seq<bool>, i: nat, n: nat)
    requires i < |txns| && n <= |txns| && |took| == |txns|
    ensures var first := FirstReturn(txns, took, i, n);
      first < 0 || exists u ::
        0 <= u < n && Succeeds(txns, took, i, u) && txns[u].status.Committed? && txns[u].ret == first
  {
    if n > 0 {
      FirstIsReturn(txns, took, i, n - 1);
    }
  }

  ghost predicate HasRealtime(txns: seq<Txn>, took: seq<bool>, adj: Adj) {
    |adj| == |txns| == |took| &&
    forall i: nat, j: nat :: RealtimeDep(txns, took, i, j) && i != j ==> Edge(j, Realtime) in adj[i]
  }

  lemma EdgeReach(adj: Adj, ok: Kind -> bool, i: nat, j: nat, kind: Kind)
    requires i < |adj| && Edge(j, kind) in adj[i] && ok(kind)
    ensures Reach(Graph(adj, ok), i, j)
  {
    var g := Graph(adj, ok);
    var n: nat :| n < |adj[i]| && adj[i][n] == Edge(j, kind);
    assert Via(g, i, n, j);
    ReachArc(g, i, j);
  }

  /** Every transaction that began after another returned is reached from it along the edges that carry real time. */
  lemma {:induction false} RealtimeReach(txns: seq<Txn>, took: seq<bool>, adj: Adj, ok: Kind -> bool, i: nat, j: nat)
    requires HasRealtime(txns, took, adj) && Timed(txns) && ok(Realtime)
    requires i < |txns| && j < |txns| && txns[i].status.Committed? && Succeeds(txns, took, i, j)
    ensures Reach(Graph(adj, ok), i, j)
    decreases txns[j].call - txns[i].ret
  {
    hide Reach;
    var g, first := Graph(adj, ok), FirstReturn(txns, took, i, |txns|);
    if first < 0 || txns[j].call <= first {
      EdgeReach(adj, ok, i, j, Realtime);
    } else {
      FirstIsReturn(txns, took, i, |txns|);
      var u: nat :| u < |txns| && Succeeds(txns, took, i, u) && txns[u].status.Committed? && txns[u].ret == first;
      assert RealtimeDep(txns, took, i, u);
      EdgeReach(adj, ok, i, u, Realtime);
      RealtimeReach(txns, took, adj, ok, u, j);
      ReachTrans(g, i, u, j);
    }
  }

  predicate OnlyRealtime(kind: Kind) { kind.Realtime? }

  /** The edges that carry real time are those made for it. */
  ghost predicate RealtimeExactly(txns: seq<Txn>, took: seq<bool>, adj: Adj) {
    |adj| == |txns| == |took| &&
    forall i: nat, j: nat :: i < |txns| ==> (Edge(j, Realtime) in adj[i] <==> RealtimeDep(txns, took, i, j) && i != j)
  }

  lemma ArcIsRealtime(txns: seq<Txn>, took: seq<bool>, adj: Adj, i: nat, j: nat)
    requires RealtimeExactly(txns, took, adj) && Arc(Graph(adj, OnlyRealtime), i, j)
    ensures i < |txns| && j < |txns| && txns[i].status.Committed? && Succeeds(txns, took, i, j)
  {
    var n: nat :| Via(Graph(adj, OnlyRealtime), i, n, j);
    assert adj[i][n] == Edge(j, Realtime) && Edge(j, Realtime) in adj[i];
  }

  lemma {:induction false} PathIsRealtime(txns: seq<Txn>, took: seq<bool>, adj: Adj, p: seq<nat>)
    requires RealtimeExactly(txns, took, adj) && Timed(txns) && IsPath(Graph(adj, OnlyRealtime), p) && |p| > 1
    ensures var i, j := p[0], p[|p| - 1];
      i < |txns| && j < |txns| && txns[i].status.Committed? && Succeeds(txns, took, i, j)
  {
    var g := Graph(adj, OnlyRealtime);
    assert Arc(g, p[0], p[0 + 1]);
    ArcIsRealtime(txns, took, adj, p[0], p[1]);
    if |p| > 2 {
      var q := p[1..];
      forall k | 0 <= k < |q| - 1 ensures Arc(g, q[k], q[k + 1]) {
        assert Arc(g, p[k + 1], p[k + 1 + 1]);
      }
      PathIsRealtime(txns, took, adj, q);
    }
  }

  /** Reaching along the few edges made is the whole order of real time. */
  lemma RealtimeIsReach(txns: seq<Txn>, took: seq<bool>, adj: Adj, i: nat, j: nat)
    requires RealtimeExactly(txns, took, adj) && Timed(txns) && i < |txns| && j < |txns| && i != j
    ensures Reach(Graph(adj, OnlyRealtime), i, j) <==> txns[i].status.Committed? && Succeeds(txns, took, i, j)
  {
    if Reach(Graph(adj, OnlyRealtime), i, j) {
      var p :| IsPath(Graph(adj, OnlyRealtime), p) && p[0] == i && p[|p| - 1] == j;
      PathIsRealtime(txns, took, adj, p);
    }
    if txns[i].status.Committed? && Succeeds(txns, took, i, j) {
      RealtimeReach(txns, took, adj, OnlyRealtime, i, j);
    }
  }
}
