/**
 Orders of commits, each with a start before it, that keep the edges of a graph: every other edge
 from a commit to a later start, and rw edges from a start to a later commit. There is one just
 when every cycle has two rw edges in a row.
 */
module SnapshotOrder {
  import opened Seqs
  import opened Sorting
  import opened Graphs
  import opened Bfs
  import opened Cycles
  import opened Classify
  import opened Topological
  import opened Txns

  ghost function All(adj: Adj): set<nat> { Below(|adj|) }

  /** An edge, not rw. */
  ghost predicate Strong(adj: Adj, u: nat, v: nat) {
    u < |adj| && exists e :: e in adj[u] && e.to == v && !e.kind.RW?
  }

  /** An rw edge. */
  ghost predicate Weak(adj: Adj, u: nat, v: nat) {
    u < |adj| && Edge(v, RW) in adj[u]
  }

  ghost predicate KeepsEdges(adj: Adj, pi: seq<nat>, from: seq<nat>) {
    && Starts(pi, from)
    && (forall u: nat, v: nat :: u in pi && v in pi && Strong(adj, u, v) ==> Pos(pi, u) < Start(pi, from, v))
    && (forall u: nat, v: nat :: u in pi && v in pi && Weak(adj, u, v) ==> Start(pi, from, u) <= Pos(pi, v))
  }

  // ----- Such an order leaves two rw edges in a row on every cycle

  function NextOf(n: nat, i: nat): nat { if i + 1 < n then i + 1 else 0 }

  function Previous(n: nat, i: nat): nat
    requires i < n
  {
    if i == 0 then n - 1 else i - 1
  }

  /** Where a cycle stands at its `i`-th vertex: at the start, or at the commit if it came by an rw edge. */
  ghost function Level(pi: seq<nat>, from: seq<nat>, c: Cycle, i: nat): nat
    requires i < |c.vs| == |c.ks|
  {
    if c.ks[Previous(|c.ks|, i)].RW? then Pos(pi, c.vs[i]) else Start(pi, from, c.vs[i])
  }

  lemma LevelRises(adj: Adj, inside: set<nat>, pi: seq<nat>, from: seq<nat>, c: Cycle, i: nat)
    requires KeepsEdges(adj, pi, from) && IsCycle(adj, inside, c) && !AdjacentRW(c.ks) && i < |c.vs|
    requires forall j :: 0 <= j < |c.vs| ==> c.vs[j] in pi
    ensures Level(pi, from, c, i) <= Level(pi, from, c, NextOf(|c.vs|, i))
    ensures !c.ks[i].RW? ==> Level(pi, from, c, i) < Level(pi, from, c, NextOf(|c.vs|, i))
  {
    var n := |c.vs|;
    var u, v, e := c.vs[i], After(c.vs, i), Edge(After(c.vs, i), c.ks[i]);
    assert e in adj[u];
    assert Previous(n, NextOf(n, i)) == i && c.vs[NextOf(n, i)] == v;
    if c.ks[i].RW? {
      assert Weak(adj, u, v);
      var b := Previous(n, i);
      assert !c.ks[b].RW?;
    } else {
      assert Strong(adj, u, v);
      StartOf(pi, from, u);
    }
  }

  lemma {:induction false} LevelsRise(adj: Adj, inside: set<nat>, pi: seq<nat>, from: seq<nat>, c: Cycle, i: nat,
      j: nat)
    requires KeepsEdges(adj, pi, from) && IsCycle(adj, inside, c) && !AdjacentRW(c.ks) && i <= j < |c.vs|
    requires forall j :: 0 <= j < |c.vs| ==> c.vs[j] in pi
    ensures Level(pi, from, c, i) <= Level(pi, from, c, j)
    decreases j
  {
    hide KeepsEdges, IsCycle, AdjacentRW, Level;
    CycleSize(adj, inside, c);
    if i < j {
      LevelsRise(adj, inside, pi, from, c, i, j - 1);
      LevelRises(adj, inside, pi, from, c, j - 1);
    }
  }

  lemma CycleSize(adj: Adj, inside: set<nat>, c: Cycle)
    requires IsCycle(adj, inside, c)
    ensures |c.vs| == |c.ks| > 0
  {
  }

  lemma KeptAdjacent(adj: Adj, inside: set<nat>, pi: seq<nat>, from: seq<nat>, c: Cycle)
    requires KeepsEdges(adj, pi, from) && IsCycle(adj, inside, c)
    requires forall j :: 0 <= j < |c.vs| ==> c.vs[j] in pi
    ensures AdjacentRW(c.ks)
  {
    hide KeepsEdges, Level, IsCycle;
    CycleSize(adj, inside, c);
    if !AdjacentRW(c.ks) {
      var n := |c.vs|;
      var i := if c.ks[0].RW? then NextOf(n, 0) else 0;
      assert !c.ks[i].RW?;
      hide AdjacentRW;
      LevelRises(adj, inside, pi, from, c, i);
      LevelRises(adj, inside, pi, from, c, n - 1);
      LevelsRise(adj, inside, pi, from, c, 0, i);
      LevelsRise(adj, inside, pi, from, c, NextOf(n, i), n - 1);
      assert false;
    }
  }

  // ----- Hops from start to start

  /** What starts after `u` does: a strong edge, or a weak and a strong one, lead to it. */
  ghost predicate HopTo(adj: Adj, u: nat, v: nat) {
    Strong(adj, u, v) || exists x: nat :: Weak(adj, u, x) && Strong(adj, x, v)
  }

  ghost function HopsFrom(adj: Adj, u: nat, n: nat): seq<Edge> {
    if n == 0 then [] else HopsFrom(adj, u, n - 1) + if HopTo(adj, u, n - 1) then [Edge(n - 1, WW)] else []
  }

  lemma {:induction false} HopsAre(adj: Adj, u: nat, n: nat, v: nat)
    ensures (exists e :: e in HopsFrom(adj, u, n) && e.to == v) <==> v < n && HopTo(adj, u, v)
  {
    hide HopTo;
    if n > 0 {
      HopsAre(adj, u, n - 1, v);
      var was := HopsFrom(adj, u, n - 1);
      if v == n - 1 && HopTo(adj, u, v) {
        assert Edge(v, WW) in HopsFrom(adj, u, n);
      }
      if e :| e in was && e.to == v {
        assert e in HopsFrom(adj, u, n);
      }
    }
  }

  ghost function Hops(adj: Adj): Adj {
    seq(|adj|, u requires 0 <= u < |adj| => HopsFrom(adj, u, |adj|))
  }

  lemma HopArc(adj: Adj, u: nat, v: nat)
    ensures Arc(Graph(Hops(adj), AnyKind), u, v) <==> u < |adj| && v < |adj| && HopTo(adj, u, v)
  {
    hide HopTo;
    var g := Graph(Hops(adj), AnyKind);
    if u < |adj| {
      HopsAre(adj, u, |adj|, v);
      if Arc(g, u, v) {
        var j: nat :| Via(g, u, j, v);
        assert g.adj[u][j] in HopsFrom(adj, u, |adj|);
      }
      if v < |adj| && HopTo(adj, u, v) {
        var e :| e in HopsFrom(adj, u, |adj|) && e.to == v;
        var j :| 0 <= j < |g.adj[u]| && g.adj[u][j] == e;
        assert Via(g, u, j, v);
      }
    }
  }

  // ----- A path of hops is a walk without two rw edges in a row

  ghost predicate Broken(ks: seq<Kind>) {
    && |ks| > 0 && !ks[|ks| - 1].RW?
    && forall i :: 0 <= i < |ks| - 1 ==> !(ks[i].RW? && ks[i + 1].RW?)
  }

  lemma BrokenJoin(a: seq<Kind>, b: seq<Kind>)
    requires Broken(a) && Broken(b)
    ensures Broken(a + b)
  {
    var c := a + b;
    forall i | 0 <= i < |c| - 1 ensures !(c[i].RW? && c[i + 1].RW?) {
      if i < |a| - 1 {
        assert c[i] == a[i] && c[i + 1] == a[i + 1];
      } else if i >= |a| {
        assert c[i] == b[i - |a|] && c[i + 1] == b[i - |a| + 1];
      }
    }
  }

  lemma EdgeNext(adj: Adj, u: nat, e: Edge)
    requires Valid(Graph(adj, AnyKind)) && u < |adj| && e in adj[u]
    ensures e.to < |adj| && Hop(e.to, e.kind) in Next(adj, All(adj), AnyKind)(u)
  {
    var j :| 0 <= j < |adj[u]| && adj[u][j] == e;
    NextKept(adj, All(adj), AnyKind, u, Hop(e.to, e.kind));
    assert e == Edge(e.to, e.kind);
  }

  lemma HopWalk(adj: Adj, u: nat, v: nat) returns (w: Walk<nat>)
    requires Valid(Graph(adj, AnyKind)) && HopTo(adj, u, v)
    ensures Joins(Next(adj, All(adj), AnyKind), u, v, w) && Broken(w.ks)
  {
    hide Next, Valid;
    if Strong(adj, u, v) {
      var e :| e in adj[u] && e.to == v && !e.kind.RW?;
      EdgeNext(adj, u, e);
      w := Walk([u, v], [e.kind]);
    } else {
      var x: nat :| Weak(adj, u, x) && Strong(adj, x, v);
      var e :| e in adj[x] && e.to == v && !e.kind.RW?;
      EdgeNext(adj, u, Edge(x, RW));
      EdgeNext(adj, x, e);
      w := Walk([u, x, v], [RW, e.kind]);
    }
  }

  lemma {:induction false} PathWalk(adj: Adj, p: seq<nat>) returns (w: Walk<nat>)
    requires Valid(Graph(adj, AnyKind)) && |p| > 1 && IsPath(Graph(Hops(adj), AnyKind), p)
    ensures Joins(Next(adj, All(adj), AnyKind), p[0], p[|p| - 1], w) && Broken(w.ks)
  {
    hide Valid, HopTo, Joins, Broken, Hops;
    var n := |p| - 1;
    assert Arc(Graph(Hops(adj), AnyKind), p[n - 1], p[n - 1 + 1]);
    HopArc(adj, p[n - 1], p[n]);
    w := HopWalk(adj, p[n - 1], p[n]);
    if n > 1 {
      var q := p[..n];
      forall k | 0 <= k < |q| - 1 ensures Arc(Graph(Hops(adj), AnyKind), q[k], q[k + 1]) {
        assert Arc(Graph(Hops(adj), AnyKind), p[k], p[k + 1]);
      }
      var f := PathWalk(adj, q);
      WalkSize(Next(adj, All(adj), AnyKind), p[n - 1], p[n], w);
      JoinIsWalk(Next(adj, All(adj), AnyKind), p[0], p[n - 1], p[n], f, w);
      BrokenJoin(f.ks, w.ks);
      w := Join(f, w);
    }
  }

  /** No path of hops leads back where it began. */
  lemma NoHopsBack(adj: Adj, p: seq<nat>)
    requires Valid(Graph(adj, AnyKind)) && |p| > 1 && IsPath(Graph(Hops(adj), AnyKind), p) && p[0] == p[|p| - 1]
    ensures !AllAdjacentRW(adj, All(adj))
  {
    hide Valid, HopTo, Joins, Hops, IsCycle;
    assert Arc(Graph(Hops(adj), AnyKind), p[0], p[0 + 1]);
    HopArc(adj, p[0], p[1]);
    var w := PathWalk(adj, p);
    WalkIsCycle(adj, All(adj), AnyKind, p[0], w);
    assert !AdjacentRW(w.ks);
  }

  lemma HopsAcyclic(adj: Adj)
    requires Valid(Graph(adj, AnyKind)) && AllAdjacentRW(adj, All(adj))
    ensures Acyclic(Hops(adj))
  {
    hide Valid, Hops, AllAdjacentRW;
    var g := Graph(Hops(adj), AnyKind);
    forall u: nat, v: nat | u < |Hops(adj)| && u != v ensures !Mutual(g, u, v) {
      if Mutual(g, u, v) {
        var p :| IsPath(g, p) && p[0] == u && p[|p| - 1] == v;
        var q :| IsPath(g, q) && q[0] == v && q[|q| - 1] == u;
        PathJoin(g, p, q);
        NoHopsBack(adj, p + q[1..]);
        assert false;
      }
    }
  }

  lemma PathJoin(g: Graph, p: seq<nat>, q: seq<nat>)
    requires IsPath(g, p) && IsPath(g, q) && p[|p| - 1] == q[0]
    ensures var r := p + q[1..]; IsPath(g, r) && r[0] == p[0] && r[|r| - 1] == q[|q| - 1]
  {
    var r := p + q[1..];
    forall k | 0 <= k < |r| - 1 ensures Arc(g, r[k], r[k + 1]) {
      if k < |p| - 1 {
        assert Arc(g, p[k], p[k + 1]);
      } else {
        var m := k - (|p| - 1);
        assert Arc(g, q[m], q[m + 1]);
        assert r[k] == q[m];
      }
    }
  }

  // ----- Times of starts and commits

  ghost function StartTime(adj: Adj, u: nat): nat {
    Rank(Graph(Hops(adj), AnyKind), u)
  }

  /** The latest start of a transaction and of the first `n` others that must start before it commits. */
  ghost function CommitTime(adj: Adj, v: nat, n: nat): nat {
    if n == 0 then StartTime(adj, v)
    else
      var t := CommitTime(adj, v, n - 1);
      if Weak(adj, n - 1, v) && StartTime(adj, n - 1) > t then StartTime(adj, n - 1) else t
  }

  lemma {:induction false} CommitIs(adj: Adj, v: nat, n: nat, x: nat)
    ensures StartTime(adj, v) <= CommitTime(adj, v, n)
    ensures x < n && Weak(adj, x, v) ==> StartTime(adj, x) <= CommitTime(adj, v, n)
  {
    hide StartTime;
    if n > 0 { CommitIs(adj, v, n - 1, x); }
  }

  lemma {:induction false} CommitBefore(adj: Adj, v: nat, n: nat, t: nat)
    requires StartTime(adj, v) < t && forall x: nat :: x < n && Weak(adj, x, v) ==> StartTime(adj, x) < t
    ensures CommitTime(adj, v, n) < t
  {
    hide StartTime, Weak;
    if n > 0 { CommitBefore(adj, v, n - 1, t); }
  }

  lemma HopStarts(adj: Adj, u: nat, v: nat)
    requires Valid(Graph(adj, AnyKind)) && AllAdjacentRW(adj, All(adj)) && u < |adj| && v < |adj| && HopTo(adj, u, v)
    ensures StartTime(adj, u) < StartTime(adj, v)
  {
    hide Valid, Hops, AllAdjacentRW, Acyclic, HopTo, Rank;
    HopArc(adj, u, v);
    HopsAcyclic(adj);
    HopsSize(adj);
    if u == v {
      assert IsPath(Graph(Hops(adj), AnyKind), [u, v]);
      NoHopsBack(adj, [u, v]);
      assert false;
    }
    ReachArc(Graph(Hops(adj), AnyKind), u, v);
    RankGrows(Hops(adj), u, v);
  }

  lemma HopsSize(adj: Adj)
    ensures |Hops(adj)| == |adj|
  {
  }

  lemma StrongTimes(adj: Adj, u: nat, v: nat)
    requires Valid(Graph(adj, AnyKind)) && AllAdjacentRW(adj, All(adj)) && u < |adj| && v < |adj| && Strong(adj, u, v)
    ensures CommitTime(adj, u, |adj|) < StartTime(adj, v)
  {
    hide Valid, AllAdjacentRW, StartTime, Strong, Weak;
    HopStarts(adj, u, v);
    forall x: nat | x < |adj| && Weak(adj, x, u) ensures StartTime(adj, x) < StartTime(adj, v) {
      HopStarts(adj, x, v);
    }
    CommitBefore(adj, u, |adj|, StartTime(adj, v));
  }

  // ----- The order

  /** The first place at or past which all commit no sooner than `t`. */
  ghost function FirstAt(adj: Adj, pi: seq<nat>, t: nat): (q: nat)
    ensures q <= |pi|
  {
    if pi == [] || CommitTime(adj, pi[0], |adj|) >= t then 0 else 1 + FirstAt(adj, pi[1..], t)
  }

  ghost predicate CommitNoLater(adj: Adj, u: nat, v: nat) {
    CommitTime(adj, u, |adj|) <= CommitTime(adj, v, |adj|)
  }

  ghost predicate ByCommit(adj: Adj, pi: seq<nat>) {
    forall p, q :: 0 <= p < q < |pi| ==> CommitNoLater(adj, pi[p], pi[q])
  }

  lemma {:induction false} FirstAtMeans(adj: Adj, pi: seq<nat>, t: nat, p: nat)
    requires ByCommit(adj, pi) && p < |pi|
    ensures p < FirstAt(adj, pi, t) <==> CommitTime(adj, pi[p], |adj|) < t
  {
    hide CommitTime;
    if CommitTime(adj, pi[0], |adj|) >= t {
      assert p > 0 ==> CommitNoLater(adj, pi[0], pi[p]);
    } else if p > 0 {
      var rest := pi[1..];
      forall a, b | 0 <= a < b < |rest| ensures CommitNoLater(adj, rest[a], rest[b]) {
        assert CommitNoLater(adj, pi[a + 1], pi[b + 1]);
      }
      FirstAtMeans(adj, rest, t, p - 1);
    }
  }

  ghost function StartsOf(adj: Adj, pi: seq<nat>): seq<nat> {
    seq(|pi|, p requires 0 <= p < |pi| => FirstAt(adj, pi, StartTime(adj, pi[p])))
  }

  lemma StartIs(adj: Adj, pi: seq<nat>, u: nat)
    requires u in pi
    ensures Start(pi, StartsOf(adj, pi), u) == FirstAt(adj, pi, StartTime(adj, u))
  {
  }

  lemma TimesKeep(adj: Adj, pi: seq<nat>)
    requires Valid(Graph(adj, AnyKind)) && AllAdjacentRW(adj, All(adj)) && ByCommit(adj, pi)
    requires forall i :: i in pi ==> i < |adj|
    ensures KeepsEdges(adj, pi, StartsOf(adj, pi))
  {
    hide Valid, AllAdjacentRW, ByCommit, StartTime, CommitTime, StartsOf, Start, FirstAt, Strong, Weak;
    TimesStart(adj, pi);
    forall u: nat, v: nat | u in pi && v in pi && Strong(adj, u, v)
      ensures Pos(pi, u) < Start(pi, StartsOf(adj, pi), v)
    {
      StartIs(adj, pi, v);
      StrongTimes(adj, u, v);
      FirstAtMeans(adj, pi, StartTime(adj, v), Pos(pi, u));
    }
    forall u: nat, v: nat | u in pi && v in pi && Weak(adj, u, v)
      ensures Start(pi, StartsOf(adj, pi), u) <= Pos(pi, v)
    {
      StartIs(adj, pi, u);
      CommitIs(adj, v, |adj|, u);
      FirstAtMeans(adj, pi, StartTime(adj, u), Pos(pi, v));
    }
  }

  lemma TimesStart(adj: Adj, pi: seq<nat>)
    requires ByCommit(adj, pi)
    ensures Starts(pi, StartsOf(adj, pi))
  {
    hide ByCommit, StartTime, CommitTime, FirstAt;
    forall p | 0 <= p < |pi| ensures FirstAt(adj, pi, StartTime(adj, pi[p])) <= p {
      CommitIs(adj, pi[p], |adj|, 0);
      FirstAtMeans(adj, pi, StartTime(adj, pi[p]), p);
    }
  }

  /** If every cycle has two rw edges in a row, some order and starts keep the edges. */
  lemma SnapshotOrderOf(adj: Adj, keep: set<nat>) returns (pi: seq<nat>, from: seq<nat>)
    requires Valid(Graph(adj, AnyKind)) && AllAdjacentRW(adj, All(adj)) && forall i :: i in keep ==> i < |adj|
    ensures Distinct(pi) && (forall i :: i in pi <==> i in keep) && KeepsEdges(adj, pi, from)
  {
    hide Valid, AllAdjacentRW, CommitTime, KeepsEdges;
    var all, le := KeptUpto(|adj|, keep), (u: nat, v: nat) => CommitNoLater(adj, u, v);
    pi := Sort(all, le);
    SortSorted(all, le);
    SameElements(all, pi);
    SameDistinct(all, pi);
    forall p, q | 0 <= p < q < |pi| ensures CommitNoLater(adj, pi[p], pi[q]) {
      assert le(pi[p], pi[q]);
    }
    from := StartsOf(adj, pi);
    TimesKeep(adj, pi);
  }
}
