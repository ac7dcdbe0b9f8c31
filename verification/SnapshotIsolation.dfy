/**
 What the checker's silence means under snapshot isolation, which leaves a cycle alone if two rw
 edges follow one another on it: a history runs on snapshots, the first committer winning, just
 when its reads are faultless and some choice of who came first, of each two writers of what no
 read saw, leaves two such edges on every cycle (listappend/listappend.go, the package comment).
 */
module SnapshotIsolation {
  import opened Seqs
  import opened Graphs
  import opened Cycles
  import opened Classify
  import opened Txns
  import opened Inference
  import opened EdgePass
  import opened Serial
  import opened NoFalseAlarm
  import opened Serializability
  import opened SnapshotOrder

  ghost predicate SnapshotIsolated(txns: seq<Txn>) {
    exists pi, from :: IsSnapshot(txns, pi, from)
  }

  /** Two that appended to one key what no read saw. */
  ghost predicate BothUnread(txns: seq<Txn>, f: Findings, u: nat, v: nat) {
    u != v && exists k :: Unread(txns, f.writer, f.order, u, k) && Unread(txns, f.writer, f.order, v, k)
  }

  /** `more` says, of each two writers of what no read saw, which came first. */
  ghost predicate Settles(txns: seq<Txn>, f: Findings, more: Adj) {
    && |more| == |txns|
    && (forall u: nat, e: Edge :: u < |more| && e in more[u] ==> e.kind.WW? && BothUnread(txns, f, u, e.to))
    && (forall u: nat, v: nat :: BothUnread(txns, f, u, v) ==> HasEdge(more, u, v, WW) || HasEdge(more, v, u, WW))
  }

  ghost function With(adj: Adj, more: Adj): Adj
    requires |adj| == |more|
  {
    seq(|adj|, u requires 0 <= u < |adj| => adj[u] + more[u])
  }

  /** Some choice leaves two rw edges in a row on every cycle. */
  ghost predicate CanSettle(txns: seq<Txn>, f: Findings) {
    exists more ::
      Settles(txns, f, more) && |f.adj| == |more| && AllAdjacentRW(With(f.adj, more), All(With(f.adj, more)))
  }

  lemma UnreadTook(txns: seq<Txn>, f: Findings, u: nat, v: nat)
    requires BothUnread(txns, f, u, v)
    ensures Took(txns, f.writer, f.order, u) && Took(txns, f.writer, f.order, v) && u < |txns| && v < |txns|
  {
  }

  lemma WithEdge(adj: Adj, more: Adj, u: nat, e: Edge)
    requires |adj| == |more| && u < |adj|
    ensures e in With(adj, more)[u] <==> e in adj[u] || e in more[u]
  {
  }

  // ----- A run on snapshots leaves nothing to report

  lemma SnapshotReadsSilent(txns: seq<Txn>, f: Findings, pi: seq<nat>, from: seq<nat>)
    requires Explains(txns, f.writer, f.order, pi, from)
    ensures ReadsSilent(txns, f.writer, false)
  {
    hide Explains, NoAborted, InMadeOrder, NotIntermediate, NoneLost;
    forall i, j, k, list | ReadAt(txns, i, j, k, list) ensures ReadOk(txns, f.writer, false, i, k, list) {
      SnapshotNoAborted(txns, f.writer, f.order, pi, from, i, j, k, list);
      SnapshotInMadeOrder(txns, f.writer, f.order, pi, from, i, j, k, list);
      SnapshotNotIntermediate(txns, f.writer, f.order, pi, from, i, j, k, list);
    }
  }

  lemma SnapshotFaultless(txns: seq<Txn>, f: Findings, pi: seq<nat>, from: seq<nat>)
    requires Explains(txns, f.writer, f.order, pi, from)
    ensures Faultless(txns, f, false) && NoReadAhead(txns)
  {
    hide Unique, Repeatable, Ordered, ReadsSilent, Attributed, Longest, Writes, NoReadAhead, IsSnapshot;
    SnapshotNoReadAhead(txns, pi, from);
    forall i: nat, j: nat, k, v | Writes(txns, i, k, v) && Writes(txns, j, k, v) ensures i == j {
      OneWriter(txns, i, j, k, v);
    }
    forall i, j, k, list | ReadAt(txns, i, j, k, list) ensures ShowsOwn(txns, i, j, k, list) {
      SnapshotShowsOwn(txns, pi, from, i, j, k, list);
    }
    SnapshotRepeatable(txns, pi, from);
    SnapshotOrdered(txns, f.writer, f.order, pi, from);
    SnapshotReadsSilent(txns, f, pi, from);
  }

  /** The choices a run makes. */
  ghost function MadeFrom(txns: seq<Txn>, f: Findings, pi: seq<nat>, u: nat, n: nat): seq<Edge> {
    if n == 0 then []
    else MadeFrom(txns, f, pi, u, n - 1) + if BothUnread(txns, f, u, n - 1) && Pos(pi, u) <= Pos(pi, n - 1) then
      [Edge(n - 1, WW)] else []
  }

  lemma {:induction false} MadeAre(txns: seq<Txn>, f: Findings, pi: seq<nat>, u: nat, n: nat, e: Edge)
    ensures e in MadeFrom(txns, f, pi, u, n) <==>
      e.kind.WW? && e.to < n && BothUnread(txns, f, u, e.to) && Pos(pi, u) <= Pos(pi, e.to)
  {
    hide BothUnread;
    if n > 0 { MadeAre(txns, f, pi, u, n - 1, e); }
  }

  ghost function Made(txns: seq<Txn>, f: Findings, pi: seq<nat>): Adj {
    seq(|txns|, u requires 0 <= u < |txns| => MadeFrom(txns, f, pi, u, |txns|))
  }

  lemma MadeSettles(txns: seq<Txn>, f: Findings, pi: seq<nat>)
    ensures Settles(txns, f, Made(txns, f, pi))
  {
    hide BothUnread;
    var more := Made(txns, f, pi);
    forall u: nat, e: Edge | u < |more| && e in more[u] ensures e.kind.WW? && BothUnread(txns, f, u, e.to) {
      MadeAre(txns, f, pi, u, |txns|, e);
    }
    forall u: nat, v: nat | BothUnread(txns, f, u, v) ensures HasEdge(more, u, v, WW) || HasEdge(more, v, u, WW) {
      UnreadTook(txns, f, u, v);
      UnreadBoth(txns, f, u, v);
      MadeAre(txns, f, pi, u, |txns|, Edge(v, WW));
      MadeAre(txns, f, pi, v, |txns|, Edge(u, WW));
    }
  }

  lemma UnreadBoth(txns: seq<Txn>, f: Findings, u: nat, v: nat)
    requires BothUnread(txns, f, u, v)
    ensures BothUnread(txns, f, v, u)
  {
  }

  ghost predicate Kept(pi: seq<nat>, from: seq<nat>, u: nat, e: Edge) {
    u in pi && e.to in pi &&
    if e.kind.RW? then Start(pi, from, u) <= Pos(pi, e.to) else Pos(pi, u) < Start(pi, from, e.to)
  }

  /** A run keeps a dependency, or a choice it made. */
  lemma EdgeKept(txns: seq<Txn>, f: Findings, pi: seq<nat>, from: seq<nat>, u: nat, e: Edge)
    requires Explains(txns, f.writer, f.order, pi, from) && Built(txns, f, false) && u < |txns|
    requires e in With(f.adj, Made(txns, f, pi))[u]
    ensures Kept(pi, from, u, e)
  {
    hide Explains, Made, WriteDep, ReadDep, AntiDep, Longest, PairsRight, TookRight, Attributed;
    MadeSize(txns, f, pi);
    WithEdge(f.adj, Made(txns, f, pi), u, e);
    if e in f.adj[u] {
      assert e == Edge(e.to, e.kind);
      DepForward(txns, f.writer, f.order, pi, from, u, e.to);
    } else {
      ChoiceKept(txns, f, pi, from, u, e);
    }
  }

  lemma MadeSize(txns: seq<Txn>, f: Findings, pi: seq<nat>)
    ensures |Made(txns, f, pi)| == |txns|
  {
  }

  lemma ChoiceKept(txns: seq<Txn>, f: Findings, pi: seq<nat>, from: seq<nat>, u: nat, e: Edge)
    requires Explains(txns, f.writer, f.order, pi, from) && u < |txns| && e in Made(txns, f, pi)[u]
    ensures e.kind.WW? && u in pi && e.to in pi && Pos(pi, u) < Start(pi, from, e.to)
  {
    hide Unique, IsSnapshot, Attributed, Longest, Took;
    MadeAre(txns, f, pi, u, |txns|, e);
    var k :| Unread(txns, f.writer, f.order, u, k) && Unread(txns, f.writer, f.order, e.to, k);
    TookIn(txns, f.writer, f.order, pi, from, u);
    TookIn(txns, f.writer, f.order, pi, from, e.to);
    SecondSees(txns, pi, from, k, u, e.to);
  }

  lemma RunSettles(txns: seq<Txn>, f: Findings, pi: seq<nat>, from: seq<nat>)
    requires Explains(txns, f.writer, f.order, pi, from) && Built(txns, f, false)
    ensures CanSettle(txns, f)
  {
    hide Explains, Built, Settles, AdjacentRW, Starts;
    var more := Made(txns, f, pi);
    MadeSettles(txns, f, pi);
    BuiltSize(txns, f);
    var adj := With(f.adj, more);
    ExplainsStarts(txns, f, pi, from);
    forall u: nat, e: Edge | u < |adj| && e in adj[u]
      ensures Kept(pi, from, u, e)
    {
      EdgeKept(txns, f, pi, from, u, e);
    }
    AllKept(adj, pi, from);
  }

  lemma BuiltSize(txns: seq<Txn>, f: Findings)
    requires Built(txns, f, false)
    ensures |f.adj| == |txns|
  {
  }

  lemma ExplainsStarts(txns: seq<Txn>, f: Findings, pi: seq<nat>, from: seq<nat>)
    requires Explains(txns, f.writer, f.order, pi, from)
    ensures Starts(pi, from)
  {
  }

  lemma AllKept(adj: Adj, pi: seq<nat>, from: seq<nat>)
    requires Starts(pi, from)
    requires forall u: nat, e: Edge :: u < |adj| && e in adj[u] ==> Kept(pi, from, u, e)
    ensures AllAdjacentRW(adj, All(adj))
  {
    hide Starts, AdjacentRW, Start, Pos;
    assert KeepsEdges(adj, pi, from);
    forall c | IsCycle(adj, All(adj), c) ensures AdjacentRW(c.ks) {
      forall j | 0 <= j < |c.vs| ensures c.vs[j] in pi {
        assert Edge(After(c.vs, j), c.ks[j]) in adj[c.vs[j]];
      }
      KeptAdjacent(adj, All(adj), pi, from, c);
    }
  }

  // ----- And nothing to report leaves a run on snapshots

  lemma WithValid(txns: seq<Txn>, f: Findings, more: Adj)
    requires Attributed(txns, f.writer) && EdgesRight(txns, f, false) && Settles(txns, f, more)
    ensures Valid(Graph(With(f.adj, more), AnyKind))
  {
    hide DepOf, BothUnread, Attributed;
    var adj: Adj := With(f.adj, more);
    forall v, j | 0 <= v < |adj| && 0 <= j < |adj[v]| ensures adj[v][j].to < |adj| {
      var e: Edge := adj[v][j];
      WithEdge(f.adj, more, v, e);
      assert e == Edge(e.to, e.kind);
      if e in f.adj[v] {
        DepInRange(txns, f, v, e.to, e.kind);
      } else {
        UnreadTook(txns, f, v, e.to);
      }
    }
  }

  lemma DepInRange(txns: seq<Txn>, f: Findings, u: nat, v: nat, kind: Kind)
    requires Attributed(txns, f.writer) && DepOf(txns, f, false, u, v, kind)
    ensures v < |txns|
  {
  }

  lemma MustSeeStrong(txns: seq<Txn>, f: Findings, more: Adj, u: nat, v: nat)
    requires EdgesRight(txns, f, false) && |f.adj| == |more| && u < |txns| && u != v
    ensures MustSee(txns, f.writer, f.order, u, v) ==> Strong(With(f.adj, more), u, v)
    ensures AntiDep(txns, f.writer, f.order, u, v) ==> Weak(With(f.adj, more), u, v)
  {
    hide WriteDep, ReadDep, AntiDep;
    if WriteDep(txns, f.writer, f.order, u, v) {
      assert DepOf(txns, f, false, u, v, WW);
      WithEdge(f.adj, more, u, Edge(v, WW));
    }
    if ReadDep(txns, f.writer, u, v) {
      assert DepOf(txns, f, false, u, v, WR);
      WithEdge(f.adj, more, u, Edge(v, WR));
    }
    if AntiDep(txns, f.writer, f.order, u, v) {
      assert DepOf(txns, f, false, u, v, RW);
      WithEdge(f.adj, more, u, Edge(v, RW));
    }
  }

  lemma ChoiceStrong(adj: Adj, more: Adj, u: nat, v: nat)
    requires |adj| == |more| && HasEdge(more, u, v, WW)
    ensures Strong(With(adj, more), u, v)
  {
    WithEdge(adj, more, u, Edge(v, WW));
  }

  lemma KeptOrders(txns: seq<Txn>, f: Findings, more: Adj, pi: seq<nat>, from: seq<nat>)
    requires EdgesRight(txns, f, false) && |f.adj| == |more| && Distinct(pi)
    requires forall i: nat :: i in pi <==> Took(txns, f.writer, f.order, i)
    requires KeepsEdges(With(f.adj, more), pi, from)
    ensures Orders(txns, f.writer, f.order, pi, from)
  {
    hide EdgesRight, MustSee, AntiDep, Strong, Weak, With, Start, Pos;
    forall k | 0 <= k < |pi| ensures pi[k] < |txns| {
      assert pi[k] in pi;
    }
    forall u: nat, v: nat | u in pi && v in pi && u != v
      ensures MustSee(txns, f.writer, f.order, u, v) ==> Pos(pi, u) < Start(pi, from, v)
      ensures AntiDep(txns, f.writer, f.order, u, v) ==> Start(pi, from, u) <= Pos(pi, v)
    {
      MustSeeStrong(txns, f, more, u, v);
    }
  }

  lemma KeptApart(txns: seq<Txn>, f: Findings, more: Adj, pi: seq<nat>, from: seq<nat>)
    requires |f.adj| == |more| && Settles(txns, f, more) && KeepsEdges(With(f.adj, more), pi, from)
    requires forall i: nat :: i in pi <==> Took(txns, f.writer, f.order, i)
    ensures UnreadApart(txns, f.writer, f.order, pi, from)
  {
    hide Strong, Weak, With, Start, Pos, Took, HasEdge;
    forall u: nat, v: nat, k | u != v && Unread(txns, f.writer, f.order, u, k) && Unread(txns, f.writer, f.order, v, k)
      ensures Pos(pi, u) < Start(pi, from, v) || Pos(pi, v) < Start(pi, from, u)
    {
      assert BothUnread(txns, f, u, v);
      if HasEdge(more, u, v, WW) { ChoiceStrong(f.adj, more, u, v); } else { ChoiceStrong(f.adj, more, v, u); }
    }
  }

  lemma SettledRuns(txns: seq<Txn>, f: Findings)
    requires Unique(txns) && NoReadAhead(txns) && Built(txns, f, false) && Faultless(txns, f, false)
    requires CanSettle(txns, f)
    ensures SnapshotIsolated(txns)
  {
    hide Unique, NoReadAhead, Clean, Orders, KeepsEdges, IsSnapshot, Faultless, Settles, UnreadApart, AllAdjacentRW,
      Attributed, Longest, TookRight, EdgesRight, PairsRight, With, Valid;
    FaultlessClean(txns, f, false);
    var more :|
      Settles(txns, f, more) && |f.adj| == |more| && AllAdjacentRW(With(f.adj, more), All(With(f.adj, more)));
    WithValid(txns, f, more);
    WithSize(f.adj, more);
    BuiltSize(txns, f);
    var keep := set i: nat | i < |txns| && Took(txns, f.writer, f.order, i);
    var pi, from := SnapshotOrderOf(With(f.adj, more), keep);
    forall i: nat ensures i in pi <==> Took(txns, f.writer, f.order, i) {
    }
    KeptOrders(txns, f, more, pi, from);
    KeptApart(txns, f, more, pi, from);
    CleanIsSnapshot(txns, f.writer, f.order, pi, from);
  }

  lemma WithSize(adj: Adj, more: Adj)
    requires |adj| == |more|
    ensures |With(adj, more)| == |adj|
  {
  }

  /** Exactly when a history of unique values runs on snapshots. */
  lemma SnapshotIff(txns: seq<Txn>, f: Findings)
    requires Unique(txns) && Built(txns, f, false)
    ensures SnapshotIsolated(txns) <==> Faultless(txns, f, false) && NoReadAhead(txns) && CanSettle(txns, f)
  {
    hide Unique, NoReadAhead, IsSnapshot, Faultless, CanSettle, EdgesRight, PairsRight, TookRight;
    if pi, from :| IsSnapshot(txns, pi, from) {
      assert Explains(txns, f.writer, f.order, pi, from);
      SnapshotFaultless(txns, f, pi, from);
      RunSettles(txns, f, pi, from);
    }
    if Faultless(txns, f, false) && NoReadAhead(txns) && CanSettle(txns, f) {
      SettledRuns(txns, f);
    }
  }

  // ----- With no choice to make

  /** No two transactions appended to one key what no read saw. */
  ghost predicate LoneUnread(txns: seq<Txn>, f: Findings) {
    forall u: nat, v: nat :: !BothUnread(txns, f, u, v)
  }

  /** Nothing is reported that snapshot isolation forbids. */
  ghost predicate SnapshotSilent(txns: seq<Txn>, f: Findings) {
    Faultless(txns, f, false) && f.pairs == [] && AllAdjacentRW(f.adj, All(f.adj))
  }

  lemma SubgraphAdjacent(adj: Adj, more: Adj)
    requires |adj| == |more| && AllAdjacentRW(With(adj, more), All(With(adj, more)))
    ensures AllAdjacentRW(adj, All(adj))
  {
    hide AdjacentRW;
    forall c | IsCycle(adj, All(adj), c) ensures AdjacentRW(c.ks) {
      forall i | 0 <= i < |c.vs| ensures Edge(After(c.vs, i), c.ks[i]) in With(adj, more)[c.vs[i]] {
        WithEdge(adj, more, c.vs[i], Edge(After(c.vs, i), c.ks[i]));
      }
      assert IsCycle(With(adj, more), All(With(adj, more)), c);
    }
  }

  lemma NoSnapshotPairs(txns: seq<Txn>, f: Findings, pi: seq<nat>, from: seq<nat>)
    requires Explains(txns, f.writer, f.order, pi, from) && PairsRight(txns, f)
    ensures f.pairs == []
  {
    hide Explains, LostUpdate, PairsRight;
    forall i: nat, j: nat, k ensures !LostUpdate(txns, f.writer, f.order, i, j, k) {
      SnapshotNoLostUpdate(txns, f.writer, f.order, pi, from, i, j, k);
    }
    NoneLostNoPairs(txns, f);
  }

  /** A history that runs on snapshots is never reported for what snapshot isolation forbids. */
  lemma SnapshotNoFalseAlarm(txns: seq<Txn>, f: Findings)
    requires Unique(txns) && Built(txns, f, false) && SnapshotIsolated(txns)
    ensures SnapshotSilent(txns, f) && NoReadAhead(txns)
  {
    hide Unique, NoReadAhead, IsSnapshot, Faultless, Settles, AllAdjacentRW, EdgesRight, TookRight, PairsRight;
    SnapshotIff(txns, f);
    var pi, from :| IsSnapshot(txns, pi, from);
    NoSnapshotPairs(txns, f, pi, from);
    var more :|
      Settles(txns, f, more) && |f.adj| == |more| && AllAdjacentRW(With(f.adj, more), All(With(f.adj, more)));
    SubgraphAdjacent(f.adj, more);
  }

  lemma NothingToSettle(txns: seq<Txn>, f: Findings)
    requires LoneUnread(txns, f) && |f.adj| == |txns| && AllAdjacentRW(f.adj, All(f.adj))
    ensures CanSettle(txns, f)
  {
    hide BothUnread, AllAdjacentRW;
    var more: Adj := seq(|txns|, _ => []);
    forall u | 0 <= u < |f.adj| ensures With(f.adj, more)[u] == f.adj[u] {
      assert more[u] == [];
    }
    assert With(f.adj, more) == f.adj;
    assert Settles(txns, f, more);
  }

  /** Where at most one transaction's appends to each key are unread, silence is snapshot isolation. */
  lemma SilenceIsSnapshotIsolation(txns: seq<Txn>, f: Findings)
    requires Unique(txns) && Built(txns, f, false) && LoneUnread(txns, f)
    ensures SnapshotSilent(txns, f) && NoReadAhead(txns) <==> SnapshotIsolated(txns)
  {
    hide Unique, NoReadAhead, Faultless, AllAdjacentRW, SnapshotIsolated, LoneUnread, CanSettle;
    if SnapshotIsolated(txns) { SnapshotNoFalseAlarm(txns, f); }
    if SnapshotSilent(txns, f) && NoReadAhead(txns) {
      BuiltSize(txns, f);
      NothingToSettle(txns, f);
      SnapshotIff(txns, f);
    }
  }
}
