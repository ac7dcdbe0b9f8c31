/**
 What the checker's silence means: with nothing to report, and no transaction reading ahead of
 its own appends, a history is serializable, strictly so when real time counts; and a
 serializable history leaves nothing to report (listappend/listappend.go, Check).
 */
module Serializability {
  import opened Seqs
  import opened History
  import opened Graphs
  import opened Cycles
  import opened Classify
  import opened Txns
  import opened Inference
  import opened Serial
  import opened NoFalseAlarm
  import opened Topological
  import opened Strict

  ghost predicate Serializable(txns: seq<Txn>, realtime: bool) {
    exists pi :: IsSerial(txns, pi) && (realtime ==> KeepsRealTime(txns, pi))
  }

  /** What the checker works out before it looks for cycles. */
  datatype Findings = Findings(writer: Writer, order: Order, took: seq<bool>, adj: Adj, pairs: seq<Pair>)

  ghost predicate DepOf(txns: seq<Txn>, f: Findings, realtime: bool, u: nat, v: nat, kind: Kind) {
    match kind
    case WW => WriteDep(txns, f.writer, f.order, u, v)
    case WR => ReadDep(txns, f.writer, u, v)
    case RW => AntiDep(txns, f.writer, f.order, u, v)
    case Realtime => realtime && RealtimeDep(txns, f.took, u, v)
  }

  /** The edges are the dependencies, but for those of a transaction on itself. */
  ghost predicate EdgesRight(txns: seq<Txn>, f: Findings, realtime: bool) {
    && |f.adj| == |txns|
    && (forall u: nat, v: nat, kind :: u < |txns| ==>
      (Edge(v, kind) in f.adj[u] <==> u != v && DepOf(txns, f, realtime, u, v, kind)))
  }

  /** The pairs are the lost updates no read saw, each once. */
  ghost predicate PairsRight(txns: seq<Txn>, f: Findings) {
    && Distinct(f.pairs)
    && forall i: nat, j: nat, k :: Pair(i, j, k) in f.pairs <==> i < j && LostUpdate(txns, f.writer, f.order, i, j, k)
  }

  ghost predicate Built(txns: seq<Txn>, f: Findings, realtime: bool) {
    && Attributed(txns, f.writer)
    && Longest(txns, f.order)
    && TookRight(txns, f.writer, f.order, f.took)
    && EdgesRight(txns, f, realtime)
    && PairsRight(txns, f)
  }

  /** No two transactions append the same value to a key. */
  ghost predicate NoneShared(txns: seq<Txn>) {
    forall i: nat, j: nat, k, v :: Writes(txns, i, k, v) && Writes(txns, j, k, v) ==> i == j
  }

  ghost predicate ReadsSilent(txns: seq<Txn>, writer: Writer, realtime: bool) {
    forall i, j, k, list :: ReadAt(txns, i, j, k, list) ==> ReadOk(txns, writer, realtime, i, k, list)
  }

  ghost predicate OwnShown(txns: seq<Txn>) {
    forall i, j, k, list :: ReadAt(txns, i, j, k, list) ==> ShowsOwn(txns, i, j, k, list)
  }

  /** There is nothing to report of what was appended and read. */
  ghost predicate Faultless(txns: seq<Txn>, f: Findings, realtime: bool) {
    && NoneShared(txns)
    && OwnShown(txns)
    && Repeatable(txns)
    && Ordered(txns, f.order)
    && ReadsSilent(txns, f.writer, realtime)
  }

  /** There is nothing to report. */
  ghost predicate Silent(txns: seq<Txn>, f: Findings, realtime: bool) {
    Faultless(txns, f, realtime) && Acyclic(f.adj) && f.pairs == []
  }

  // ----- Silence means serializable

  lemma FaultlessClean(txns: seq<Txn>, f: Findings, realtime: bool)
    requires Built(txns, f, realtime) && Faultless(txns, f, realtime)
    ensures Clean(txns, f.writer, f.order)
  {
    hide ShowsOwn, NoAborted, InMadeOrder, Ordered, EdgesRight, PairsRight, Acyclic, NotIntermediate, NoneLost;
    forall i, j, k, list | ReadAt(txns, i, j, k, list)
      ensures ShowsOwn(txns, i, j, k, list) && NoAborted(txns, f.writer, k, list) &&
        InMadeOrder(txns, f.writer, i, k, list)
    {
      assert ReadOk(txns, f.writer, realtime, i, k, list);
    }
  }

  lemma DepReach(txns: seq<Txn>, f: Findings, realtime: bool, u: nat, v: nat)
    requires Built(txns, f, realtime) && u < |txns| && u != v && Dep(txns, f.writer, f.order, u, v)
    ensures Reach(Graph(f.adj, AnyKind), u, v)
  {
    hide WriteDep, ReadDep, AntiDep, Longest, TookRight, PairsRight, Attributed;
    var kind := if WriteDep(txns, f.writer, f.order, u, v) then WW else if ReadDep(txns, f.writer, u, v) then WR
      else RW;
    assert DepOf(txns, f, realtime, u, v, kind);
    EdgeReach(f.adj, AnyKind, u, v, kind);
  }

  lemma RealtimeEdges(txns: seq<Txn>, f: Findings)
    requires Built(txns, f, true)
    ensures HasRealtime(txns, f.took, f.adj)
  {
    hide RealtimeDep, Longest, PairsRight, Attributed;
    forall i: nat, j: nat | RealtimeDep(txns, f.took, i, j) && i != j
      ensures i < |f.adj| && Edge(j, Realtime) in f.adj[i]
    {
      RealtimeInRange(txns, f.took, i, j);
      assert DepOf(txns, f, true, i, j, Realtime);
    }
  }

  lemma RealtimeInRange(txns: seq<Txn>, took: seq<bool>, i: nat, j: nat)
    requires RealtimeDep(txns, took, i, j)
    ensures i < |txns| && j < |txns| && |took| == |txns| && txns[i].status.Committed? && Succeeds(txns, took, i, j)
  {
  }

  /** An order that follows the edges keeps the dependencies and real time. */
  lemma FollowsOrders(txns: seq<Txn>, f: Findings, realtime: bool, pi: seq<nat>)
    requires Built(txns, f, realtime) && Distinct(pi) && Follows(f.adj, pi)
    requires forall i: nat :: i in pi <==> Took(txns, f.writer, f.order, i)
    ensures Orders(txns, f.writer, f.order, pi, Upto(|pi|))
  {
    hide Dep, Longest, EdgesRight, PairsRight, Attributed, Reach, TookRight;
    forall k | 0 <= k < |pi| ensures pi[k] < |txns| {
      assert pi[k] in pi;
    }
    forall u: nat, v: nat | u in pi && v in pi && u != v && Dep(txns, f.writer, f.order, u, v)
      ensures Pos(pi, u) < Pos(pi, v)
    {
      DepReach(txns, f, realtime, u, v);
    }
    SerialOrders(txns, f.writer, f.order, pi);
  }

  lemma FollowsRealTime(txns: seq<Txn>, f: Findings, pi: seq<nat>)
    requires Built(txns, f, true) && Timed(txns) && Distinct(pi) && Follows(f.adj, pi)
    requires forall i: nat :: i in pi <==> Took(txns, f.writer, f.order, i)
    ensures InRange(|txns|, pi) && KeepsRealTime(txns, pi)
  {
    hide Longest, EdgesRight, PairsRight, Attributed, Reach;
    RealtimeEdges(txns, f);
    forall k | 0 <= k < |pi| ensures pi[k] < |txns| {
      assert pi[k] in pi;
    }
    forall p, q | 0 <= p < q < |pi| && txns[pi[q]].status.Committed? ensures !(txns[pi[q]].ret < txns[pi[p]].call) {
      assert pi[p] in pi && pi[q] in pi;
      if txns[pi[q]].ret < txns[pi[p]].call {
        RealtimeReach(txns, f.took, f.adj, AnyKind, pi[q], pi[p]);
        PosAt(pi, p);
        PosAt(pi, q);
        assert false;
      }
    }
  }

  lemma SilentSerializable(txns: seq<Txn>, f: Findings, realtime: bool)
    requires Unique(txns) && NoReadAhead(txns) && (realtime ==> Timed(txns))
    requires Built(txns, f, realtime) && Silent(txns, f, realtime)
    ensures Serializable(txns, realtime)
  {
    hide Unique, NoReadAhead, Clean, Orders, Follows, IsSerial, KeepsRealTime, Timed, NoneShared, OwnShown,
      Repeatable, Ordered, ReadsSilent, Acyclic;
    FaultlessClean(txns, f, realtime);
    var keep := set i: nat | i < |txns| && Took(txns, f.writer, f.order, i);
    var pi := TopologicalOrder(f.adj, keep);
    forall i: nat ensures i in pi <==> Took(txns, f.writer, f.order, i) {
    }
    FollowsOrders(txns, f, realtime, pi);
    CleanIsSerial(txns, f.writer, f.order, pi);
    if realtime {
      FollowsRealTime(txns, f, pi);
    }
  }

  // ----- Serializable means silence

  lemma ArcForward(txns: seq<Txn>, f: Findings, realtime: bool, pi: seq<nat>, u: nat, v: nat)
    requires Built(txns, f, realtime) && Unique(txns) && IsSerial(txns, pi) && (realtime ==> KeepsRealTime(txns, pi))
    requires Arc(Graph(f.adj, AnyKind), u, v)
    ensures u in pi && v in pi && Pos(pi, u) < Pos(pi, v)
  {
    hide Unique, IsSerial, Longest, PairsRight, Attributed, WriteDep, ReadDep, AntiDep, KeepsRealTime;
    var n: nat :| Via(Graph(f.adj, AnyKind), u, n, v);
    var kind := f.adj[u][n].kind;
    assert Edge(v, kind) in f.adj[u];
    SerialExplains(txns, f, realtime, pi);
    if kind.Realtime? {
      RealtimeForward(txns, f, pi, u, v);
    } else {
      DepForward(txns, f.writer, f.order, pi, Upto(|pi|), u, v);
      SeesAll(pi, u);
      SeesAll(pi, v);
      PosDistinct(pi, u, v);
    }
  }

  lemma SerialExplains(txns: seq<Txn>, f: Findings, realtime: bool, pi: seq<nat>)
    requires Built(txns, f, realtime) && Unique(txns) && IsSerial(txns, pi)
    ensures Explains(txns, f.writer, f.order, pi, Upto(|pi|)) && OfEffect(txns, pi)
  {
    hide Unique, IsSnapshot, Longest, PairsRight, Attributed, EdgesRight, TookRight;
    SerialIsSnapshot(txns, pi);
  }

  lemma RealtimeForward(txns: seq<Txn>, f: Findings, pi: seq<nat>, u: nat, v: nat)
    requires Built(txns, f, true) && Explains(txns, f.writer, f.order, pi, Upto(|pi|)) && OfEffect(txns, pi) &&
      KeepsRealTime(txns, pi) &&
      RealtimeDep(txns, f.took, u, v) && u != v
    ensures u in pi && v in pi && Pos(pi, u) < Pos(pi, v)
  {
    hide Unique, IsSerial, Longest, PairsRight, Attributed, Took, EdgesRight, FirstReturn;
    TookIn(txns, f.writer, f.order, pi, Upto(|pi|), v);
    CommittedIn(txns, pi, u);
    PosDistinct(pi, u, v);
  }

  lemma SerialReadsSilent(txns: seq<Txn>, f: Findings, realtime: bool, pi: seq<nat>)
    requires Explains(txns, f.writer, f.order, pi, Upto(|pi|)) && OfEffect(txns, pi) &&
      (realtime ==> KeepsRealTime(txns, pi))
    ensures ReadsSilent(txns, f.writer, realtime)
  {
    hide Explains, NoAborted, InMadeOrder, NotIntermediate, NoneLost, KeepsRealTime;
    forall i, j, k, list | ReadAt(txns, i, j, k, list) ensures ReadOk(txns, f.writer, realtime, i, k, list) {
      SnapshotNoAborted(txns, f.writer, f.order, pi, Upto(|pi|), i, j, k, list);
      SnapshotInMadeOrder(txns, f.writer, f.order, pi, Upto(|pi|), i, j, k, list);
      SnapshotNotIntermediate(txns, f.writer, f.order, pi, Upto(|pi|), i, j, k, list);
      if realtime {
        SerialNoneLost(txns, f.writer, f.order, pi, i, j, k, list);
      }
    }
  }

  lemma SerializableSilent(txns: seq<Txn>, f: Findings, realtime: bool)
    requires Unique(txns) && Built(txns, f, realtime) && Serializable(txns, realtime)
    ensures Silent(txns, f, realtime) && NoReadAhead(txns)
  {
    hide Unique, KeepsRealTime, Repeatable, Ordered, ReadsSilent, Acyclic, Attributed, Longest, TookRight,
      EdgesRight, Writes, LostUpdate, NoReadAhead;
    var pi :| IsSerial(txns, pi) && (realtime ==> KeepsRealTime(txns, pi));
    SerialExplains(txns, f, realtime, pi);
    SnapshotNoReadAhead(txns, pi, Upto(|pi|));
    forall i: nat, j: nat, k, v | Writes(txns, i, k, v) && Writes(txns, j, k, v) ensures i == j {
      OneWriter(txns, i, j, k, v);
    }
    forall i, j, k, list | ReadAt(txns, i, j, k, list) ensures ShowsOwn(txns, i, j, k, list) {
      SnapshotShowsOwn(txns, pi, Upto(|pi|), i, j, k, list);
    }
    SnapshotRepeatable(txns, pi, Upto(|pi|));
    SnapshotOrdered(txns, f.writer, f.order, pi, Upto(|pi|));
    SerialReadsSilent(txns, f, realtime, pi);
    forall u: nat, v: nat | Arc(Graph(f.adj, AnyKind), u, v) ensures u in pi && v in pi && Pos(pi, u) < Pos(pi, v) {
      ArcForward(txns, f, realtime, pi, u, v);
    }
    ForwardAcyclic(f.adj, pi);
    NoPairs(txns, f, pi);
  }

  lemma NoPairs(txns: seq<Txn>, f: Findings, pi: seq<nat>)
    requires Explains(txns, f.writer, f.order, pi, Upto(|pi|)) && OfEffect(txns, pi) && PairsRight(txns, f)
    ensures f.pairs == []
  {
    hide Explains, LostUpdate, PairsRight;
    forall i: nat, j: nat, k ensures !LostUpdate(txns, f.writer, f.order, i, j, k) {
      SnapshotNoLostUpdate(txns, f.writer, f.order, pi, Upto(|pi|), i, j, k);
    }
    NoneLostNoPairs(txns, f);
  }

  lemma NoneLostNoPairs(txns: seq<Txn>, f: Findings)
    requires PairsRight(txns, f) && forall i: nat, j: nat, k :: !LostUpdate(txns, f.writer, f.order, i, j, k)
    ensures f.pairs == []
  {
    hide LostUpdate;
    assert f.pairs != [] ==> f.pairs[0] in f.pairs;
    forall p: Pair ensures p !in f.pairs {
      assert p == Pair(p.a, p.b, p.key);
    }
  }

  /** Silence and no reading ahead, on one side; a serial order of the history, on the other. */
  lemma SilenceIsSerializability(txns: seq<Txn>, f: Findings, realtime: bool)
    requires Unique(txns) && (realtime ==> Timed(txns)) && Built(txns, f, realtime)
    ensures Silent(txns, f, realtime) && NoReadAhead(txns) <==> Serializable(txns, realtime)
  {
    hide *;
    if Silent(txns, f, realtime) && NoReadAhead(txns) {
      SilentSerializable(txns, f, realtime);
    }
    if Serializable(txns, realtime) {
      SerializableSilent(txns, f, realtime);
    }
  }
}
