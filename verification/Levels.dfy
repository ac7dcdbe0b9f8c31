/**
 What each isolation level forbids (listappend/listappend.go, Forbidden), and what it means that
 nothing a level forbids is reported.
 */
module Levels {
  import opened Seqs
  import opened Reports
  import opened Graphs
  import opened Components
  import opened Cycles
  import opened Classify
  import opened Txns
  import opened Inference
  import opened Strict
  import opened Serializability
  import opened SnapshotOrder
  import opened SnapshotIsolation
  import opened Passes
  import opened Verdicts
  import C = Checker

  function Forbidden(level: string): seq<string> {
    var base := ["G0", "G1a", "G1b", "G1c", "incompatible-order", "duplicate", "internal"];
    if level == "read-committed" then base
    else if level == "snapshot-isolation" then base + ["nonrepeatable", "G-single", "G-nonadjacent"]
    else if level == "serializable" || level == "strict-serializable" then
      base + ["nonrepeatable", "G-single", "G-nonadjacent", "G2", "lost"]
    else []
  }

  /** No report is of a kind the level forbids. */
  ghost predicate Allows(level: string, kinds: set<string>) {
    forall kind :: kind in kinds ==> kind !in Forbidden(level)
  }

  // ----- Only G2 reported

  ghost predicate AllG2(reports: seq<Report>) {
    forall r :: r in reports ==> IsG2(r)
  }

  lemma PartG2(adj: Adj, inside: set<nat>, pairs: seq<Pair>, part: seq<Report>)
    requires Verdict(adj, inside, pairs, part)
    ensures AllG2(part) <==> AllAdjacentRW(adj, inside) && NoPairWithin(inside, pairs)
  {
    hide AllRight, AllAdjacentRW, NoPairWithin;
    assert part[0] in part;
  }

  lemma PartsG2(adj: Adj, pairs: seq<Pair>, comps: seq<seq<nat>>, parts: seq<seq<Report>>)
    requires Reported(adj, pairs, comps, parts)
    ensures AllG2(Flatten(parts)) <==> forall d :: 0 <= d < |comps| ==>
      AllAdjacentRW(adj, Elements(comps[d])) && NoPairWithin(Elements(comps[d]), pairs)
  {
    hide Verdict, Exact, AreComponents, AllAdjacentRW, NoPairWithin;
    forall r ensures r in Flatten(parts) <==> exists i :: 0 <= i < |parts| && r in parts[i] {
      InFlatten(parts, r);
    }
    forall d | 0 <= d < |comps|
      ensures AllG2(parts[d]) <==> AllAdjacentRW(adj, Elements(comps[d])) && NoPairWithin(Elements(comps[d]), pairs)
    {
      PartG2(adj, Elements(comps[d]), pairs, parts[d]);
    }
    if AllG2(Flatten(parts)) {
      forall d | 0 <= d < |comps| ensures AllG2(parts[d]) {
      }
    }
  }

  lemma AdjacentByComponent(adj: Adj, comps: seq<seq<nat>>)
    requires AreComponents(Graph(adj, AnyKind), comps) && NoSelfEdges(adj)
    ensures AllAdjacentRW(adj, All(adj)) <==> forall d :: 0 <= d < |comps| ==> AllAdjacentRW(adj, Elements(comps[d]))
  {
    hide AreComponents, NoSelfEdges, AdjacentRW;
    if AllAdjacentRW(adj, All(adj)) {
      forall d, c | 0 <= d < |comps| && IsCycle(adj, Elements(comps[d]), c) ensures AdjacentRW(c.ks) {
        assert IsCycle(adj, All(adj), c);
      }
    }
    if forall d :: 0 <= d < |comps| ==> AllAdjacentRW(adj, Elements(comps[d])) {
      forall c | IsCycle(adj, All(adj), c) ensures AdjacentRW(c.ks) {
        var d := CycleWithinOne(adj, comps, c);
        assert AllAdjacentRW(adj, Elements(comps[d]));
      }
    }
  }

  lemma NoPairAnywhere(pairs: seq<Pair>, comps: seq<seq<nat>>, apart: seq<Report>)
    requires IsApart(pairs, comps, apart)
    ensures AllG2(apart) && (forall d :: 0 <= d < |comps| ==> NoPairWithin(Elements(comps[d]), pairs)) <==> pairs == []
  {
    if pairs == [] {
      NothingIn(apart);
    } else {
      var p := pairs[0];
      if OnPair(p) in apart {
        assert !IsG2(OnPair(p));
      } else {
        var d :| 0 <= d < |comps| && p.a in comps[d] && p.b in comps[d];
        assert !NoPairWithin(Elements(comps[d]), pairs);
      }
    }
  }

  /** The only reports on the graph are G2, just when every cycle has two rw edges in a row and no update was lost. */
  lemma GraphG2(f: Findings, found: seq<Report>)
    requires GraphReported(f, found) && NoSelfEdges(f.adj)
    ensures AllG2(found) <==> AllAdjacentRW(f.adj, All(f.adj)) && f.pairs == []
  {
    hide Reported, NoSelfEdges, AllAdjacentRW, NoPairWithin, IsApart, Flatten;
    var comps, parts, apart :|
      Reported(f.adj, f.pairs, comps, parts) && found == Flatten(parts) + apart && IsApart(f.pairs, comps, apart);
    PartsG2(f.adj, f.pairs, comps, parts);
    NoPairAnywhere(f.pairs, comps, apart);
    ReportedComponents(f.adj, f.pairs, comps, parts);
    AdjacentByComponent(f.adj, comps);
    assert AllG2(found) <==> AllG2(Flatten(parts)) && AllG2(apart);
  }

  lemma ReportedComponents(adj: Adj, pairs: seq<Pair>, comps: seq<seq<nat>>, parts: seq<seq<Report>>)
    requires Reported(adj, pairs, comps, parts)
    ensures AreComponents(Graph(adj, AnyKind), comps)
  {
  }

  // ----- Under snapshot isolation

  function KindOf(r: Report): string {
    if r.OnCycle? then CycleName(r.kind) else "G-single"
  }

  lemma OnlyG2Allowed(r: Report)
    ensures KindOf(r) !in Forbidden("snapshot-isolation") <==> IsG2(r)
  {
    var forbidden := Forbidden("snapshot-isolation");
    assert forbidden[0] == "G0" && forbidden[3] == "G1c" && forbidden[8] == "G-single" &&
      forbidden[9] == "G-nonadjacent";
  }

  lemma SaidAllowed(found: seq<Report>)
    ensures Allows("snapshot-isolation", SayKinds(found)) <==> AllG2(found)
  {
    hide Forbidden, IsG2;
    forall i | 0 <= i < |found| ensures KindOf(found[i]) !in Forbidden("snapshot-isolation") <==> IsG2(found[i]) {
      OnlyG2Allowed(found[i]);
    }
    if Allows("snapshot-isolation", SayKinds(found)) {
      forall r | r in found ensures IsG2(r) {
        var i :| 0 <= i < |found| && found[i] == r;
        assert KindOf(found[i]) in SayKinds(found);
      }
    }
    if AllG2(found) {
      forall kind | kind in SayKinds(found) ensures kind !in Forbidden("snapshot-isolation") {
        var i :| 0 <= i < |found| && kind == KindOf(found[i]);
        assert found[i] in found;
      }
    }
  }

  lemma ForbiddenOfReads()
    ensures forall kind :: kind in {"G1a", "G1b", "incompatible-order", "duplicate", "internal", "nonrepeatable"} ==>
      kind in Forbidden("snapshot-isolation")
  {
    var forbidden := Forbidden("snapshot-isolation");
    assert forbidden[1] == "G1a" && forbidden[2] == "G1b" && forbidden[4] == "incompatible-order" &&
      forbidden[5] == "duplicate" && forbidden[6] == "internal" && forbidden[7] == "nonrepeatable";
  }

  lemma PassesForbidden(txns: seq<Txn>, f: Findings)
    ensures forall kind :: kind in C.PassKinds(txns, f, false) ==> kind in Forbidden("snapshot-isolation")
  {
    hide Forbidden, NoneShared, OwnShown, Repeatable, ReadsDistinct, ReadsBegin, C.ReadsMeet;
    ForbiddenOfReads();
  }

  /** No kind that snapshot isolation forbids is reported, just when the history gives no reason to. */
  lemma ForbiddenMeans(txns: seq<Txn>, f: Findings, found: seq<Report>)
    requires Built(txns, f, false) && GraphReported(f, found)
    ensures Allows("snapshot-isolation", C.PassKinds(txns, f, false) + SayKinds(found)) <==> SnapshotSilent(txns, f)
  {
    hide Forbidden, C.PassKinds, SayKinds, GraphReported, Faultless, AllAdjacentRW, Valid;
    PassesForbidden(txns, f);
    C.PassKindsNone(txns, f, false);
    SaidAllowed(found);
    C.GraphFits(txns, f, false);
    GraphG2(f, found);
  }

  /**
   A history that runs on snapshots has nothing that snapshot isolation forbids reported against
   it. Where no two transactions appended to one key what no read saw, one that has nothing of the
   sort reported, and does not read ahead, runs on snapshots.
   */
  lemma SnapshotLevel(txns: seq<Txn>, f: Findings, found: seq<Report>, out: seq<Anomaly<About>>)
    requires Unique(txns) && Built(txns, f, false) && GraphReported(f, found)
    requires KindsOf(out) == C.PassKinds(txns, f, false) + SayKinds(found)
    ensures SnapshotIsolated(txns) ==> Allows("snapshot-isolation", KindsOf(out)) && NoReadAhead(txns)
    ensures LoneUnread(txns, f) && Allows("snapshot-isolation", KindsOf(out)) && NoReadAhead(txns) ==>
      SnapshotIsolated(txns)
  {
    hide *;
    ForbiddenMeans(txns, f, found);
    if SnapshotIsolated(txns) { SnapshotNoFalseAlarm(txns, f); }
    if LoneUnread(txns, f) { SilenceIsSnapshotIsolation(txns, f); }
  }

  // ----- Under serializability

  lemma AllForbidden(level: string)
    requires level == "serializable" || level == "strict-serializable"
    ensures forall kind ::
      kind in {"duplicate", "internal", "nonrepeatable", "incompatible-order", "G1a", "G1b", "lost"} ==>
      kind in Forbidden(level)
    ensures forall kind :: kind in {"G0", "G1c", "G-single", "G-nonadjacent", "G2"} ==> kind in Forbidden(level)
  {
    var forbidden := Forbidden(level);
    assert "serializable" != "read-committed" && "serializable" != "snapshot-isolation";
    assert "strict-serializable" != "read-committed" && "strict-serializable" != "snapshot-isolation";
    assert forbidden[0] == "G0" && forbidden[1] == "G1a" && forbidden[2] == "G1b" && forbidden[3] == "G1c" &&
      forbidden[4] == "incompatible-order" && forbidden[5] == "duplicate";
    assert forbidden[6] == "internal" && forbidden[7] == "nonrepeatable" && forbidden[8] == "G-single" &&
      forbidden[9] == "G-nonadjacent" && forbidden[10] == "G2" && forbidden[11] == "lost";
  }

  lemma GraphSilent(f: Findings, found: seq<Report>)
    requires GraphReported(f, found)
    ensures SayKinds(found) == {} <==> Acyclic(f.adj) && f.pairs == []
  {
    hide Reported, Acyclic, Flatten;
    var comps, parts, apart :|
      Reported(f.adj, f.pairs, comps, parts) && found == Flatten(parts) + apart && IsApart(f.pairs, comps, apart);
    NothingReported(f.adj, f.pairs, comps, parts, apart);
    if found != [] { SaidIs(found, SaidKind(found[0])); }
  }

  /**
   With unique values nothing that serializability forbids is reported, and none reads ahead, exactly when the
   history is serializable; and the same of strict serializability, with Realtime.
   */
  lemma SerializableLevel(txns: seq<Txn>, f: Findings, realtime: bool, found: seq<Report>, out: seq<Anomaly<About>>,
      level: string)
    requires Unique(txns) && (realtime ==> Timed(txns)) && Built(txns, f, realtime) && GraphReported(f, found)
    requires KindsOf(out) == C.PassKinds(txns, f, realtime) + SayKinds(found)
    requires level == if realtime then "strict-serializable" else "serializable"
    ensures Allows(level, KindsOf(out)) && NoReadAhead(txns) <==> Serializable(txns, realtime)
  {
    hide Unique, Timed, Serializable, NoReadAhead, C.PassKinds, SayKinds, KindsOf, Forbidden, GraphReported, Faultless,
      Acyclic, NoSelfEdges, C.HistoryKinds, GraphKinds;
    AllForbidden(level);
    C.PassNamed(txns, f, realtime);
    C.GraphFits(txns, f, realtime);
    SaidAll(f, found);
    C.PassKindsNone(txns, f, realtime);
    GraphSilent(f, found);
    SilenceIsSerializability(txns, f, realtime);
    assert Allows(level, KindsOf(out)) <==> KindsOf(out) == {};
  }

  // ----- Under read committed

  lemma ReadCommittedNames()
    ensures forall kind :: kind in Forbidden("read-committed") <==>
      kind in {"G0", "G1a", "G1b", "G1c", "incompatible-order", "duplicate", "internal"}
  {
    var forbidden := Forbidden("read-committed");
    assert forbidden[0] == "G0" && forbidden[1] == "G1a" && forbidden[2] == "G1b" && forbidden[3] == "G1c" &&
      forbidden[4] == "incompatible-order" && forbidden[5] == "duplicate" && forbidden[6] == "internal";
  }

  /** The read is of what was committed, whole and in order. */
  ghost predicate ReadCommitted(txns: seq<Txn>, f: Findings, i: nat, k: Key, list: seq<Value>) {
    && NoAborted(txns, f.writer, k, list) && InMadeOrder(txns, f.writer, i, k, list)
    && NotIntermediate(txns, f.writer, i, k, list)
  }

  ghost predicate ReadsCommitted(txns: seq<Txn>, f: Findings) {
    && NoneShared(txns) && ReadsDistinct(txns) && OwnShown(txns) && ReadsBegin(txns, f.order)
    && forall i, j, k, list :: ReadAt(txns, i, j, k, list) ==> ReadCommitted(txns, f, i, k, list)
  }

  /** Nothing that read committed forbids is reported, exactly when reads are so and no cycle is without an rw edge. */
  lemma ReadCommittedLevel(txns: seq<Txn>, f: Findings, realtime: bool, found: seq<Report>, kinds: set<string>)
    requires GraphReported(f, found) && C.HistoryKinds(txns, f, realtime, kinds) && GraphKinds(f, kinds)
    requires NoSelfEdges(f.adj)
    ensures Allows("read-committed", kinds) <==> ReadsCommitted(txns, f) && NoCycle(f.adj, All(f.adj), NoRW)
  {
    hide NoneShared, ReadsDistinct, OwnShown, ReadsBegin, NoAborted, InMadeOrder, NotIntermediate, Forbidden, NoCycle,
      OnlyG1c, NoSelfEdges, Reported, Flatten, IsApart;
    ReadCommittedNames();
    var comps, parts, apart :|
      Reported(f.adj, f.pairs, comps, parts) && found == Flatten(parts) + apart && IsApart(f.pairs, comps, apart);
    ReportedComponents(f.adj, f.pairs, comps, parts);
    NoRWByKinds(f.adj, comps);
  }

  lemma NoRWByKinds(adj: Adj, comps: seq<seq<nat>>)
    requires AreComponents(Graph(adj, AnyKind), comps) && NoSelfEdges(adj)
    ensures NoCycle(adj, All(adj), NoRW) <==> NoCycle(adj, All(adj), OnlyWW) && forall comp :: !OnlyG1c(adj, comp)
  {
    hide AreComponents, NoSelfEdges, IsCycle, OfKinds;
    forall c: Cycle ensures OfKinds(OnlyWW, c) ==> OfKinds(NoRW, c) {
      WWAreNoRW(c);
    }
    if NoCycle(adj, All(adj), NoRW) {
      forall comp ensures !OnlyG1c(adj, comp) {
        forall c | IsCycle(adj, Elements(comp), c) ensures IsCycle(adj, All(adj), c) {
          CycleAnywhere(adj, Elements(comp), c);
        }
      }
    } else {
      NoCycleByComponent(adj, comps, NoRW);
      NoCycleByComponent(adj, comps, OnlyWW);
      var d :| 0 <= d < |comps| && !NoCycle(adj, Elements(comps[d]), NoRW);
      IsFoundWithin(adj, comps, d);
      assert NoCycle(adj, Elements(comps[d]), OnlyWW) ==> OnlyG1c(adj, comps[d]);
    }
  }

  lemma WWAreNoRW(c: Cycle)
    ensures OfKinds(OnlyWW, c) ==> OfKinds(NoRW, c)
  {
    if OfKinds(OnlyWW, c) {
      forall i | 0 <= i < |c.ks| ensures NoRW(c.ks[i]) {
        assert OnlyWW(c.ks[i]);
      }
    }
  }
}
