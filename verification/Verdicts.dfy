/**
 What the reports on the graph say: the kind by name, and the transactions and edges of its witness
 (listappend/listappend.go, cycles, reportCycle and reportPair).
 */
module Verdicts {
  import opened Seqs
  import opened Reports
  import opened Graphs
  import opened Tarjan
  import opened Components
  import opened Cycles
  import opened Classify
  import opened Txns
  import opened Passes
  import opened HistoryPass
  import opened Serializability
  import opened SnapshotOrder

  function KindName(kind: Kind): string {
    match kind
    case WW => "ww"
    case WR => "wr"
    case RW => "rw"
    case Realtime => "realtime"
  }

  function CycleName(kind: CycleKind): string {
    match kind
    case G0 => "G0"
    case G1c => "G1c"
    case GSingle' => "G-single"
    case GNonadjacent => "G-nonadjacent"
    case G2 => "G2"
  }

  /** A report on the graph, with transactions named by ID. */
  function Say(txns: seq<Txn>, r: Report): Anomaly<About> {
    match r
    case OnCycle(kind, c) =>
      Anomaly(CycleName(kind), About(seq(|c.vs|, i requires 0 <= i < |c.vs| => IdOf(txns, c.vs[i])),
        seq(|c.ks|, i requires 0 <= i < |c.ks| => KindName(c.ks[i])), ""))
    case OnPair(p) => Anomaly("G-single", About([IdOf(txns, p.a), IdOf(txns, p.b)], ["ww", "rw"], p.key))
  }

  /** The reports on the graph: those on each component, and the lost updates no component holds together. */
  ghost predicate GraphReported(f: Findings, found: seq<Report>) {
    exists comps, parts, apart ::
      Reported(f.adj, f.pairs, comps, parts) && found == Flatten(parts) + apart && IsApart(f.pairs, comps, apart)
  }

  ghost predicate IsApart(pairs: seq<Pair>, comps: seq<seq<nat>>, apart: seq<Report>) {
    forall r :: r in apart <==>
      r.OnPair? && r.pair in pairs && forall c :: 0 <= c < |comps| ==> !(r.pair.a in comps[c] && r.pair.b in comps[c])
  }

  ghost function SayKinds(found: seq<Report>): set<string> {
    set i | 0 <= i < |found| :: if found[i].OnCycle? then CycleName(found[i].kind) else "G-single"
  }

  // ----- Cycles lie within components

  lemma CycleArc(adj: Adj, inside: set<nat>, c: Cycle, i: nat)
    requires IsCycle(adj, inside, c) && i < |c.vs|
    ensures Reach(Graph(adj, AnyKind), c.vs[i], After(c.vs, i))
  {
    var e := Edge(After(c.vs, i), c.ks[i]);
    var j :| 0 <= j < |adj[c.vs[i]]| && adj[c.vs[i]][j] == e;
    assert Via(Graph(adj, AnyKind), c.vs[i], j, e.to);
    ReachArc(Graph(adj, AnyKind), c.vs[i], e.to);
  }

  lemma {:induction false} CycleReach(adj: Adj, inside: set<nat>, c: Cycle, i: nat, j: nat)
    requires IsCycle(adj, inside, c) && i <= j < |c.vs|
    ensures Reach(Graph(adj, AnyKind), c.vs[i], c.vs[j])
    decreases j
  {
    hide IsCycle, Reach;
    var g := Graph(adj, AnyKind);
    if i == j {
      ReachSelf(g, c.vs[i]);
    } else {
      CycleReach(adj, inside, c, i, j - 1);
      CycleArc(adj, inside, c, j - 1);
      ReachTrans(g, c.vs[i], c.vs[j - 1], c.vs[j]);
    }
  }

  lemma CycleMutual(adj: Adj, inside: set<nat>, c: Cycle, i: nat)
    requires IsCycle(adj, inside, c) && i < |c.vs|
    ensures Mutual(Graph(adj, AnyKind), c.vs[0], c.vs[i])
  {
    hide IsCycle, Reach;
    var g, n := Graph(adj, AnyKind), |c.vs| - 1;
    CycleReach(adj, inside, c, 0, i);
    CycleReach(adj, inside, c, i, n);
    CycleArc(adj, inside, c, n);
    ReachTrans(g, c.vs[i], c.vs[n], c.vs[0]);
  }

  lemma CycleWithinOne(adj: Adj, comps: seq<seq<nat>>, c: Cycle) returns (d: nat)
    requires AreComponents(Graph(adj, AnyKind), comps) && NoSelfEdges(adj) && IsCycle(adj, All(adj), c)
    ensures d < |comps| && IsCycle(adj, Elements(comps[d]), c)
  {
    hide Mutual;
    assert Edge(After(c.vs, 0), c.ks[0]) in adj[c.vs[0]];
    CycleMutual(adj, All(adj), c, if |c.vs| > 1 then 1 else 0);
    d :| 0 <= d < |comps| && c.vs[0] in comps[d];
    assert IsComponent(Graph(adj, AnyKind), comps[d]);
    forall i | 0 <= i < |c.vs| ensures c.vs[i] in Elements(comps[d]) {
      CycleMutual(adj, All(adj), c, i);
    }
  }

  lemma {:induction false} InFlatten(parts: seq<seq<Report>>, r: Report)
    ensures r in Flatten(parts) <==> exists i :: 0 <= i < |parts| && r in parts[i]
  {
    if parts != [] {
      var n := |parts| - 1;
      InFlatten(parts[..n], r);
      if i :| 0 <= i < |parts| && r in parts[i] {
        assert i < n ==> r in parts[..n][i];
      }
    }
  }

  /** A component is among those found. */
  lemma IsFoundComponent(adj: Adj, comps: seq<seq<nat>>, comp: seq<nat>) returns (d: nat)
    requires AreComponents(Graph(adj, AnyKind), comps) && IsComponent(Graph(adj, AnyKind), comp)
    requires forall v :: v in comp ==> v < |adj|
    ensures d < |comps| && Elements(comps[d]) == Elements(comp)
  {
    hide Mutual;
    var u, v := comp[0], comp[1];
    assert u in comp && v in comp && Mutual(Graph(adj, AnyKind), u, v);
    d :| 0 <= d < |comps| && u in comps[d];
    assert IsComponent(Graph(adj, AnyKind), comps[d]);
    forall w ensures w in comps[d] <==> w in comp {
      assert w in comp <==> Mutual(Graph(adj, AnyKind), u, w);
    }
  }

  lemma IsFoundWithin(adj: Adj, comps: seq<seq<nat>>, d: nat)
    requires AreComponents(Graph(adj, AnyKind), comps) && d < |comps|
    ensures AComponent(adj, comps[d])
  {
    hide Mutual;
    assert IsComponent(Graph(adj, AnyKind), comps[d]);
  }

  /** A strongly connected component of more than one vertex. */
  ghost predicate AComponent(adj: Adj, comp: seq<nat>) {
    IsComponent(Graph(adj, AnyKind), comp) && forall v :: v in comp ==> v < |adj|
  }

  // ----- Cycles of a kind, in the graph and in its components

  lemma CycleAnywhere(adj: Adj, inside: set<nat>, c: Cycle)
    requires IsCycle(adj, inside, c)
    ensures IsCycle(adj, All(adj), c)
  {
  }

  lemma NoCycleByComponent(adj: Adj, comps: seq<seq<nat>>, ok: Kind -> bool)
    requires AreComponents(Graph(adj, AnyKind), comps) && NoSelfEdges(adj)
    ensures NoCycle(adj, All(adj), ok) <==> forall d :: 0 <= d < |comps| ==> NoCycle(adj, Elements(comps[d]), ok)
  {
    hide AreComponents, NoSelfEdges, IsCycle, OfKinds;
    if NoCycle(adj, All(adj), ok) {
      forall d, c | 0 <= d < |comps| && IsCycle(adj, Elements(comps[d]), c) ensures !OfKinds(ok, c) {
        CycleAnywhere(adj, Elements(comps[d]), c);
      }
    }
    if forall d :: 0 <= d < |comps| ==> NoCycle(adj, Elements(comps[d]), ok) {
      forall c | IsCycle(adj, All(adj), c) ensures !OfKinds(ok, c) {
        var d := CycleWithinOne(adj, comps, c);
        assert NoCycle(adj, Elements(comps[d]), ok);
      }
    }
  }

  lemma OneRWByComponent(adj: Adj, comps: seq<seq<nat>>)
    requires AreComponents(Graph(adj, AnyKind), comps) && NoSelfEdges(adj)
    ensures SomeOneRW(adj, All(adj)) <==> exists d :: 0 <= d < |comps| && SomeOneRW(adj, Elements(comps[d]))
  {
    hide AreComponents, NoSelfEdges, IsCycle, OneRW;
    if SomeOneRW(adj, All(adj)) {
      var c :| IsCycle(adj, All(adj), c) && OneRW(c.ks);
      var d := CycleWithinOne(adj, comps, c);
      assert SomeOneRW(adj, Elements(comps[d]));
    }
    if d :| 0 <= d < |comps| && SomeOneRW(adj, Elements(comps[d])) {
      var c :| IsCycle(adj, Elements(comps[d]), c) && OneRW(c.ks);
      CycleAnywhere(adj, Elements(comps[d]), c);
    }
  }

  // ----- Kinds by name

  lemma NamesDiffer(kind: CycleKind)
    ensures CycleName(kind) == "G0" <==> kind.G0?
    ensures CycleName(kind) == "G1c" <==> kind.G1c?
    ensures CycleName(kind) == "G-single" <==> kind.GSingle'?
    ensures CycleName(kind) == "G-nonadjacent" <==> kind.GNonadjacent?
    ensures CycleName(kind) == "G2" <==> kind.G2?
  {
    assert "G0"[1] == '0' && "G2"[1] == '2';
  }

  function SaidKind(r: Report): string {
    if r.OnCycle? then CycleName(r.kind) else "G-single"
  }

  lemma SaidIs(found: seq<Report>, name: string)
    ensures name in SayKinds(found) <==> exists r :: r in found && SaidKind(r) == name
  {
    if name in SayKinds(found) {
      var i :| 0 <= i < |found| && name == if found[i].OnCycle? then CycleName(found[i].kind) else "G-single";
      assert found[i] in found && SaidKind(found[i]) == name;
    }
    if r :| r in found && SaidKind(r) == name {
      var i :| 0 <= i < |found| && found[i] == r;
    }
  }

  lemma SaidCycle(found: seq<Report>, kind: CycleKind)
    requires !kind.GSingle'?
    ensures CycleName(kind) in SayKinds(found) <==> Has(found, kind)
  {
    hide CycleName, SayKinds;
    SaidIs(found, CycleName(kind));
    NamesDiffer(kind);
    forall r | r in found ensures SaidKind(r) == CycleName(kind) <==> OfKind(r, kind) {
      if r.OnCycle? { NamesDiffer(r.kind); }
    }
  }

  lemma SaidSingle(found: seq<Report>)
    ensures "G-single" in SayKinds(found) <==> Has(found, GSingle') || HasPair(found)
  {
    hide CycleName, SayKinds;
    SaidIs(found, "G-single");
    forall r | r in found ensures SaidKind(r) == "G-single" <==> OfKind(r, GSingle') || IsPair(r) {
      if r.OnCycle? { NamesDiffer(r.kind); }
    }
  }

  // ----- Reports of all components together

  lemma HasAnywhere(parts: seq<seq<Report>>, apart: seq<Report>, kind: CycleKind)
    requires forall r :: r in apart ==> IsPair(r)
    ensures Has(Flatten(parts) + apart, kind) <==> exists d :: 0 <= d < |parts| && Has(parts[d], kind)
  {
    if Has(Flatten(parts) + apart, kind) {
      var r :| r in Flatten(parts) + apart && OfKind(r, kind);
      InFlatten(parts, r);
      var d :| 0 <= d < |parts| && r in parts[d];
      assert Has(parts[d], kind);
    }
    if d :| 0 <= d < |parts| && Has(parts[d], kind) {
      var r :| r in parts[d] && OfKind(r, kind);
      InFlatten(parts, r);
      assert r in Flatten(parts) + apart;
    }
  }

  lemma HasPairAnywhere(parts: seq<seq<Report>>, apart: seq<Report>)
    requires forall r :: r in apart ==> IsPair(r)
    ensures HasPair(Flatten(parts) + apart) <==> apart != [] || exists d :: 0 <= d < |parts| && HasPair(parts[d])
  {
    var all := Flatten(parts) + apart;
    if HasPair(all) && apart == [] {
      var r :| r in all && IsPair(r);
      InFlatten(parts, r);
      var d :| 0 <= d < |parts| && r in parts[d];
      assert HasPair(parts[d]);
    }
    if apart != [] { assert apart[0] in all; }
    if d :| 0 <= d < |parts| && HasPair(parts[d]) {
      var r :| r in parts[d] && IsPair(r);
      InFlatten(parts, r);
      assert r in all;
    }
  }

  lemma ReportedComponents(adj: Adj, pairs: seq<Pair>, comps: seq<seq<nat>>, parts: seq<seq<Report>>)
    requires Reported(adj, pairs, comps, parts)
    ensures AreComponents(Graph(adj, AnyKind), comps) && |parts| == |comps|
  {
  }

  lemma ReportedOne(adj: Adj, pairs: seq<Pair>, comps: seq<seq<nat>>, parts: seq<seq<Report>>, d: nat)
    requires Reported(adj, pairs, comps, parts) && d < |comps|
    ensures Exact(adj, Elements(comps[d]), pairs, parts[d])
    ensures Has(parts[d], G2) <==> AllAdjacentRW(adj, Elements(comps[d])) && NoPairWithin(Elements(comps[d]), pairs)
  {
    hide AreComponents, AllAdjacentRW, NoPairWithin, AllRight, Exact;
    assert Verdict(adj, Elements(comps[d]), pairs, parts[d]);
    assert forall r :: IsG2(r) <==> OfKind(r, G2);
  }

  /** G0 is reported just when there is a cycle of ww edges only. */
  lemma SaidG0(adj: Adj, pairs: seq<Pair>, comps: seq<seq<nat>>, parts: seq<seq<Report>>, apart: seq<Report>)
    requires Reported(adj, pairs, comps, parts) && NoSelfEdges(adj) && forall r :: r in apart ==> IsPair(r)
    ensures "G0" in SayKinds(Flatten(parts) + apart) <==> !NoCycle(adj, All(adj), OnlyWW)
  {
    hide Reported, NoSelfEdges, NoCycle, Has, HasPair, SomeOneRW, SomeApartRW, NoPairWithin, SayKinds, Flatten,
      AllAdjacentRW, AComponent;
    SaidCycle(Flatten(parts) + apart, G0);
    HasAnywhere(parts, apart, G0);
    ReportedComponents(adj, pairs, comps, parts);
    NoCycleByComponent(adj, comps, OnlyWW);
    forall d | 0 <= d < |comps| ensures Has(parts[d], G0) <==> !NoCycle(adj, Elements(comps[d]), OnlyWW) {
      ReportedOne(adj, pairs, comps, parts, d);
    }
  }

  /** A component has a cycle without rw edges, and none of ww edges only. */
  ghost predicate OnlyG1c(adj: Adj, comp: seq<nat>) {
    AComponent(adj, comp) && NoCycle(adj, Elements(comp), OnlyWW) && !NoCycle(adj, Elements(comp), NoRW)
  }

  lemma SaidG1c(adj: Adj, pairs: seq<Pair>, comps: seq<seq<nat>>, parts: seq<seq<Report>>, apart: seq<Report>)
    requires Reported(adj, pairs, comps, parts) && NoSelfEdges(adj) && forall r :: r in apart ==> IsPair(r)
    ensures "G1c" in SayKinds(Flatten(parts) + apart) <==> exists comp :: OnlyG1c(adj, comp)
  {
    hide Reported, NoSelfEdges, NoCycle, Has, HasPair, SomeOneRW, SomeApartRW, NoPairWithin, SayKinds, Flatten,
      AllAdjacentRW, AComponent;
    SaidCycle(Flatten(parts) + apart, G1c);
    HasAnywhere(parts, apart, G1c);
    ReportedComponents(adj, pairs, comps, parts);
    forall d | 0 <= d < |comps| ensures Has(parts[d], G1c) <==> OnlyG1c(adj, comps[d]) {
      ReportedOne(adj, pairs, comps, parts, d);
      IsFoundWithin(adj, comps, d);
    }
    if comp :| OnlyG1c(adj, comp) {
      var d := FoundAs(adj, comps, comp);
      assert OnlyG1c(adj, comps[d]) by { IsFoundWithin(adj, comps, d); }
    }
  }

  lemma FoundAs(adj: Adj, comps: seq<seq<nat>>, comp: seq<nat>) returns (d: nat)
    requires AreComponents(Graph(adj, AnyKind), comps) && AComponent(adj, comp)
    ensures d < |comps| && Elements(comps[d]) == Elements(comp)
  {
    hide IsComponent, AreComponents;
    d := IsFoundComponent(adj, comps, comp);
  }

  /** G-single is reported just when there is a cycle with one rw edge, or a lost update. */
  lemma SaidGSingle(adj: Adj, pairs: seq<Pair>, comps: seq<seq<nat>>, parts: seq<seq<Report>>, apart: seq<Report>)
    requires Reported(adj, pairs, comps, parts) && NoSelfEdges(adj) && IsApart(pairs, comps, apart)
    ensures "G-single" in SayKinds(Flatten(parts) + apart) <==> SomeOneRW(adj, All(adj)) || pairs != []
  {
    hide Reported, NoSelfEdges, NoCycle, Has, HasPair, SomeOneRW, SomeApartRW, NoPairWithin, SayKinds, Flatten,
      AllAdjacentRW, AComponent;
    SaidSingle(Flatten(parts) + apart);
    HasAnywhere(parts, apart, GSingle');
    HasPairAnywhere(parts, apart);
    ReportedComponents(adj, pairs, comps, parts);
    OneRWByComponent(adj, comps);
    PairsSomewhere(pairs, comps, apart);
    forall d | 0 <= d < |comps|
      ensures Has(parts[d], GSingle') <==> SomeOneRW(adj, Elements(comps[d]))
      ensures HasPair(parts[d]) <==> !SomeOneRW(adj, Elements(comps[d])) && !NoPairWithin(Elements(comps[d]), pairs)
    {
      ReportedOne(adj, pairs, comps, parts, d);
    }
  }

  lemma PairsSomewhere(pairs: seq<Pair>, comps: seq<seq<nat>>, apart: seq<Report>)
    requires IsApart(pairs, comps, apart)
    ensures pairs != [] <==> apart != [] || exists d :: 0 <= d < |comps| && !NoPairWithin(Elements(comps[d]), pairs)
  {
    if pairs == [] {
      NothingIn(apart);
    } else {
      var p := pairs[0];
      if OnPair(p) !in apart {
        var d :| 0 <= d < |comps| && p.a in comps[d] && p.b in comps[d];
        assert !NoPairWithin(Elements(comps[d]), pairs);
      }
    }
  }

  /** A component with neither a cycle with one rw edge nor a lost update has a cycle whose rw edges are apart. */
  ghost predicate OnlyApart(adj: Adj, pairs: seq<Pair>, comp: seq<nat>) {
    && AComponent(adj, comp) && !SomeOneRW(adj, Elements(comp)) && NoPairWithin(Elements(comp), pairs)
    && SomeApartRW(adj, Elements(comp))
  }

  lemma SaidApart(adj: Adj, pairs: seq<Pair>, comps: seq<seq<nat>>, parts: seq<seq<Report>>, apart: seq<Report>)
    requires Reported(adj, pairs, comps, parts) && forall r :: r in apart ==> IsPair(r)
    ensures "G-nonadjacent" in SayKinds(Flatten(parts) + apart) ==> exists comp :: OnlyApart(adj, pairs, comp)
    ensures (exists comp :: OnlyApart(adj, pairs, comp) && NoCycle(adj, Elements(comp), NoRW)) ==>
      "G-nonadjacent" in SayKinds(Flatten(parts) + apart)
  {
    hide Reported, NoSelfEdges, NoCycle, Has, HasPair, SomeOneRW, SomeApartRW, NoPairWithin, SayKinds, Flatten,
      AllAdjacentRW, AComponent;
    SaidCycle(Flatten(parts) + apart, GNonadjacent);
    HasAnywhere(parts, apart, GNonadjacent);
    ReportedComponents(adj, pairs, comps, parts);
    if d :| 0 <= d < |comps| && Has(parts[d], GNonadjacent) {
      ReportedOne(adj, pairs, comps, parts, d);
      IsFoundWithin(adj, comps, d);
      assert OnlyApart(adj, pairs, comps[d]);
    }
    if comp :| OnlyApart(adj, pairs, comp) && NoCycle(adj, Elements(comp), NoRW) {
      var d := FoundAs(adj, comps, comp);
      ReportedOne(adj, pairs, comps, parts, d);
      assert Has(parts[d], GNonadjacent);
    }
  }

  /** Every cycle of a component has two rw edges in a row, and it holds no lost update. */
  ghost predicate OnlyAdjacent(adj: Adj, pairs: seq<Pair>, comp: seq<nat>) {
    AComponent(adj, comp) && AllAdjacentRW(adj, Elements(comp)) && NoPairWithin(Elements(comp), pairs)
  }

  lemma SaidG2(adj: Adj, pairs: seq<Pair>, comps: seq<seq<nat>>, parts: seq<seq<Report>>, apart: seq<Report>)
    requires Reported(adj, pairs, comps, parts) && forall r :: r in apart ==> IsPair(r)
    ensures "G2" in SayKinds(Flatten(parts) + apart) <==> exists comp :: OnlyAdjacent(adj, pairs, comp)
  {
    hide Reported, NoSelfEdges, NoCycle, Has, HasPair, SomeOneRW, SomeApartRW, NoPairWithin, SayKinds, Flatten,
      AllAdjacentRW, AComponent;
    SaidCycle(Flatten(parts) + apart, G2);
    HasAnywhere(parts, apart, G2);
    ReportedComponents(adj, pairs, comps, parts);
    forall d | 0 <= d < |comps| ensures Has(parts[d], G2) <==> OnlyAdjacent(adj, pairs, comps[d]) {
      ReportedOne(adj, pairs, comps, parts, d);
      IsFoundWithin(adj, comps, d);
    }
    if comp :| OnlyAdjacent(adj, pairs, comp) {
      var d := FoundAs(adj, comps, comp);
      assert OnlyAdjacent(adj, pairs, comps[d]) by { IsFoundWithin(adj, comps, d); }
    }
  }

  /** The kinds said of the graph, by name. */
  ghost predicate GraphKinds(f: Findings, kinds: set<string>) {
    && ("G0" in kinds <==> !NoCycle(f.adj, All(f.adj), OnlyWW))
    && ("G1c" in kinds <==> exists comp :: OnlyG1c(f.adj, comp))
    && ("G-single" in kinds <==> SomeOneRW(f.adj, All(f.adj)) || f.pairs != [])
    && ("G-nonadjacent" in kinds ==> exists comp :: OnlyApart(f.adj, f.pairs, comp))
    && ((exists comp :: OnlyApart(f.adj, f.pairs, comp) && NoCycle(f.adj, Elements(comp), NoRW)) ==>
      "G-nonadjacent" in kinds)
    && ("G2" in kinds <==> exists comp :: OnlyAdjacent(f.adj, f.pairs, comp))
  }

  lemma SaidAll(f: Findings, found: seq<Report>)
    requires GraphReported(f, found) && NoSelfEdges(f.adj)
    ensures GraphKinds(f, SayKinds(found))
    ensures forall kind :: kind in SayKinds(found) ==> kind in {"G0", "G1c", "G-single", "G-nonadjacent", "G2"}
  {
    hide Reported, NoSelfEdges, NoCycle, SomeOneRW, OnlyG1c, OnlyApart, OnlyAdjacent, Flatten, IsApart;
    var comps, parts, apart :|
      Reported(f.adj, f.pairs, comps, parts) && found == Flatten(parts) + apart && IsApart(f.pairs, comps, apart);
    ApartPairs(f.pairs, comps, apart);
    SaidG0(f.adj, f.pairs, comps, parts, apart);
    SaidG1c(f.adj, f.pairs, comps, parts, apart);
    SaidGSingle(f.adj, f.pairs, comps, parts, apart);
    SaidApart(f.adj, f.pairs, comps, parts, apart);
    SaidG2(f.adj, f.pairs, comps, parts, apart);
  }

  lemma ApartPairs(pairs: seq<Pair>, comps: seq<seq<nat>>, apart: seq<Report>)
    requires IsApart(pairs, comps, apart)
    ensures forall r :: r in apart ==> IsPair(r)
  {
  }

  // ----- Witnesses

  /** The transactions of a cycle by ID, and its edges by name. */
  ghost predicate Shows(txns: seq<Txn>, c: Cycle, about: About) {
    && |about.txns| == |about.edges| == |c.vs| == |c.ks|
    && (forall i :: 0 <= i < |c.vs| ==> c.vs[i] < |txns| && about.txns[i] == txns[c.vs[i]].id)
    && (forall i :: 0 <= i < |c.ks| ==> EdgeNamed(c.ks[i], about.edges[i]))
  }

  predicate EdgeNamed(kind: Kind, name: string) {
    name == match kind case WW => "ww" case WR => "wr" case RW => "rw" case Realtime => "realtime"
  }

  ghost predicate ShowsPair(txns: seq<Txn>, p: Pair, about: About) {
    p.a < |txns| && p.b < |txns| && about == About([txns[p.a].id, txns[p.b].id], ["ww", "rw"], p.key)
  }

  /** A simple cycle of the graph of the pattern the kind stands for, or a lost update. */
  ghost predicate Witnessed(txns: seq<Txn>, f: Findings, x: Anomaly<About>) {
    || (exists c :: IsCycle(f.adj, All(f.adj), c) && Simple(c) && Shows(txns, c, x.about) && Fits(x.kind, c.ks))
    || (x.kind == "G-single" && exists p :: p in f.pairs && ShowsPair(txns, p, x.about))
  }

  ghost predicate Fits(kind: string, ks: seq<Kind>) {
    || (kind == "G0" && forall i :: 0 <= i < |ks| ==> ks[i].WW?)
    || (kind == "G1c" && !HasRW(ks))
    || (kind == "G-single" && OneRW(ks))
    || (kind == "G-nonadjacent" && HasRW(ks) && !AdjacentRW(ks))
    || (kind == "G2" && AdjacentRW(ks))
  }

  lemma SaidWitnessed(txns: seq<Txn>, f: Findings, found: seq<Report>, r: Report)
    requires GraphReported(f, found) && r in found && |f.adj| == |txns|
    requires forall p :: p in f.pairs ==> p.a < |txns| && p.b < |txns|
    ensures Witnessed(txns, f, Say(txns, r))
  {
    hide Reported, Flatten, IsApart, Witnessed, RightReport, Say;
    var comps, parts, apart :|
      Reported(f.adj, f.pairs, comps, parts) && found == Flatten(parts) + apart && IsApart(f.pairs, comps, apart);
    InFlatten(parts, r);
    ReportedComponents(f.adj, f.pairs, comps, parts);
    if d :| 0 <= d < |parts| && r in parts[d] {
      PartRight(f, comps, parts, d, r);
      RightWitnessed(txns, f, Elements(comps[d]), r);
    } else {
      ApartOfPairs(f.pairs, comps, apart, r);
      PairWitnessed(txns, f, r);
    }
  }

  lemma PartRight(f: Findings, comps: seq<seq<nat>>, parts: seq<seq<Report>>, d: nat, r: Report)
    requires Reported(f.adj, f.pairs, comps, parts) && d < |parts| && r in parts[d]
    ensures d < |comps| && RightReport(f.adj, Elements(comps[d]), f.pairs, r)
  {
    hide AreComponents, Exact;
    assert Verdict(f.adj, Elements(comps[d]), f.pairs, parts[d]);
  }

  lemma ApartOfPairs(pairs: seq<Pair>, comps: seq<seq<nat>>, apart: seq<Report>, r: Report)
    requires IsApart(pairs, comps, apart) && r in apart
    ensures r.OnPair? && r.pair in pairs
  {
  }

  lemma PairWitnessed(txns: seq<Txn>, f: Findings, r: Report)
    requires r.OnPair? && r.pair in f.pairs && r.pair.a < |txns| && r.pair.b < |txns|
    ensures Witnessed(txns, f, Say(txns, r))
  {
    assert ShowsPair(txns, r.pair, Say(txns, r).about);
  }

  lemma RightWitnessed(txns: seq<Txn>, f: Findings, inside: set<nat>, r: Report)
    requires RightReport(f.adj, inside, f.pairs, r) && |f.adj| == |txns|
    requires forall p :: p in f.pairs ==> p.a < |txns| && p.b < |txns|
    ensures Witnessed(txns, f, Say(txns, r))
  {
    match r
    case OnPair(p) => PairWitnessed(txns, f, r);
    case OnCycle(kind, c) =>
      CycleAnywhere(f.adj, inside, c);
      hide AdjacentRW, HasRW, OneRW, Simple;
      assert Fits(CycleName(kind), c.ks);
      CycleShown(txns, f, c, kind);
      assert Shows(txns, c, Say(txns, r).about);
  }

  lemma CycleShown(txns: seq<Txn>, f: Findings, c: Cycle, kind: CycleKind)
    requires IsCycle(f.adj, All(f.adj), c) && |f.adj| == |txns|
    ensures Shows(txns, c, Say(txns, OnCycle(kind, c)).about)
  {
  }
}
