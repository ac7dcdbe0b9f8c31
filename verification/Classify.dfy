/**
 Which anomaly each component of the dependency graph is (listappend/listappend.go, cycles).
 */
module Classify {
  import opened Options
  import opened Seqs
  import opened Graphs
  import opened Tarjan
  import opened Components
  import opened Bfs
  import opened Cycles
  import opened Nonadjacent

  /** A lost update of the key between two transactions. */
  datatype Pair = Pair(a: nat, b: nat, key: string)

  datatype CycleKind = G0 | G1c | GSingle' | GNonadjacent | G2

  datatype Report = OnCycle(kind: CycleKind, cycle: Cycle) | OnPair(pair: Pair)

  /** The rw pattern a kind names. */
  ghost predicate Pattern(kind: CycleKind, ks: seq<Kind>) {
    match kind
    case G0 => forall i :: 0 <= i < |ks| ==> ks[i].WW?
    case G1c => !HasRW(ks)
    case GSingle' => OneRW(ks)
    case GNonadjacent => HasRW(ks) && !AdjacentRW(ks)
    case G2 => AdjacentRW(ks)
  }

  /**
   A report that is right: its witness is a simple cycle of edges of the graph with the pattern its
   kind names, or a lost update.
   */
  ghost predicate RightReport(adj: Adj, inside: set<nat>, pairs: seq<Pair>, r: Report) {
    match r
    case OnCycle(kind, c) => IsCycle(adj, inside, c) && Simple(c) && Pattern(kind, c.ks)
    case OnPair(p) => p in pairs && p.a in inside && p.b in inside
  }

  ghost predicate NoPairWithin(inside: set<nat>, pairs: seq<Pair>) {
    forall p :: p in pairs ==> !(p.a in inside && p.b in inside)
  }

  /** Every cycle has two rw edges in a row. */
  ghost predicate AllAdjacentRW(adj: Adj, inside: set<nat>) {
    forall c :: IsCycle(adj, inside, c) ==> AdjacentRW(c.ks)
  }

  method PairWithin(inside: set<nat>, pairs: seq<Pair>) returns (r: Option<Pair>)
    ensures r.Some? ==> r.value in pairs && r.value.a in inside && r.value.b in inside
    ensures r.None? ==> NoPairWithin(inside, pairs)
  {
    for i := 0 to |pairs|
      invariant forall k :: 0 <= k < i ==> !(pairs[k].a in inside && pairs[k].b in inside)
    {
      if pairs[i].a in inside && pairs[i].b in inside {
        return Some(pairs[i]);
      }
    }
    r := None;
  }

  lemma KindPatterns(c: Cycle)
    ensures OfKinds(OnlyWW, c) ==> Pattern(G0, c.ks)
    ensures OfKinds(NoRW, c) <==> Pattern(G1c, c.ks)
  {
    if OfKinds(NoRW, c) {
      forall i | 0 <= i < |c.ks| ensures !c.ks[i].RW? {
        assert NoRW(c.ks[i]);
      }
    }
    if OfKinds(OnlyWW, c) {
      forall i | 0 <= i < |c.ks| ensures c.ks[i].WW? {
        assert OnlyWW(c.ks[i]);
      }
    }
  }

  // ----- A component has a cycle

  lemma {:induction false} PathIsWalk(adj: Adj, inside: set<nat>, p: seq<nat>) returns (w: Walk<nat>)
    requires IsPath(Graph(adj, AnyKind), p) && forall i :: 0 <= i < |p| ==> p[i] in inside
    ensures Joins(Next(adj, inside, AnyKind), p[0], p[|p| - 1], w) && |w.ks| == |p| - 1
  {
    var g := Graph(adj, AnyKind);
    if |p| == 1 {
      w := Walk([p[0]], []);
    } else {
      var n := |p| - 1;
      var q := p[..n];
      forall k | 0 <= k < |q| - 1 ensures Arc(g, q[k], q[k + 1]) {
        assert Arc(g, p[k], p[k + 1]);
      }
      var f := PathIsWalk(adj, inside, q);
      assert Arc(g, p[n - 1], p[n - 1 + 1]);
      var j: nat :| Via(g, p[n - 1], j, p[n]);
      var h := Hop(p[n], adj[p[n - 1]][j].kind);
      NextKept(adj, inside, AnyKind, p[n - 1], h);
      assert adj[p[n - 1]][j] == Edge(h.to, h.kind);
      ExtendJoins(Next(adj, inside, AnyKind), p[0], p[n - 1], f, h);
      w := Extend(f, h);
    }
  }

  lemma PathParts(g: Graph, p: seq<nat>, i: nat)
    requires IsPath(g, p) && i < |p|
    ensures Reach(g, p[0], p[i]) && Reach(g, p[i], p[|p| - 1])
  {
    var a, b := p[..i + 1], p[i..];
    forall k | 0 <= k < |a| - 1 ensures Arc(g, a[k], a[k + 1]) {
      assert Arc(g, p[k], p[k + 1]);
    }
    forall k | 0 <= k < |b| - 1 ensures Arc(g, b[k], b[k + 1]) {
      assert Arc(g, p[i + k], p[i + k + 1]);
    }
    assert IsPath(g, a) && IsPath(g, b);
  }

  /** A path between two transactions of a component stays in it. */
  lemma PathInside(g: Graph, comp: seq<nat>, u: nat, v: nat, p: seq<nat>)
    requires IsComponent(g, comp) && u in comp && v in comp
    requires IsPath(g, p) && p[0] == u && p[|p| - 1] == v
    ensures forall i :: 0 <= i < |p| ==> p[i] in Elements(comp)
  {
    hide Reach;
    assert Mutual(g, u, v);
    forall i | 0 <= i < |p| ensures p[i] in Elements(comp) {
      PathParts(g, p, i);
      ReachTrans(g, p[i], v, u);
      assert Mutual(g, u, p[i]);
    }
  }

  lemma ComponentWalk(adj: Adj, comp: seq<nat>, u: nat, v: nat) returns (w: Walk<nat>)
    requires IsComponent(Graph(adj, AnyKind), comp) && u in comp && v in comp && u != v
    ensures Joins(Next(adj, Elements(comp), AnyKind), u, v, w) && |w.ks| > 0
  {
    var g := Graph(adj, AnyKind);
    assert Mutual(g, u, v);
    var p :| IsPath(g, p) && p[0] == u && p[|p| - 1] == v;
    PathInside(g, comp, u, v, p);
    w := PathIsWalk(adj, Elements(comp), p);
  }

  lemma ComponentHasCycle(adj: Adj, comp: seq<nat>)
    requires IsComponent(Graph(adj, AnyKind), comp)
    ensures !NoCycle(adj, Elements(comp), AnyKind)
  {
    hide IsComponent, IsCycle, Joins;
    TwoOf(adj, comp);
    var u, v := comp[0], comp[1];
    var a := ComponentWalk(adj, comp, u, v);
    var b := ComponentWalk(adj, comp, v, u);
    WalkSize(Next(adj, Elements(comp), AnyKind), v, u, b);
    JoinIsWalk(Next(adj, Elements(comp), AnyKind), u, v, u, a, b);
    WalkSize(Next(adj, Elements(comp), AnyKind), u, u, Join(a, b));
    WalkIsCycle(adj, Elements(comp), AnyKind, u, Join(a, b));
  }

  lemma TwoOf(adj: Adj, comp: seq<nat>)
    requires IsComponent(Graph(adj, AnyKind), comp)
    ensures |comp| > 1 && comp[0] != comp[1]
  {
  }

  lemma WalkSize<T>(next: T -> seq<Hop<T>>, x: T, y: T, w: Walk<T>)
    requires Joins(next, x, y, w)
    ensures |w.vs| == |w.ks| + 1
  {
  }

  // ----- One component

  ghost predicate AllRight(adj: Adj, inside: set<nat>, pairs: seq<Pair>, reports: seq<Report>) {
    forall r :: r in reports ==> RightReport(adj, inside, pairs, r)
  }

  predicate IsG2(r: Report) { r.OnCycle? && r.kind.G2? }

  /** What the reports on a component say of it. */
  ghost predicate Verdict(adj: Adj, inside: set<nat>, pairs: seq<Pair>, reports: seq<Report>) {
    && AllRight(adj, inside, pairs, reports)
    && |reports| > 0
    && ((exists r :: r in reports && IsG2(r)) <==> AllAdjacentRW(adj, inside) && NoPairWithin(inside, pairs))
    && ((exists r :: r in reports && IsG2(r)) ==> |reports| == 1)
  }

  /** A cycle without two rw edges in a row is not one of those that have. */
  lemma NotAllAdjacent(adj: Adj, inside: set<nat>, c: Cycle)
    requires IsCycle(adj, inside, c) && (!HasRW(c.ks) || !AdjacentRW(c.ks))
    ensures !AllAdjacentRW(adj, inside)
  {
    assert AdjacentRW(c.ks) ==> HasRW(c.ks);
  }

  lemma OneNotAdjacent(adj: Adj, c: Cycle, inside: set<nat>)
    requires IsCycle(adj, inside, c) && OneRW(c.ks) && NoSelfEdges(adj)
    ensures !AdjacentRW(c.ks)
  {
    var i :| 0 <= i < |c.ks| && c.ks[i].RW? && forall j :: 0 <= j < |c.ks| && j != i ==> !c.ks[j].RW?;
    assert Edge(After(c.vs, 0), c.ks[0]) in adj[c.vs[0]];
  }

  predicate OfKind(r: Report, kind: CycleKind) { r.OnCycle? && r.kind == kind }

  ghost predicate Has(reports: seq<Report>, kind: CycleKind) {
    exists r :: r in reports && OfKind(r, kind)
  }

  lemma HasAppended(reports: seq<Report>, r: Report, kind: CycleKind)
    ensures Has(reports + [r], kind) <==> Has(reports, kind) || OfKind(r, kind)
  {
    if Has(reports, kind) {
      var x :| x in reports && OfKind(x, kind);
      assert x in reports + [r];
    }
    if OfKind(r, kind) {
      assert r in reports + [r];
    }
  }

  predicate IsPair(r: Report) { r.OnPair? }

  ghost predicate HasPair(reports: seq<Report>) {
    exists r :: r in reports && IsPair(r)
  }

  ghost predicate SomeOneRW(adj: Adj, inside: set<nat>) {
    exists c :: IsCycle(adj, inside, c) && OneRW(c.ks)
  }

  /** Some cycle has rw edges, no two in a row. */
  ghost predicate SomeApartRW(adj: Adj, inside: set<nat>) {
    exists c :: IsCycle(adj, inside, c) && HasRW(c.ks) && !AdjacentRW(c.ks)
  }

  /**
   Each kind is reported exactly when it should be, but for a cycle with rw edges apart beside one
   with none, of which the first may go unreported.
   */
  ghost predicate Exact(adj: Adj, inside: set<nat>, pairs: seq<Pair>, reports: seq<Report>) {
    && (Has(reports, G0) <==> !NoCycle(adj, inside, OnlyWW))
    && (Has(reports, G1c) <==> NoCycle(adj, inside, OnlyWW) && !NoCycle(adj, inside, NoRW))
    && (Has(reports, GSingle') <==> SomeOneRW(adj, inside))
    && (HasPair(reports) <==> !SomeOneRW(adj, inside) && !NoPairWithin(inside, pairs))
    && (Has(reports, GNonadjacent) ==>
      !SomeOneRW(adj, inside) && NoPairWithin(inside, pairs) && SomeApartRW(adj, inside))
    && (NoCycle(adj, inside, NoRW) ==> (Has(reports, GNonadjacent) <==>
      !SomeOneRW(adj, inside) && NoPairWithin(inside, pairs) && SomeApartRW(adj, inside)))
  }

  /** Reports the anomalies of one component: one of G0 and G1c, one of the others, and G2 only if none of those. */
  method ClassifyComponent(adj: Adj, comp: seq<nat>, pairs: seq<Pair>) returns (reports: seq<Report>)
    requires NoSelfEdges(adj) && IsComponent(Graph(adj, AnyKind), comp) && forall i :: 0 <= i < |comp| ==>
      comp[i] < |adj|
    ensures Verdict(adj, Elements(comp), pairs, reports)
    ensures Exact(adj, Elements(comp), pairs, reports)
  {
    hide Has, HasPair, IsCycle, Simple, NoSelfEdges, IsComponent, AdjacentRW, HasRW, OneRW, OfKinds, SomeOneRW,
      SomeApartRW;
    var inside := Elements(comp);
    reports := [];
    var cyc := CycleWithin(adj, comp, OnlyWW);
    if cyc.Some? {
      KindPatterns(cyc.value);
      reports := [OnCycle(G0, cyc.value)];
      WWNoRW(cyc.value);
      NotAllAdjacent(adj, inside, cyc.value);
    } else {
      cyc := CycleWithin(adj, comp, NoRW);
      if cyc.Some? {
        KindPatterns(cyc.value);
        reports := [OnCycle(G1c, cyc.value)];
        NotAllAdjacent(adj, inside, cyc.value);
      }
    }
    ghost var first := reports;
    FirstReports(first);
    cyc := GSingle(adj, comp);
    OneRWMeans(adj, inside, cyc);
    if cyc.Some? {
      Appends(first, OnCycle(GSingle', cyc.value));
      OneNotAdjacent(adj, cyc.value, inside);
      NotAllAdjacent(adj, inside, cyc.value);
      reports := reports + [OnCycle(GSingle', cyc.value)];
    } else {
      var p := PairWithin(inside, pairs);
      if p.Some? {
        Appends(first, OnPair(p.value));
        reports := reports + [OnPair(p.value)];
      } else {
        cyc := FindNonadjacent(adj, comp);
        ApartRWMeans(adj, inside, cyc);
        if cyc.Some? {
          NotAllAdjacent(adj, inside, cyc.value);
          Appends(first, OnCycle(GNonadjacent, cyc.value));
          reports := reports + [OnCycle(GNonadjacent, cyc.value)];
        }
      }
    }
    if |reports| == 0 {
      ComponentHasCycle(adj, comp);
      cyc := CycleWithin(adj, comp, AnyKind);
      reports := [OnCycle(G2, cyc.value)];
      G2Verdict(adj, inside, pairs, cyc.value);
      FirstReports(reports);
    } else {
      OtherVerdict(adj, inside, pairs, reports);
    }
  }

  lemma OneRWMeans(adj: Adj, inside: set<nat>, cyc: Option<Cycle>)
    requires cyc.Some? ==> IsCycle(adj, inside, cyc.value) && OneRW(cyc.value.ks)
    requires cyc.None? ==> forall c :: IsCycle(adj, inside, c) ==> !OneRW(c.ks)
    ensures cyc.Some? <==> SomeOneRW(adj, inside)
  {
    hide IsCycle, OneRW;
  }

  lemma ApartRWMeans(adj: Adj, inside: set<nat>, cyc: Option<Cycle>)
    requires cyc.Some? ==> IsCycle(adj, inside, cyc.value) && HasRW(cyc.value.ks) && !AdjacentRW(cyc.value.ks)
    requires cyc.None? && NoCycle(adj, inside, NoRW) ==> forall c :: IsCycle(adj, inside, c) ==> AdjacentRW(c.ks)
    ensures cyc.Some? ==> SomeApartRW(adj, inside)
    ensures cyc.None? && NoCycle(adj, inside, NoRW) ==> !SomeApartRW(adj, inside)
  {
    hide IsCycle, HasRW, AdjacentRW, NoCycle;
  }

  lemma FirstReports(reports: seq<Report>)
    requires |reports| <= 1
    ensures forall kind :: Has(reports, kind) <==> |reports| == 1 && OfKind(reports[0], kind)
    ensures HasPair(reports) <==> |reports| == 1 && IsPair(reports[0])
  {
  }

  lemma Appends(reports: seq<Report>, r: Report)
    ensures forall kind :: Has(reports + [r], kind) <==> Has(reports, kind) || OfKind(r, kind)
    ensures HasPair(reports + [r]) <==> HasPair(reports) || IsPair(r)
  {
    forall kind ensures Has(reports + [r], kind) <==> Has(reports, kind) || OfKind(r, kind) {
      HasAppended(reports, r, kind);
    }
    if HasPair(reports) {
      var x :| x in reports && IsPair(x);
      assert x in reports + [r];
    }
    if IsPair(r) { assert r in reports + [r]; }
  }

  lemma G2Verdict(adj: Adj, inside: set<nat>, pairs: seq<Pair>, c: Cycle)
    requires IsCycle(adj, inside, c) && Simple(c) && AllAdjacentRW(adj, inside) && NoPairWithin(inside, pairs)
    ensures Verdict(adj, inside, pairs, [OnCycle(G2, c)])
  {
    var reports := [OnCycle(G2, c)];
    assert reports[0] in reports && IsG2(reports[0]);
  }

  lemma OtherVerdict(adj: Adj, inside: set<nat>, pairs: seq<Pair>, reports: seq<Report>)
    requires AllRight(adj, inside, pairs, reports) && |reports| > 0 && (forall r :: r in reports ==> !IsG2(r))
    requires !(AllAdjacentRW(adj, inside) && NoPairWithin(inside, pairs))
    ensures Verdict(adj, inside, pairs, reports)
  {
  }

  lemma WWNoRW(c: Cycle)
    requires OfKinds(OnlyWW, c)
    ensures !HasRW(c.ks)
  {
    forall i | 0 <= i < |c.ks| ensures !c.ks[i].RW? {
      assert OnlyWW(c.ks[i]);
    }
  }

  // ----- All components

  ghost predicate Acyclic(adj: Adj) {
    forall u: nat, v: nat :: u < |adj| && u != v ==> !Mutual(Graph(adj, AnyKind), u, v)
  }

  ghost function Flatten(parts: seq<seq<Report>>): seq<Report> {
    if parts == [] then [] else Flatten(parts[..|parts| - 1]) + parts[|parts| - 1]
  }

  lemma {:induction false} FlattenEmpty(parts: seq<seq<Report>>)
    requires forall i :: 0 <= i < |parts| ==> |parts[i]| > 0
    ensures Flatten(parts) == [] <==> parts == []
  {
  }

  /** `component` numbers the components from 1, with 0 for a transaction in none. */
  ghost predicate Numbers(comps: seq<seq<nat>>, component: seq<int>) {
    forall v :: 0 <= v < |component| ==>
      if component[v] == 0 then (forall c :: 0 <= c < |comps| ==> v !in comps[c])
      else 1 <= component[v] <= |comps| && v in comps[component[v] - 1]
  }

  method Number(component0: seq<int>, comp: seq<nat>, n: nat) returns (component: seq<int>)
    requires forall i :: 0 <= i < |comp| ==> comp[i] < |component0|
    ensures |component| == |component0|
    ensures forall v :: 0 <= v < |component| ==> component[v] == if v in comp then n else component0[v]
  {
    component := component0;
    for i := 0 to |comp|
      invariant |component| == |component0|
      invariant forall v :: 0 <= v < |component| ==> component[v] == if v in comp[..i] then n else component0[v]
    {
      component := component[comp[i] := n];
      TakeNext(comp, i);
    }
    TakeAll(comp);
  }

  /** The pairs that no component holds together. */
  method Apart(pairs: seq<Pair>, component: seq<int>) returns (reports: seq<Report>)
    requires forall p :: p in pairs ==> p.a < |component| && p.b < |component|
    ensures forall r :: r in reports <==>
      r.OnPair? && r.pair in pairs && (component[r.pair.a] == 0 || component[r.pair.a] != component[r.pair.b])
  {
    reports := [];
    for i := 0 to |pairs|
      invariant forall r :: r in reports <==>
        r.OnPair? && r.pair in pairs[..i] && (component[r.pair.a] == 0 || component[r.pair.a] != component[r.pair.b])
    {
      var p := pairs[i];
      assert p in pairs;
      TakeNext(pairs, i);
      if component[p.a] == 0 || component[p.a] != component[p.b] {
        reports := reports + [OnPair(p)];
      }
    }
    TakeAll(pairs);
  }

  /** The reports on each component, in turn, and after them the lost updates no component holds together. */
  ghost predicate Reported(adj: Adj, pairs: seq<Pair>, comps: seq<seq<nat>>, parts: seq<seq<Report>>) {
    && AreComponents(Graph(adj, AnyKind), comps)
    && |parts| == |comps|
    && forall i :: 0 <= i < |comps| ==>
      Verdict(adj, Elements(comps[i]), pairs, parts[i]) && Exact(adj, Elements(comps[i]), pairs, parts[i])
  }

  method FindCycles(adj: Adj, pairs: seq<Pair>)
      returns (reports: seq<Report>, ghost comps: seq<seq<nat>>, ghost parts: seq<seq<Report>>,
      ghost apart: seq<Report>)
    requires Valid(Graph(adj, AnyKind)) && NoSelfEdges(adj) && forall p :: p in pairs ==> p.a < |adj| && p.b < |adj|
    ensures Reported(adj, pairs, comps, parts) && reports == Flatten(parts) + apart
    ensures forall r :: r in apart <==>
      r.OnPair? && r.pair in pairs && forall c :: 0 <= c < |comps| ==> !(r.pair.a in comps[c] && r.pair.b in comps[c])
    ensures reports == [] <==> Acyclic(adj) && pairs == []
  {
    hide Verdict, Exact, NoSelfEdges, AreComponents, IsComponent;
    var found := Sccs(Graph(adj, AnyKind));
    comps := found;
    parts, reports := [], [];
    var component := seq(|adj|, _ => 0);
    for n := 0 to |found|
      invariant |component| == |adj| && |parts| == n && reports == Flatten(parts)
      invariant forall i :: 0 <= i < n ==>
        Verdict(adj, Elements(comps[i]), pairs, parts[i]) && Exact(adj, Elements(comps[i]), pairs, parts[i])
      invariant Numbers(comps[..n], component)
    {
      ComponentFits(adj, comps, n);
      var part := ClassifyComponent(adj, found[n], pairs);
      ghost var was := component;
      component := Number(component, found[n], n + 1);
      NumbersNext(adj, comps, was, component, n);
      DropLast(parts, part);
      parts := parts + [part];
      reports := reports + part;
    }
    TakeAll(comps);
    var rest := Apart(pairs, component);
    apart := rest;
    forall r: Report | r.OnPair? && r.pair in pairs
      ensures (component[r.pair.a] == 0 || component[r.pair.a] != component[r.pair.b]) <==>
        forall c :: 0 <= c < |comps| ==> !(r.pair.a in comps[c] && r.pair.b in comps[c])
    {
      ApartMeans(adj, comps, component, r.pair);
    }
    NothingReported(adj, pairs, comps, parts, apart);
    reports := reports + rest;
  }

  lemma ComponentFits(adj: Adj, comps: seq<seq<nat>>, n: nat)
    requires AreComponents(Graph(adj, AnyKind), comps) && n < |comps|
    ensures IsComponent(Graph(adj, AnyKind), comps[n]) && forall i :: 0 <= i < |comps[n]| ==> comps[n][i] < |adj|
  {
    forall i | 0 <= i < |comps[n]| ensures comps[n][i] < |adj| {
      assert comps[n][i] in comps[n];
    }
  }

  lemma NumbersNext(adj: Adj, comps: seq<seq<nat>>, was: seq<int>, component: seq<int>, n: nat)
    requires AreComponents(Graph(adj, AnyKind), comps) && n < |comps| && |component| == |was|
    requires Numbers(comps[..n], was)
    requires forall v :: 0 <= v < |component| ==> component[v] == if v in comps[n] then n + 1 else was[v]
    ensures Numbers(comps[..n + 1], component)
  {
    hide IsComponent;
    TakeNext(comps, n);
    var before, after := comps[..n], comps[..n + 1];
    forall v | 0 <= v < |component|
      ensures if component[v] == 0 then (forall c :: 0 <= c < |after| ==> v !in after[c])
        else 1 <= component[v] <= |after| && v in after[component[v] - 1]
    {
      if v in comps[n] {
        assert after[n] == comps[n];
      } else if was[v] == 0 {
        forall c | 0 <= c < |after| ensures v !in after[c] {
          assert c < n ==> after[c] == before[c];
        }
      } else {
        assert after[was[v] - 1] == before[was[v] - 1];
      }
    }
  }

  lemma ApartMeans(adj: Adj, comps: seq<seq<nat>>, component: seq<int>, p: Pair)
    requires AreComponents(Graph(adj, AnyKind), comps) && Numbers(comps, component) && p.a < |component| &&
      p.b < |component|
    ensures (component[p.a] == 0 || component[p.a] != component[p.b]) <==>
      forall c :: 0 <= c < |comps| ==> !(p.a in comps[c] && p.b in comps[c])
  {
    hide IsComponent;
    if component[p.a] != 0 && component[p.a] == component[p.b] {
      assert p.a in comps[component[p.a] - 1] && p.b in comps[component[p.a] - 1];
    } else {
      forall c | 0 <= c < |comps| ensures !(p.a in comps[c] && p.b in comps[c]) {
        if p.a in comps[c] && p.b in comps[c] {
          OwnNumber(adj, comps, component, p.a, c);
          OwnNumber(adj, comps, component, p.b, c);
        }
      }
    }
  }

  lemma OwnNumber(adj: Adj, comps: seq<seq<nat>>, component: seq<int>, v: nat, c: nat)
    requires AreComponents(Graph(adj, AnyKind), comps) && Numbers(comps, component) && v < |component| &&
      c < |comps| && v in comps[c]
    ensures component[v] == c + 1
  {
    hide IsComponent;
    var d := component[v] - 1;
    assert component[v] != 0;
    assert v in comps[d];
  }

  lemma NothingReported(adj: Adj, pairs: seq<Pair>, comps: seq<seq<nat>>, parts: seq<seq<Report>>, apart: seq<Report>)
    requires Reported(adj, pairs, comps, parts)
    requires forall r :: r in apart <==>
      r.OnPair? && r.pair in pairs && forall c :: 0 <= c < |comps| ==> !(r.pair.a in comps[c] && r.pair.b in comps[c])
    ensures Flatten(parts) + apart == [] <==> Acyclic(adj) && pairs == []
  {
    hide Mutual, Exact;
    FlattenEmpty(parts) by {
      forall i | 0 <= i < |parts| ensures |parts[i]| > 0 {
        assert Verdict(adj, Elements(comps[i]), pairs, parts[i]);
      }
    }
    AcyclicMeans(adj, comps);
    if comps == [] {
      if pairs != [] {
        assert OnPair(pairs[0]) in apart;
      }
      if apart != [] {
        assert apart[0] in apart;
      }
    }
  }

  lemma AcyclicMeans(adj: Adj, comps: seq<seq<nat>>)
    requires AreComponents(Graph(adj, AnyKind), comps)
    ensures Acyclic(adj) <==> comps == []
  {
    hide Mutual;
    if comps != [] {
      var c := comps[0];
      assert IsComponent(Graph(adj, AnyKind), c);
      assert c[0] in c && c[1] in c && c[0] != c[1] && Mutual(Graph(adj, AnyKind), c[0], c[1]);
    }
  }
}
