/**
 Cycles of dependencies inside a set of transactions, and the searches for them
 (listappend/listappend.go: path, cycleWithin, gSingle and nonadjacent).
 */
module Cycles {
  import opened Options
  import opened Seqs
  import opened Graphs
  import opened Bfs

  datatype Cycle = Cycle(vs: seq<nat>, ks: seq<Kind>)

  /** The vertex the `i`-th edge of a cycle leads to. */
  function After(vs: seq<nat>, i: nat): nat
    requires i < |vs|
  {
    if i + 1 < |vs| then vs[i + 1] else vs[0]
  }

  /** A closed walk along edges of the graph, inside `inside`. */
  ghost predicate IsCycle(adj: Adj, inside: set<nat>, c: Cycle) {
    && |c.vs| == |c.ks| > 0
    && (forall i :: 0 <= i < |c.vs| ==> c.vs[i] in inside && c.vs[i] < |adj|)
    && (forall i :: 0 <= i < |c.vs| ==> Edge(After(c.vs, i), c.ks[i]) in adj[c.vs[i]])
  }

  ghost predicate OfKinds(ok: Kind -> bool, c: Cycle) {
    forall i :: 0 <= i < |c.ks| ==> ok(c.ks[i])
  }

  ghost predicate Simple(c: Cycle) {
    Distinct(c.vs)
  }

  predicate AnyKind(k: Kind) { true }
  predicate NoRW(k: Kind) { !k.RW? }
  predicate OnlyWW(k: Kind) { k.WW? }

  /** Two rw edges in a row, the last edge and the first being in a row too. */
  ghost predicate AdjacentRW(ks: seq<Kind>) {
    exists i :: 0 <= i < |ks| && ks[i].RW? && ks[if i + 1 < |ks| then i + 1 else 0].RW?
  }

  ghost predicate HasRW(ks: seq<Kind>) {
    exists i :: 0 <= i < |ks| && ks[i].RW?
  }

  /** Exactly one rw edge. */
  ghost predicate OneRW(ks: seq<Kind>) {
    exists i :: 0 <= i < |ks| && ks[i].RW? && forall j :: 0 <= j < |ks| && j != i ==> !ks[j].RW?
  }

  // ----- Following edges inside a set

  function Keep(es: seq<Edge>, inside: set<nat>, ok: Kind -> bool): seq<Hop<nat>> {
    if es == [] then []
    else
      (if ok(es[0].kind) && es[0].to in inside then [Hop(es[0].to, es[0].kind)] else []) + Keep(es[1..], inside, ok)
  }

  function Next(adj: Adj, inside: set<nat>, ok: Kind -> bool): nat -> seq<Hop<nat>> {
    (v: nat) => if v < |adj| then Keep(adj[v], inside, ok) else []
  }

  lemma {:induction false} Kept(es: seq<Edge>, inside: set<nat>, ok: Kind -> bool, h: Hop<nat>)
    ensures h in Keep(es, inside, ok) <==> Edge(h.to, h.kind) in es && ok(h.kind) && h.to in inside
  {
    if es != [] {
      Kept(es[1..], inside, ok, h);
      assert es == [es[0]] + es[1..];
    }
  }

  lemma NextKept(adj: Adj, inside: set<nat>, ok: Kind -> bool, v: nat, h: Hop<nat>)
    ensures h in Next(adj, inside, ok)(v) <==> v < |adj| && Edge(h.to, h.kind) in adj[v] && ok(h.kind) && h.to in inside
  {
    if v < |adj| { Kept(adj[v], inside, ok, h); }
  }

  function Close(c: Cycle): Walk<nat>
    requires |c.vs| > 0
  {
    Walk(c.vs + [c.vs[0]], c.ks)
  }

  function Loop(w: Walk<nat>): Cycle
    requires |w.ks| <= |w.vs|
  {
    Cycle(w.vs[..|w.ks|], w.ks)
  }

  /** A cycle of accepted kinds is a walk back to where it began. */
  lemma CycleIsWalk(adj: Adj, inside: set<nat>, ok: Kind -> bool, c: Cycle)
    requires IsCycle(adj, inside, c) && OfKinds(ok, c)
    ensures Joins(Next(adj, inside, ok), c.vs[0], c.vs[0], Close(c))
  {
    var w := Close(c);
    forall i | 0 <= i < |w.ks| ensures Hop(w.vs[i + 1], w.ks[i]) in Next(adj, inside, ok)(w.vs[i]) {
      assert w.vs[i + 1] == After(c.vs, i) && w.vs[i] == c.vs[i];
      NextKept(adj, inside, ok, w.vs[i], Hop(w.vs[i + 1], w.ks[i]));
      assert After(c.vs, i) in inside;
    }
  }

  /** And a walk back to where it began is a cycle. */
  lemma WalkIsCycle(adj: Adj, inside: set<nat>, ok: Kind -> bool, v: nat, w: Walk<nat>)
    requires Joins(Next(adj, inside, ok), v, v, w) && |w.ks| > 0 && v in inside
    ensures IsCycle(adj, inside, Loop(w)) && OfKinds(ok, Loop(w))
  {
    var c := Loop(w);
    forall i | 0 <= i < |c.vs|
      ensures c.vs[i] in inside && c.vs[i] < |adj| && Edge(After(c.vs, i), c.ks[i]) in adj[c.vs[i]] && ok(c.ks[i])
    {
      NextKept(adj, inside, ok, w.vs[i], Hop(w.vs[i + 1], w.ks[i]));
      if i > 0 {
        NextKept(adj, inside, ok, w.vs[i - 1], Hop(w.vs[i], w.ks[i - 1]));
        assert Hop(w.vs[i - 1 + 1], w.ks[i - 1]) in Next(adj, inside, ok)(w.vs[i - 1]);
      }
      assert Hop(w.vs[i + 1], w.ks[i]) in Next(adj, inside, ok)(w.vs[i]);
    }
  }

  // ----- A shortest path

  /** Whatever a search that takes any walk finds is as short as any. */
  lemma NeverRejected<T(!new)>(next: T -> seq<Hop<T>>, src: T, dst: T, len: nat)
    ensures !Rejected(next, src, dst, _ => true, len)
  {
  }

  /** Finds a shortest path, of at least one edge, from `src` to `dst` inside `inside` over the kinds `ok` accepts. */
  method Path(adj: Adj, src: nat, dst: nat, inside: set<nat>, ok: Kind -> bool) returns (r: Option<Walk<nat>>)
    ensures r.Some? ==> IsFound(Next(adj, inside, ok), src, dst, _ => true, r.value)
    ensures r.Some? ==> forall w :: Joins(Next(adj, inside, ok), src, dst, w) && |w.ks| > 0 ==> |r.value.ks| <= |w.ks|
    ensures r.None? ==> forall w :: Joins(Next(adj, inside, ok), src, dst, w) ==> |w.ks| == 0
  {
    hide Joins, IsFound, Rejected;
    var next := Next(adj, inside, ok);
    forall x, h | x in inside + {src} && h in next(x) ensures h.to in inside + {src} || h.to == dst {
      NextKept(adj, inside, ok, x, h);
    }
    r := Search(next, src, dst, _ => true, inside + {src});
    forall w | Joins(next, src, dst, w) && |w.ks| > 0 ensures !Rejected(next, src, dst, _ => true, |w.ks|) {
      NeverRejected(next, src, dst, |w.ks|);
    }
  }

  // ----- Cycles of given kinds

  ghost predicate NoCycle(adj: Adj, inside: set<nat>, ok: Kind -> bool) {
    forall c :: IsCycle(adj, inside, c) ==> !OfKinds(ok, c)
  }

  ghost predicate NoneFrom(adj: Adj, inside: set<nat>, ok: Kind -> bool, v: nat) {
    forall c :: IsCycle(adj, inside, c) && c.vs[0] == v ==> !OfKinds(ok, c)
  }

  lemma NoPathNoCycle(adj: Adj, inside: set<nat>, ok: Kind -> bool, v: nat)
    requires forall w :: Joins(Next(adj, inside, ok), v, v, w) ==> |w.ks| == 0
    ensures NoneFrom(adj, inside, ok, v)
  {
    forall c | IsCycle(adj, inside, c) && c.vs[0] == v ensures !OfKinds(ok, c) {
      if OfKinds(ok, c) {
        CycleIsWalk(adj, inside, ok, c);
        assert false;
      }
    }
  }

  lemma FoundIsCycle(adj: Adj, inside: set<nat>, ok: Kind -> bool, v: nat, w: Walk<nat>)
    requires IsFound(Next(adj, inside, ok), v, v, _ => true, w) && v in inside
    ensures IsCycle(adj, inside, Loop(w)) && OfKinds(ok, Loop(w)) && Simple(Loop(w))
  {
    WalkIsCycle(adj, inside, ok, v, w);
  }

  /** A simple cycle in the component whose edges are all of kinds `ok` accepts, unless there is none. */
  method CycleWithin(adj: Adj, comp: seq<nat>, ok: Kind -> bool) returns (r: Option<Cycle>)
    ensures r.Some? ==> IsCycle(adj, Elements(comp), r.value) && OfKinds(ok, r.value) && Simple(r.value)
    ensures r.None? ==> NoCycle(adj, Elements(comp), ok)
  {
    hide IsFound, Joins, IsCycle, OfKinds, Simple, NoneFrom;
    var inside := Elements(comp);
    r := None;
    for i := 0 to |comp|
      invariant r.Some? ==> IsCycle(adj, inside, r.value) && OfKinds(ok, r.value) && Simple(r.value)
      invariant r.None? ==> forall k :: 0 <= k < i ==> NoneFrom(adj, inside, ok, comp[k])
    {
      var v := comp[i];
      var found := Path(adj, v, v, inside, ok);
      if found.Some? {
        LoopFits(adj, inside, ok, v, found.value);
        FoundIsCycle(adj, inside, ok, v, found.value);
        if r.None? || |found.value.ks| < |r.value.ks| {
          r := Some(Loop(found.value));
          if |r.value.vs| == 2 {
            break;
          }
        }
      } else {
        NoPathNoCycle(adj, inside, ok, v);
      }
    }
    if r.None? {
      NoneAnywhere(adj, comp, inside, ok);
    }
  }

  lemma LoopFits(adj: Adj, inside: set<nat>, ok: Kind -> bool, v: nat, w: Walk<nat>)
    requires IsFound(Next(adj, inside, ok), v, v, _ => true, w)
    ensures |w.ks| <= |w.vs|
  {
  }

  lemma NoneAnywhere(adj: Adj, comp: seq<nat>, inside: set<nat>, ok: Kind -> bool)
    requires inside == Elements(comp)
    requires forall k :: 0 <= k < |comp| ==> NoneFrom(adj, inside, ok, comp[k])
    ensures NoCycle(adj, inside, ok)
  {
    forall c | IsCycle(adj, inside, c) ensures !OfKinds(ok, c) {
      assert c.vs[0] in inside;
      var k :| 0 <= k < |comp| && comp[k] == c.vs[0];
      assert NoneFrom(adj, inside, ok, comp[k]);
    }
  }

  // ----- Cycles with one rw edge

  ghost predicate NoSelfEdges(adj: Adj) {
    forall v, e :: 0 <= v < |adj| && e in adj[v] ==> e.to != v
  }

  /** The cycle of an edge and a path back. */
  function Around(a: nat, k: Kind, back: Walk<nat>): Cycle
    requires |back.ks| <= |back.vs|
  {
    Cycle([a] + back.vs[..|back.ks|], [k] + back.ks)
  }

  lemma BackStep(adj: Adj, inside: set<nat>, b: nat, a: nat, back: Walk<nat>, i: nat)
    requires Joins(Next(adj, inside, NoRW), b, a, back) && b in inside && i < |back.ks|
    ensures back.vs[i] in inside && back.vs[i] < |adj| && Edge(back.vs[i + 1], back.ks[i]) in adj[back.vs[i]] &&
      !back.ks[i].RW?
  {
    assert Hop(back.vs[i + 1], back.ks[i]) in Next(adj, inside, NoRW)(back.vs[i]);
    NextKept(adj, inside, NoRW, back.vs[i], Hop(back.vs[i + 1], back.ks[i]));
    if i > 0 {
      assert Hop(back.vs[i - 1 + 1], back.ks[i - 1]) in Next(adj, inside, NoRW)(back.vs[i - 1]);
      NextKept(adj, inside, NoRW, back.vs[i - 1], Hop(back.vs[i], back.ks[i - 1]));
    }
  }

  lemma AroundSimple(adj: Adj, inside: set<nat>, a: nat, b: nat, back: Walk<nat>)
    requires IsFound(Next(adj, inside, NoRW), b, a, _ => true, back) && a != b
    ensures Simple(Around(a, RW, back))
  {
    var vs := Around(a, RW, back).vs;
    forall i, j | 0 <= i < j < |vs| ensures vs[i] != vs[j] {
      assert vs[j] == back.vs[j - 1];
      if i > 0 {
        assert vs[i] == back.vs[..|back.ks|][i - 1] && vs[j] == back.vs[..|back.ks|][j - 1];
      }
    }
  }

  lemma AroundIsCycle(adj: Adj, inside: set<nat>, a: nat, b: nat, back: Walk<nat>)
    requires IsFound(Next(adj, inside, NoRW), b, a, _ => true, back)
    requires a in inside && b in inside && a != b && a < |adj| && Edge(b, RW) in adj[a]
    ensures IsCycle(adj, inside, Around(a, RW, back)) && Simple(Around(a, RW, back)) && OneRW(Around(a, RW, back).ks)
  {
    hide Simple, Next, Distinct;
    AroundSimple(adj, inside, a, b, back);
    var c := Around(a, RW, back);
    forall i | 0 <= i < |c.vs|
      ensures c.vs[i] in inside && c.vs[i] < |adj| && Edge(After(c.vs, i), c.ks[i]) in adj[c.vs[i]] &&
        (i > 0 ==> !c.ks[i].RW?)
    {
      if i > 0 {
        BackStep(adj, inside, b, a, back, i - 1);
        assert c.vs[i] == back.vs[i - 1] && After(c.vs, i) == back.vs[i];
      } else {
        assert After(c.vs, 0) == b;
      }
    }
    assert c.ks[0].RW?;
  }

  ghost predicate NoneBack(adj: Adj, inside: set<nat>, a: nat, b: nat) {
    forall w :: Joins(Next(adj, inside, NoRW), b, a, w) ==> |w.ks| == 0
  }

  /** None of the first `n` edges of `a` is an rw edge with a path back without rw edges. */
  ghost predicate NoSingleFrom(adj: Adj, inside: set<nat>, a: nat, n: nat) {
    a < |adj| && n <= |adj[a]| &&
    forall k :: 0 <= k < n && adj[a][k].kind.RW? && adj[a][k].to in inside ==> NoneBack(adj, inside, a, adj[a][k].to)
  }

  /** A simple cycle of which one edge is rw and no other, unless there is none. */
  method GSingle(adj: Adj, comp: seq<nat>) returns (r: Option<Cycle>)
    requires NoSelfEdges(adj) && forall i :: 0 <= i < |comp| ==> comp[i] < |adj|
    ensures r.Some? ==> IsCycle(adj, Elements(comp), r.value) && Simple(r.value) && OneRW(r.value.ks)
    ensures r.None? ==> forall c :: IsCycle(adj, Elements(comp), c) ==> !OneRW(c.ks)
  {
    hide IsFound, Joins, IsCycle, Simple, OneRW, NoneBack;
    var inside := Elements(comp);
    for i := 0 to |comp|
      invariant forall k :: 0 <= k < i ==> NoSingleFrom(adj, inside, comp[k], |adj[comp[k]]|)
    {
      var a := comp[i];
      for j := 0 to |adj[a]|
        invariant NoSingleFrom(adj, inside, a, j)
      {
        var e := adj[a][j];
        assert e in adj[a] && a in inside;
        if e.kind.RW? && e.to in inside {
          var back := Path(adj, e.to, a, inside, NoRW);
          if back.Some? {
            BackFits(adj, inside, e.to, a, back.value);
            assert e == Edge(e.to, RW);
            AroundIsCycle(adj, inside, a, e.to, back.value);
            return Some(Around(a, RW, back.value));
          }
          NoBack(adj, inside, a, e.to);
        }
      }
    }
    forall c | IsCycle(adj, inside, c) ensures !OneRW(c.ks) {
      NoOneRW(adj, comp, inside, c);
    }
    r := None;
  }

  lemma BackFits(adj: Adj, inside: set<nat>, b: nat, a: nat, w: Walk<nat>)
    requires IsFound(Next(adj, inside, NoRW), b, a, _ => true, w)
    ensures |w.ks| <= |w.vs|
  {
  }

  lemma NoBack(adj: Adj, inside: set<nat>, a: nat, b: nat)
    requires forall w :: Joins(Next(adj, inside, NoRW), b, a, w) ==> |w.ks| == 0
    ensures NoneBack(adj, inside, a, b)
  {
  }

  /** A cycle turned to begin at its `i`-th vertex. */
  function Turn(c: Cycle, i: nat): Cycle
    requires i < |c.vs| == |c.ks|
  {
    Cycle(c.vs[i..] + c.vs[..i], c.ks[i..] + c.ks[..i])
  }

  ghost function Turned(n: nat, i: nat, j: nat): nat
    requires i < n && j < n
  {
    if j < n - i then j + i else j + i - n
  }

  lemma TurnAt(c: Cycle, i: nat, j: nat)
    requires i < |c.vs| == |c.ks| && j < |c.vs|
    ensures Turn(c, i).vs[j] == c.vs[Turned(|c.vs|, i, j)]
    ensures Turn(c, i).ks[j] == c.ks[Turned(|c.vs|, i, j)]
    ensures After(Turn(c, i).vs, j) == After(c.vs, Turned(|c.vs|, i, j))
    ensures j > 0 ==> Turned(|c.vs|, i, j) != i
  {
    var n := |c.vs|;
    var next := if j + 1 < n then j + 1 else 0;
    var k, m := Turned(n, i, j), Turned(n, i, next);
    SplitAt(c.vs, i, j);
    SplitAt(c.ks, i, j);
    SplitAt(c.vs, i, next);
    assert m == if k + 1 < n then k + 1 else 0;
  }

  lemma SplitAt<T>(s: seq<T>, i: nat, j: nat)
    requires i < |s| && j < |s|
    ensures (s[i..] + s[..i])[j] == s[Turned(|s|, i, j)]
  {
  }

  lemma TurnIsCycle(adj: Adj, inside: set<nat>, c: Cycle, i: nat)
    requires IsCycle(adj, inside, c) && i < |c.vs|
    ensures IsCycle(adj, inside, Turn(c, i))
  {
    var t := Turn(c, i);
    forall j | 0 <= j < |c.vs|
      ensures t.vs[j] in inside && t.vs[j] < |adj| && Edge(After(t.vs, j), t.ks[j]) in adj[t.vs[j]]
    {
      TurnAt(c, i, j);
    }
  }

  lemma TurnOneRW(c: Cycle, i: nat)
    requires i < |c.vs| == |c.ks| && c.ks[i].RW? && forall j :: 0 <= j < |c.ks| && j != i ==> !c.ks[j].RW?
    ensures |Turn(c, i).ks| == |c.ks| && Turn(c, i).ks[0].RW? && forall j :: 0 < j < |c.ks| ==> !Turn(c, i).ks[j].RW?
  {
    TurnAt(c, i, 0);
    forall j | 0 < j < |c.ks| ensures !Turn(c, i).ks[j].RW? {
      TurnAt(c, i, j);
    }
  }

  /** The rest of a cycle whose first edge alone is rw is a path back without any. */
  lemma RestBack(adj: Adj, inside: set<nat>, t: Cycle)
    requires IsCycle(adj, inside, t) && NoSelfEdges(adj)
    requires t.ks[0].RW? && forall j :: 0 < j < |t.ks| ==> !t.ks[j].RW?
    ensures |t.vs| > 1
    ensures Joins(Next(adj, inside, NoRW), t.vs[1], t.vs[0], Walk(t.vs[1..] + [t.vs[0]], t.ks[1..]))
  {
    assert Edge(After(t.vs, 0), t.ks[0]) in adj[t.vs[0]];
    var w := Walk(t.vs[1..] + [t.vs[0]], t.ks[1..]);
    forall j | 0 <= j < |w.ks| ensures Hop(w.vs[j + 1], w.ks[j]) in Next(adj, inside, NoRW)(w.vs[j]) {
      assert w.vs[j] == t.vs[j + 1] && w.vs[j + 1] == After(t.vs, j + 1) && w.ks[j] == t.ks[j + 1];
      assert After(t.vs, j + 1) in inside;
      NextKept(adj, inside, NoRW, w.vs[j], Hop(w.vs[j + 1], w.ks[j]));
    }
  }

  lemma NoOneRW(adj: Adj, comp: seq<nat>, inside: set<nat>, c: Cycle)
    requires inside == Elements(comp) && NoSelfEdges(adj) && forall i :: 0 <= i < |comp| ==> comp[i] < |adj|
    requires forall k :: 0 <= k < |comp| ==> NoSingleFrom(adj, inside, comp[k], |adj[comp[k]]|)
    requires IsCycle(adj, inside, c)
    ensures !OneRW(c.ks)
  {
    hide Joins, IsCycle, NoSingleFrom, NoSelfEdges, Turn;
    if OneRW(c.ks) {
      SameLength(adj, inside, c);
      var i :| 0 <= i < |c.ks| && c.ks[i].RW? && forall j :: 0 <= j < |c.ks| && j != i ==> !c.ks[j].RW?;
      TurnIsCycle(adj, inside, c, i);
      TurnOneRW(c, i);
      var t := Turn(c, i);
      SameLength(adj, inside, t);
      RestBack(adj, inside, t);
      FirstBack(adj, comp, inside, t);
    }
  }

  lemma SameLength(adj: Adj, inside: set<nat>, c: Cycle)
    requires IsCycle(adj, inside, c)
    ensures |c.vs| == |c.ks| > 0
  {
  }

  lemma FirstBack(adj: Adj, comp: seq<nat>, inside: set<nat>, t: Cycle)
    requires inside == Elements(comp) && forall i :: 0 <= i < |comp| ==> comp[i] < |adj|
    requires forall k :: 0 <= k < |comp| ==> NoSingleFrom(adj, inside, comp[k], |adj[comp[k]]|)
    requires IsCycle(adj, inside, t) && |t.vs| > 1 && t.ks[0].RW?
    ensures NoneBack(adj, inside, t.vs[0], t.vs[1])
  {
    hide NoneBack;
    var k :| 0 <= k < |comp| && comp[k] == t.vs[0];
    assert Edge(After(t.vs, 0), t.ks[0]) in adj[t.vs[0]];
    var j :| 0 <= j < |adj[t.vs[0]]| && adj[t.vs[0]][j] == Edge(t.vs[1], RW);
    assert t.vs[1] in inside;
  }
}
