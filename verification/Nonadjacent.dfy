/**
 Cycles whose rw edges are not adjacent: the search for one (listappend/listappend.go,
 nonadjacent), and why it misses none that matters.
 */
module Nonadjacent {
  import opened Options
  import opened Seqs
  import opened Graphs
  import opened Bfs
  import opened Cycles

  /** A transaction, and whether it was arrived at by an rw edge. */
  datatype Arrival = Arrival(v: nat, rw: bool)

  function KeepFrom(es: seq<Edge>, inside: set<nat>, rw: bool): seq<Hop<Arrival>> {
    if es == [] then []
    else
      (if es[0].to in inside && !(es[0].kind.RW? && rw) then [Hop(Arrival(es[0].to, es[0].kind.RW?), es[0].kind)]
        else [])
      + KeepFrom(es[1..], inside, rw)
  }

  /** The hops on from an arrival: no rw hop right after another. */
  function NextArrivals(adj: Adj, inside: set<nat>): Arrival -> seq<Hop<Arrival>> {
    (a: Arrival) => if a.v < |adj| then KeepFrom(adj[a.v], inside, a.rw) else []
  }

  lemma {:induction false} KeptFrom(es: seq<Edge>, inside: set<nat>, rw: bool, h: Hop<Arrival>)
    ensures h in KeepFrom(es, inside, rw) <==>
      Edge(h.to.v, h.kind) in es && h.to.v in inside && !(h.kind.RW? && rw) && h.to.rw == h.kind.RW?
  {
    if es != [] {
      KeptFrom(es[1..], inside, rw, h);
      assert es == [es[0]] + es[1..];
    }
  }

  lemma NextFrom(adj: Adj, inside: set<nat>, a: Arrival, h: Hop<Arrival>)
    ensures h in NextArrivals(adj, inside)(a) <==>
      a.v < |adj| && Edge(h.to.v, h.kind) in adj[a.v] && h.to.v in inside && !(h.kind.RW? && a.rw) &&
        h.to.rw == h.kind.RW?
  {
    if a.v < |adj| { KeptFrom(adj[a.v], inside, a.rw, h); }
  }

  function Vertices(s: seq<Arrival>): seq<nat> {
    seq(|s|, i requires 0 <= i < |s| => s[i].v)
  }

  function CycleOf(w: Walk<Arrival>): Cycle
    requires |w.ks| <= |w.vs|
  {
    Cycle(Vertices(w.vs[..|w.ks|]), w.ks)
  }

  /** A walk back to the state it began in. */
  ghost predicate Closes(adj: Adj, inside: set<nat>, w: Walk<Arrival>) {
    |w.ks| > 0 && |w.vs| == |w.ks| + 1 && w.vs[0].v in inside && Joins(NextArrivals(adj, inside), w.vs[0], w.vs[0], w)
  }

  lemma HopFacts(adj: Adj, inside: set<nat>, w: Walk<Arrival>, i: nat)
    requires IsWalk(NextArrivals(adj, inside), w) && i < |w.ks|
    ensures w.vs[i].v < |adj| && Edge(w.vs[i + 1].v, w.ks[i]) in adj[w.vs[i].v] && w.vs[i + 1].v in inside
    ensures !(w.ks[i].RW? && w.vs[i].rw) && w.vs[i + 1].rw == w.ks[i].RW?
  {
    assert Hop(w.vs[i + 1], w.ks[i]) in NextArrivals(adj, inside)(w.vs[i]);
    NextFrom(adj, inside, w.vs[i], Hop(w.vs[i + 1], w.ks[i]));
  }

  /** Such a walk is a cycle with no two rw edges in a row. */
  lemma ClosesIsCycle(adj: Adj, inside: set<nat>, w: Walk<Arrival>)
    requires Closes(adj, inside, w)
    ensures IsCycle(adj, inside, CycleOf(w)) && !AdjacentRW(w.ks)
  {
    hide IsWalk, NextArrivals;
    var c := CycleOf(w);
    forall i | 0 <= i < |c.vs|
      ensures c.vs[i] in inside && c.vs[i] < |adj| && Edge(After(c.vs, i), c.ks[i]) in adj[c.vs[i]]
    {
      HopFacts(adj, inside, w, i);
      if i > 0 { HopFacts(adj, inside, w, i - 1); }
    }
    forall i | 0 <= i < |w.ks| && w.ks[i].RW? ensures !w.ks[if i + 1 < |w.ks| then i + 1 else 0].RW? {
      HopFacts(adj, inside, w, i);
      HopFacts(adj, inside, w, if i + 1 < |w.ks| then i + 1 else 0);
    }
  }

  function Before(n: nat, i: nat): nat
    requires i < n
  {
    if i == 0 then n - 1 else i - 1
  }

  function ArrivalAt(c: Cycle, i: nat): Arrival
    requires i < |c.vs| == |c.ks|
  {
    Arrival(c.vs[i], c.ks[Before(|c.vs|, i)].RW?)
  }

  function Arrivals(c: Cycle): Walk<Arrival>
    requires |c.vs| == |c.ks| > 0
  {
    Walk(seq(|c.vs|, i requires 0 <= i < |c.vs| => ArrivalAt(c, i)) + [ArrivalAt(c, 0)], c.ks)
  }

  /** And a cycle with no two rw edges in a row is such a walk. */
  lemma CycleCloses(adj: Adj, inside: set<nat>, c: Cycle)
    requires IsCycle(adj, inside, c) && !AdjacentRW(c.ks)
    ensures Closes(adj, inside, Arrivals(c))
  {
    var w := Arrivals(c);
    var n := |c.vs|;
    forall i | 0 <= i < |w.ks| ensures Hop(w.vs[i + 1], w.ks[i]) in NextArrivals(adj, inside)(w.vs[i]) {
      assert w.vs[i] == ArrivalAt(c, i);
      assert w.vs[i + 1] == ArrivalAt(c, if i + 1 < n then i + 1 else 0);
      assert Edge(After(c.vs, i), c.ks[i]) in adj[c.vs[i]];
      assert !(c.ks[Before(n, i)].RW? && c.ks[i].RW?) by {
        var b := Before(n, i);
        assert i == if b + 1 < n then b + 1 else 0;
      }
      NextFrom(adj, inside, w.vs[i], Hop(w.vs[i + 1], w.ks[i]));
    }
  }

  // ----- The shortest such walk goes through no transaction twice

  ghost predicate Shortest(adj: Adj, inside: set<nat>, w: Walk<Arrival>) {
    Closes(adj, inside, w) && forall u :: Closes(adj, inside, u) ==> |w.ks| <= |u.ks|
  }

  lemma {:induction false} FindShortest(adj: Adj, inside: set<nat>, w: Walk<Arrival>) returns (s: Walk<Arrival>)
    requires Closes(adj, inside, w)
    ensures Shortest(adj, inside, s)
    decreases |w.ks|
  {
    if u :| Closes(adj, inside, u) && |u.ks| < |w.ks| {
      s := FindShortest(adj, inside, u);
    } else {
      s := w;
    }
  }

  function Part(w: Walk<Arrival>, i: nat, j: nat): Walk<Arrival>
    requires i <= j <= |w.ks| && |w.vs| == |w.ks| + 1
  {
    Walk(w.vs[i..j + 1], w.ks[i..j])
  }

  lemma PartIsWalk(adj: Adj, inside: set<nat>, w: Walk<Arrival>, i: nat, j: nat)
    requires IsWalk(NextArrivals(adj, inside), w) && i <= j <= |w.ks|
    ensures Joins(NextArrivals(adj, inside), w.vs[i], w.vs[j], Part(w, i, j))
  {
    var p := Part(w, i, j);
    forall k | 0 <= k < |p.ks| ensures Hop(p.vs[k + 1], p.ks[k]) in NextArrivals(adj, inside)(p.vs[k]) {
      assert p.vs[k] == w.vs[i + k] && p.vs[k + 1] == w.vs[i + k + 1] && p.ks[k] == w.ks[i + k];
      assert Hop(w.vs[i + k + 1], w.ks[i + k]) in NextArrivals(adj, inside)(w.vs[i + k]);
    }
  }

  /** The same walk, from the same transaction as if not arrived at by an rw edge. */
  function Restart(w: Walk<Arrival>): Walk<Arrival>
    requires |w.vs| > 0
  {
    Walk([Arrival(w.vs[0].v, false)] + w.vs[1..], w.ks)
  }

  lemma RestartIsWalk(adj: Adj, inside: set<nat>, a: Arrival, b: Arrival, w: Walk<Arrival>)
    requires Joins(NextArrivals(adj, inside), a, b, w) && |w.ks| > 0
    ensures Joins(NextArrivals(adj, inside), Arrival(a.v, false), b, Restart(w))
  {
    var r := Restart(w);
    forall k | 0 <= k < |r.ks| ensures Hop(r.vs[k + 1], r.ks[k]) in NextArrivals(adj, inside)(r.vs[k]) {
      assert r.vs[k + 1] == w.vs[k + 1];
      HopFacts(adj, inside, w, k);
      NextFrom(adj, inside, r.vs[k], Hop(r.vs[k + 1], r.ks[k]));
      assert k > 0 ==> r.vs[k] == w.vs[k];
      assert Hop(w.vs[k + 1], w.ks[k]) in NextArrivals(adj, inside)(w.vs[k]);
    }
  }

  /** A walk that goes through one transaction twice has a shorter one inside it. */
  lemma TwiceIsLonger(adj: Adj, inside: set<nat>, w: Walk<Arrival>, i: nat, j: nat) returns (u: Walk<Arrival>)
    requires Closes(adj, inside, w) && i < j < |w.ks| && w.vs[i].v == w.vs[j].v
    ensures Closes(adj, inside, u) && |u.ks| < |w.ks|
  {
    var n := |w.ks|;
    if i > 0 { HopFacts(adj, inside, w, i - 1); }
    if w.vs[i] == w.vs[j] {
      PartIsWalk(adj, inside, w, i, j);
      u := Part(w, i, j);
    } else if w.vs[i].rw {
      PartIsWalk(adj, inside, w, i, j);
      RestartIsWalk(adj, inside, w.vs[i], w.vs[j], Part(w, i, j));
      u := Restart(Part(w, i, j));
    } else {
      PartIsWalk(adj, inside, w, j, n);
      PartIsWalk(adj, inside, w, 0, i);
      JoinIsWalk(NextArrivals(adj, inside), w.vs[j], w.vs[n], w.vs[i], Part(w, j, n), Part(w, 0, i));
      RestartIsWalk(adj, inside, w.vs[j], w.vs[i], Join(Part(w, j, n), Part(w, 0, i)));
      u := Restart(Join(Part(w, j, n), Part(w, 0, i)));
    }
  }

  lemma ShortestSimple(adj: Adj, inside: set<nat>, w: Walk<Arrival>)
    requires Shortest(adj, inside, w)
    ensures Simple(CycleOf(w))
  {
    var vs := CycleOf(w).vs;
    forall i, j | 0 <= i < j < |vs| ensures vs[i] != vs[j] {
      if vs[i] == vs[j] {
        var u := TwiceIsLonger(adj, inside, w, i, j);
        assert false;
      }
    }
  }

  // ----- The search

  predicate AllDistinct(s: seq<nat>) {
    forall i | 0 <= i < |s| :: forall j | 0 <= j < |s| :: i < j ==> s[i] != s[j]
  }

  /** The walk is a simple cycle that uses rw. */
  predicate Keeps(w: Walk<Arrival>) {
    |w.ks| <= |w.vs| && RW in w.ks && AllDistinct(CycleOf(w).vs)
  }

  lemma KeepsShortest(adj: Adj, inside: set<nat>, w: Walk<Arrival>)
    requires Shortest(adj, inside, w) && NoCycle(adj, inside, NoRW)
    ensures Keeps(w)
  {
    ShortestSimple(adj, inside, w);
    ClosesIsCycle(adj, inside, w);
    var c := CycleOf(w);
    assert !OfKinds(NoRW, c);
  }

  /**
   None is found from any state of the component: then every cycle has two rw edges in a row, or
   one of no rw edge exists.
   */
  ghost predicate NothingFrom(adj: Adj, inside: set<nat>, s: Arrival) {
    forall w :: Joins(NextArrivals(adj, inside), s, s, w) && |w.ks| > 0 ==>
      Rejected(NextArrivals(adj, inside), s, s, Keeps, |w.ks|)
  }

  lemma AllAdjacent(adj: Adj, inside: set<nat>, c: Cycle)
    requires NoCycle(adj, inside, NoRW)
    requires forall s: Arrival :: s.v in inside ==> NothingFrom(adj, inside, s)
    requires IsCycle(adj, inside, c)
    ensures AdjacentRW(c.ks)
  {
    hide Joins, IsCycle, NoCycle, Keeps;
    if !AdjacentRW(c.ks) {
      SameLength(adj, inside, c);
      CycleCloses(adj, inside, c);
      var w := FindShortest(adj, inside, Arrivals(c));
      assert NothingFrom(adj, inside, w.vs[0]);
      var u :| Joins(NextArrivals(adj, inside), w.vs[0], w.vs[0], u) && 0 < |u.ks| <= |w.ks| && !Keeps(u);
      AsShort(adj, inside, w, u);
      KeepsShortest(adj, inside, u);
      assert false;
    }
  }

  lemma AsShort(adj: Adj, inside: set<nat>, w: Walk<Arrival>, u: Walk<Arrival>)
    requires Shortest(adj, inside, w)
    requires Joins(NextArrivals(adj, inside), w.vs[0], w.vs[0], u) && 0 < |u.ks| <= |w.ks|
    ensures Shortest(adj, inside, u)
  {
  }

  lemma FoundNonadjacent(adj: Adj, inside: set<nat>, s: Arrival, w: Walk<Arrival>)
    requires IsFound(NextArrivals(adj, inside), s, s, Keeps, w) && s.v in inside
    ensures |w.ks| <= |w.vs|
    ensures IsCycle(adj, inside, CycleOf(w)) && Simple(CycleOf(w)) && HasRW(w.ks) && !AdjacentRW(w.ks)
  {
    ClosesIsCycle(adj, inside, w);
    KeepsFacts(w);
  }

  lemma KeepsFacts(w: Walk<Arrival>)
    requires Keeps(w)
    ensures Simple(CycleOf(w)) && HasRW(w.ks)
  {
    var i :| 0 <= i < |w.ks| && w.ks[i] == RW;
  }

  lemma NothingFound(adj: Adj, inside: set<nat>, s: Arrival)
    requires forall w :: Joins(NextArrivals(adj, inside), s, s, w) && |w.ks| > 0 ==>
      Rejected(NextArrivals(adj, inside), s, s, Keeps, |w.ks|)
    ensures NothingFrom(adj, inside, s)
  {
  }

  lemma ArrivalsWithin(adj: Adj, inside: set<nat>, s: Arrival)
    ensures Within(NextArrivals(adj, inside), s, set v, rw | v in inside && rw in {false, true} :: Arrival(v, rw))
  {
    var universe := set v, rw | v in inside && rw in {false, true} :: Arrival(v, rw);
    forall x, h | x in universe && h in NextArrivals(adj, inside)(x) ensures h.to in universe {
      NextFrom(adj, inside, x, h);
      assert h.to == Arrival(h.to.v, h.to.rw);
    }
  }

  /**
   A simple cycle that has rw edges but none next to another. Where every cycle has an rw edge,
   None means that no cycle is such.
   */
  method FindNonadjacent(adj: Adj, comp: seq<nat>) returns (r: Option<Cycle>)
    ensures r.Some? ==>
      IsCycle(adj, Elements(comp), r.value) && Simple(r.value) && HasRW(r.value.ks) && !AdjacentRW(r.value.ks)
    ensures r.None? && NoCycle(adj, Elements(comp), NoRW) ==> forall c :: IsCycle(adj, Elements(comp), c) ==>
      AdjacentRW(c.ks)
  {
    hide IsFound, Joins, IsCycle, Simple, HasRW, AdjacentRW, NoCycle, NothingFrom, Within, NextArrivals, CycleOf,
      Rejected;
    var inside := Elements(comp);
    for i := 0 to |comp|
      invariant forall k, rw :: 0 <= k < i ==> NothingFrom(adj, inside, Arrival(comp[k], rw))
    {
      for b := 0 to 2
        invariant b > 0 ==> NothingFrom(adj, inside, Arrival(comp[i], false))
        invariant b > 1 ==> NothingFrom(adj, inside, Arrival(comp[i], true))
      {
        var s := Arrival(comp[i], b == 1);
        ArrivalsWithin(adj, inside, s);
        var found := Search(NextArrivals(adj, inside), s, s, Keeps, set v, rw | v in inside && rw in {false, true} ::
          Arrival(v, rw));
        if found.Some? {
          FoundNonadjacent(adj, inside, s, found.value);
          CycleKinds(found.value);
          return Some(CycleOf(found.value));
        }
        NothingFound(adj, inside, s);
      }
    }
    r := None;
    if NoCycle(adj, inside, NoRW) {
      forall s: Arrival | s.v in inside ensures NothingFrom(adj, inside, s) {
        var k :| 0 <= k < |comp| && comp[k] == s.v;
        assert s == Arrival(comp[k], s.rw);
      }
      forall c | IsCycle(adj, inside, c) ensures AdjacentRW(c.ks) {
        AllAdjacent(adj, inside, c);
      }
    }
  }

  lemma CycleKinds(w: Walk<Arrival>)
    requires |w.ks| <= |w.vs|
    ensures CycleOf(w).ks == w.ks
  {
  }
}
