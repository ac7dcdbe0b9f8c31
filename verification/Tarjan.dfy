/**
 Tarjan's algorithm, iterative, for the strongly connected components of a graph
 (listappend/listappend.go, sccs): its state and what every step of it keeps.
 */
module Tarjan {
  import opened Seqs
  import opened Graphs

  /**
   `call` is the vertices being visited and `at` how many edges of each have been taken; the source
   keeps the two as one stack of frames. `found` is the vertices in the order they were found.
   */
  datatype State = State(index: seq<int>, low: seq<int>, on: seq<bool>, st: seq<nat>, call: seq<nat>, at: seq<nat>,
      next: nat, out: seq<seq<nat>>, ghost found: seq<nat>)

  function Ix(a: seq<int>, v: nat): int {
    if v < |a| then a[v] else -1
  }

  /** The vertices of `vs` are in the order they were found. */
  ghost predicate Ordered(index: seq<int>, vs: seq<nat>) {
    forall i, j :: 0 <= i < j < |vs| ==> Ix(index, vs[i]) < Ix(index, vs[j])
  }

  ghost predicate Numbered(index: seq<int>, found: seq<nat>) {
    forall v :: 0 <= v < |index| ==> -1 <= index[v] < |found| && (index[v] >= 0 ==> found[index[v]] == v)
  }

  ghost predicate Basic(g: Graph, s: State) {
    && Valid(g)
    && |s.index| == |s.low| == |s.on| == |g.adj|
    && s.next == |s.found|
    && Numbered(s.index, s.found)
    && (forall v :: v in s.st ==> Ix(s.index, v) >= 0)
    && (forall v :: 0 <= v < |s.on| ==> (s.on[v] <==> v in s.st))
    && (forall v :: v in s.call ==> v in s.st)
    && |s.at| == |s.call|
    && (forall i :: 0 <= i < |s.call| ==> s.call[i] < |g.adj| && s.at[i] <= |g.adj[s.call[i]]|)
    && Ordered(s.index, s.st)
    && Ordered(s.index, s.call)
  }

  /** A vertex being visited reaches every vertex on the stack that was found after it. */
  ghost predicate Down(g: Graph, index: seq<int>, st: seq<nat>, call: seq<nat>) {
    forall v, x :: v in call && x in st && Ix(index, v) <= Ix(index, x) ==> Reach(g, v, x)
  }

  ghost predicate Rooted(g: Graph, index: seq<int>, call: seq<nat>, x: nat) {
    exists v :: v in call && Ix(index, v) <= Ix(index, x) && Reach(g, x, v)
  }

  /** Every vertex on the stack reaches one being visited that was found no later. */
  ghost predicate Up(g: Graph, index: seq<int>, st: seq<nat>, call: seq<nat>) {
    forall x :: x in st ==> Rooted(g, index, call, x)
  }

  /** The `j`-th edge of `x` has been taken: all have, once `x` is no longer being visited. */
  ghost predicate Taken(g: Graph, call: seq<nat>, at: seq<nat>, x: nat, j: nat) {
    && |at| == |call|
    && x < |g.adj| && j < |g.adj[x]|
    && (forall i :: 0 <= i < |call| && call[i] == x ==> j < at[i])
  }

  /** Every edge taken leads to a vertex found; from a vertex done, to one done. */
  ghost predicate Explored(g: Graph, index: seq<int>, st: seq<nat>, call: seq<nat>, at: seq<nat>) {
    forall x: nat, j: nat, w: nat :: Ix(index, x) >= 0 && Taken(g, call, at, x, j) && Via(g, x, j, w) ==>
      Ix(index, w) >= 0 && (x !in st ==> w !in st)
  }

  ghost predicate LowReached(g: Graph, index: seq<int>, st: seq<nat>, v: nat, l: int) {
    exists u :: u in st && Ix(index, u) == l && Reach(g, v, u)
  }

  /** `low` of a vertex being visited is the index of a vertex on the stack that it reaches. */
  ghost predicate Lows(g: Graph, index: seq<int>, low: seq<int>, st: seq<nat>, call: seq<nat>) {
    forall v :: v in call ==> Ix(low, v) <= Ix(index, v) && LowReached(g, index, st, v, Ix(low, v))
  }

  /** Of the vertices being visited, the `i`-th is the last found no later than `x`. */
  ghost predicate Owns(index: seq<int>, call: seq<nat>, i: nat, x: nat) {
    && i < |call|
    && Ix(index, call[i]) <= Ix(index, x)
    && (i + 1 < |call| ==> Ix(index, x) < Ix(index, call[i + 1]))
  }

  /** No edge taken from what a vertex being visited owns leads below its `low` on the stack. */
  ghost predicate Bounded(g: Graph, index: seq<int>, low: seq<int>, st: seq<nat>, call: seq<nat>, at: seq<nat>) {
    forall i: nat, x: nat, j: nat, w: nat ::
      x in st && Owns(index, call, i, x) && Taken(g, call, at, x, j) && Via(g, x, j, w) && w in st ==>
      Ix(low, call[i]) <= Ix(index, w)
  }

  ghost predicate Done(index: seq<int>, st: seq<nat>, v: nat) {
    Ix(index, v) >= 0 && v !in st
  }

  /** `c` is a strongly connected component with more than one vertex. */
  ghost predicate IsComponent(g: Graph, c: seq<nat>) {
    && |c| > 1
    && Increasing(c)
    && forall u, v :: u in c ==> (v in c <==> Mutual(g, u, v))
  }

  /** `out` holds each component of the vertices done with more than one vertex, once. */
  ghost predicate Found(g: Graph, index: seq<int>, st: seq<nat>, out: seq<seq<nat>>) {
    && (forall c :: 0 <= c < |out| ==> IsComponent(g, out[c]))
    && (forall c, u :: 0 <= c < |out| && u in out[c] ==> Done(index, st, u))
    && (forall c, d, u :: 0 <= c < d < |out| && u in out[c] ==> u !in out[d])
    && (forall u, v :: Done(index, st, u) && u != v && Mutual(g, u, v) ==> exists c :: 0 <= c < |out| && u in out[c])
  }

  ghost predicate Inv(g: Graph, s: State) {
    && Basic(g, s)
    && Down(g, s.index, s.st, s.call)
    && Up(g, s.index, s.st, s.call)
    && Explored(g, s.index, s.st, s.call, s.at)
    && Lows(g, s.index, s.low, s.st, s.call)
    && Bounded(g, s.index, s.low, s.st, s.call, s.at)
    && Found(g, s.index, s.st, s.out)
  }

  // ----- Taking an edge

  function Top(s: State): nat
    requires |s.call| > 0
  {
    s.call[|s.call| - 1]
  }

  /** Takes the next edge of the vertex being visited last. */
  function Advance(s: State): State
    requires |s.call| > 0 && |s.at| == |s.call|
  {
    s.(at := s.at[|s.call| - 1 := s.at[|s.call| - 1] + 1])
  }

  /** The vertex being visited last has an edge left, to `w`. */
  ghost predicate AtEdge(g: Graph, s: State, w: nat) {
    |s.call| > 0 && |s.at| == |s.call| && Top(s) < |g.adj| &&
    s.at[|s.call| - 1] < |g.adj[Top(s)]| && g.adj[Top(s)][s.at[|s.call| - 1]].to == w
  }

  /** The edge is one in use. */
  ghost predicate InUse(g: Graph, s: State, w: nat)
    requires AtEdge(g, s, w)
  {
    g.ok(g.adj[Top(s)][s.at[|s.call| - 1]].kind)
  }

  lemma TakenByAdvance(g: Graph, s: State, w: nat, x: nat, j: nat)
    requires Basic(g, s) && AtEdge(g, s, w)
    requires Taken(g, s.call, Advance(s).at, x, j)
    ensures Taken(g, s.call, s.at, x, j) || (x == Top(s) && j == s.at[|s.call| - 1])
  {
    var top := |s.call| - 1;
    if !Taken(g, s.call, s.at, x, j) {
      var i :| 0 <= i < |s.call| && s.call[i] == x && j >= s.at[i];
      assert i == top;
    }
  }

  lemma AdvanceExplored(g: Graph, s: State, w: nat)
    requires Basic(g, s) && AtEdge(g, s, w) && Explored(g, s.index, s.st, s.call, s.at)
    requires InUse(g, s, w) ==> Ix(s.index, w) >= 0
    ensures Explored(g, s.index, s.st, s.call, Advance(s).at)
  {
    var at' := Advance(s).at;
    forall x: nat, j: nat, y: nat | Ix(s.index, x) >= 0 && Taken(g, s.call, at', x, j) && Via(g, x, j, y)
      ensures Ix(s.index, y) >= 0 && (x !in s.st ==> y !in s.st)
    {
      TakenByAdvance(g, s, w, x, j);
    }
  }

  lemma TopOwnsItself(g: Graph, s: State, i: nat)
    requires Basic(g, s) && |s.call| > 0 && Owns(s.index, s.call, i, Top(s))
    ensures i == |s.call| - 1
  {
  }

  lemma AdvanceBounded(g: Graph, s: State, w: nat)
    requires Basic(g, s) && AtEdge(g, s, w) && Bounded(g, s.index, s.low, s.st, s.call, s.at)
    requires InUse(g, s, w) && w in s.st ==> Ix(s.low, Top(s)) <= Ix(s.index, w)
    ensures Bounded(g, s.index, s.low, s.st, s.call, Advance(s).at)
  {
    hide Basic, Owns, Taken;
    OwnersExist(s.index, s.call);
    var at' := Advance(s).at;
    forall i: nat, x: nat, j: nat, y: nat | x in s.st && Owns(s.index, s.call, i, x) &&
      Taken(g, s.call, at', x, j) && Via(g, x, j, y) && y in s.st
      ensures Ix(s.low, s.call[i]) <= Ix(s.index, y)
    {
      AdvanceBoundedAt(g, s, w, i, x, j, y);
    }
  }

  lemma OwnersExist(index: seq<int>, call: seq<nat>)
    ensures forall i: nat, x: nat :: Owns(index, call, i, x) ==> i < |call|
  {
  }

  lemma AdvanceBoundedAt(g: Graph, s: State, w: nat, i: nat, x: nat, j: nat, y: nat)
    requires Basic(g, s) && AtEdge(g, s, w) && Bounded(g, s.index, s.low, s.st, s.call, s.at)
    requires InUse(g, s, w) && w in s.st ==> Ix(s.low, Top(s)) <= Ix(s.index, w)
    requires x in s.st && Owns(s.index, s.call, i, x) && Taken(g, s.call, Advance(s).at, x, j)
    requires Via(g, x, j, y) && y in s.st
    ensures Ix(s.low, s.call[i]) <= Ix(s.index, y)
  {
    hide Basic, Owns;
    OwnerExists(s.index, s.call, i, x);
    TakenByAdvance(g, s, w, x, j);
    if !Taken(g, s.call, s.at, x, j) {
      TopOwnsItself(g, s, i);
    }
  }

  lemma OwnerExists(index: seq<int>, call: seq<nat>, i: nat, x: nat)
    requires Owns(index, call, i, x)
    ensures i < |call|
  {
  }

  lemma AdvanceBasic(g: Graph, s: State, w: nat)
    requires Basic(g, s) && AtEdge(g, s, w)
    ensures Basic(g, Advance(s))
  {
  }

  /** Passing by an edge that is not in use, or leads to a vertex done. */
  lemma PassInv(g: Graph, s: State, w: nat)
    requires Inv(g, s) && AtEdge(g, s, w)
    requires InUse(g, s, w) ==> Done(s.index, s.st, w)
    ensures Inv(g, Advance(s))
  {
    hide Down, Up, Explored, Lows, Bounded, Found;
    AdvanceBasic(g, s, w);
    AdvanceExplored(g, s, w);
    AdvanceBounded(g, s, w);
  }

  // ----- Meeting a vertex on the stack

  /** Lowers `low` of a vertex to `x`, if that is less. */
  function Lower(s: State, v: nat, x: int): State
    requires v < |s.low|
  {
    s.(low := s.low[v := if x < s.low[v] then x else s.low[v]])
  }

  lemma LowerLows(g: Graph, s: State, v: nat, u: nat)
    requires Basic(g, s) && Lows(g, s.index, s.low, s.st, s.call) && v in s.call && u in s.st && Reach(g, v, u)
    ensures v < |s.low| && Lows(g, s.index, Lower(s, v, Ix(s.index, u)).low, s.st, s.call)
  {
    hide Reach;
    var low' := Lower(s, v, Ix(s.index, u)).low;
    forall x | x in s.call ensures Ix(low', x) <= Ix(s.index, x) && LowReached(g, s.index, s.st, x, Ix(low', x)) {
      assert LowReached(g, s.index, s.st, x, Ix(s.low, x));
    }
  }

  lemma LowerBounded(g: Graph, s: State, v: nat, x: int)
    requires v < |s.low| && Bounded(g, s.index, s.low, s.st, s.call, s.at)
    ensures Bounded(g, s.index, Lower(s, v, x).low, s.st, s.call, s.at)
  {
  }

  lemma LowerInv(g: Graph, s: State, v: nat, u: nat)
    requires Inv(g, s) && v in s.call && u in s.st && Reach(g, v, u)
    ensures v < |s.low| && Inv(g, Lower(s, v, Ix(s.index, u)))
  {
    hide Down, Up, Explored, Lows, Bounded, Found;
    LowerLows(g, s, v, u);
    LowerBounded(g, s, v, Ix(s.index, u));
  }

  /** Meeting a vertex on the stack along an edge in use. */
  lemma BackInv(g: Graph, s: State, w: nat)
    requires Inv(g, s) && AtEdge(g, s, w) && InUse(g, s, w) && w in s.st
    ensures Top(s) < |s.low| && Inv(g, Lower(Advance(s), Top(s), Ix(s.index, w)))
  {
    hide Down, Up, Explored, Lows, Bounded, Found;
    assert Via(g, Top(s), s.at[|s.call| - 1], w);
    ReachArc(g, Top(s), w);
    LowerInv(g, s, Top(s), w);
    var t := Lower(s, Top(s), Ix(s.index, w));
    AdvanceBasic(g, t, w);
    AdvanceExplored(g, t, w);
    AdvanceBounded(g, t, w);
    assert Lower(Advance(s), Top(s), Ix(s.index, w)) == Advance(t);
  }

  // ----- Finding a vertex

  function Find(s: State, w: nat): State
    requires w < |s.index| == |s.low| == |s.on|
  {
    State(s.index[w := s.next], s.low[w := s.next], s.on[w := true], s.st + [w], s.call + [w], s.at + [0],
      s.next + 1, s.out, s.found + [w])
  }

  lemma FindBasic(g: Graph, s: State, w: nat)
    requires Basic(g, s) && w < |s.index| && s.index[w] < 0
    ensures Basic(g, Find(s, w))
    ensures w !in s.st && w !in s.call
    ensures forall x: nat :: Ix(Find(s, w).index, x) == if x == w then s.next else Ix(s.index, x)
    ensures forall x: nat :: Ix(s.index, x) < s.next
    ensures forall x: nat :: Ix(Find(s, w).low, x) == if x == w then s.next else Ix(s.low, x)
  {
    hide Ordered, Numbered, Valid;
    var t := Find(s, w);
    assert w !in s.st;
    FindIndex(s, w);
    FindOrdered(s.index, s.next, s.st, w);
    FindOrdered(s.index, s.next, s.call, w);
    forall v | 0 <= v < |t.on| ensures t.on[v] <==> v in t.st {}
  }

  lemma FindIndex(s: State, w: nat)
    requires w < |s.index| == |s.low| == |s.on| && s.next == |s.found| && Numbered(s.index, s.found) && s.index[w] < 0
    ensures Numbered(Find(s, w).index, Find(s, w).found)
    ensures forall x: nat :: Ix(Find(s, w).index, x) == if x == w then s.next else Ix(s.index, x)
    ensures forall x: nat :: Ix(s.index, x) < s.next
    ensures forall x: nat :: Ix(Find(s, w).low, x) == if x == w then s.next else Ix(s.low, x)
  {
  }

  lemma FindOrdered(index: seq<int>, next: nat, vs: seq<nat>, w: nat)
    requires w < |index| && Ordered(index, vs) && w !in vs && forall x: nat :: Ix(index, x) < next
    ensures Ordered(index[w := next], vs + [w])
  {
    var index', vs' := index[w := next], vs + [w];
    forall i, j | 0 <= i < j < |vs'| ensures Ix(index', vs'[i]) < Ix(index', vs'[j]) {
      assert vs'[i] == vs[i] && vs[i] in vs;
      if j < |vs| {
        assert vs'[j] == vs[j] && vs[j] in vs;
      }
    }
  }

  /** What finding `w` changes, as far as the other invariants go. */
  ghost predicate Finds(g: Graph, s: State, t: State, w: nat) {
    && w !in s.st && w !in s.call
    && t.st == s.st + [w] && t.call == s.call + [w]
    && (forall x: nat :: Ix(t.index, x) == if x == w then s.next else Ix(s.index, x))
    && (forall x: nat :: Ix(t.low, x) == if x == w then s.next else Ix(s.low, x))
    && (forall x: nat :: Ix(s.index, x) < s.next)
    && Ix(s.index, w) < 0
  }

  lemma FindDown(g: Graph, s: State, t: State, w: nat)
    requires Finds(g, s, t, w) && Down(g, s.index, s.st, s.call)
    requires forall v :: v in s.call ==> Reach(g, v, w)
    ensures Down(g, t.index, t.st, t.call)
  {
    hide Reach;
    ReachSelf(g, w);
    forall v, x | v in t.call && x in t.st && Ix(t.index, v) <= Ix(t.index, x) ensures Reach(g, v, x) {
      assert v == w || v in s.call;
      assert x == w || x in s.st;
    }
  }

  lemma FindUp(g: Graph, s: State, t: State, w: nat)
    requires Finds(g, s, t, w) && Up(g, s.index, s.st, s.call)
    ensures Up(g, t.index, t.st, t.call)
  {
    hide Reach;
    ReachSelf(g, w);
    forall x | x in t.st ensures Rooted(g, t.index, t.call, x) {
      if x == w {
        assert w in t.call;
      } else {
        assert Rooted(g, s.index, s.call, x);
        var v :| v in s.call && Ix(s.index, v) <= Ix(s.index, x) && Reach(g, x, v);
        assert v in t.call && v != w;
      }
    }
  }

  lemma FindLows(g: Graph, s: State, t: State, w: nat)
    requires Finds(g, s, t, w) && Lows(g, s.index, s.low, s.st, s.call)
    requires forall x :: x in s.st ==> x != w
    ensures Lows(g, t.index, t.low, t.st, t.call)
  {
    hide Reach;
    ReachSelf(g, w);
    forall v | v in t.call ensures Ix(t.low, v) <= Ix(t.index, v) && LowReached(g, t.index, t.st, v, Ix(t.low, v)) {
      if v == w {
        assert w in t.st;
      } else {
        assert LowReached(g, s.index, s.st, v, Ix(s.low, v));
        var u :| u in s.st && Ix(s.index, u) == Ix(s.low, v) && Reach(g, v, u);
        assert u in t.st;
      }
    }
  }

  lemma FindFound(g: Graph, s: State, t: State, w: nat)
    requires Finds(g, s, t, w) && Found(g, s.index, s.st, s.out) && t.out == s.out
    ensures Found(g, t.index, t.st, t.out)
  {
    forall u ensures Done(t.index, t.st, u) <==> Done(s.index, s.st, u) {
      assert u in t.st <==> u in s.st || u == w;
    }
  }

  /** Of the edges taken once `w` is found, none is `w`'s own. */
  lemma TakenByFind(g: Graph, s: State, at: seq<nat>, w: nat, x: nat, j: nat)
    requires w !in s.call && |at| == |s.call|
    requires Taken(g, s.call + [w], at + [0], x, j)
    ensures x != w && Taken(g, s.call, at, x, j)
  {
    var call', at' := s.call + [w], at + [0];
    assert call'[|s.call|] == w;
    forall i | 0 <= i < |s.call| && s.call[i] == x ensures j < at[i] {
      assert call'[i] == x;
    }
  }

  /** The edges taken are those of `s`, and the one to `w`. */
  ghost predicate TakesTo(g: Graph, s: State, t: State, w: nat) {
    forall x: nat, j: nat, y: nat :: Taken(g, t.call, t.at, x, j) && Via(g, x, j, y) ==>
      x != w && (Taken(g, s.call, s.at, x, j) || (|s.call| > 0 && x == Top(s) && y == w))
  }

  lemma FindExplored(g: Graph, s: State, t: State, w: nat)
    requires Finds(g, s, t, w) && TakesTo(g, s, t, w) && Explored(g, s.index, s.st, s.call, s.at)
    requires forall v :: v in s.call ==> v in s.st
    ensures Explored(g, t.index, t.st, t.call, t.at)
  {
    forall x: nat, j: nat, y: nat | Ix(t.index, x) >= 0 && Taken(g, t.call, t.at, x, j) && Via(g, x, j, y)
      ensures Ix(t.index, y) >= 0 && (x !in t.st ==> y !in t.st)
    {
      if Taken(g, s.call, s.at, x, j) {
        assert Ix(s.index, y) >= 0 && (x !in s.st ==> y !in s.st);
        assert y != w;
      } else {
        assert Top(s) in s.call && x in t.st;
      }
    }
  }

  lemma FindBounded(g: Graph, s: State, t: State, w: nat)
    requires Finds(g, s, t, w) && TakesTo(g, s, t, w)
    requires Explored(g, s.index, s.st, s.call, s.at) && Bounded(g, s.index, s.low, s.st, s.call, s.at) &&
      Lows(g, s.index, s.low, s.st, s.call)
    requires forall v :: v in s.st ==> Ix(s.index, v) >= 0
    ensures Bounded(g, t.index, t.low, t.st, t.call, t.at)
  {
    forall i: nat, x: nat, j: nat, y: nat | x in t.st && Owns(t.index, t.call, i, x) &&
      Taken(g, t.call, t.at, x, j) && Via(g, x, j, y) && y in t.st
      ensures Ix(t.low, t.call[i]) <= Ix(t.index, y)
    {
      assert x in s.st && x != w;
      OwnsBefore(s, t, w, g, i, x);
      if Taken(g, s.call, s.at, x, j) {
        assert Ix(s.index, y) >= 0 && y != w && y in s.st;
      } else {
        assert s.call[i] in s.call;
      }
    }
  }

  lemma OwnsBefore(s: State, t: State, w: nat, g: Graph, i: nat, x: nat)
    requires Finds(g, s, t, w) && Owns(t.index, t.call, i, x) && x != w && Ix(s.index, x) >= 0
    ensures i < |s.call| && t.call[i] == s.call[i] && s.call[i] != w && Owns(s.index, s.call, i, x)
  {
    if i < |s.call| {
      assert t.call[i] == s.call[i] && s.call[i] in s.call;
      if i + 1 < |s.call| {
        assert t.call[i + 1] == s.call[i + 1] && s.call[i + 1] in s.call;
      }
    }
  }

  lemma FindInv(g: Graph, s: State, t: State, w: nat)
    requires Inv(g, s) && Basic(g, t) && Finds(g, s, t, w) && TakesTo(g, s, t, w) && t.out == s.out
    requires forall v :: v in s.call ==> Reach(g, v, w)
    ensures Inv(g, t)
  {
    hide Down, Up, Explored, Lows, Bounded, Found, TakesTo, Finds;
    assert w !in s.st by { FindsNew(g, s, t, w); }
    FindDown(g, s, t, w);
    FindUp(g, s, t, w);
    FindLows(g, s, t, w);
    FindFound(g, s, t, w);
    FindExplored(g, s, t, w);
    FindBounded(g, s, t, w);
  }

  lemma FindsNew(g: Graph, s: State, t: State, w: nat)
    requires Finds(g, s, t, w)
    ensures w !in s.st
  {
  }

  /** Beginning at a vertex not found, with nothing being visited. */
  lemma RootInv(g: Graph, s: State, w: nat)
    requires Inv(g, s) && s.call == [] && w < |s.index| && s.index[w] < 0
    ensures Inv(g, Find(s, w))
  {
    hide Down, Up, Explored, Lows, Bounded, Found;
    FindBasic(g, s, w);
    var t := Find(s, w);
    forall x: nat, j: nat, y: nat | Taken(g, t.call, t.at, x, j) && Via(g, x, j, y)
      ensures x != w && Taken(g, s.call, s.at, x, j)
    {
      TakenByFind(g, s, s.at, w, x, j);
    }
    FindInv(g, s, t, w);
  }

  /** Going down an edge in use to a vertex not found. */
  lemma ChildInv(g: Graph, s: State, w: nat)
    requires Inv(g, s) && AtEdge(g, s, w) && InUse(g, s, w) && w < |s.index| && s.index[w] < 0
    ensures Inv(g, Find(Advance(s), w))
  {
    hide Up, Explored, Lows, Bounded, Found, Down;
    AdvanceBasic(g, s, w);
    FindBasic(g, Advance(s), w);
    var t := Find(Advance(s), w);
    forall x: nat, j: nat, y: nat | Taken(g, t.call, t.at, x, j) && Via(g, x, j, y)
      ensures x != w && (Taken(g, s.call, s.at, x, j) || (x == Top(s) && y == w))
    {
      TakenByFind(g, Advance(s), Advance(s).at, w, x, j);
      TakenByAdvance(g, s, w, x, j);
    }
    CallReaches(g, s, w);
    FindInv(g, s, t, w);
  }

  lemma CallReaches(g: Graph, s: State, w: nat)
    requires Basic(g, s) && AtEdge(g, s, w) && InUse(g, s, w) && Down(g, s.index, s.st, s.call)
    ensures forall v :: v in s.call ==> Reach(g, v, w)
  {
    hide Reach;
    assert Via(g, Top(s), s.at[|s.call| - 1], w);
    ReachArc(g, Top(s), w);
    forall v | v in s.call ensures Reach(g, v, w) {
      assert Top(s) in s.call && Top(s) in s.st;
      assert Ix(s.index, v) <= Ix(s.index, Top(s));
      ReachTrans(g, v, Top(s), w);
    }
  }

  // ----- Leaving a vertex

  /** Every edge of the vertex being visited last has been taken. */
  ghost predicate AtEnd(g: Graph, s: State) {
    |s.call| > 0 && |s.at| == |s.call| && Top(s) < |g.adj| && s.at[|s.call| - 1] == |g.adj[Top(s)]|
  }

  function Retire(s: State): State
    requires |s.call| > 0 && |s.at| == |s.call|
  {
    s.(call := s.call[..|s.call| - 1], at := s.at[..|s.call| - 1])
  }

  lemma TakenByRetire(g: Graph, s: State, x: nat, j: nat)
    requires AtEnd(g, s) && Taken(g, Retire(s).call, Retire(s).at, x, j)
    ensures Taken(g, s.call, s.at, x, j)
  {
    forall i | 0 <= i < |s.call| && s.call[i] == x ensures j < s.at[i] {
      if i < |s.call| - 1 {
        assert Retire(s).call[i] == x;
      }
    }
  }

  lemma InInit<T>(a: seq<T>, x: T)
    requires |a| > 0
    ensures x in a <==> x in a[..|a| - 1] || x == a[|a| - 1]
  {
    assert a == a[..|a| - 1] + [a[|a| - 1]];
  }

  lemma RetireBasic(g: Graph, s: State)
    requires Basic(g, s) && |s.call| > 0
    ensures Basic(g, Retire(s))
    ensures forall v :: v in Retire(s).call ==> v in s.call && v != Top(s)
    ensures forall v :: v in s.call && v != Top(s) ==> v in Retire(s).call
  {
    forall v ensures v in s.call <==> v in Retire(s).call || v == Top(s) {
      InInit(s.call, v);
    }
  }

  /** A vertex whose `low` is below it reaches another being visited, found before it. */
  lemma BelowTop(g: Graph, s: State) returns (b: nat)
    requires |s.call| > 0 && Up(g, s.index, s.st, s.call) && Lows(g, s.index, s.low, s.st, s.call)
    requires Ix(s.low, Top(s)) < Ix(s.index, Top(s))
    ensures b in s.call && Ix(s.index, b) < Ix(s.index, Top(s)) && Reach(g, Top(s), b)
  {
    hide Reach;
    var v := Top(s);
    var u := LowVertex(g, s.index, s.low, s.st, s.call, v);
    b := RootOf(g, s.index, s.st, s.call, u);
    ReachTrans(g, v, u, b);
  }

  lemma LowVertex(g: Graph, index: seq<int>, low: seq<int>, st: seq<nat>, call: seq<nat>, v: nat) returns (u: nat)
    requires Lows(g, index, low, st, call) && v in call
    ensures u in st && Ix(index, u) == Ix(low, v) && Reach(g, v, u)
  {
    hide Reach;
    assert LowReached(g, index, st, v, Ix(low, v));
    u :| u in st && Ix(index, u) == Ix(low, v) && Reach(g, v, u);
  }

  lemma RootOf(g: Graph, index: seq<int>, st: seq<nat>, call: seq<nat>, x: nat) returns (v: nat)
    requires Up(g, index, st, call) && x in st
    ensures v in call && Ix(index, v) <= Ix(index, x) && Reach(g, x, v)
  {
    hide Reach;
    assert Rooted(g, index, call, x);
    v :| v in call && Ix(index, v) <= Ix(index, x) && Reach(g, x, v);
  }

  /** Such a vertex may be left: what leads to it leads to the other. */
  lemma UpWithout(g: Graph, index: seq<int>, st: seq<nat>, call: seq<nat>, call': seq<nat>, v: nat, b: nat)
    requires Up(g, index, st, call)
    requires forall a :: a in call ==> a == v || a in call'
    requires b in call' && Ix(index, b) < Ix(index, v) && Reach(g, v, b)
    ensures Up(g, index, st, call')
  {
    hide Reach;
    forall x | x in st ensures Rooted(g, index, call', x) {
      assert Rooted(g, index, call, x);
      var a :| a in call && Ix(index, a) <= Ix(index, x) && Reach(g, x, a);
      if a == v {
        ReachTrans(g, x, a, b);
      }
    }
  }

  lemma RetireUp(g: Graph, s: State)
    requires Basic(g, s) && |s.call| > 0 && Up(g, s.index, s.st, s.call) && Lows(g, s.index, s.low, s.st, s.call)
    requires Ix(s.low, Top(s)) < Ix(s.index, Top(s))
    ensures Up(g, s.index, s.st, Retire(s).call)
  {
    hide Up, Lows, Reach;
    var b := BelowTop(g, s);
    RetireBasic(g, s);
    UpWithout(g, s.index, s.st, s.call, Retire(s).call, Top(s), b);
  }

  lemma RetireExplored(g: Graph, s: State)
    requires AtEnd(g, s) && Explored(g, s.index, s.st, s.call, s.at)
    ensures Explored(g, s.index, s.st, Retire(s).call, Retire(s).at)
  {
    forall x: nat, j: nat, y: nat | Ix(s.index, x) >= 0 && Taken(g, Retire(s).call, Retire(s).at, x, j) &&
      Via(g, x, j, y)
      ensures Ix(s.index, y) >= 0 && (x !in s.st ==> y !in s.st)
    {
      TakenByRetire(g, s, x, j);
    }
  }

  lemma RetireBounded(g: Graph, s: State)
    requires Basic(g, s) && AtEnd(g, s) && Bounded(g, s.index, s.low, s.st, s.call, s.at)
    requires |s.call| > 1 ==> Ix(s.low, s.call[|s.call| - 2]) <= Ix(s.low, Top(s))
    ensures Bounded(g, s.index, s.low, s.st, Retire(s).call, Retire(s).at)
  {
    hide Basic, Owns, Taken, Via;
    var call', at' := Retire(s).call, Retire(s).at;
    OwnersExist(s.index, call');
    forall i: nat, x: nat, j: nat, y: nat | x in s.st && Owns(s.index, call', i, x) && Taken(g, call', at', x, j) &&
      Via(g, x, j, y) && y in s.st
      ensures Ix(s.low, call'[i]) <= Ix(s.index, y)
    {
      RetireBoundedAt(g, s, i, x, j, y);
    }
  }

  lemma RetireBoundedAt(g: Graph, s: State, i: nat, x: nat, j: nat, y: nat)
    requires Basic(g, s) && AtEnd(g, s) && Bounded(g, s.index, s.low, s.st, s.call, s.at)
    requires |s.call| > 1 ==> Ix(s.low, s.call[|s.call| - 2]) <= Ix(s.low, Top(s))
    requires x in s.st && Owns(s.index, Retire(s).call, i, x) && Taken(g, Retire(s).call, Retire(s).at, x, j)
    requires Via(g, x, j, y) && y in s.st
    ensures i < |Retire(s).call| && Ix(s.low, Retire(s).call[i]) <= Ix(s.index, y)
  {
    hide Basic, Taken, Via;
    TakenByRetire(g, s, x, j);
    if Ix(s.index, x) < Ix(s.index, s.call[i + 1]) {
      assert Owns(s.index, s.call, i, x);
    } else {
      assert Owns(s.index, s.call, i + 1, x);
    }
  }

  /** Leaving a vertex that reaches one below it on the stack: the one that led to it has taken its `low` over. */
  lemma RetireInv(g: Graph, s: State)
    requires Inv(g, s) && AtEnd(g, s) && Ix(s.low, Top(s)) < Ix(s.index, Top(s))
    requires |s.call| > 1 ==> Ix(s.low, s.call[|s.call| - 2]) <= Ix(s.low, Top(s))
    ensures Inv(g, Retire(s))
  {
    RetireRest(g, s);
    hide Down, Up, Explored, Lows, Bounded, Found;
    RetireBasic(g, s);
    RetireUp(g, s);
    RetireExplored(g, s);
    RetireBounded(g, s);
  }

  lemma RetireRest(g: Graph, s: State)
    requires Basic(g, s) && |s.call| > 0
    requires Down(g, s.index, s.st, s.call) && Lows(g, s.index, s.low, s.st, s.call)
    ensures Down(g, s.index, s.st, Retire(s).call) && Lows(g, s.index, s.low, s.st, Retire(s).call)
  {
    hide Reach;
    RetireBasic(g, s);
  }

  // ----- Leaving the first vertex of a component

  /** Takes the stack down to its first `k` vertices. */
  function Unstack(s: State, k: nat, on: seq<bool>, out: seq<seq<nat>>): State
    requires |s.call| > 0 && |s.at| == |s.call| && k <= |s.st|
  {
    Retire(s).(st := s.st[..k], on := on, out := out)
  }

  /** The vertices on the stack from `k` up are those found no earlier than the one at `k`. */
  lemma Segment(g: Graph, s: State, k: nat, x: nat)
    requires Basic(g, s) && k < |s.st|
    ensures x in s.st[..k] <==> x in s.st && Ix(s.index, x) < Ix(s.index, s.st[k])
    ensures x in s.st[k..] <==> x in s.st && Ix(s.index, x) >= Ix(s.index, s.st[k])
  {
    if x in s.st {
      var i :| 0 <= i < |s.st| && s.st[i] == x;
      if i < k {
        assert s.st[..k][i] == x;
      } else {
        assert s.st[k..][i - k] == x;
      }
    }
  }

  /** From a vertex that reaches nothing below it, edges lead up the stack or to vertices done. */
  lemma SegmentEdges(g: Graph, s: State, k: nat, x: nat, w: nat)
    requires Basic(g, s) && AtEnd(g, s) && k < |s.st| && s.st[k] == Top(s)
    requires Explored(g, s.index, s.st, s.call, s.at) && Bounded(g, s.index, s.low, s.st, s.call, s.at)
    requires Ix(s.low, Top(s)) >= Ix(s.index, Top(s))
    requires x in s.st[k..] && Arc(g, x, w)
    ensures w in s.st[k..] || Done(s.index, s.st, w)
  {
    Segment(g, s, k, x);
    Segment(g, s, k, w);
    var j: nat :| Via(g, x, j, w);
    AllTaken(g, s, x, j);
    if w in s.st {
      assert Owns(s.index, s.call, |s.call| - 1, x);
    }
  }

  /** The vertex being visited last is the only one found that late, and its edges have all been taken. */
  lemma AllTaken(g: Graph, s: State, x: nat, j: nat)
    requires Basic(g, s) && AtEnd(g, s) && Ix(s.index, x) >= Ix(s.index, Top(s)) && x < |g.adj| && j < |g.adj[x]|
    ensures Taken(g, s.call, s.at, x, j)
  {
    var top := |s.call| - 1;
    forall i | 0 <= i < |s.call| && s.call[i] == x ensures j < s.at[i] {
      assert i == top;
    }
  }

  lemma DoneClosed(g: Graph, s: State, x: nat, w: nat)
    requires Basic(g, s) && Explored(g, s.index, s.st, s.call, s.at)
    requires Done(s.index, s.st, x) && Arc(g, x, w)
    ensures Done(s.index, s.st, w)
  {
    var j: nat :| Via(g, x, j, w);
    assert Taken(g, s.call, s.at, x, j);
  }

  /** The vertices found and left for good, and those of the segment. */
  ghost function DoneSet(s: State): set<nat> {
    set x: nat | x < |s.index| && Done(s.index, s.st, x)
  }

  ghost function SegmentSet(s: State, k: nat): set<nat>
    requires k <= |s.st|
  {
    set x | x in s.st[k..]
  }

  lemma ClosedSets(g: Graph, s: State, k: nat)
    requires Basic(g, s) && AtEnd(g, s) && k < |s.st| && s.st[k] == Top(s)
    requires Explored(g, s.index, s.st, s.call, s.at) && Bounded(g, s.index, s.low, s.st, s.call, s.at)
    requires Ix(s.low, Top(s)) >= Ix(s.index, Top(s))
    ensures Closed(g, DoneSet(s))
    ensures Closed(g, DoneSet(s) + SegmentSet(s, k))
  {
    hide Basic, Explored, Bounded, AtEnd, Ix;
    forall u, v | u in DoneSet(s) && Arc(g, u, v) ensures v in DoneSet(s) {
      DoneClosed(g, s, u, v);
      InDoneSet(s, v);
    }
    forall u, v | u in DoneSet(s) + SegmentSet(s, k) && Arc(g, u, v) ensures v in DoneSet(s) + SegmentSet(s, k) {
      if u in SegmentSet(s, k) {
        SegmentEdges(g, s, k, u, v);
        if Done(s.index, s.st, v) { InDoneSet(s, v); }
      }
    }
  }

  lemma InDoneSet(s: State, v: nat)
    requires Done(s.index, s.st, v)
    ensures v in DoneSet(s)
  {
  }

  /** The vertex being visited last ends a component. */
  ghost predicate EndsComponent(g: Graph, s: State, k: nat) {
    && Inv(g, s) && AtEnd(g, s) && k < |s.st| && s.st[k] == Top(s)
    && Ix(s.low, Top(s)) >= Ix(s.index, Top(s))
  }

  lemma TopLast(g: Graph, s: State, a: nat)
    requires Basic(g, s) && |s.call| > 0 && a in s.call
    ensures Ix(s.index, a) <= Ix(s.index, Top(s)) && Top(s) in s.st
  {
    assert Top(s) in s.call;
  }

  /** Every vertex of the segment reaches the one being visited last, and is reached from it. */
  lemma SegmentWithTop(g: Graph, s: State, k: nat, x: nat)
    requires EndsComponent(g, s, k) && x in s.st[k..]
    ensures Mutual(g, Top(s), x)
  {
    hide Reach, Up, Explored, Bounded, Found, Lows;
    Segment(g, s, k, x);
    assert Top(s) in s.call;
    assert Reach(g, Top(s), x);
    var a := RootOf(g, s.index, s.st, s.call, x);
    TopLast(g, s, a);
    assert Reach(g, a, Top(s));
    ReachTrans(g, x, a, Top(s));
  }

  lemma SegmentIsMutual(g: Graph, s: State, k: nat, x: nat, y: nat)
    requires EndsComponent(g, s, k) && x in s.st[k..]
    ensures y in s.st[k..] <==> Mutual(g, x, y)
  {
    hide Reach, Up, Down, Explored, Bounded, Found, Lows, Basic;
    if y in s.st[k..] {
      SegmentWithTop(g, s, k, x);
      SegmentWithTop(g, s, k, y);
      ReachTrans(g, x, Top(s), y);
      ReachTrans(g, y, Top(s), x);
    }
    if Mutual(g, x, y) {
      ClosedSets(g, s, k);
      ReachInClosed(g, DoneSet(s) + SegmentSet(s, k), x, y);
      if y in DoneSet(s) {
        ReachInClosed(g, DoneSet(s), y, x);
        assert x in s.st;
      }
    }
  }

  // ----- What is left once the component is taken off the stack

  lemma UnstackUp(g: Graph, s: State, k: nat)
    requires EndsComponent(g, s, k)
    ensures Up(g, s.index, s.st[..k], Retire(s).call)
  {
    hide Reach, Down, Explored, Bounded, Found, Lows;
    RetireBasic(g, s);
    var call' := Retire(s).call;
    forall x | x in s.st[..k] ensures Rooted(g, s.index, call', x) {
      Segment(g, s, k, x);
      var a := RootOf(g, s.index, s.st, s.call, x);
      assert a in call';
    }
  }

  lemma UnstackDown(g: Graph, s: State, k: nat)
    requires EndsComponent(g, s, k)
    ensures Down(g, s.index, s.st[..k], Retire(s).call)
  {
    hide Reach, Up, Explored, Bounded, Found, Lows;
    RetireBasic(g, s);
    forall v, x | v in Retire(s).call && x in s.st[..k] && Ix(s.index, v) <= Ix(s.index, x) ensures Reach(g, v, x) {
      Segment(g, s, k, x);
    }
  }

  lemma UnstackLows(g: Graph, s: State, k: nat)
    requires EndsComponent(g, s, k)
    ensures Lows(g, s.index, s.low, s.st[..k], Retire(s).call)
  {
    hide Reach, Up, Down, Explored, Bounded, Found;
    RetireBasic(g, s);
    forall v | v in Retire(s).call
      ensures Ix(s.low, v) <= Ix(s.index, v) && LowReached(g, s.index, s.st[..k], v, Ix(s.low, v))
    {
      var u := LowVertex(g, s.index, s.low, s.st, s.call, v);
      Segment(g, s, k, u);
      TopLater(g, s, v);
    }
  }

  lemma TopLater(g: Graph, s: State, v: nat)
    requires Basic(g, s) && |s.call| > 0 && v in Retire(s).call
    ensures Ix(s.index, v) < Ix(s.index, Top(s))
  {
    var i :| 0 <= i < |s.call| - 1 && Retire(s).call[i] == v;
    assert s.call[i] == v;
  }

  lemma UnstackExplored(g: Graph, s: State, k: nat)
    requires EndsComponent(g, s, k)
    ensures Explored(g, s.index, s.st[..k], Retire(s).call, Retire(s).at)
  {
    hide Reach, Up, Down, Found, Lows, Basic;
    assert |s.at| == |s.call|;
    var call', at' := Retire(s).call, Retire(s).at;
    forall x: nat, j: nat, w: nat | Ix(s.index, x) >= 0 && Taken(g, call', at', x, j) && Via(g, x, j, w)
      ensures Ix(s.index, w) >= 0 && (x !in s.st[..k] ==> w !in s.st[..k])
    {
      TakenByRetire(g, s, x, j);
      if x !in s.st[..k] {
        Segment(g, s, k, w);
        if x in s.st {
          Segment(g, s, k, x);
          SegmentEdges(g, s, k, x, w);
        }
      }
    }
  }

  lemma UnstackBounded(g: Graph, s: State, k: nat)
    requires EndsComponent(g, s, k)
    ensures Bounded(g, s.index, s.low, s.st[..k], Retire(s).call, Retire(s).at)
  {
    hide Reach, Up, Down, Found, Lows, Explored;
    var call', at' := Retire(s).call, Retire(s).at;
    forall i: nat, x: nat, j: nat, y: nat | x in s.st[..k] && Owns(s.index, call', i, x) &&
      Taken(g, call', at', x, j) && Via(g, x, j, y) && y in s.st[..k]
      ensures Ix(s.low, call'[i]) <= Ix(s.index, y)
    {
      TakenByRetire(g, s, x, j);
      Segment(g, s, k, x);
      assert Owns(s.index, s.call, i, x);
    }
  }

  /** `comp` is the segment, sorted. */
  ghost predicate IsSegment(s: State, k: nat, comp: seq<nat>)
    requires k <= |s.st|
  {
    Increasing(comp) && |comp| == |s.st| - k && forall x :: x in comp <==> x in s.st[k..]
  }

  function WithComponent(out: seq<seq<nat>>, comp: seq<nat>): seq<seq<nat>> {
    if |comp| > 1 then out + [comp] else out
  }

  lemma SegmentComponent(g: Graph, s: State, k: nat, comp: seq<nat>)
    requires EndsComponent(g, s, k) && IsSegment(s, k, comp) && |comp| > 1
    ensures IsComponent(g, comp)
  {
    hide Inv, Mutual;
    forall u, v | u in comp ensures v in comp <==> Mutual(g, u, v) {
      SegmentIsMutual(g, s, k, u, v);
    }
  }

  /** A vertex of the segment with another in its component has it in the segment. */
  lemma SegmentPair(g: Graph, s: State, k: nat, comp: seq<nat>, u: nat, v: nat)
    requires EndsComponent(g, s, k) && IsSegment(s, k, comp) && u in comp && u != v && Mutual(g, u, v)
    ensures |comp| > 1
  {
    hide Inv, Mutual;
    SegmentIsMutual(g, s, k, u, v);
    assert v in comp;
  }

  lemma DoneAfter(g: Graph, s: State, k: nat, comp: seq<nat>, u: nat)
    requires EndsComponent(g, s, k) && IsSegment(s, k, comp)
    ensures Done(s.index, s.st[..k], u) <==> Done(s.index, s.st, u) || u in comp
    ensures u in comp ==> !Done(s.index, s.st, u)
  {
    hide Up, Down, Explored, Bounded, Lows, Found;
    Segment(g, s, k, u);
  }

  lemma UnstackFound(g: Graph, s: State, k: nat, comp: seq<nat>)
    requires EndsComponent(g, s, k) && IsSegment(s, k, comp)
    ensures Found(g, s.index, s.st[..k], WithComponent(s.out, comp))
  {
    hide Up, Down, Explored, Bounded, Lows, Basic, AtEnd, Done, Mutual, IsComponent, IsSegment;
    assert k <= |s.st|;
    var out' := WithComponent(s.out, comp);
    if |comp| > 1 { SegmentComponent(g, s, k, comp); }
    forall c, u | 0 <= c < |out'| && u in out'[c] ensures Done(s.index, s.st[..k], u) {
      DoneAfter(g, s, k, comp, u);
    }
    forall c, d, u | 0 <= c < d < |out'| && u in out'[c] ensures u !in out'[d] {
      DoneAfter(g, s, k, comp, u);
    }
    forall u, v | Done(s.index, s.st[..k], u) && u != v && Mutual(g, u, v)
      ensures exists c :: 0 <= c < |out'| && u in out'[c]
    {
      DoneAfter(g, s, k, comp, u);
      if Done(s.index, s.st, u) {
        var c :| 0 <= c < |s.out| && u in s.out[c];
        assert out'[c] == s.out[c];
      } else {
        SegmentPair(g, s, k, comp, u, v);
        assert out'[|s.out|] == comp;
      }
    }
  }

  lemma UnstackBasic(g: Graph, s: State, k: nat, on: seq<bool>, out: seq<seq<nat>>)
    requires EndsComponent(g, s, k) && |on| == |s.on|
    requires forall v :: 0 <= v < |on| ==> (on[v] <==> v in s.st[..k])
    ensures Basic(g, Unstack(s, k, on, out))
  {
    hide Up, Down, Explored, Bounded, Lows, Found;
    RetireBasic(g, s);
    forall v | v in Retire(s).call ensures v in s.st[..k] {
      TopLater(g, s, v);
      Segment(g, s, k, v);
    }
  }

  /** Leaving the first vertex found of a component, with the rest of it on the stack above. */
  lemma UnstackInv(g: Graph, s: State, k: nat, on: seq<bool>, comp: seq<nat>)
    requires EndsComponent(g, s, k) && IsSegment(s, k, comp) && |on| == |s.on|
    requires forall v :: 0 <= v < |on| ==> (on[v] <==> v in s.st[..k])
    ensures Inv(g, Unstack(s, k, on, WithComponent(s.out, comp)))
  {
    hide Up, Down, Explored, Bounded, Lows, Found, Basic;
    UnstackBasic(g, s, k, on, WithComponent(s.out, comp));
    UnstackUp(g, s, k);
    UnstackDown(g, s, k);
    UnstackLows(g, s, k);
    UnstackExplored(g, s, k);
    UnstackBounded(g, s, k);
    UnstackFound(g, s, k, comp);
  }

  /** With nothing being visited the stack is empty. */
  lemma NothingStacked(g: Graph, s: State)
    requires Inv(g, s) && s.call == []
    ensures s.st == []
  {
    hide Down, Explored, Bounded, Lows, Found, Reach;
    if s.st != [] {
      var v := RootOf(g, s.index, s.st, s.call, s.st[0]);
    }
  }
}
