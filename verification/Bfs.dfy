/**
 Breadth-first search along labelled edges, with the way back kept (listappend/listappend.go:
 the loops of path and nonadjacent). Vertices may be of any type.
 */
module Bfs {
  import opened Options
  import opened Seqs
  import opened Graphs

  datatype Hop<T> = Hop(to: T, kind: Kind)

  /** A walk: the vertices along it and the kinds of the edges between them. */
  datatype Walk<T> = Walk(vs: seq<T>, ks: seq<Kind>)

  ghost predicate IsWalk<T>(next: T -> seq<Hop<T>>, w: Walk<T>) {
    && |w.vs| == |w.ks| + 1
    && forall i :: 0 <= i < |w.ks| ==> Hop(w.vs[i + 1], w.ks[i]) in next(w.vs[i])
  }

  ghost predicate Joins<T>(next: T -> seq<Hop<T>>, src: T, dst: T, w: Walk<T>) {
    IsWalk(next, w) && w.vs[0] == src && w.vs[|w.ks|] == dst
  }

  function Extend<T>(w: Walk<T>, h: Hop<T>): Walk<T> {
    Walk(w.vs + [h.to], w.ks + [h.kind])
  }

  lemma ExtendJoins<T>(next: T -> seq<Hop<T>>, src: T, v: T, w: Walk<T>, h: Hop<T>)
    requires Joins(next, src, v, w) && h in next(v)
    ensures Joins(next, src, h.to, Extend(w, h))
  {
    var e := Extend(w, h);
    forall i | 0 <= i < |e.ks| ensures Hop(e.vs[i + 1], e.ks[i]) in next(e.vs[i]) {
      if i < |w.ks| {
        assert e.vs[i + 1] == w.vs[i + 1] && e.vs[i] == w.vs[i];
      }
    }
  }

  function Join<T>(a: Walk<T>, b: Walk<T>): Walk<T>
    requires |b.vs| > 0
  {
    Walk(a.vs + b.vs[1..], a.ks + b.ks)
  }

  lemma JoinIsWalk<T>(next: T -> seq<Hop<T>>, x: T, y: T, z: T, a: Walk<T>, b: Walk<T>)
    requires Joins(next, x, y, a) && Joins(next, y, z, b)
    ensures Joins(next, x, z, Join(a, b))
  {
    var j := Join(a, b);
    var n := |a.ks|;
    forall k | 0 <= k < |j.ks| ensures Hop(j.vs[k + 1], j.ks[k]) in next(j.vs[k]) {
      if k < n {
        assert j.vs[k + 1] == a.vs[k + 1] && j.vs[k] == a.vs[k];
        assert Hop(a.vs[k + 1], a.ks[k]) in next(a.vs[k]);
      } else {
        assert j.vs[k + 1] == b.vs[k - n + 1] && j.vs[k] == b.vs[k - n];
        assert Hop(b.vs[k - n + 1], b.ks[k - n]) in next(b.vs[k - n]);
      }
    }
  }

  // ----- The search's state

  /** The walk found to each vertex seen. */
  type Tree<T> = map<T, Walk<T>>

  ghost predicate Rooted<T>(next: T -> seq<Hop<T>>, src: T, tree: Tree<T>) {
    && src in tree && tree[src] == Walk([src], [])
    && forall x :: x in tree ==>
         && Joins(next, src, x, tree[x])
         && Distinct(tree[x].vs)
         && (forall y :: y in tree[x].vs ==> y in tree)
  }

  /** Apart from `dst`, which is never gone through. */
  ghost predicate Avoids<T>(dst: T, w: Walk<T>) {
    forall i :: 0 < i < |w.vs| ==> w.vs[i] != dst
  }

  ghost predicate TreeAvoids<T>(dst: T, tree: Tree<T>) {
    forall x :: x in tree ==> Avoids(dst, tree[x])
  }

  ghost function Depth<T>(tree: Tree<T>, x: T): nat
    requires x in tree
  {
    |tree[x].ks|
  }

  /** The queue is vertices seen, nearest first, and none more than one further than the first. */
  ghost predicate Queued<T>(tree: Tree<T>, q: seq<T>) {
    && (forall i :: 0 <= i < |q| ==> q[i] in tree)
    && (forall i, j :: 0 <= i < j < |q| ==> Depth(tree, q[i]) <= Depth(tree, q[j]))
    && (forall i, j :: 0 <= i < j < |q| ==> Depth(tree, q[j]) <= Depth(tree, q[i]) + 1)
  }

  /** One edge has been followed: it leads to `dst`, or to a vertex seen no further on than it. */
  ghost predicate Followed<T>(dst: T, tree: Tree<T>, x: T, h: Hop<T>)
    requires x in tree
  {
    h.to == dst || (h.to in tree && Depth(tree, h.to) <= Depth(tree, x) + 1)
  }

  /** An edge of `x` to `dst` closed a walk that was turned down. */
  ghost predicate TurnedDown<T>(dst: T, accept: Walk<T> -> bool, tree: Tree<T>, x: T, h: Hop<T>)
    requires x in tree
  {
    h.to == dst ==> !accept(Extend(tree[x], h))
  }

  ghost predicate Expanded<T>(next: T -> seq<Hop<T>>, dst: T, accept: Walk<T> -> bool, tree: Tree<T>, x: T, k: nat)
    requires x in tree
  {
    k <= |next(x)| && forall j :: 0 <= j < k ==>
      Followed(dst, tree, x, next(x)[j]) && TurnedDown(dst, accept, tree, x, next(x)[j])
  }

  // ----- What the tree says of other walks

  function Front<T>(w: Walk<T>): Walk<T>
    requires |w.ks| > 0 && |w.vs| == |w.ks| + 1
  {
    Walk(w.vs[..|w.ks|], w.ks[..|w.ks| - 1])
  }

  lemma FrontJoins<T>(next: T -> seq<Hop<T>>, src: T, dst: T, w: Walk<T>)
    requires Joins(next, src, dst, w) && |w.ks| > 0
    ensures Joins(next, src, w.vs[|w.ks| - 1], Front(w))
    ensures Hop(dst, w.ks[|w.ks| - 1]) in next(w.vs[|w.ks| - 1])
    ensures Extend(Front(w), Hop(dst, w.ks[|w.ks| - 1])) == w
  {
    var f := Front(w);
    forall i | 0 <= i < |f.ks| ensures Hop(f.vs[i + 1], f.ks[i]) in next(f.vs[i]) {
      assert f.vs[i + 1] == w.vs[i + 1];
    }
  }

  /**
   As long as every vertex nearer than `d` has been expanded, a walk no longer than `d` leads to a
   vertex seen at least as near.
   */
  lemma {:induction false} Nearest<T>(next: T -> seq<Hop<T>>, src: T, dst: T, accept: Walk<T> -> bool, tree: Tree<T>,
      d: nat, x: T, w: Walk<T>)
    requires Rooted(next, src, tree)
    requires forall y :: y in tree && Depth(tree, y) < d ==> Expanded(next, dst, accept, tree, y, |next(y)|)
    requires Joins(next, src, x, w) && Avoids(dst, w) && |w.ks| <= d
    ensures x in tree && Depth(tree, x) <= |w.ks|
    decreases |w.ks|
  {
    if |w.ks| > 0 {
      var f, y := Front(w), w.vs[|w.ks| - 1];
      FrontJoins(next, src, x, w);
      Nearest(next, src, dst, accept, tree, d, y, f);
      var h := Hop(x, w.ks[|w.ks| - 1]);
      var j :| 0 <= j < |next(y)| && next(y)[j] == h;
      assert Followed(dst, tree, y, next(y)[j]);
    }
  }

  /** Any walk to `dst` has one no longer that never goes through `dst`. */
  lemma {:induction false} Shorten<T>(next: T -> seq<Hop<T>>, src: T, dst: T, w: Walk<T>) returns (s: Walk<T>)
    requires Joins(next, src, dst, w) && |w.ks| > 0
    ensures Joins(next, src, dst, s) && 0 < |s.ks| <= |w.ks| && Avoids(dst, Front(s))
    decreases |w.ks|
  {
    FrontJoins(next, src, dst, w);
    if Avoids(dst, Front(w)) {
      s := w;
    } else {
      var i :| 0 < i < |Front(w).vs| && Front(w).vs[i] == dst;
      var cut := Walk(w.vs[..i + 1], w.ks[..i]);
      forall j | 0 <= j < |cut.ks| ensures Hop(cut.vs[j + 1], cut.ks[j]) in next(cut.vs[j]) {
        assert cut.vs[j + 1] == w.vs[j + 1];
      }
      s := Shorten(next, src, dst, cut);
    }
  }

  // ----- Seeing one more vertex

  /** What is seen stays seen, the same way. */
  ghost predicate Grows<T>(tree: Tree<T>, tree': Tree<T>) {
    forall x :: x in tree ==> x in tree' && tree'[x] == tree[x]
  }

  lemma SeeRooted<T>(next: T -> seq<Hop<T>>, src: T, dst: T, tree: Tree<T>, x: T, h: Hop<T>)
    requires Rooted(next, src, tree) && TreeAvoids(dst, tree) && x in tree && h in next(x) && h.to !in tree &&
      h.to != dst
    ensures Rooted(next, src, tree[h.to := Extend(tree[x], h)])
    ensures TreeAvoids(dst, tree[h.to := Extend(tree[x], h)])
  {
    ExtendJoins(next, src, x, tree[x], h);
    var e := Extend(tree[x], h);
    assert Distinct(e.vs) by {
      forall i, j | 0 <= i < j < |e.vs| ensures e.vs[i] != e.vs[j] {
        assert i < |tree[x].vs| ==> e.vs[i] in tree[x].vs;
      }
    }
    forall y | y in e.vs ensures y in tree || y == h.to {}
  }

  lemma GrowExpanded<T>(next: T -> seq<Hop<T>>, dst: T, accept: Walk<T> -> bool, tree: Tree<T>, tree': Tree<T>, x: T,
      k: nat)
    requires x in tree && Grows(tree, tree') && Expanded(next, dst, accept, tree, x, k)
    ensures x in tree' && Expanded(next, dst, accept, tree', x, k)
  {
    forall j | 0 <= j < k ensures Followed(dst, tree', x, next(x)[j]) && TurnedDown(dst, accept, tree', x, next(x)[j]) {
      assert Followed(dst, tree, x, next(x)[j]) && TurnedDown(dst, accept, tree, x, next(x)[j]);
    }
  }

  /** Every vertex seen, not queued and not `x`, has been expanded, and is no further on than `x`. */
  ghost predicate OthersExpanded<T>(next: T -> seq<Hop<T>>, dst: T, accept: Walk<T> -> bool, tree: Tree<T>,
      q: seq<T>, x: T)
  {
    x in tree && forall y :: y in tree && y !in q && y != x ==>
      Expanded(next, dst, accept, tree, y, |next(y)|) && Depth(tree, y) <= Depth(tree, x)
  }

  lemma SeeOthers<T>(next: T -> seq<Hop<T>>, dst: T, accept: Walk<T> -> bool, tree: Tree<T>, q: seq<T>, x: T, h: Hop<T>)
    requires x in tree && h.to !in tree && OthersExpanded(next, dst, accept, tree, q, x)
    ensures OthersExpanded(next, dst, accept, tree[h.to := Extend(tree[x], h)], q + [h.to], x)
  {
    var tree' := tree[h.to := Extend(tree[x], h)];
    forall y | y in tree' && y !in q + [h.to] && y != x
      ensures Expanded(next, dst, accept, tree', y, |next(y)|) && Depth(tree', y) <= Depth(tree', x)
    {
      assert y in tree && y !in q;
      GrowExpanded(next, dst, accept, tree, tree', y, |next(y)|);
    }
  }

  /** The queue as `x` is expanded: all of it between `x` and one further on. */
  ghost predicate QueuedPast<T>(tree: Tree<T>, q: seq<T>, x: T) {
    && x in tree
    && Queued(tree, q)
    && forall i :: 0 <= i < |q| ==> Depth(tree, x) <= Depth(tree, q[i]) <= Depth(tree, x) + 1
  }

  lemma SeeQueued<T>(tree: Tree<T>, q: seq<T>, x: T, h: Hop<T>)
    requires QueuedPast(tree, q, x) && h.to !in tree
    ensures QueuedPast(tree[h.to := Extend(tree[x], h)], q + [h.to], x)
  {
    var tree', q' := tree[h.to := Extend(tree[x], h)], q + [h.to];
    assert forall i :: 0 <= i < |q| ==> q'[i] == q[i] && q[i] in tree && Depth(tree', q[i]) == Depth(tree, q[i]);
  }

  // ----- The way back

  datatype Back<T> = Root | Back(prev: T, kind: Kind)

  ghost predicate Traced<T>(src: T, seen: map<T, Back<T>>, tree: Tree<T>) {
    && seen.Keys == tree.Keys
    && forall x :: x in seen && x != src ==>
         && seen[x].Back? && seen[x].prev in tree
         && tree[x] == Extend(tree[seen[x].prev], Hop(x, seen[x].kind))
  }

  /** The walk to `v` that the search found, from the last vertex back. */
  method WalkBack<T(==)>(src: T, seen: map<T, Back<T>>, v: T, ghost next: T -> seq<Hop<T>>, ghost tree: Tree<T>)
      returns (w: Walk<T>)
    requires Rooted(next, src, tree) && Traced(src, seen, tree) && v in tree
    ensures w == tree[v]
  {
    hide Rooted, Extend;
    var vs, ks := [v], [];
    var x := v;
    WalkEnds(next, src, tree, v);
    while x != src
      invariant x in tree && |vs| == |ks| + 1 && vs[0] == x && |tree[x].vs| == |tree[x].ks| + 1
      invariant tree[v].vs == tree[x].vs[..|tree[x].ks|] + vs
      invariant tree[v].ks == tree[x].ks + ks
      decreases |tree[x].ks|
    {
      var b := seen[x];
      assert tree[x] == Extend(tree[b.prev], Hop(x, b.kind));
      StepBack(next, src, tree, x, b, vs, ks);
      vs, ks := [b.prev] + vs, [b.kind] + ks;
      x := b.prev;
      WalkEnds(next, src, tree, x);
    }
    WalkWhole(next, src, tree, v, vs, ks);
    w := Walk(vs, ks);
  }

  lemma WalkEnds<T>(next: T -> seq<Hop<T>>, src: T, tree: Tree<T>, v: T)
    requires Rooted(next, src, tree) && v in tree
    ensures |tree[v].vs| == |tree[v].ks| + 1
    ensures tree[v].vs == tree[v].vs[..|tree[v].ks|] + [v] && tree[v].ks == tree[v].ks + []
  {
    assert Joins(next, src, v, tree[v]);
  }

  lemma WalkWhole<T>(next: T -> seq<Hop<T>>, src: T, tree: Tree<T>, v: T, vs: seq<T>, ks: seq<Kind>)
    requires Rooted(next, src, tree) && v in tree && src in tree
    requires tree[v].vs == tree[src].vs[..|tree[src].ks|] + vs && tree[v].ks == tree[src].ks + ks
    ensures tree[v] == Walk(vs, ks)
  {
    assert tree[src].ks == [];
  }

  lemma StepBack<T>(next: T -> seq<Hop<T>>, src: T, tree: Tree<T>, x: T, b: Back<T>, vs: seq<T>, ks: seq<Kind>)
    requires Rooted(next, src, tree) && x in tree && b.Back? && b.prev in tree
    requires tree[x] == Extend(tree[b.prev], Hop(x, b.kind)) && |vs| > 0 && vs[0] == x
    ensures |tree[b.prev].ks| < |tree[x].ks|
    ensures tree[x].vs[..|tree[x].ks|] + vs == tree[b.prev].vs[..|tree[b.prev].ks|] + ([b.prev] + vs)
    ensures tree[x].ks + ks == tree[b.prev].ks + ([b.kind] + ks)
  {
    assert Joins(next, src, b.prev, tree[b.prev]);
    var p := tree[b.prev];
    assert p.vs == p.vs[..|p.ks|] + [b.prev];
  }

  // ----- The search

  /** A walk from `src` to `dst` no longer than `len` was turned down. */
  ghost predicate Rejected<T(!new)>(next: T -> seq<Hop<T>>, src: T, dst: T, accept: Walk<T> -> bool, len: nat) {
    exists w :: Joins(next, src, dst, w) && 0 < |w.ks| <= len && !accept(w)
  }

  /** A walk that closes at a vertex already expanded was looked at, or one as short was. */
  lemma WalkRejected<T(!new)>(next: T -> seq<Hop<T>>, src: T, dst: T, accept: Walk<T> -> bool, tree: Tree<T>, d: nat,
      w: Walk<T>)
    requires Rooted(next, src, tree)
    requires forall y :: y in tree && Depth(tree, y) < d ==> Expanded(next, dst, accept, tree, y, |next(y)|)
    requires Joins(next, src, dst, w) && 0 < |w.ks| <= d
    ensures Rejected(next, src, dst, accept, |w.ks|)
  {
    var s := Shorten(next, src, dst, w);
    var f, y := Front(s), s.vs[|s.ks| - 1];
    FrontJoins(next, src, dst, s);
    Nearest(next, src, dst, accept, tree, d, y, f);
    var h := Hop(dst, s.ks[|s.ks| - 1]);
    var j :| 0 <= j < |next(y)| && next(y)[j] == h;
    assert TurnedDown(dst, accept, tree, y, next(y)[j]);
    ExtendJoins(next, src, y, tree[y], h);
    assert Joins(next, src, dst, Extend(tree[y], h));
  }

  ghost predicate Searching<T>(next: T -> seq<Hop<T>>, src: T, dst: T, accept: Walk<T> -> bool,
      seen: map<T, Back<T>>, tree: Tree<T>, q: seq<T>, x: T)
  {
    && Rooted(next, src, tree) && TreeAvoids(dst, tree) && Traced(src, seen, tree)
    && QueuedPast(tree, q, x)
    && OthersExpanded(next, dst, accept, tree, q, x)
  }

  lemma SeeSearching<T>(next: T -> seq<Hop<T>>, src: T, dst: T, accept: Walk<T> -> bool, seen: map<T, Back<T>>,
      tree: Tree<T>, q: seq<T>, x: T, h: Hop<T>)
    requires Searching(next, src, dst, accept, seen, tree, q, x)
    requires h in next(x) && h.to !in tree && h.to != dst
    ensures Searching(next, src, dst, accept, seen[h.to := Back(x, h.kind)], tree[h.to := Extend(tree[x], h)],
      q + [h.to], x)
  {
    hide Rooted, TreeAvoids, QueuedPast, OthersExpanded;
    assert x in tree by { QueuedSeen(tree, q, x); }
    SeeRooted(next, src, dst, tree, x, h);
    SeeQueued(tree, q, x, h);
    SeeOthers(next, dst, accept, tree, q, x, h);
    SeeTraced(next, src, seen, tree, x, h);
  }

  lemma QueuedSeen<T>(tree: Tree<T>, q: seq<T>, x: T)
    requires QueuedPast(tree, q, x)
    ensures x in tree
  {
  }

  lemma SeeTraced<T>(next: T -> seq<Hop<T>>, src: T, seen: map<T, Back<T>>, tree: Tree<T>, x: T, h: Hop<T>)
    requires Rooted(next, src, tree) && Traced(src, seen, tree) && x in tree && h.to !in tree
    ensures Traced(src, seen[h.to := Back(x, h.kind)], tree[h.to := Extend(tree[x], h)])
  {
    var seen', tree' := seen[h.to := Back(x, h.kind)], tree[h.to := Extend(tree[x], h)];
    forall y | y in seen' && y != src
      ensures seen'[y].Back? && seen'[y].prev in tree' &&
        tree'[y] == Extend(tree'[seen'[y].prev], Hop(y, seen'[y].kind))
    {
      if y != h.to {
        assert seen[y].prev in tree && seen[y].prev != h.to;
      }
    }
  }

  /** The first `j` edges of `x` have been followed. */
  ghost predicate Expanding<T(!new)>(next: T -> seq<Hop<T>>, src: T, dst: T, accept: Walk<T> -> bool,
      seen0: map<T, Back<T>>, q0: seq<T>, tree0: Tree<T>,
      seen: map<T, Back<T>>, q: seq<T>, tree: Tree<T>, x: T, j: nat) {
    && Grows(tree0, tree) && x in tree
    && Searching(next, src, dst, accept, seen, tree, q, x)
    && Expanded(next, dst, accept, tree, x, j)
    && (forall y :: y in seen ==> y in seen0 || exists h :: h in next(x) && h.to == y && y != dst)
    && |q| + |seen0| == |q0| + |seen| && seen0.Keys <= seen.Keys
  }

  lemma ExpandSeen<T(!new)>(next: T -> seq<Hop<T>>, src: T, dst: T, accept: Walk<T> -> bool, seen0: map<T, Back<T>>,
      q0: seq<T>, tree0: Tree<T>,
      seen: map<T, Back<T>>, q: seq<T>, tree: Tree<T>, x: T, j: nat)
    requires Expanding(next, src, dst, accept, seen0, q0, tree0, seen, q, tree, x, j) && j < |next(x)|
    requires next(x)[j].to == dst || next(x)[j].to in seen
    requires next(x)[j].to == dst ==> !accept(Extend(tree[x], next(x)[j]))
    ensures Expanding(next, src, dst, accept, seen0, q0, tree0, seen, q, tree, x, j + 1)
  {
    hide Searching, Expanded, Extend;
    InTree(next, src, dst, accept, seen, tree, q, x);
    if next(x)[j].to != dst {
      SeenNear(next, src, dst, accept, seen, tree, q, x, next(x)[j].to);
    }
    OneMore(next, dst, accept, tree, x, j);
  }

  lemma ExpandNew<T(!new)>(next: T -> seq<Hop<T>>, src: T, dst: T, accept: Walk<T> -> bool, seen0: map<T, Back<T>>,
      q0: seq<T>, tree0: Tree<T>,
      seen: map<T, Back<T>>, q: seq<T>, tree: Tree<T>, x: T, j: nat, h: Hop<T>)
    requires Expanding(next, src, dst, accept, seen0, q0, tree0, seen, q, tree, x, j) && j < |next(x)| &&
      h == next(x)[j]
    requires h.to != dst && h.to !in seen
    ensures Expanding(next, src, dst, accept, seen0, q0, tree0, seen[h.to := Back(x, h.kind)], q + [h.to],
      tree[h.to := Extend(tree[x], h)], x, j + 1)
  {
    hide Searching, Expanded, Extend, Rooted, Traced, Grows, Followed;
    InTree(next, src, dst, accept, seen, tree, q, x);
    SeeSearching(next, src, dst, accept, seen, tree, q, x, h);
    var tree' := tree[h.to := Extend(tree[x], h)];
    GrowExpanded(next, dst, accept, tree, tree', x, j);
    SeenDepth(dst, tree, tree', x, h);
    OneMore(next, dst, accept, tree', x, j);
    CountNew(seen, h.to, Back(x, h.kind));
    GrowsNew(tree0, tree, h.to, Extend(tree[x], h));
    SeenFrom(next, dst, seen0, seen, x, h);
  }

  lemma CountNew<K, V>(m: map<K, V>, k: K, v: V)
    requires k !in m
    ensures |m[k := v]| == |m| + 1 && m.Keys <= m[k := v].Keys
  {
    assert m[k := v].Keys == m.Keys + {k};
  }

  lemma GrowsNew<T>(tree0: Tree<T>, tree: Tree<T>, y: T, w: Walk<T>)
    requires Grows(tree0, tree) && y !in tree
    ensures Grows(tree0, tree[y := w])
  {
  }

  lemma SeenFrom<T(!new)>(next: T -> seq<Hop<T>>, dst: T, seen0: map<T, Back<T>>, seen: map<T, Back<T>>, x: T,
      h: Hop<T>)
    requires h in next(x) && h.to != dst
    requires forall y :: y in seen ==> y in seen0 || exists h :: h in next(x) && h.to == y && y != dst
    ensures forall y :: y in seen[h.to := Back(x, h.kind)] ==> y in seen0 || exists h ::
      h in next(x) && h.to == y && y != dst
  {
  }

  /** Follows every edge of `x`, unless one closes a walk that is accepted. */
  method Expand<T(==, !new)>(next: T -> seq<Hop<T>>, src: T, dst: T, accept: Walk<T> -> bool, seen0: map<T, Back<T>>,
      q0: seq<T>, x: T, ghost tree0: Tree<T>)
      returns (found: Option<Walk<T>>, seen: map<T, Back<T>>, q: seq<T>, ghost tree: Tree<T>)
    requires Searching(next, src, dst, accept, seen0, tree0, q0, x)
    ensures exists j :: 0 <= j <= |next(x)| && Expanding(next, src, dst, accept, seen0, q0, tree0, seen, q, tree, x, j)
    ensures found.Some? ==> x in tree && accept(found.value) && exists h ::
      h in next(x) && h.to == dst && found.value == Extend(tree[x], h)
    ensures found.None? ==> Expanding(next, src, dst, accept, seen0, q0, tree0, seen, q, tree, x, |next(x)|)
  {
    hide Expanding, Extend;
    found, seen, q, tree := None, seen0, q0, tree0;
    ExpandStart(next, src, dst, accept, seen0, q0, tree0, x);
    for j := 0 to |next(x)|
      invariant Expanding(next, src, dst, accept, seen0, q0, tree0, seen, q, tree, x, j)
    {
      var h := next(x)[j];
      ExpandFacts(next, src, dst, accept, seen0, q0, tree0, seen, q, tree, x, j);
      if h.to == dst {
        var w := WalkBack(src, seen, x, next, tree);
        if accept(Extend(w, h)) {
          return Some(Extend(w, h)), seen, q, tree;
        }
        ExpandSeen(next, src, dst, accept, seen0, q0, tree0, seen, q, tree, x, j);
      } else if h.to !in seen {
        ExpandNew(next, src, dst, accept, seen0, q0, tree0, seen, q, tree, x, j, h);
        seen := seen[h.to := Back(x, h.kind)];
        tree := tree[h.to := Extend(tree[x], h)];
        q := q + [h.to];
      } else {
        ExpandSeen(next, src, dst, accept, seen0, q0, tree0, seen, q, tree, x, j);
      }
    }
  }

  lemma ExpandStart<T(!new)>(next: T -> seq<Hop<T>>, src: T, dst: T, accept: Walk<T> -> bool, seen0: map<T, Back<T>>,
      q0: seq<T>, tree0: Tree<T>, x: T)
    requires Searching(next, src, dst, accept, seen0, tree0, q0, x)
    ensures Expanding(next, src, dst, accept, seen0, q0, tree0, seen0, q0, tree0, x, 0)
  {
  }

  lemma ExpandFacts<T(!new)>(next: T -> seq<Hop<T>>, src: T, dst: T, accept: Walk<T> -> bool, seen0: map<T, Back<T>>,
      q0: seq<T>, tree0: Tree<T>,
      seen: map<T, Back<T>>, q: seq<T>, tree: Tree<T>, x: T, j: nat)
    requires Expanding(next, src, dst, accept, seen0, q0, tree0, seen, q, tree, x, j)
    ensures x in tree && Rooted(next, src, tree) && Traced(src, seen, tree)
  {
  }

  lemma InTree<T>(next: T -> seq<Hop<T>>, src: T, dst: T, accept: Walk<T> -> bool, seen: map<T, Back<T>>,
      tree: Tree<T>, q: seq<T>, x: T)
    requires Searching(next, src, dst, accept, seen, tree, q, x)
    ensures x in tree && seen.Keys == tree.Keys && Rooted(next, src, tree) && Traced(src, seen, tree)
  {
  }

  lemma OneMore<T>(next: T -> seq<Hop<T>>, dst: T, accept: Walk<T> -> bool, tree: Tree<T>, x: T, j: nat)
    requires x in tree && j < |next(x)| && Expanded(next, dst, accept, tree, x, j)
    requires Followed(dst, tree, x, next(x)[j]) && TurnedDown(dst, accept, tree, x, next(x)[j])
    ensures Expanded(next, dst, accept, tree, x, j + 1)
  {
  }

  lemma SeenDepth<T>(dst: T, was: Tree<T>, tree: Tree<T>, x: T, h: Hop<T>)
    requires x in was && h.to !in was && tree == was[h.to := Extend(was[x], h)]
    ensures x in tree && Followed(dst, tree, x, h)
  {
  }

  /** While `x` is being expanded nothing seen is more than one further on. */
  lemma SeenNear<T>(next: T -> seq<Hop<T>>, src: T, dst: T, accept: Walk<T> -> bool, seen: map<T, Back<T>>,
      tree: Tree<T>, q: seq<T>, x: T, y: T)
    requires Searching(next, src, dst, accept, seen, tree, q, x) && y in tree
    ensures x in tree && Depth(tree, y) <= Depth(tree, x) + 1
  {
  }

  // ----- The whole search

  /** Between vertices: what is seen and no longer queued has been expanded, and is no further on than what is. */
  ghost predicate Resting<T>(next: T -> seq<Hop<T>>, src: T, dst: T, accept: Walk<T> -> bool, seen: map<T, Back<T>>,
      tree: Tree<T>, q: seq<T>)
  {
    && Rooted(next, src, tree) && TreeAvoids(dst, tree) && Traced(src, seen, tree) && Queued(tree, q)
    && forall y :: y in tree && y !in q ==>
      Expanded(next, dst, accept, tree, y, |next(y)|) && (|q| > 0 ==> Depth(tree, y) <= Depth(tree, q[0]))
  }

  lemma TakeFirst<T>(next: T -> seq<Hop<T>>, src: T, dst: T, accept: Walk<T> -> bool, seen: map<T, Back<T>>,
      tree: Tree<T>, q: seq<T>)
    requires Resting(next, src, dst, accept, seen, tree, q) && |q| > 0
    ensures Searching(next, src, dst, accept, seen, tree, q[1..], q[0])
  {
    hide Rooted, TreeAvoids, Traced, Expanded, Queued, QueuedPast, OthersExpanded;
    QueueRest(tree, q);
    RestExpanded(next, src, dst, accept, seen, tree, q);
  }

  /** Without its first vertex the queue is in order past that vertex. */
  lemma QueueRest<T>(tree: Tree<T>, q: seq<T>)
    requires Queued(tree, q) && |q| > 0
    ensures QueuedPast(tree, q[1..], q[0])
  {
  }

  lemma RestExpanded<T>(next: T -> seq<Hop<T>>, src: T, dst: T, accept: Walk<T> -> bool, seen: map<T, Back<T>>,
      tree: Tree<T>, q: seq<T>)
    requires Resting(next, src, dst, accept, seen, tree, q) && |q| > 0
    ensures OthersExpanded(next, dst, accept, tree, q[1..], q[0])
  {
    hide Rooted, TreeAvoids, Traced, Expanded;
    assert q == [q[0]] + q[1..];
    forall y | y in tree && y !in q[1..] && y != q[0] ensures y !in q {
    }
  }

  lemma FinishFirst<T>(next: T -> seq<Hop<T>>, src: T, dst: T, accept: Walk<T> -> bool, seen: map<T, Back<T>>,
      tree: Tree<T>, q: seq<T>, x: T)
    requires Searching(next, src, dst, accept, seen, tree, q, x) && x in tree &&
      Expanded(next, dst, accept, tree, x, |next(x)|)
    ensures Resting(next, src, dst, accept, seen, tree, q)
  {
    hide Rooted, TreeAvoids, Traced, Expanded;
  }

  /** A walk found: from `src` to `dst`, accepted, with no vertex twice, and going through `dst` nowhere between. */
  ghost predicate IsFound<T>(next: T -> seq<Hop<T>>, src: T, dst: T, accept: Walk<T> -> bool, w: Walk<T>) {
    && Joins(next, src, dst, w) && |w.ks| > 0 && accept(w)
    && Distinct(w.vs[..|w.ks|])
    && forall i :: 0 < i < |w.ks| ==> w.vs[i] != dst
  }

  lemma FoundIs<T>(next: T -> seq<Hop<T>>, src: T, dst: T, accept: Walk<T> -> bool, tree: Tree<T>, x: T, h: Hop<T>)
    requires Rooted(next, src, tree) && TreeAvoids(dst, tree) && x in tree && h in next(x) && h.to == dst &&
      accept(Extend(tree[x], h))
    ensures IsFound(next, src, dst, accept, Extend(tree[x], h))
  {
    ExtendJoins(next, src, x, tree[x], h);
    var w := Extend(tree[x], h);
    assert w.vs[..|w.ks|] == tree[x].vs;
    assert forall i :: 0 < i < |w.ks| ==> w.vs[i] == tree[x].vs[i];
  }

  /** None shorter than a walk found was passed over, but for walks turned down. */
  lemma NothingShorter<T(!new)>(next: T -> seq<Hop<T>>, src: T, dst: T, accept: Walk<T> -> bool,
      seen: map<T, Back<T>>, tree: Tree<T>, q: seq<T>, x: T, w: Walk<T>)
    requires Searching(next, src, dst, accept, seen, tree, q, x) && x in tree
    requires Joins(next, src, dst, w) && 0 < |w.ks| <= Depth(tree, x)
    ensures Rejected(next, src, dst, accept, |w.ks|)
  {
    hide Expanded, Joins, Rejected, TreeAvoids, Traced;
    forall y | y in tree && Depth(tree, y) < Depth(tree, x) ensures Expanded(next, dst, accept, tree, y, |next(y)|) {
    }
    WalkRejected(next, src, dst, accept, tree, Depth(tree, x), w);
  }

  lemma NothingLeft<T(!new)>(next: T -> seq<Hop<T>>, src: T, dst: T, accept: Walk<T> -> bool, seen: map<T, Back<T>>,
      tree: Tree<T>, w: Walk<T>)
    requires Resting(next, src, dst, accept, seen, tree, []) && Joins(next, src, dst, w) && |w.ks| > 0
    ensures Rejected(next, src, dst, accept, |w.ks|)
  {
    hide Expanded, Joins, Rejected, TreeAvoids, Traced;
    WalkRejected(next, src, dst, accept, tree, |w.ks|, w);
  }

  ghost predicate Within<T(!new)>(next: T -> seq<Hop<T>>, dst: T, universe: set<T>) {
    forall x, h :: x in universe && h in next(x) ==> h.to in universe || h.to == dst
  }

  /**
   Searches breadth first for a walk from `src` to `dst`, of at least one edge, that `accept` takes.
   `universe` bounds the vertices there are.
   */
  method Search<T(==, !new)>(next: T -> seq<Hop<T>>, src: T, dst: T, accept: Walk<T> -> bool, ghost universe: set<T>)
      returns (r: Option<Walk<T>>)
    requires src in universe && Within(next, dst, universe)
    ensures r.Some? ==> IsFound(next, src, dst, accept, r.value)
    ensures r.Some? ==> forall w :: Joins(next, src, dst, w) && 0 < |w.ks| < |r.value.ks| ==>
      Rejected(next, src, dst, accept, |w.ks|)
    ensures r.None? ==> forall w :: Joins(next, src, dst, w) && |w.ks| > 0 ==> Rejected(next, src, dst, accept, |w.ks|)
  {
    hide Resting, Rejected, Joins, IsFound, Extend;
    var seen: map<T, Back<T>> := map[src := Root];
    var q := [src];
    ghost var tree: Tree<T> := map[src := Walk([src], [])];
    StartResting(next, src, dst, accept);
    while |q| > 0
      invariant Resting(next, src, dst, accept, seen, tree, q)
      invariant seen.Keys <= universe
      decreases |universe| - |seen|, |q|
    {
      var x := q[0];
      TakeFirst(next, src, dst, accept, seen, tree, q);
      ghost var seen0 := seen;
      RestingSeen(next, src, dst, accept, seen, tree, q);
      var found;
      found, seen, q, tree := Expand(next, src, dst, accept, seen, q[1..], x, tree);
      if found.Some? {
        ghost var h :| h in next(x) && h.to == dst && found.value == Extend(tree[x], h);
        FoundHere(next, src, dst, accept, seen, q, tree, x, h);
        return found;
      }
      FinishFirst(next, src, dst, accept, seen, tree, q, x);
      StaysWithin(next, dst, universe, seen0, seen, x);
      SubsetSize(seen0.Keys, universe);
      SubsetSize(seen.Keys, universe);
      SubsetSize(seen0.Keys, seen.Keys);
    }
    forall w | Joins(next, src, dst, w) && |w.ks| > 0 ensures Rejected(next, src, dst, accept, |w.ks|) {
      NothingLeft(next, src, dst, accept, seen, tree, w);
    }
    r := None;
  }

  lemma RestingSeen<T>(next: T -> seq<Hop<T>>, src: T, dst: T, accept: Walk<T> -> bool, seen: map<T, Back<T>>,
      tree: Tree<T>, q: seq<T>)
    requires Resting(next, src, dst, accept, seen, tree, q) && |q| > 0
    ensures q[0] in seen
  {
  }

  lemma StaysWithin<T(!new)>(next: T -> seq<Hop<T>>, dst: T, universe: set<T>, seen0: map<T, Back<T>>,
      seen: map<T, Back<T>>, x: T)
    requires Within(next, dst, universe) && seen0.Keys <= universe && x in universe
    requires forall y :: y in seen ==> y in seen0 || exists h :: h in next(x) && h.to == y && y != dst
    ensures seen.Keys <= universe
  {
  }

  lemma StartResting<T>(next: T -> seq<Hop<T>>, src: T, dst: T, accept: Walk<T> -> bool)
    ensures Resting(next, src, dst, accept, map[src := Root], map[src := Walk([src], [])], [src])
  {
  }

  lemma FoundHere<T(!new)>(next: T -> seq<Hop<T>>, src: T, dst: T, accept: Walk<T> -> bool, seen: map<T, Back<T>>,
      q: seq<T>, tree: Tree<T>, x: T, h: Hop<T>)
    requires Searching(next, src, dst, accept, seen, tree, q, x) && x in tree && h in next(x) && h.to == dst &&
      accept(Extend(tree[x], h))
    ensures IsFound(next, src, dst, accept, Extend(tree[x], h))
    ensures forall w :: Joins(next, src, dst, w) && 0 < |w.ks| < |Extend(tree[x], h).ks| ==>
      Rejected(next, src, dst, accept, |w.ks|)
  {
    hide IsFound, Rejected, Joins;
    FoundIs(next, src, dst, accept, tree, x, h);
    forall w | Joins(next, src, dst, w) && 0 < |w.ks| < |Extend(tree[x], h).ks|
      ensures Rejected(next, src, dst, accept, |w.ks|)
    {
      NothingShorter(next, src, dst, accept, seen, tree, q, x, w);
    }
  }
}
