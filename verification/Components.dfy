/** Tarjan's algorithm run to the end (listappend/listappend.go, sccs). */
module Components {
  import opened Seqs
  import opened Sorting
  import opened Graphs
  import opened Tarjan

  lemma SortedIncreasing(a: seq<nat>, b: seq<nat>)
    requires multiset(a) == multiset(b) && forall i, j :: 0 <= i < j < |b| ==> b[i] != b[j]
    ensures Increasing(Sort(a, NatLe)) && |Sort(a, NatLe)| == |b|
    ensures forall x :: x in Sort(a, NatLe) <==> x in b
  {
    var c := Sort(a, NatLe);
    SortSorted(a, NatLe);
    SameElements(b, c);
    SameDistinct(b, c);
    forall i, j | 0 <= i < j < |c| ensures c[i] < c[j] {
      assert NatLe(c[i], c[j]) && c[i] != c[j];
    }
  }

  /** Pops the stack down to and with `v`. */
  method PopTo(st0: seq<nat>, on0: seq<bool>, v: nat, ghost k: nat)
      returns (st: seq<nat>, on: seq<bool>, comp: seq<nat>)
    requires k < |st0| && st0[k] == v
    requires forall i :: 0 <= i < |st0| ==> st0[i] < |on0|
    requires forall i, j :: 0 <= i < j < |st0| ==> st0[i] != st0[j]
    requires forall x :: 0 <= x < |on0| ==> (on0[x] <==> x in st0)
    ensures st == st0[..k] && |on| == |on0|
    ensures forall x :: 0 <= x < |on| ==> (on[x] <==> x in st)
    ensures Increasing(comp) && |comp| == |st0| - k && forall x :: x in comp <==> x in st0[k..]
  {
    st, on, comp := st0, on0, [];
    while true
      invariant k < |st| <= |st0| && st == st0[..|st|] && |on| == |on0|
      invariant multiset(comp) == multiset(st0[|st|..])
      invariant forall x :: 0 <= x < |on| ==> (on[x] <==> x in st)
      decreases |st|
    {
      var w := st[|st| - 1];
      assert w == st0[|st| - 1];
      PopOne(st0, on, on[w := false], |st|, comp);
      st := st[..|st| - 1];
      on := on[w := false];
      comp := comp + [w];
      if w == v {
        break;
      }
    }
    SegmentDistinct(st0, k);
    SortedIncreasing(comp, st0[k..]);
    comp := Sort(comp, NatLe);
  }

  lemma SegmentDistinct(st: seq<nat>, k: nat)
    requires k <= |st| && forall i, j :: 0 <= i < j < |st| ==> st[i] != st[j]
    ensures forall i, j :: 0 <= i < j < |st[k..]| ==> st[k..][i] != st[k..][j]
  {
  }

  lemma PopOne(st: seq<nat>, on: seq<bool>, on': seq<bool>, m: nat, comp: seq<nat>)
    requires 0 < m <= |st| && st[m - 1] < |on|
    requires multiset(comp) == multiset(st[m..])
    requires forall i, j :: 0 <= i < j < |st| ==> st[i] != st[j]
    requires forall x :: 0 <= x < |on| ==> (on[x] <==> x in st[..m])
    requires on' == on[st[m - 1] := false]
    ensures st[..m][..m - 1] == st[..m - 1]
    ensures multiset(comp + [st[m - 1]]) == multiset(st[m - 1..])
    ensures forall x :: 0 <= x < |on| ==> (on'[x] <==> x in st[..m - 1])
  {
    assert st[m - 1..] == [st[m - 1]] + st[m..];
    assert st[..m] == st[..m - 1] + [st[m - 1]];
    forall x | 0 <= x < |on| ensures on'[x] <==> x in st[..m - 1] {
      if x == st[m - 1] {
        assert x !in st[..m - 1];
      }
    }
  }

  // ----- Termination

  ghost function Unfound(index: seq<int>): set<nat> {
    set v: nat | v < |index| && index[v] < 0
  }

  ghost function Untaken(adj: Adj, call: seq<nat>, at: seq<nat>): int
    requires |at| == |call|
  {
    if call == [] then 0
    else
      var top := |call| - 1;
      Untaken(adj, call[..top], at[..top]) + if call[top] < |adj| then |adj[call[top]]| - at[top] else 0
  }

  lemma {:induction false} UntakenNat(g: Graph, call: seq<nat>, at: seq<nat>)
    requires |at| == |call| && forall i :: 0 <= i < |call| ==> call[i] < |g.adj| && at[i] <= |g.adj[call[i]]|
    ensures Untaken(g.adj, call, at) >= 0
  {
    if call != [] {
      UntakenNat(g, call[..|call| - 1], at[..|call| - 1]);
    }
  }

  lemma UnfoundLess(index: seq<int>, w: nat, x: int)
    requires w < |index| && index[w] < 0 && x >= 0
    ensures |Unfound(index[w := x])| < |Unfound(index)|
  {
    assert Unfound(index[w := x]) == Unfound(index) - {w};
  }

  lemma AdvanceUntaken(g: Graph, s: State, w: nat)
    requires Basic(g, s) && AtEdge(g, s, w)
    ensures Untaken(g.adj, s.call, Advance(s).at) == Untaken(g.adj, s.call, s.at) - 1
  {
    assert Advance(s).at[..|s.call| - 1] == s.at[..|s.call| - 1];
  }

  lemma RetireUntaken(g: Graph, s: State)
    requires AtEnd(g, s)
    ensures Untaken(g.adj, Retire(s).call, Retire(s).at) == Untaken(g.adj, s.call, s.at)
  {
  }

  // ----- One step

  /** What is left: vertices to find, then edges to take, then vertices to leave. */
  ghost predicate Closer(g: Graph, s: State, t: State)
    requires |s.at| == |s.call| && |t.at| == |t.call|
  {
    || |Unfound(t.index)| < |Unfound(s.index)|
    || (t.index == s.index && 0 <= Untaken(g.adj, t.call, t.at) < Untaken(g.adj, s.call, s.at))
    || (t.index == s.index && Untaken(g.adj, t.call, t.at) == Untaken(g.adj, s.call, s.at) && |t.call| < |s.call|)
  }

  ghost predicate StillFound(s: State, t: State) {
    |t.index| == |s.index| && forall v :: 0 <= v < |s.index| && s.index[v] >= 0 ==> t.index[v] >= 0
  }

  /** Takes the next edge of the vertex being visited last. */
  method TakeEdge(g: Graph, s: State) returns (t: State)
    requires Inv(g, s) && |s.call| > 0 && s.at[|s.call| - 1] < |g.adj[Top(s)]|
    ensures Inv(g, t) && Closer(g, s, t) && StillFound(s, t)
  {
    hide Down, Up, Explored, Lows, Bounded, Found, Reach;
    var v := Top(s);
    var e := g.adj[v][s.at[|s.call| - 1]];
    var w := e.to;
    assert AtEdge(g, s, w) && w < |g.adj|;
    AdvanceUntaken(g, s, w);
    t := Advance(s);
    AdvanceBasic(g, s, w);
    UntakenNat(g, t.call, t.at);
    if g.ok(e.kind) && s.index[w] < 0 {
      ChildInv(g, s, w);
      UnfoundLess(s.index, w, s.next);
      t := Find(t, w);
    } else if g.ok(e.kind) && s.on[w] {
      BackInv(g, s, w);
      t := Lower(t, v, s.index[w]);
    } else {
      PassInv(g, s, w);
    }
  }

  /** The one that led to the vertex being visited last takes over its `low`. */
  function Pass(s: State): State
    requires |s.call| > 0 && Top(s) < |s.low| && (|s.call| > 1 ==> s.call[|s.call| - 2] < |s.low|)
  {
    if |s.call| > 1 then Lower(s, s.call[|s.call| - 2], s.low[Top(s)]) else s
  }

  lemma PassLow(g: Graph, s: State)
    requires Inv(g, s) && AtEnd(g, s)
    ensures Top(s) < |s.low| && (|s.call| > 1 ==> s.call[|s.call| - 2] < |s.low|)
    ensures Inv(g, Pass(s)) && AtEnd(g, Pass(s))
    ensures |s.call| > 1 ==> Ix(Pass(s).low, s.call[|s.call| - 2]) <= Ix(Pass(s).low, Top(s))
    ensures Ix(Pass(s).low, Top(s)) == Ix(s.low, Top(s))
  {
    hide Down, Up, Explored, Lows, Bounded, Found, Reach;
    assert Top(s) in s.call;
    if |s.call| > 1 {
      var v, p := Top(s), s.call[|s.call| - 2];
      assert p in s.call && Ix(s.index, p) < Ix(s.index, v);
      var u := LowVertex(g, s.index, s.low, s.st, s.call, v);
      CallerReaches(g, s, p, v);
      ReachTrans(g, p, v, u);
      LowerInv(g, s, p, u);
    }
  }

  lemma CallerReaches(g: Graph, s: State, p: nat, v: nat)
    requires Basic(g, s) && Down(g, s.index, s.st, s.call) && p in s.call && v in s.call &&
      Ix(s.index, p) <= Ix(s.index, v)
    ensures Reach(g, p, v)
  {
    hide Reach;
  }

  /** Leaves the vertex being visited last, with its component if it is the first found of one. */
  method LeaveVertex(g: Graph, s: State) returns (t: State)
    requires Inv(g, s) && AtEnd(g, s)
    ensures Inv(g, t) && Closer(g, s, t) && StillFound(s, t)
  {
    hide Down, Up, Explored, Lows, Bounded, Found, Reach;
    PassLow(g, s);
    var v := Top(s);
    var p := Pass(s);
    RetireUntaken(g, p);
    if p.low[v] == p.index[v] {
      ghost var k := StackPosition(g, p);
      assert EndsComponent(g, p, k);
      StackDistinct(g, p);
      var st, on, comp := PopTo(p.st, p.on, v, k);
      assert IsSegment(p, k, comp);
      UnstackInv(g, p, k, on, comp);
      t := Retire(p).(st := st, on := on, out := WithComponent(p.out, comp));
      assert t == Unstack(p, k, on, WithComponent(p.out, comp));
    } else {
      LowAtMost(g, p);
      RetireInv(g, p);
      t := Retire(p);
    }
  }

  lemma LowAtMost(g: Graph, s: State)
    requires Inv(g, s) && |s.call| > 0
    ensures Ix(s.low, Top(s)) <= Ix(s.index, Top(s))
  {
    assert Top(s) in s.call;
  }

  lemma StackPosition(g: Graph, s: State) returns (k: nat)
    requires Basic(g, s) && |s.call| > 0
    ensures k < |s.st| && s.st[k] == Top(s)
  {
    assert Top(s) in s.call;
    k :| 0 <= k < |s.st| && s.st[k] == Top(s);
  }

  lemma StackDistinct(g: Graph, s: State)
    requires Basic(g, s)
    ensures forall i :: 0 <= i < |s.st| ==> s.st[i] < |s.on|
    ensures forall i, j :: 0 <= i < j < |s.st| ==> s.st[i] != s.st[j]
  {
    forall i | 0 <= i < |s.st| ensures s.st[i] < |s.on| {
      assert s.st[i] in s.st;
    }
    forall i, j | 0 <= i < j < |s.st| ensures s.st[i] != s.st[j] {
      assert Ix(s.index, s.st[i]) < Ix(s.index, s.st[j]);
    }
  }

  // ----- The whole run

  /** `out` lists each strongly connected component of two vertices or more once, and nothing else. */
  ghost predicate AreComponents(g: Graph, out: seq<seq<nat>>) {
    && (forall c :: 0 <= c < |out| ==> IsComponent(g, out[c]) && forall u :: u in out[c] ==> u < |g.adj|)
    && (forall c, d, u :: 0 <= c < d < |out| && u in out[c] ==> u !in out[d])
    && (forall u: nat, v: nat :: u < |g.adj| && u != v && Mutual(g, u, v) ==> exists c :: 0 <= c < |out| && u in out[c])
  }

  method Sccs(g: Graph) returns (out: seq<seq<nat>>)
    requires Valid(g)
    ensures AreComponents(g, out)
  {
    hide Inv, AreComponents;
    var n := |g.adj|;
    var s := State(seq(n, _ => -1), seq(n, _ => 0), seq(n, _ => false), [], [], [], 0, [], []);
    StartInv(g, s);
    for root := 0 to n
      invariant Inv(g, s) && s.call == [] && |s.index| == n
      invariant forall v :: 0 <= v < root ==> s.index[v] >= 0
    {
      if s.index[root] >= 0 {
        continue;
      }
      RootInv(g, s, root);
      FitsInv(g, s);
      s := Find(s, root);
      FitsInv(g, s);
      while |s.call| > 0
        invariant Inv(g, s) && |s.index| == n && |s.at| == |s.call|
        invariant forall v :: 0 <= v <= root ==> s.index[v] >= 0
        decreases |Unfound(s.index)|, Untaken(g.adj, s.call, s.at), |s.call|
      {
        FitsInv(g, s);
        ghost var before := s;
        if s.at[|s.call| - 1] < |g.adj[Top(s)]| {
          s := TakeEdge(g, s);
        } else {
          s := LeaveVertex(g, s);
        }
        FitsInv(g, s);
      }
    }
    AllDone(g, s);
    out := s.out;
  }

  lemma FitsInv(g: Graph, s: State)
    requires Inv(g, s)
    ensures |s.index| == |s.low| == |s.on| == |g.adj| && |s.at| == |s.call| && s.next >= 0
    ensures |s.call| > 0 ==> Top(s) < |g.adj| && s.at[|s.call| - 1] <= |g.adj[Top(s)]|
    ensures Untaken(g.adj, s.call, s.at) >= 0
  {
    UntakenNat(g, s.call, s.at);
  }

  lemma StartInv(g: Graph, s: State)
    requires Valid(g) && s == State(seq(|g.adj|, _ => -1), seq(|g.adj|, _ => 0), seq(|g.adj|, _ => false), [], [],
      [], 0, [], [])
    ensures Inv(g, s)
  {
  }

  lemma AllDone(g: Graph, s: State)
    requires Inv(g, s) && s.call == [] && forall v :: 0 <= v < |g.adj| ==> s.index[v] >= 0
    ensures AreComponents(g, s.out)
  {
    hide Down, Up, Explored, Lows, Bounded, Reach, IsComponent, Mutual;
    NothingStacked(g, s);
    forall c | 0 <= c < |s.out| ensures IsComponent(g, s.out[c]) && forall u :: u in s.out[c] ==> u < |g.adj| {
      forall u | u in s.out[c] ensures u < |g.adj| {
        assert Done(s.index, s.st, u);
      }
    }
    forall u: nat, v: nat | u < |g.adj| && u != v && Mutual(g, u, v)
      ensures exists c :: 0 <= c < |s.out| && u in s.out[c]
    {
      assert Done(s.index, s.st, u);
    }
  }
}
