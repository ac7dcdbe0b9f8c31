/**
 Why the search's verdicts are right: a configuration it has left for good has no completion,
 and there are only so many configurations to visit.
 */
module SearchTheory {
  import opened Seqs
  import opened History
  import opened Completion
  import opened Bitset
  import opened EntryList
  import opened Layout
  import opened Trail
  import opened ConfigCache

  /** `k` is ready to search: `after` names operations, and operations of the same effect where `same` is sound. */
  ghost predicate TaskOk<S(!new), I(!new), O(!new)>(k: Task<S, I, O>, rank: seq<nat>) {
    && |k.after| == |k.ops|
    && WellTimed(k.ops)
    && (forall i :: 0 <= i < |k.after| ==> -1 <= k.after[i] < |k.ops|)
    && (SameSound(k.m) ==> AfterOk(k.m, k.ops, k.after, rank))
  }

  /** How many operations the search has linearized at most, and the configurations it has visited. */
  datatype Reach<S> = Reach(depth: int, ghost seen: set<Config<S>>)

  ghost predicate Within<S>(d: Reach<S>, d': Reach<S>) {
    d.depth <= d'.depth && d.seen <= d'.seen
  }

  /** The configuration has been visited. */
  ghost predicate InSeen<S, I, O>(k: Task<S, I, O>, seen: set<Config<S>>, done: set<nat>, s: S) {
    exists c :: c in seen && |k.ops| <= 64 * |c.ops| && Members(c.ops, |k.ops|) == done && c.state == s
  }

  /** So has every one the search tries to get to from it. */
  ghost predicate Covered<S(!new), I(!new), O(!new)>(k: Task<S, I, O>, seen: set<Config<S>>, done: set<nat>, s: S)
    requires |k.after| == |k.ops|
  {
    forall p :: Tries(k.m, k.ops, k.after, done, s, p) ==>
      InSeen(k, seen, done + Elements(p), StateFrom(k.m, k.ops, s, p))
  }

  lemma AllCovered<S(!new), I(!new), O(!new)>(k: Task<S, I, O>, seen: set<Config<S>>, done: set<nat>, s: S)
    requires |k.after| == |k.ops| && InSeen(k, seen, done, s)
    requires forall i: nat :: Tried(k.m, k.ops, k.after, done, s, i) ==>
      i < |k.ops| && Covered(k, seen, done + {i}, Step(k.m, k.ops, s, i).1)
    ensures Covered(k, seen, done, s)
  {
    hide Tried, InSeen;
    forall p | Tries(k.m, k.ops, k.after, done, s, p)
      ensures InSeen(k, seen, done + Elements(p), StateFrom(k.m, k.ops, s, p))
    {
      if p == [] {
        assert done + Elements(p) == done;
      } else {
        assert Covered(k, seen, done + {p[0]}, Step(k.m, k.ops, s, p[0]).1);
        ElementsFirst(p);
        assert done + Elements(p) == done + {p[0]} + Elements(p[1..]);
      }
    }
  }

  lemma ElementsFirst(p: seq<nat>)
    requires p != []
    ensures Elements(p) == {p[0]} + Elements(p[1..])
  {
    assert p == [p[0]] + p[1..];
  }

  /** No completion exists, if `same` is sound; and the search has been wherever it gets from there. */
  ghost predicate Doomed<S(!new), I(!new), O(!new)>(k: Task<S, I, O>, d: Reach<S>, done: set<nat>, s: S)
    requires |k.after| == |k.ops|
  {
    && (SameSound(k.m) ==> Dead(k.m, k.ops, done, s))
    && Shallow(k.m, k.ops, k.after, done, s, d.depth)
    && Covered(k, d.seen, done, s)
  }

  /** Linearizing `x` next is not tried, or leads nowhere. */
  ghost predicate Spent<S(!new), I(!new), O(!new)>(k: Task<S, I, O>, d: Reach<S>, t: Trail<S>, x: nat)
    requires |k.after| == |k.ops|
  {
    Tried(k.m, k.ops, k.after, t.Done(), t.state, x) ==>
      Doomed(k, d, t.Done() + {x}, Step(k.m, k.ops, t.state, x).1)
  }

  /** The entries ahead of `pos` are calls, each spent. */
  ghost predicate Progress<S(!new), I(!new), O(!new)>(k: Task<S, I, O>, d: Reach<S>, t: Trail<S>, pos: nat)
    requires |k.after| == |k.ops|
  {
    && pos <= |t.list|
    && forall q :: 1 <= q < pos ==> t.list[q].call && t.list[q].op >= 0 && Spent(k, d, t, t.list[q].op)
  }

  ghost predicate TrailProgress<S(!new), I(!new), O(!new)>(k: Task<S, I, O>, d: Reach<S>, t: Trail<S>)
    requires |k.after| == |k.ops|
  {
    t.Then? ==> Progress(k, d, t.prev, t.i) && TrailProgress(k, d, t.prev)
  }

  ghost predicate OnTrail<S>(t: Trail<S>, c: Config<S>) {
    c == Config(t.words, t.state) || (t.Then? && OnTrail(t.prev, c))
  }

  /** Every configuration visited is on the trail, or left for good. */
  ghost predicate SeenOk<S(!new), I(!new), O(!new)>(k: Task<S, I, O>, d: Reach<S>, t: Trail<S>, seen: set<Config<S>>)
    requires |k.after| == |k.ops|
  {
    forall c :: c in seen ==>
      && |k.ops| <= 64 * |c.ops|
      && (OnTrail(t, c) || Doomed(k, d, Members(c.ops, |k.ops|), c.state))
  }

  lemma {:induction false} OnTrailDone<S, I, O>(k: Task<S, I, O>, t: Trail<S>, c: Config<S>)
    requires |k.after| == |k.ops| && TrailOk(k, t) && OnTrail(t, c)
    ensures |k.ops| <= 64 * |c.ops| && Members(c.ops, |k.ops|) <= t.Done()
  {
    if c != Config(t.words, t.state) {
      OnTrailDone(k, t.prev, c);
    }
  }

  /** A configuration one step on that was visited before is doomed: none so far along is on the trail. */
  lemma CachedDoomed<S(!new), I(!new), O(!new)>(k: Task<S, I, O>, d: Reach<S>, t: Trail<S>, seen: set<Config<S>>,
      x: nat,
      s: S)
    requires |k.after| == |k.ops| && TrailOk(k, t) && SeenOk(k, d, t, seen)
    requires x < |k.ops| && x !in t.Done()
    requires Config(Set(t.words, x), s) in seen
    ensures Doomed(k, d, t.Done() + {x}, s)
  {
    var c := Config(Set(t.words, x), s);
    MembersAfterSet(t.words, x, |k.ops|);
    assert x in Members(c.ops, |k.ops|);
    if OnTrail(t, c) {
      OnTrailDone(k, t, c);
    }
  }

  // ----- The list shows what may come next

  lemma PositionOf(list: seq<Entry>, e: Entry) returns (q: nat)
    requires e in list && |list| > 0 && list[0].op == -1 && e.op >= 0
    ensures 1 <= q < |list| && list[q] == e
  {
    q :| 0 <= q < |list| && list[q] == e;
  }

  /** A call behind no return is timely. */
  lemma TimelyCall<S(!new), I(!new), O(!new)>(k: Task<S, I, O>, d: Reach<S>, t: Trail<S>, pos: nat)
    requires |k.after| == |k.ops| && TrailOk(k, t) && Progress(k, d, t, pos)
    requires 1 <= pos < |t.list| && t.list[pos].call
    ensures t.list[pos].op < |k.ops| && Timely(k.ops, t.Done(), t.list[pos].op)
  {
    var x := t.list[pos].op;
    forall a: nat | a < |k.ops| && a !in t.Done() ensures !(k.ops[a].ret < k.ops[x].call) {
      var q := PositionOf(t.list, k.rets[a]);
      assert q != pos && q > pos;
      assert Before(k.ops, t.list[pos], t.list[q]);
    }
  }

  /** A call behind an answered return is not. */
  lemma LateCall<S, I, O>(k: Task<S, I, O>, t: Trail<S>, pos: nat, x: nat) returns (q: nat)
    requires LevelOk(k, t)
    requires 1 <= pos < |t.list| && !t.list[pos].call
    requires Admissible(k.ops, t.Done(), x)
    ensures 1 <= q < pos && t.list[q] == k.calls[x]
  {
    q := PositionOf(t.list, k.calls[x]);
    if pos < q {
      ReturnBefore(k.ops, t.Done(), k.calls, k.rets, t.list, pos, q);
    }
  }

  /** The search backs up only from a configuration that is doomed. */
  lemma StuckDoomed<S(!new), I(!new), O(!new)>(k: Task<S, I, O>, d: Reach<S>, rank: seq<nat>, t: Trail<S>, pos: nat)
    requires TaskOk(k, rank) && TrailOk(k, t) && Progress(k, d, t, pos)
    requires 1 <= pos < |t.list| && !t.list[pos].call && 0 <= t.list[pos].op < |k.ops| &&
      !k.ops[t.list[pos].op].Pending()
    requires |t.Done()| <= d.depth && Config(t.words, t.state) in d.seen
    ensures Doomed(k, d, t.Done(), t.state)
  {
    hide Dead, Shallow, Covered, SameSound, Tried, TrailOk, Progress, Laid;
    NotAnswered(k, t, pos);
    HereSeen(k, d, t);
    forall x: nat | Tried(k.m, k.ops, k.after, t.Done(), t.state, x)
      ensures x < |k.ops| && Doomed(k, d, t.Done() + {x}, Step(k.m, k.ops, t.state, x).1)
    {
      TriedSpent(k, d, t, pos, x);
    }
    if SameSound(k.m) {
      Exhausted(k.m, k.ops, k.after, rank, t.Done(), t.state);
    }
    AllShallow(k.m, k.ops, k.after, t.Done(), t.state, d.depth);
    AllCovered(k, d.seen, t.Done(), t.state);
  }

  lemma HereSeen<S, I, O>(k: Task<S, I, O>, d: Reach<S>, t: Trail<S>)
    requires |k.after| == |k.ops| && TrailOk(k, t) && Config(t.words, t.state) in d.seen
    ensures InSeen(k, d.seen, t.Done(), t.state)
  {
  }

  lemma NotAnswered<S, I, O>(k: Task<S, I, O>, t: Trail<S>, pos: nat)
    requires |k.after| == |k.ops| && TrailOk(k, t)
    requires 1 <= pos < |t.list| && 0 <= t.list[pos].op < |k.ops| && !k.ops[t.list[pos].op].Pending()
    ensures !AllAnswered(k.ops, t.Done())
  {
    ListedAreLeft(k, t, t.list[pos]);
  }

  /** When the search meets a return, whatever it tries here is spent. */
  lemma TriedSpent<S(!new), I(!new), O(!new)>(k: Task<S, I, O>, d: Reach<S>, t: Trail<S>, pos: nat, x: nat)
    requires |k.after| == |k.ops| && TrailOk(k, t) && Progress(k, d, t, pos)
    requires 1 <= pos < |t.list| && !t.list[pos].call && Tried(k.m, k.ops, k.after, t.Done(), t.state, x)
    ensures x < |k.ops| && Doomed(k, d, t.Done() + {x}, Step(k.m, k.ops, t.state, x).1)
  {
    hide Doomed, Tried;
    TriedMeans(k, t, x);
    var q := LateCall(k, t, pos, x);
    assert Spent(k, d, t, t.list[q].op);
  }

  lemma TriedMeans<S, I, O>(k: Task<S, I, O>, t: Trail<S>, x: nat)
    requires |k.after| == |k.ops| && Tried(k.m, k.ops, k.after, t.Done(), t.state, x)
    ensures Admissible(k.ops, t.Done(), x)
  {
  }

  /** The operation whose return the search meets first is, of those left, the first to have returned. */
  lemma FirstReturn<S(!new), I(!new), O(!new)>(k: Task<S, I, O>, d: Reach<S>, t: Trail<S>, pos: nat)
    requires |k.after| == |k.ops| && TrailOk(k, t) && Progress(k, d, t, pos)
    requires 1 <= pos < |t.list| && !t.list[pos].call
    ensures 0 <= t.list[pos].op < |k.ops|
    ensures forall a: nat :: a < |k.ops| && a !in t.Done() ==> k.ops[t.list[pos].op].ret <= k.ops[a].ret
  {
    hide Spent, Set;
    assert IsNamed(k.calls, k.rets, t.list[pos]);
    forall a: nat | a < |k.ops| && a !in t.Done() ensures k.ops[t.list[pos].op].ret <= k.ops[a].ret {
      NoReturnBefore(k, d, t, pos, a);
    }
  }

  lemma NoReturnBefore<S(!new), I(!new), O(!new)>(k: Task<S, I, O>, d: Reach<S>, t: Trail<S>, pos: nat, a: nat)
    requires |k.after| == |k.ops| && TrailOk(k, t) && Progress(k, d, t, pos)
    requires 1 <= pos < |t.list| && !t.list[pos].call && 0 <= t.list[pos].op < |k.ops|
    requires a < |k.ops| && a !in t.Done()
    ensures k.ops[t.list[pos].op].ret <= k.ops[a].ret
  {
    hide Spent, Set, StepOk;
    var q := PositionOf(t.list, k.rets[a]);
    assert !t.list[q].call;
    assert q == pos || (q > pos && Before(k.ops, t.list[pos], t.list[q]));
  }

  lemma EmptyListDone<S, I, O>(k: Task<S, I, O>, t: Trail<S>)
    requires |k.after| == |k.ops| && TrailOk(k, t) && |t.list| == 1
    ensures AllAnswered(k.ops, t.Done())
  {
    forall i: nat | i < |k.ops| && !k.ops[i].Pending() ensures i in t.Done() {
      if i !in t.Done() {
        var q := PositionOf(t.list, k.calls[i]);
        assert false;
      }
    }
  }

  // ----- Getting further

  lemma DoomedDeeper<S(!new), I(!new), O(!new)>(k: Task<S, I, O>, d: Reach<S>, d': Reach<S>, done: set<nat>, s: S)
    requires |k.after| == |k.ops| && Within(d, d') && Doomed(k, d, done, s)
    ensures Doomed(k, d', done, s)
  {
    hide Dead, SameSound, Tries;
    forall p | Tries(k.m, k.ops, k.after, done, s, p)
      ensures InSeen(k, d'.seen, done + Elements(p), StateFrom(k.m, k.ops, s, p))
    {
      assert InSeen(k, d.seen, done + Elements(p), StateFrom(k.m, k.ops, s, p));
    }
  }

  lemma ProgressDeeper<S(!new), I(!new), O(!new)>(k: Task<S, I, O>, d: Reach<S>, d': Reach<S>, t: Trail<S>, pos: nat)
    requires |k.after| == |k.ops| && Within(d, d') && Progress(k, d, t, pos)
    ensures Progress(k, d', t, pos)
  {
    hide Doomed, Tried;
    forall q | 1 <= q < pos ensures Spent(k, d', t, t.list[q].op) {
      var x := t.list[q].op;
      assert Spent(k, d, t, x);
      if Tried(k.m, k.ops, k.after, t.Done(), t.state, x) {
        TriedMeans(k, t, x);
        DoomedDeeper(k, d, d', t.Done() + {x}, Step(k.m, k.ops, t.state, x).1);
      }
    }
  }

  lemma {:induction false} TrailDeeper<S(!new), I(!new), O(!new)>(k: Task<S, I, O>, d: Reach<S>, d': Reach<S>,
      t: Trail<S>)
    requires |k.after| == |k.ops| && Within(d, d') && TrailProgress(k, d, t)
    ensures TrailProgress(k, d', t)
  {
    hide Progress;
    if t.Then? {
      ProgressDeeper(k, d, d', t.prev, t.i);
      TrailDeeper(k, d, d', t.prev);
    }
  }

  lemma SeenDeeper<S(!new), I(!new), O(!new)>(k: Task<S, I, O>, d: Reach<S>, d': Reach<S>, t: Trail<S>,
      seen: set<Config<S>>)
    requires |k.after| == |k.ops| && Within(d, d') && SeenOk(k, d, t, seen)
    ensures SeenOk(k, d', t, seen)
  {
    hide Doomed;
    forall c | c in seen
      ensures |k.ops| <= 64 * |c.ops| && (OnTrail(t, c) || Doomed(k, d', Members(c.ops, |k.ops|), c.state))
    {
      if !OnTrail(t, c) {
        DoomedDeeper(k, d, d', Members(c.ops, |k.ops|), c.state);
      }
    }
  }

  // ----- Going back

  lemma PopProgress<S(!new), I(!new), O(!new)>(k: Task<S, I, O>, d: Reach<S>, t: Trail<S>)
    requires |k.after| == |k.ops| && TrailOk(k, t) && TrailProgress(k, d, t) && t.Then?
    requires Doomed(k, d, t.Done(), t.state)
    ensures Progress(k, d, t.prev, t.i + 1)
  {
    assert t.prev.list[t.i] == k.calls[t.op];
    ProgressNext(k, d, t.prev, t.i);
  }

  lemma ProgressNext<S(!new), I(!new), O(!new)>(k: Task<S, I, O>, d: Reach<S>, t: Trail<S>, pos: nat)
    requires |k.after| == |k.ops| && Progress(k, d, t, pos)
    requires 1 <= pos < |t.list| && t.list[pos].call && t.list[pos].op >= 0 && Spent(k, d, t, t.list[pos].op)
    ensures Progress(k, d, t, pos + 1)
  {
  }

  lemma PopSeen<S(!new), I(!new), O(!new)>(k: Task<S, I, O>, d: Reach<S>, t: Trail<S>, seen: set<Config<S>>)
    requires |k.after| == |k.ops| && TrailOk(k, t) && t.Then? && SeenOk(k, d, t, seen)
    requires Doomed(k, d, t.Done(), t.state)
    ensures SeenOk(k, d, t.prev, seen)
  {
  }

  // ----- How many configurations there are

  ghost function Paths(n: nat, len: nat): set<seq<nat>> {
    if len == 0 then {[]}
    else Paths(n, len - 1) + set p, x: nat | p in Paths(n, len - 1) && x < n :: p + [x]
  }

  ghost function WordsOf(w: Words, p: seq<nat>): Words {
    if p == [] then w
    else
      var before := WordsOf(w, p[..|p| - 1]);
      var x := p[|p| - 1];
      if x / 64 < |before| then Set(before, x) else before
  }

  ghost function StateOf<S, I, O>(m: Model<S, I, O>, ops: seq<Op<I, O>>, p: seq<nat>): S {
    if p == [] then m.init
    else
      var before := StateOf(m, ops, p[..|p| - 1]);
      var x := p[|p| - 1];
      if x < |ops| then Step(m, ops, before, x).1 else before
  }

  /** Every configuration a sequence of distinct operations can lead to. */
  ghost function Universe<S, I, O>(k: Task<S, I, O>): set<Config<S>> {
    set p | p in Paths(|k.ops|, |k.ops|) :: Config(WordsOf(New(|k.ops|), p), StateOf(k.m, k.ops, p))
  }

  lemma {:induction false} InPaths(n: nat, p: seq<nat>, len: nat)
    requires InRange(n, p) && |p| <= len
    ensures p in Paths(n, len)
  {
    if len == 0 {
      assert p == [];
    } else if |p| < len {
      InPaths(n, p, len - 1);
    } else {
      InPaths(n, p[..|p| - 1], len - 1);
      assert p == p[..|p| - 1] + [p[|p| - 1]];
    }
  }

  lemma {:induction false} DistinctBounded(n: nat, p: seq<nat>)
    requires InRange(n, p) && Distinct(p)
    ensures |p| <= n
  {
    if p != [] {
      assert p[0] < n;
      if n - 1 in p {
        var i :| 0 <= i < |p| && p[i] == n - 1;
        DistinctBounded(n - 1, RemoveAt(p, i));
      } else {
        DistinctBounded(n - 1, p);
      }
    }
  }

  lemma {:induction false} TrailPath<S, I, O>(k: Task<S, I, O>, t: Trail<S>)
    requires |k.after| == |k.ops| && TrailOk(k, t)
    ensures InRange(|k.ops|, t.Path()) && Distinct(t.Path())
  {
    if t.Then? {
      TrailPath(k, t.prev);
      DoneIsPath(t.prev);
    }
  }

  lemma {:induction false} TrailFolds<S, I, O>(k: Task<S, I, O>, t: Trail<S>)
    requires |k.after| == |k.ops| && TrailOk(k, t)
    ensures t.words == WordsOf(New(|k.ops|), t.Path())
    ensures t.state == StateOf(k.m, k.ops, t.Path())
  {
    hide TrailOk, WordsOf, StateOf, Set;
    if t.Then? {
      TrailStep(k, t);
      TrailFolds(k, t.prev);
      FoldOn(k, t.prev.Path(), t.op);
    } else {
      FoldNone(k, t);
    }
  }

  lemma FoldOn<S, I, O>(k: Task<S, I, O>, p: seq<nat>, x: nat)
    requires x < |k.ops| && x / 64 < |WordsOf(New(|k.ops|), p)|
    ensures WordsOf(New(|k.ops|), p + [x]) == Set(WordsOf(New(|k.ops|), p), x)
    ensures StateOf(k.m, k.ops, p + [x]) == Step(k.m, k.ops, StateOf(k.m, k.ops, p), x).1
  {
    hide Set;
    DropLast(p, x);
  }

  lemma FoldNone<S, I, O>(k: Task<S, I, O>, t: Trail<S>)
    requires |k.after| == |k.ops| && TrailOk(k, t) && t.Start?
    ensures t.words == WordsOf(New(|k.ops|), []) && t.state == StateOf(k.m, k.ops, []) && t.Path() == []
  {
    hide Laid;
  }

  /** What the last step of a trail did. */
  lemma TrailStep<S, I, O>(k: Task<S, I, O>, t: Trail<S>)
    requires |k.after| == |k.ops| && TrailOk(k, t) && t.Then?
    ensures TrailOk(k, t.prev) && t.op < |k.ops| && Step(k.m, k.ops, t.prev.state, t.op) == (true, t.state)
    ensures t.op / 64 < |t.prev.words| && t.words == Set(t.prev.words, t.op)
    ensures Admissible(k.ops, t.prev.Done(), t.op)
  {
    hide Laid;
  }

  lemma TrailInUniverse<S, I, O>(k: Task<S, I, O>, t: Trail<S>)
    requires |k.after| == |k.ops| && TrailOk(k, t)
    ensures Config(t.words, t.state) in Universe(k)
  {
    TrailPath(k, t);
    TrailFolds(k, t);
    DistinctBounded(|k.ops|, t.Path());
    InPaths(|k.ops|, t.Path(), |k.ops|);
  }
}
