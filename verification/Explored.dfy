/**
 What the search counts: the configurations it visits, each the operations some order it tries
 linearizes and the state that order leads to (linearize/linearize.go, Explored and Limits).
 */
module Explored {
  import opened Seqs
  import opened History
  import opened Completion
  import opened Bitset
  import opened Trail
  import opened ConfigCache
  import opened SearchTheory

  datatype Visit<S> = Visit(done: set<nat>, state: S)

  /** Some order the search tries leads there. */
  ghost predicate Reaches<S, I, O>(m: Model<S, I, O>, ops: seq<Op<I, O>>, after: seq<int>, v: Visit<S>)
    requires |after| == |ops|
  {
    exists p: seq<nat> ::
      Tries(m, ops, after, {}, m.init, p) && Elements(p) == v.done && StateFrom(m, ops, m.init, p) == v.state
  }

  ghost function VisitOf<S, I, O>(k: Task<S, I, O>, c: Config<S>): Visit<S> {
    Visit(if |k.ops| <= 64 * |c.ops| then Members(c.ops, |k.ops|) else {}, c.state)
  }

  ghost function Visits<S, I, O>(k: Task<S, I, O>, seen: set<Config<S>>): set<Visit<S>> {
    set c | c in seen :: VisitOf(k, c)
  }

  ghost predicate AllReached<S, I, O>(k: Task<S, I, O>, seen: set<Config<S>>)
    requires |k.after| == |k.ops|
  {
    forall c :: c in seen ==> Reaches(k.m, k.ops, k.after, VisitOf(k, c))
  }

  // ----- Different configurations are different visits

  lemma {:induction false} WordsAre(n: nat, p: seq<nat>)
    requires InRange(n, p)
    ensures |WordsOf(New(n), p)| == |New(n)| && n <= 64 * |New(n)|
    ensures forall i: nat :: i < 64 * |New(n)| ==> (Has(WordsOf(New(n), p), i) <==> i in p)
  {
    hide Set, Has;
    NewIsEmpty(n);
    if p == [] {
      forall i: nat | i < 64 * |New(n)| ensures !Has(New(n), i) {
        EmptyHas(n, i);
      }
    } else {
      var q, x := p[..|p| - 1], p[|p| - 1];
      WordsAre(n, q);
      assert p == q + [x];
      forall i: nat | i < 64 * |New(n)| ensures Has(WordsOf(New(n), p), i) <==> i in p {
        HasAfterSet(WordsOf(New(n), q), x, i);
      }
    }
  }

  lemma EmptyHas(n: nat, i: nat)
    requires i < 64 * |New(n)|
    ensures !Has(New(n), i)
  {
    ZeroBit(i % 64);
  }

  lemma {:induction false} PathsInRange(n: nat, len: nat, p: seq<nat>)
    requires p in Paths(n, len)
    ensures InRange(n, p)
  {
    if len > 0 && p !in Paths(n, len - 1) {
      var q, x: nat :| q in Paths(n, len - 1) && x < n && p == q + [x];
      PathsInRange(n, len - 1, q);
    } else if len > 0 {
      PathsInRange(n, len - 1, p);
    }
  }

  lemma UniverseWords<S, I, O>(k: Task<S, I, O>, c: Config<S>) returns (p: seq<nat>)
    requires c in Universe(k)
    ensures InRange(|k.ops|, p) && c.ops == WordsOf(New(|k.ops|), p)
  {
    p :| p in Paths(|k.ops|, |k.ops|) && c == Config(WordsOf(New(|k.ops|), p), StateOf(k.m, k.ops, p));
    PathsInRange(|k.ops|, |k.ops|, p);
  }

  lemma OneVisit<S, I, O>(k: Task<S, I, O>, c: Config<S>, d: Config<S>)
    requires c in Universe(k) && d in Universe(k) && VisitOf(k, c) == VisitOf(k, d)
    ensures c == d
  {
    hide Universe, Has, WordsOf;
    var n := |k.ops|;
    var p := UniverseWords(k, c);
    var q := UniverseWords(k, d);
    WordsAre(n, p);
    WordsAre(n, q);
    forall i: nat | i < 64 * |c.ops| ensures Has(c.ops, i) <==> Has(d.ops, i) {
      assert i in p ==> i < n;
      assert i in q ==> i < n;
      assert i < n ==> (i in Members(c.ops, n) <==> i in Members(d.ops, n));
    }
    SameWords(c.ops, d.ops);
  }

  lemma {:induction false} VisitCount<S, I, O>(k: Task<S, I, O>, seen: set<Config<S>>)
    requires seen <= Universe(k)
    ensures |Visits(k, seen)| == |seen|
  {
    hide Universe, VisitOf;
    if seen != {} {
      var c :| c in seen;
      var rest := seen - {c};
      VisitCount(k, rest);
      assert Visits(k, seen) == Visits(k, rest) + {VisitOf(k, c)};
      forall d | d in rest ensures VisitOf(k, d) != VisitOf(k, c) {
        if VisitOf(k, d) == VisitOf(k, c) { OneVisit(k, c, d); }
      }
    }
  }

  // ----- Each is reached

  lemma {:induction false} StateFromOn<S, I, O>(m: Model<S, I, O>, ops: seq<Op<I, O>>, s: S, p: seq<nat>, x: nat)
    requires x < |ops|
    ensures StateFrom(m, ops, s, p + [x]) == Step(m, ops, StateFrom(m, ops, s, p), x).1
  {
    if p == [] {
      assert ([] + [x])[1..] == [];
    } else {
      var s1 := if p[0] < |ops| then Step(m, ops, s, p[0]).1 else s;
      assert (p + [x])[1..] == p[1..] + [x];
      StateFromOn(m, ops, s1, p[1..], x);
    }
  }

  lemma {:induction false} StateFromStart<S, I, O>(m: Model<S, I, O>, ops: seq<Op<I, O>>, p: seq<nat>)
    requires InRange(|ops|, p)
    ensures StateFrom(m, ops, m.init, p) == StateOf(m, ops, p)
  {
    if p != [] {
      var q, x := p[..|p| - 1], p[|p| - 1];
      StateFromStart(m, ops, q);
      StateFromOn(m, ops, m.init, q, x);
      assert p == q + [x];
    }
  }

  /** The configuration at the end of a trail is reached. */
  lemma TrailReaches<S(!new), I(!new), O(!new)>(k: Task<S, I, O>, t: Trail<S>)
    requires |k.after| == |k.ops| && TrailOk(k, t)
    ensures Reaches(k.m, k.ops, k.after, VisitOf(k, Config(t.words, t.state)))
  {
    hide TrailOk, Tries, StateFrom, StateOf;
    TrailTries(k, t, []) by { NothingTried(k, t); }
    assert t.Path() + [] == t.Path();
    TrailPath(k, t);
    TrailFolds(k, t);
    StateFromStart(k.m, k.ops, t.Path());
    DoneIsPath(t);
    TrailMembers(k, t);
  }

  lemma NothingTried<S, I, O>(k: Task<S, I, O>, t: Trail<S>)
    requires |k.after| == |k.ops|
    ensures Tries(k.m, k.ops, k.after, t.Done(), t.state, [])
  {
  }

  lemma TrailMembers<S, I, O>(k: Task<S, I, O>, t: Trail<S>)
    requires |k.after| == |k.ops| && TrailOk(k, t)
    ensures |k.ops| <= 64 * |t.words| && Members(t.words, |k.ops|) == t.Done()
  {
  }

  lemma ReachedMore<S(!new), I(!new), O(!new)>(k: Task<S, I, O>, seen: set<Config<S>>, t: Trail<S>)
    requires |k.after| == |k.ops| && TrailOk(k, t) && AllReached(k, seen)
    ensures AllReached(k, seen + {Config(t.words, t.state)})
  {
    hide Reaches, TrailOk, VisitOf;
    TrailReaches(k, t);
  }

  // ----- And if nothing is left, all that can be reached

  lemma CoveredIsAll<S(!new), I(!new), O(!new)>(k: Task<S, I, O>, seen: set<Config<S>>, v: Visit<S>)
    requires |k.after| == |k.ops| && Covered(k, seen, {}, k.m.init) && Reaches(k.m, k.ops, k.after, v)
    ensures v in Visits(k, seen)
  {
    hide Tries, StateFrom;
    var p: seq<nat> :| Tries(k.m, k.ops, k.after, {}, k.m.init, p) && Elements(p) == v.done &&
      StateFrom(k.m, k.ops, k.m.init, p) == v.state;
    assert {} + Elements(p) == Elements(p);
    assert InSeen(k, seen, {} + Elements(p), StateFrom(k.m, k.ops, k.m.init, p));
    var c :| c in seen && |k.ops| <= 64 * |c.ops| && Members(c.ops, |k.ops|) == v.done && c.state == v.state;
    assert VisitOf(k, c) == v;
  }
}
