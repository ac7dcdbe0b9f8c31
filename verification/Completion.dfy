/**
 Configurations of the linearizability search and their completions: the ways to go on from a
 set of operations and a state to the end of the history, one admissible operation at a time.
 */
module Completion {
  import opened History

  /** Some operations of group `g` are in `done` and some are not. */
  ghost predicate Open<I, O>(ops: seq<Op<I, O>>, done: set<nat>, g: int64) {
    && g != 0
    && (exists a: nat :: a < |ops| && a in done && ops[a].Group() == g)
    && (exists b: nat :: b < |ops| && b !in done && ops[b].Group() == g)
  }

  /** `i` began before anything left returned. */
  ghost predicate Timely<I, O>(ops: seq<Op<I, O>>, done: set<nat>, i: nat)
    requires i < |ops|
  {
    forall a: nat :: a < |ops| && a !in done ==> !(ops[a].ret < ops[i].call)
  }

  /** `i` may be linearized next. */
  ghost predicate Admissible<I, O>(ops: seq<Op<I, O>>, done: set<nat>, i: nat) {
    && i < |ops|
    && i !in done
    && Timely(ops, done, i)
    && (forall g: int64 :: Open(ops, done, g) ==> ops[i].Group() == g)
  }

  ghost predicate AllAnswered<I, O>(ops: seq<Op<I, O>>, done: set<nat>) {
    forall i: nat :: i < |ops| && !ops[i].Pending() ==> i in done
  }

  /** `order` carries the configuration (`done`, `s`) to the end of the history. */
  ghost predicate Completes<S, I, O>(m: Model<S, I, O>, ops: seq<Op<I, O>>, done: set<nat>, s: S, order: seq<nat>)
    decreases |order|
  {
    if order == [] then
      AllAnswered(ops, done)
    else
      && Admissible(ops, done, order[0])
      && Step(m, ops, s, order[0]).0
      && Completes(m, ops, done + {order[0]}, Step(m, ops, s, order[0]).1, order[1..])
  }

  lemma CompletesCons<S, I, O>(m: Model<S, I, O>, ops: seq<Op<I, O>>, done: set<nat>, s: S, i: nat, rest: seq<nat>)
    requires Admissible(ops, done, i) && Step(m, ops, s, i).0
    requires Completes(m, ops, done + {i}, Step(m, ops, s, i).1, rest)
    ensures Completes(m, ops, done, s, [i] + rest)
  {
    assert ([i] + rest)[1..] == rest;
  }

  /** No completion of (`done`, `s`) exists. */
  ghost predicate Dead<S, I, O>(m: Model<S, I, O>, ops: seq<Op<I, O>>, done: set<nat>, s: S) {
    forall order :: !Completes(m, ops, done, s, order)
  }

  // ----- Dropping an unanswered operation

  lemma OpenIgnoresPending<I, O>(ops: seq<Op<I, O>>, done: set<nat>, i: nat, g: int64)
    requires i < |ops| && ops[i].Pending()
    ensures Open(ops, done + {i}, g) <==> Open(ops, done, g)
  {
  }

  lemma {:induction false} DropPending<S, I, O>(m: Model<S, I, O>, ops: seq<Op<I, O>>, done: set<nat>, s: S, i: nat,
      order: seq<nat>)
    requires i < |ops| && ops[i].Pending()
    requires Completes(m, ops, done + {i}, s, order)
    ensures Completes(m, ops, done, s, order)
    decreases |order|
  {
    if order != [] {
      var x := order[0];
      forall g: int64 | Open(ops, done, g) ensures ops[x].Group() == g {
        OpenIgnoresPending(ops, done, i, g);
      }
      assert done + {i} + {x} == done + {x} + {i};
      DropPending(m, ops, done + {x}, Step(m, ops, s, x).1, i, order[1..]);
    }
  }

  // ----- Trying the earlier of two unanswered operations of the same effect

  ghost predicate SameEffect<S(!new), I, O>(m: Model<S, I, O>, ops: seq<Op<I, O>>, i: nat, j: nat) {
    && i < |ops| && j < |ops| && i != j
    && ops[i].Pending() && ops[j].Pending()
    && ops[j].call <= ops[i].call
    && forall s :: Step(m, ops, s, i) == Step(m, ops, s, j)
  }

  lemma {:induction false} SwapSame<S(!new), I, O>(m: Model<S, I, O>, ops: seq<Op<I, O>>, done: set<nat>, s: S,
      i: nat, j: nat, order: seq<nat>)
      returns (swapped: seq<nat>)
    requires SameEffect(m, ops, i, j) && i !in done && j !in done
    requires Timely(ops, done, i)
    requires Completes(m, ops, done + {i}, s, order)
    ensures |swapped| == |order|
    ensures Completes(m, ops, done + {j}, s, swapped)
    decreases |order|
  {
    if order == [] {
      swapped := [];
    } else {
      var x := order[0];
      forall g: int64 | Open(ops, done + {j}, g) ensures ops[x].Group() == g {
        OpenIgnoresPending(ops, done, j, g);
        OpenIgnoresPending(ops, done, i, g);
      }
      if x == j {
        assert done + {i} + {x} == done + {j} + {i};
        swapped := [i] + order[1..];
        assert Admissible(ops, done + {j}, i);
      } else {
        assert done + {i} + {x} == done + {x} + {i};
        assert done + {j} + {x} == done + {x} + {j};
        var rest := SwapSame(m, ops, done + {x}, Step(m, ops, s, x).1, i, j, order[1..]);
        swapped := [x] + rest;
        assert Admissible(ops, done + {j}, x);
      }
    }
  }

  // ----- The search's own moves

  /** What the search knows of an earlier operation of the same effect: `after[i]` is one, or -1. */
  ghost predicate AfterOk<S(!new), I, O>(m: Model<S, I, O>, ops: seq<Op<I, O>>, after: seq<int>, rank: seq<nat>) {
    && |after| == |rank| == |ops|
    && forall i :: 0 <= i < |after| && after[i] != -1 ==>
         && 0 <= after[i] < |ops|
         && SameEffect(m, ops, i, after[i])
         && rank[after[i]] < rank[i]
  }

  /** The search tries `i` from (`done`, `s`): it is admissible and legal, and neither pruning drops it. */
  ghost predicate Tried<S, I, O>(m: Model<S, I, O>, ops: seq<Op<I, O>>, after: seq<int>, done: set<nat>, s: S, i: nat)
    requires |after| == |ops|
  {
    && Admissible(ops, done, i)
    && (after[i] >= 0 ==> after[i] in done)
    && Step(m, ops, s, i).0
    && !(ops[i].Pending() && Step(m, ops, s, i).1 == s)
  }

  /** Moves the search tries one after the other from (`done`, `s`). */
  ghost predicate Tries<S, I, O>(m: Model<S, I, O>, ops: seq<Op<I, O>>, after: seq<int>, done: set<nat>, s: S,
      p: seq<nat>)
    requires |after| == |ops|
    decreases |p|
  {
    p == [] ||
    (Tried(m, ops, after, done, s, p[0]) &&
     Tries(m, ops, after, done + {p[0]}, Step(m, ops, s, p[0]).1, p[1..]))
  }

  /** Where moves lead from a state. */
  ghost function StateFrom<S, I, O>(m: Model<S, I, O>, ops: seq<Op<I, O>>, s: S, p: seq<nat>): S {
    if p == [] then s else StateFrom(m, ops, if p[0] < |ops| then Step(m, ops, s, p[0]).1 else s, p[1..])
  }

  /** No such moves get further than `d` operations linearized. */
  ghost predicate Shallow<S, I, O>(m: Model<S, I, O>, ops: seq<Op<I, O>>, after: seq<int>, done: set<nat>, s: S, d: int)
    requires |after| == |ops|
  {
    forall p :: Tries(m, ops, after, done, s, p) ==> |done| + |p| <= d
  }

  /** Of the orders the search tries from the start, none is longer than `p`. */
  ghost predicate Longest<S, I, O>(m: Model<S, I, O>, ops: seq<Op<I, O>>, after: seq<int>, p: seq<nat>)
    requires |after| == |ops|
  {
    Tries(m, ops, after, {}, m.init, p) && forall q :: Tries(m, ops, after, {}, m.init, q) ==> |q| <= |p|
  }

  lemma TriesCons<S, I, O>(m: Model<S, I, O>, ops: seq<Op<I, O>>, after: seq<int>, done: set<nat>, s: S, i: nat,
      rest: seq<nat>)
    requires |after| == |ops| && Tried(m, ops, after, done, s, i)
    requires Tries(m, ops, after, done + {i}, Step(m, ops, s, i).1, rest)
    ensures Tries(m, ops, after, done, s, [i] + rest)
  {
    assert ([i] + rest)[1..] == rest;
  }

  lemma AllShallow<S, I, O>(m: Model<S, I, O>, ops: seq<Op<I, O>>, after: seq<int>, done: set<nat>, s: S, d: int)
    requires |after| == |ops| && |done| <= d
    requires forall i :: Tried(m, ops, after, done, s, i) ==>
      Shallow(m, ops, after, done + {i}, Step(m, ops, s, i).1, d)
    ensures Shallow(m, ops, after, done, s, d)
  {
    forall p | Tries(m, ops, after, done, s, p) ensures |done| + |p| <= d {
      if p != [] {
        assert Shallow(m, ops, after, done + {p[0]}, Step(m, ops, s, p[0]).1, d);
        assert Tries(m, ops, after, done + {p[0]}, Step(m, ops, s, p[0]).1, p[1..]);
        assert p[0] !in done;
      }
    }
  }

  /** The prunings are safe: a configuration with a completion has one that begins with a move the search tries. */
  lemma {:induction false} SomeTriedMove<S(!new), I, O>(m: Model<S, I, O>, ops: seq<Op<I, O>>, after: seq<int>,
      rank: seq<nat>,
      done: set<nat>, s: S, order: seq<nat>)
      returns (i: nat, rest: seq<nat>)
    requires AfterOk(m, ops, after, rank)
    requires Completes(m, ops, done, s, order) && !AllAnswered(ops, done)
    ensures Tried(m, ops, after, done, s, i)
    ensures Completes(m, ops, done + {i}, Step(m, ops, s, i).1, rest)
    decreases |order|, rank[order[0]]
  {
    i, rest := order[0], order[1..];
    if ops[i].Pending() && Step(m, ops, s, i).1 == s {
      DropPending(m, ops, done, s, i, rest);
      i, rest := SomeTriedMove(m, ops, after, rank, done, s, rest);
    } else if after[i] >= 0 && after[i] !in done {
      var j := after[i];
      var swapped := SwapSame(m, ops, done, Step(m, ops, s, i).1, i, j, rest);
      assert Step(m, ops, s, i) == Step(m, ops, s, j);
      assert Admissible(ops, done, j);
      CompletesCons(m, ops, done, s, j, swapped);
      i, rest := SomeTriedMove(m, ops, after, rank, done, s, [j] + swapped);
    }
  }

  /** A configuration from which every move the search tries leads to a dead one is dead. */
  lemma Exhausted<S(!new), I, O>(m: Model<S, I, O>, ops: seq<Op<I, O>>, after: seq<int>, rank: seq<nat>,
      done: set<nat>, s: S)
    requires AfterOk(m, ops, after, rank)
    requires !AllAnswered(ops, done)
    requires forall i :: Tried(m, ops, after, done, s, i) ==> Dead(m, ops, done + {i}, Step(m, ops, s, i).1)
    ensures Dead(m, ops, done, s)
  {
    forall order ensures !Completes(m, ops, done, s, order) {
      if Completes(m, ops, done, s, order) {
        var i, rest := SomeTriedMove(m, ops, after, rank, done, s, order);
        assert false;
      }
    }
  }
}
