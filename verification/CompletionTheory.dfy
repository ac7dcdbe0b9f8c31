/**
 The step-by-step notion of a completion agrees with the declarative notion of a
 linearization: from the empty configuration they are the same orders.
 */
module CompletionTheory {
  import opened Seqs
  import opened History
  import opened Completion

  lemma ElemsSnoc(order: seq<nat>, k: nat)
    requires k < |order|
    ensures Elements(order[..k + 1]) == Elements(order[..k]) + {order[k]}
  {
    assert order[..k + 1] == order[..k] + [order[k]];
  }

  lemma LaterInOrder(order: seq<nat>, k: nat, a: nat) returns (q: nat)
    requires k <= |order| && a in order && a !in Elements(order[..k])
    ensures k <= q < |order| && order[q] == a
  {
    assert order == order[..k] + order[k..];
    q :| k <= q < |order| && order[q] == a;
  }

  lemma EarlierInOrder(order: seq<nat>, k: nat, a: nat) returns (p: nat)
    requires k <= |order| && a in Elements(order[..k])
    ensures p < k && order[p] == a
  {
    p :| 0 <= p < k && order[..k][p] == a;
  }

  lemma TimelyInOrder<I, O>(ops: seq<Op<I, O>>, order: seq<nat>, k: nat)
    requires WellTimed(ops) && k < |order|
    requires InRange(|ops|, order) && Answered(ops, order) && RealTime(ops, order)
    ensures Timely(ops, Elements(order[..k]), order[k])
  {
    forall a: nat | a < |ops| && a !in Elements(order[..k]) ensures !(ops[a].ret < ops[order[k]].call) {
      if !ops[a].Pending() {
        var q := LaterInOrder(order, k, a);
      }
    }
  }

  lemma GroupInOrder<I, O>(ops: seq<Op<I, O>>, order: seq<nat>, k: nat, g: int64)
    requires k < |order|
    requires InRange(|ops|, order) && Answered(ops, order) && Contiguous(ops, order)
    requires Open(ops, Elements(order[..k]), g)
    ensures ops[order[k]].Group() == g
  {
    var a: nat :| a < |ops| && a in Elements(order[..k]) && ops[a].Group() == g;
    var b: nat :| b < |ops| && b !in Elements(order[..k]) && ops[b].Group() == g;
    var p := EarlierInOrder(order, k, a);
    var q := LaterInOrder(order, k, b);
    ContiguousAt(ops, order, p, k, q);
  }

  lemma ContiguousAt<I, O>(ops: seq<Op<I, O>>, order: seq<nat>, p: nat, r: nat, q: nat)
    requires InRange(|ops|, order) && Contiguous(ops, order)
    requires p < r <= q < |order| && Grouped(ops, order[p], order[q])
    ensures ops[order[r]].Group() == ops[order[p]].Group()
  {
  }

  lemma AdmissibleInOrder<S, I, O>(m: Model<S, I, O>, ops: seq<Op<I, O>>, order: seq<nat>, k: nat)
    requires WellTimed(ops) && IsLinearization(m, ops, order) && k < |order|
    ensures Admissible(ops, Elements(order[..k]), order[k])
  {
    TimelyInOrder(ops, order, k);
    forall g: int64 | Open(ops, Elements(order[..k]), g) ensures ops[order[k]].Group() == g {
      GroupInOrder(ops, order, k, g);
    }
  }

  lemma {:induction false} LinearizationCompletes<S, I, O>(m: Model<S, I, O>, ops: seq<Op<I, O>>, order: seq<nat>,
      k: nat, s: S)
    requires WellTimed(ops) && IsLinearization(m, ops, order) && k <= |order|
    requires InRange(|ops|, order[k..]) && Legal(m, ops, s, order[k..])
    ensures Completes(m, ops, Elements(order[..k]), s, order[k..])
    decreases |order| - k
  {
    if k == |order| {
      assert order[..k] == order;
    } else {
      AdmissibleInOrder(m, ops, order, k);
      assert order[k..][1..] == order[k + 1..];
      ElemsSnoc(order, k);
      LinearizationCompletes(m, ops, order, k + 1, Step(m, ops, s, order[k]).1);
    }
  }

  lemma {:induction false} CompletionStep<S, I, O>(m: Model<S, I, O>, ops: seq<Op<I, O>>, done: set<nat>, s: S,
      order: seq<nat>, k: nat)
    requires Completes(m, ops, done, s, order) && k < |order|
    ensures Admissible(ops, done + Elements(order[..k]), order[k])
    decreases |order|
  {
    if k == 0 {
      assert done + Elements(order[..0]) == done;
    } else {
      CompletionStep(m, ops, done + {order[0]}, Step(m, ops, s, order[0]).1, order[1..], k - 1);
      assert order[..k] == [order[0]] + order[1..][..k - 1];
      assert done + Elements(order[..k]) == done + {order[0]} + Elements(order[1..][..k - 1]);
    }
  }

  lemma {:induction false} CompletionLegal<S, I, O>(m: Model<S, I, O>, ops: seq<Op<I, O>>, done: set<nat>, s: S,
      order: seq<nat>)
    requires Completes(m, ops, done, s, order)
    ensures InRange(|ops|, order) && Legal(m, ops, s, order)
    ensures AllAnswered(ops, done + Elements(order))
    decreases |order|
  {
    if order == [] {
      assert done + Elements(order) == done;
    } else {
      CompletionLegal(m, ops, done + {order[0]}, Step(m, ops, s, order[0]).1, order[1..]);
      assert order == [order[0]] + order[1..];
      assert done + Elements(order) == done + {order[0]} + Elements(order[1..]);
    }
  }

  ghost predicate Stepwise<I, O>(ops: seq<Op<I, O>>, order: seq<nat>) {
    forall k :: 0 <= k < |order| ==> Admissible(ops, Elements(order[..k]), order[k])
  }

  lemma StepwiseDistinct<I, O>(ops: seq<Op<I, O>>, order: seq<nat>)
    requires Stepwise(ops, order)
    ensures Distinct(order)
  {
    forall p, q | 0 <= p < q < |order| ensures order[p] != order[q] {
      assert Admissible(ops, Elements(order[..q]), order[q]);
      assert order[..q][p] == order[p];
    }
  }

  lemma NotYet(order: seq<nat>, p: nat, q: nat)
    requires p <= q < |order| && Distinct(order)
    ensures order[q] !in Elements(order[..p])
  {
  }

  lemma StepwiseRealTime<I, O>(ops: seq<Op<I, O>>, order: seq<nat>)
    requires Stepwise(ops, order) && InRange(|ops|, order)
    ensures RealTime(ops, order)
  {
    StepwiseDistinct(ops, order);
    forall p, q | 0 <= p < q < |order| ensures !(ops[order[q]].ret < ops[order[p]].call) {
      assert Admissible(ops, Elements(order[..p]), order[p]);
      NotYet(order, p, q);
    }
  }

  lemma StepwiseContiguous<I, O>(ops: seq<Op<I, O>>, order: seq<nat>)
    requires Stepwise(ops, order) && InRange(|ops|, order)
    ensures Contiguous(ops, order)
  {
    StepwiseDistinct(ops, order);
    forall p, q, r | 0 <= p < r < q < |order| && Grouped(ops, order[p], order[q])
      ensures ops[order[r]].Group() == ops[order[p]].Group()
    {
      assert Admissible(ops, Elements(order[..r]), order[r]);
      assert order[..r][p] == order[p];
      NotYet(order, r, q);
      assert Open(ops, Elements(order[..r]), ops[order[p]].Group());
    }
  }

  lemma CompletionIsLinearization<S, I, O>(m: Model<S, I, O>, ops: seq<Op<I, O>>, order: seq<nat>)
    requires Completes(m, ops, {}, m.init, order)
    ensures IsLinearization(m, ops, order)
  {
    CompletionLegal(m, ops, {}, m.init, order);
    forall k | 0 <= k < |order| ensures Admissible(ops, Elements(order[..k]), order[k]) {
      CompletionStep(m, ops, {}, m.init, order, k);
      assert {} + Elements(order[..k]) == Elements(order[..k]);
    }
    StepwiseDistinct(ops, order);
    StepwiseRealTime(ops, order);
    StepwiseContiguous(ops, order);
  }

  /** The completions of the empty configuration are the linearizations. */
  lemma LinearizationsAreCompletions<S, I, O>(m: Model<S, I, O>, ops: seq<Op<I, O>>, order: seq<nat>)
    requires WellTimed(ops)
    ensures IsLinearization(m, ops, order) <==> Completes(m, ops, {}, m.init, order)
  {
    if IsLinearization(m, ops, order) {
      assert order[0..] == order && Elements(order[..0]) == {};
      LinearizationCompletes(m, ops, order, 0, m.init);
    }
    if Completes(m, ops, {}, m.init, order) {
      CompletionIsLinearization(m, ops, order);
    }
  }

  /** A dead initial configuration is a history that is not linearizable. */
  lemma DeadStart<S(!new), I, O>(m: Model<S, I, O>, ops: seq<Op<I, O>>)
    requires WellTimed(ops)
    ensures Dead(m, ops, {}, m.init) <==> !Linearizable(m, ops)
  {
    forall order { LinearizationsAreCompletions(m, ops, order); }
    if Linearizable(m, ops) {
      var order :| IsLinearization(m, ops, order);
      assert Completes(m, ops, {}, m.init, order);
    } else {
      forall order ensures !Completes(m, ops, {}, m.init, order) {
        assert !IsLinearization(m, ops, order);
      }
    }
  }
}
