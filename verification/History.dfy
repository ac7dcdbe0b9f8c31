/**
 What was called and answered, a sequential model of what was called, and when the one is
 linearizable by the other (linearize/linearize.go).
 */
module History {
  import opened Options
  import opened Seqs

  const MIN_INT64: int := -0x8000_0000_0000_0000
  const MAX_INT64: int := 0x7fff_ffff_ffff_ffff

  type int64 = x: int | MIN_INT64 <= x <= MAX_INT64

  /** Stands for the return of an unanswered operation. */
  const PENDING: int64 := MAX_INT64

  datatype Op<+I, +O> = Op(client: int, call: int64, ret: int64, group: int64, input: I, output: O) {
    predicate Pending() { ret == PENDING }

    /** The group of an answered operation; 0 for an unanswered one whatever its group. */
    function Group(): int64 { if Pending() then 0 else group }
  }

  /** A sequential specification: `step` says whether an output is legal in a state, and the state after. */
  datatype Model<!S, !I, !O> = Model(init: S, step: (S, I, O) -> (bool, S), same: Option<(I, O, I, O) -> bool>)

  function Step<S, I, O>(m: Model<S, I, O>, ops: seq<Op<I, O>>, s: S, i: nat): (bool, S)
    requires i < |ops|
  {
    m.step(s, ops[i].input, ops[i].output)
  }

  ghost predicate InRange(n: nat, order: seq<nat>) {
    forall k :: 0 <= k < |order| ==> order[k] < n
  }

  /** Stepping the model from `s` through `order` accepts every operation. */
  ghost predicate Legal<S, I, O>(m: Model<S, I, O>, ops: seq<Op<I, O>>, s: S, order: seq<nat>)
    requires InRange(|ops|, order)
  {
    order == [] ||
    (var (ok, next) := Step(m, ops, s, order[0]);
     ok && Legal(m, ops, next, order[1..]))
  }

  /** No operation comes after one that began only once it had returned. */
  ghost predicate RealTime<I, O>(ops: seq<Op<I, O>>, order: seq<nat>)
    requires InRange(|ops|, order)
  {
    forall p, q :: 0 <= p < q < |order| ==> !(ops[order[q]].ret < ops[order[p]].call)
  }

  ghost predicate Grouped<I, O>(ops: seq<Op<I, O>>, a: nat, b: nat)
    requires a < |ops| && b < |ops|
  {
    ops[a].Group() != 0 && ops[a].Group() == ops[b].Group()
  }

  /** Nothing comes between two operations of one group but the rest of the group. */
  ghost predicate Contiguous<I, O>(ops: seq<Op<I, O>>, order: seq<nat>)
    requires InRange(|ops|, order)
  {
    forall p, q :: 0 <= p < q < |order| && Grouped(ops, order[p], order[q]) ==>
      forall r :: p < r < q ==> ops[order[r]].Group() == ops[order[p]].Group()
  }

  ghost predicate Answered<I, O>(ops: seq<Op<I, O>>, order: seq<nat>) {
    forall i: nat :: i < |ops| && !ops[i].Pending() ==> i in order
  }

  /** A legal order of every answered operation and some of the unanswered ones. */
  ghost predicate IsLinearization<S, I, O>(m: Model<S, I, O>, ops: seq<Op<I, O>>, order: seq<nat>) {
    && InRange(|ops|, order)
    && Distinct(order)
    && Answered(ops, order)
    && Legal(m, ops, m.init, order)
    && RealTime(ops, order)
    && Contiguous(ops, order)
  }

  ghost predicate Linearizable<S, I, O>(m: Model<S, I, O>, ops: seq<Op<I, O>>) {
    exists order :: IsLinearization(m, ops, order)
  }

  /** What `m.same` accepts, `m.step` cannot tell apart. */
  ghost predicate SameSound<S(!new), I(!new), O(!new)>(m: Model<S, I, O>) {
    m.same.Some? ==>
      forall i1, o1, i2, o2, s :: m.same.value(i1, o1, i2, o2) ==> m.step(s, i1, o1) == m.step(s, i2, o2)
  }

  ghost predicate WellTimed<I, O>(ops: seq<Op<I, O>>) {
    forall i :: 0 <= i < |ops| ==> ops[i].call <= ops[i].ret
  }

  // ----- Legal step by step

  /** The state the first `n` operations of an order leave. */
  ghost function StateAfter<S, I, O>(m: Model<S, I, O>, ops: seq<Op<I, O>>, order: seq<nat>, n: nat): S
    requires n <= |order| && InRange(|ops|, order)
  {
    if n == 0 then m.init else Step(m, ops, StateAfter(m, ops, order, n - 1), order[n - 1]).1
  }

  ghost predicate LegalAt<S, I, O>(m: Model<S, I, O>, ops: seq<Op<I, O>>, order: seq<nat>, n: nat)
    requires n < |order| && InRange(|ops|, order)
  {
    Step(m, ops, StateAfter(m, ops, order, n), order[n]).0
  }

  lemma {:induction false} LegalFrom<S, I, O>(m: Model<S, I, O>, ops: seq<Op<I, O>>, order: seq<nat>, n: nat)
    requires InRange(|ops|, order) && n <= |order|
    ensures InRange(|ops|, order[n..])
    ensures Legal(m, ops, StateAfter(m, ops, order, n), order[n..]) <==>
      forall k :: n <= k < |order| ==> LegalAt(m, ops, order, k)
    decreases |order| - n
  {
    if n < |order| {
      LegalFrom(m, ops, order, n + 1);
      assert order[n..][1..] == order[n + 1..];
      assert order[n..][0] == order[n] && order[n..] != [];
      assert StateAfter(m, ops, order, n + 1) == Step(m, ops, StateAfter(m, ops, order, n), order[n]).1;
      assert Legal(m, ops, StateAfter(m, ops, order, n), order[n..]) <==>
             LegalAt(m, ops, order, n) && Legal(m, ops, StateAfter(m, ops, order, n + 1), order[n + 1..]);
    }
  }

  lemma LegalStepwise<S, I, O>(m: Model<S, I, O>, ops: seq<Op<I, O>>, order: seq<nat>)
    requires InRange(|ops|, order)
    ensures Legal(m, ops, m.init, order) <==> forall k :: 0 <= k < |order| ==> LegalAt(m, ops, order, k)
  {
    LegalFrom(m, ops, order, 0);
    assert order[0..] == order;
  }
}
