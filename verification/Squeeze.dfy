/**
 Groups as single intervals: the operations of a group are concurrent, so between the last of their
 calls and the first of their returns they may all stand together (linearize/linearize.go, Op).
 */
module Squeeze {
  import opened Seqs
  import opened History

  /** The operations of a group are concurrent with one another. */
  ghost predicate Concurrent<I, O>(ops: seq<Op<I, O>>) {
    forall i: nat, j: nat :: i < |ops| && j < |ops| && Grouped(ops, i, j) ==> ops[i].call <= ops[j].ret
  }

  ghost predicate Together<I, O>(ops: seq<Op<I, O>>, i: nat, j: nat)
    requires i < |ops| && j < |ops|
  {
    i == j || Grouped(ops, i, j)
  }

  /** The last call of the operation's group among the first `n`, and the first return. */
  ghost function Last<I, O>(ops: seq<Op<I, O>>, i: nat, n: nat): int64
    requires i < |ops| && n <= |ops|
  {
    if n == 0 then ops[i].call
    else
      var l := Last(ops, i, n - 1);
      if Together(ops, i, n - 1) && ops[n - 1].call > l then ops[n - 1].call else l
  }

  ghost function First<I, O>(ops: seq<Op<I, O>>, i: nat, n: nat): int64
    requires i < |ops| && n <= |ops|
  {
    if n == 0 then ops[i].ret
    else
      var f := First(ops, i, n - 1);
      if Together(ops, i, n - 1) && ops[n - 1].ret < f then ops[n - 1].ret else f
  }

  lemma {:induction false} LastMeans<I, O>(ops: seq<Op<I, O>>, i: nat, n: nat) returns (a: nat)
    requires i < |ops| && n <= |ops|
    ensures a < |ops| && Together(ops, i, a) && ops[a].call == Last(ops, i, n)
    ensures forall j: nat :: j < n && Together(ops, i, j) ==> ops[j].call <= Last(ops, i, n)
  {
    if n == 0 {
      a := i;
    } else {
      a := LastMeans(ops, i, n - 1);
      if Together(ops, i, n - 1) && ops[n - 1].call > Last(ops, i, n - 1) {
        a := n - 1;
      }
    }
  }

  lemma {:induction false} FirstMeans<I, O>(ops: seq<Op<I, O>>, i: nat, n: nat) returns (a: nat)
    requires i < |ops| && n <= |ops|
    ensures a < |ops| && Together(ops, i, a) && ops[a].ret == First(ops, i, n)
    ensures forall j: nat :: j < n && Together(ops, i, j) ==> First(ops, i, n) <= ops[j].ret
  {
    if n == 0 {
      a := i;
    } else {
      a := FirstMeans(ops, i, n - 1);
      if Together(ops, i, n - 1) && ops[n - 1].ret < First(ops, i, n - 1) {
        a := n - 1;
      }
    }
  }

  ghost function SqueezedOp<I, O>(ops: seq<Op<I, O>>, i: nat): Op<I, O>
    requires i < |ops|
  {
    ops[i].(call := Last(ops, i, |ops|), ret := First(ops, i, |ops|))
  }

  /** The history with each operation of a group at the interval all of them share. */
  ghost function Squeezed<I, O>(ops: seq<Op<I, O>>): (r: seq<Op<I, O>>)
    ensures |r| == |ops|
  {
    seq(|ops|, i requires 0 <= i < |ops| => SqueezedOp(ops, i))
  }

  /** Operations of a group have the same interval. */
  ghost predicate Level<I, O>(ops: seq<Op<I, O>>) {
    forall i: nat, j: nat :: i < |ops| && j < |ops| && Grouped(ops, i, j) ==>
      ops[i].call == ops[j].call && ops[i].ret == ops[j].ret
  }

  lemma SqueezedAt<I, O>(ops: seq<Op<I, O>>, i: nat)
    requires WellTimed(ops) && Concurrent(ops) && i < |ops|
    ensures var o, s := ops[i], Squeezed(ops)[i];
      && s.input == o.input && s.output == o.output && s.Group() == o.Group() && s.Pending() == o.Pending()
      && o.call <= s.call <= s.ret <= o.ret
  {
    hide Last, First;
    var a := LastMeans(ops, i, |ops|);
    var b := FirstMeans(ops, i, |ops|);
    if a != i && b != i {
      assert Grouped(ops, a, b);
    }
  }

  lemma SameGroup<I, O>(ops: seq<Op<I, O>>, i: nat, j: nat)
    requires WellTimed(ops) && Concurrent(ops) && i < |ops| && j < |ops|
    ensures Grouped(Squeezed(ops), i, j) <==> Grouped(ops, i, j)
  {
    SqueezedAt(ops, i);
    SqueezedAt(ops, j);
  }

  lemma SqueezedLevel<I, O>(ops: seq<Op<I, O>>)
    requires WellTimed(ops) && Concurrent(ops)
    ensures WellTimed(Squeezed(ops)) && Level(Squeezed(ops))
  {
    hide Last, First;
    var s := Squeezed(ops);
    forall i: nat | i < |s| ensures s[i].call <= s[i].ret {
      SqueezedAt(ops, i);
    }
    forall i: nat, j: nat | i < |s| && j < |s| && Grouped(s, i, j)
      ensures s[i].call == s[j].call && s[i].ret == s[j].ret
    {
      SameGroup(ops, i, j);
      var a := LastMeans(ops, i, |ops|);
      var b := FirstMeans(ops, i, |ops|);
      var c := LastMeans(ops, j, |ops|);
      var d := FirstMeans(ops, j, |ops|);
      assert Together(ops, j, a) && Together(ops, i, c) && Together(ops, j, b) && Together(ops, i, d);
    }
  }

  lemma {:induction false} SqueezedLegal<S, I, O>(m: Model<S, I, O>, ops: seq<Op<I, O>>, s: S, order: seq<nat>)
    requires WellTimed(ops) && Concurrent(ops) && InRange(|ops|, order)
    ensures Legal(m, Squeezed(ops), s, order) <==> Legal(m, ops, s, order)
  {
    hide Last, First, WellTimed, Concurrent;
    if order != [] {
      SqueezedAt(ops, order[0]);
      SqueezedLegal(m, ops, Step(m, ops, s, order[0]).1, order[1..]);
    }
  }

  lemma SqueezedContiguous<I, O>(ops: seq<Op<I, O>>, order: seq<nat>)
    requires WellTimed(ops) && Concurrent(ops) && InRange(|ops|, order)
    ensures Contiguous(Squeezed(ops), order) <==> Contiguous(ops, order)
  {
    hide Squeezed, WellTimed, Concurrent;
    forall k | 0 <= k < |order| ensures Squeezed(ops)[order[k]].Group() == ops[order[k]].Group() {
      SqueezedAt(ops, order[k]);
    }
  }

  /** Every operation of the group of one that is in the order is in it too. */
  ghost predicate Whole<I, O>(ops: seq<Op<I, O>>, order: seq<nat>)
    requires InRange(|ops|, order)
  {
    forall k, j: nat :: 0 <= k < |order| && j < |ops| && Together(ops, order[k], j) ==> j in order
  }

  /** An order that keeps groups together keeps real time exactly when it does so with the groups squeezed. */
  lemma SqueezedRealTime<I, O>(ops: seq<Op<I, O>>, order: seq<nat>)
    requires WellTimed(ops) && Concurrent(ops) && InRange(|ops|, order) && Contiguous(ops, order) && Whole(ops, order)
    requires Distinct(order)
    ensures RealTime(Squeezed(ops), order) <==> RealTime(ops, order)
  {
    hide Squeezed, WellTimed, Concurrent, Contiguous, Whole, Distinct;
    if RealTime(Squeezed(ops), order) {
      forall p, q | 0 <= p < q < |order| ensures !(ops[order[q]].ret < ops[order[p]].call) {
        SqueezedAt(ops, order[p]);
        SqueezedAt(ops, order[q]);
      }
    }
    if RealTime(ops, order) {
      forall p: nat, q: nat | p < q < |order| ensures !(Squeezed(ops)[order[q]].ret < Squeezed(ops)[order[p]].call) {
        SqueezedPair(ops, order, p, q);
      }
    }
  }

  lemma SqueezedPair<I, O>(ops: seq<Op<I, O>>, order: seq<nat>, p: nat, q: nat)
    requires WellTimed(ops) && Concurrent(ops) && InRange(|ops|, order) && Contiguous(ops, order) && Whole(ops, order)
    requires Distinct(order) && RealTime(ops, order) && p < q < |order|
    ensures Squeezed(ops)[order[p]].call <= Squeezed(ops)[order[q]].ret
  {
    hide Last, First, WellTimed, RealTime, Contiguous, Distinct;
    var a := LastMeans(ops, order[p], |ops|);
    var b := FirstMeans(ops, order[q], |ops|);
    if Grouped(ops, order[p], order[q]) {
      SameEnds(ops, order[p], order[q], a, b);
    } else {
      assert a in order && b in order;
      var i :| 0 <= i < |order| && order[i] == a;
      var j :| 0 <= j < |order| && order[j] == b;
      KeepsApart(ops, order, p, q, i, j);
      InTime(ops, order, i, j);
    }
  }

  lemma SameEnds<I, O>(ops: seq<Op<I, O>>, x: nat, y: nat, a: nat, b: nat)
    requires WellTimed(ops) && Concurrent(ops) && x < |ops| && y < |ops| && a < |ops| && b < |ops|
    requires Grouped(ops, x, y) && Together(ops, x, a) && Together(ops, y, b)
    ensures ops[a].call <= ops[b].ret
  {
    assert Grouped(ops, a, b);
  }

  lemma InTime<I, O>(ops: seq<Op<I, O>>, order: seq<nat>, i: nat, j: nat)
    requires InRange(|ops|, order) && RealTime(ops, order) && i < j < |order|
    ensures ops[order[i]].call <= ops[order[j]].ret
  {
  }

  /** Members of two groups come in the order the groups do. */
  lemma KeepsApart<I, O>(ops: seq<Op<I, O>>, order: seq<nat>, p: nat, q: nat, i: nat, j: nat)
    requires InRange(|ops|, order) && Contiguous(ops, order) && Distinct(order) && p < q < |order|
    requires i < |order| && j < |order| && Together(ops, order[p], order[i]) && Together(ops, order[q], order[j])
    requires !Grouped(ops, order[p], order[q])
    ensures i < j
  {
  }
}
