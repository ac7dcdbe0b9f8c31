/**
 For each unanswered operation, the last unanswered one of the same effect called before it
 (linearize/linearize.go, after).
 */
module Afters {
  import opened Seqs
  import opened History
  import opened Completion
  import opened Sorting

  /** `j` is called before `i`: of two calls at a time, the first in the history. */
  predicate Sooner<I, O>(ops: seq<Op<I, O>>, j: nat, i: nat)
    requires j < |ops| && i < |ops|
  {
    ops[j].call < ops[i].call || (ops[j].call == ops[i].call && j < i)
  }

  predicate Alike<S, I, O>(m: Model<S, I, O>, ops: seq<Op<I, O>>, j: nat, i: nat)
    requires m.same.Some? && j < |ops| && i < |ops|
  {
    m.same.value(ops[j].input, ops[j].output, ops[i].input, ops[i].output)
  }

  /** `j` and `i` are unanswered, `j` called before, and `same` accepts them. */
  ghost predicate Twin<S, I, O>(m: Model<S, I, O>, ops: seq<Op<I, O>>, j: nat, i: nat) {
    && m.same.Some? && j < |ops| && i < |ops|
    && ops[j].Pending() && ops[i].Pending() && Sooner(ops, j, i) && Alike(m, ops, j, i)
  }

  /** `a` is the last such operation before `i`, or -1 if there is none. */
  ghost predicate LastTwin<S, I, O>(m: Model<S, I, O>, ops: seq<Op<I, O>>, i: nat, a: int) {
    if a < 0 then a == -1 && forall j :: !Twin(m, ops, j, i)
    else Twin(m, ops, a, i) && forall j :: Twin(m, ops, j, i) ==> j == a || Sooner(ops, j, a)
  }

  /** Every operation with the last such one before it. */
  ghost predicate IsAfter<S, I, O>(m: Model<S, I, O>, ops: seq<Op<I, O>>, after: seq<int>) {
    |after| == |ops| && forall i: nat :: i < |ops| ==> LastTwin(m, ops, i, after[i])
  }

  /** The unanswered operations, sooner called first. */
  ghost predicate ByCall<I, O>(ops: seq<Op<I, O>>, pending: seq<nat>) {
    && Distinct(pending) && InRange(|ops|, pending)
    && (forall i: nat :: i in pending <==> i < |ops| && ops[i].Pending())
    && forall j, k :: 0 <= j < k < |pending| ==> Sooner(ops, pending[j], pending[k])
  }

  method Pendings<I, O>(ops: seq<Op<I, O>>) returns (pending: seq<nat>)
    ensures ByCall(ops, pending)
  {
    pending := [];
    for i := 0 to |ops|
      invariant Increasing(pending)
      invariant forall j: nat :: j in pending <==> j < i && ops[j].Pending()
    {
      if ops[i].Pending() {
        assert forall k :: 0 <= k < |pending| ==> pending[k] in pending;
        pending := pending + [i];
      }
    }
    assert forall k :: 0 <= k < |pending| ==> pending[k] in pending;
    SortedByCall(ops, pending);
    pending := Sort(pending, (a: nat, b: nat) => NoLater(ops, a, b));
  }

  predicate NoLater<I, O>(ops: seq<Op<I, O>>, a: nat, b: nat) {
    if a < |ops| && b < |ops| then ops[a].call <= ops[b].call else b >= |ops|
  }

  lemma SortedByCall<I, O>(ops: seq<Op<I, O>>, raw: seq<nat>)
    requires Increasing(raw) && InRange(|ops|, raw) && forall i: nat :: i in raw <==> i < |ops| && ops[i].Pending()
    ensures ByCall(ops, Sort(raw, (a: nat, b: nat) => NoLater(ops, a, b)))
  {
    hide NoLater, Sort, Ahead;
    var le, before := (a: nat, b: nat) => NoLater(ops, a, b), (a: nat, b: nat) => a < b;
    var s := Sort(raw, le);
    SameElements(raw, s);
    SameDistinct(raw, s);
    assert TotalPreorder(le) by {
      NoLaterOrders(ops);
    }
    SortStable(raw, le, before);
    forall k | 0 <= k < |s| ensures s[k] < |ops| {
      assert s[k] in raw;
    }
    forall j, k | 0 <= j < k < |s| ensures Sooner(ops, s[j], s[k]) {
      assert Ahead<nat>(le, before, s[j], s[k]);
      AheadIsSooner(ops, s[j], s[k]);
    }
  }

  lemma NoLaterOrders<I, O>(ops: seq<Op<I, O>>)
    ensures forall x, y :: NoLater(ops, x, y) || NoLater(ops, y, x)
    ensures forall x, y, z :: NoLater(ops, x, y) && NoLater(ops, y, z) ==> NoLater(ops, x, z)
  {
  }

  lemma AheadIsSooner<I, O>(ops: seq<Op<I, O>>, j: nat, k: nat)
    requires j < |ops| && k < |ops|
    requires Ahead<nat>((a: nat, b: nat) => NoLater(ops, a, b), (a: nat, b: nat) => a < b, j, k)
    ensures Sooner(ops, j, k)
  {
  }

  ghost function Rank(pending: seq<nat>, i: nat): nat {
    if k :| 0 <= k < |pending| && pending[k] == i then k else 0
  }

  lemma RankOf(pending: seq<nat>, k: nat)
    requires Distinct(pending) && k < |pending|
    ensures Rank(pending, pending[k]) == k
  {
    var r := Rank(pending, pending[k]);
    assert pending[r] == pending[k];
  }

  ghost function Ranks(n: nat, pending: seq<nat>): (r: seq<nat>)
    ensures |r| == n
  {
    seq(n, i requires i >= 0 => Rank(pending, i))
  }

  method FindAfter<S, I, O>(m: Model<S, I, O>, ops: seq<Op<I, O>>, pending: seq<nat>, k: nat) returns (a: int)
    requires m.same.Some? && k < |pending| && ByCall(ops, pending)
    ensures a < |ops| && LastTwin(m, ops, pending[k], a)
  {
    hide ByCall, Sooner;
    Called(ops, pending, k);
    a := -1;
    for q := k downto 0
      invariant a == -1 && forall j :: q <= j < k ==> !Alike(m, ops, pending[j], pending[k])
    {
      if Alike(m, ops, pending[q], pending[k]) {
        a := pending[q];
        Called(ops, pending, q);
        LastFound(m, ops, pending, k, q);
        return;
      }
    }
    NoneFound(m, ops, pending, k);
  }

  lemma Called<I, O>(ops: seq<Op<I, O>>, pending: seq<nat>, k: nat)
    requires ByCall(ops, pending) && k < |pending|
    ensures InRange(|ops|, pending) && ops[pending[k]].Pending() && Distinct(pending)
    ensures forall j :: 0 <= j < k ==> Sooner(ops, pending[j], pending[k])
  {
    assert pending[k] in pending;
  }

  /** Whatever is called before is ahead in the list. */
  lemma TwinAhead<S, I, O>(m: Model<S, I, O>, ops: seq<Op<I, O>>, pending: seq<nat>, k: nat, i: nat) returns (j: nat)
    requires ByCall(ops, pending) && k < |pending| && Twin(m, ops, i, pending[k])
    ensures j < k && pending[j] == i
  {
    j :| 0 <= j < |pending| && pending[j] == i;
    if j > k {
      Called(ops, pending, j);
    }
  }

  lemma LastFound<S, I, O>(m: Model<S, I, O>, ops: seq<Op<I, O>>, pending: seq<nat>, k: nat, q: nat)
    requires m.same.Some? && ByCall(ops, pending) && q < k < |pending| && Alike(m, ops, pending[q], pending[k])
    requires forall j :: q < j < k ==> !Alike(m, ops, pending[j], pending[k])
    ensures LastTwin(m, ops, pending[k], pending[q])
  {
    Called(ops, pending, k);
    Called(ops, pending, q);
    forall i | Twin(m, ops, i, pending[k]) ensures i == pending[q] || Sooner(ops, i, pending[q]) {
      var j := TwinAhead(m, ops, pending, k, i);
    }
  }

  lemma NoneFound<S, I, O>(m: Model<S, I, O>, ops: seq<Op<I, O>>, pending: seq<nat>, k: nat)
    requires m.same.Some? && ByCall(ops, pending) && k < |pending|
    requires forall j :: 0 <= j < k ==> !Alike(m, ops, pending[j], pending[k])
    ensures LastTwin(m, ops, pending[k], -1)
  {
    forall i | Twin(m, ops, i, pending[k]) ensures false {
      var j := TwinAhead(m, ops, pending, k, i);
    }
  }

  /** The one called before is ahead in the list, and has the same effect. */
  lemma TwinIsOk<S(!new), I(!new), O(!new)>(m: Model<S, I, O>, ops: seq<Op<I, O>>, pending: seq<nat>, i: nat, a: nat)
    requires SameSound(m) && ByCall(ops, pending) && Twin(m, ops, a, i)
    ensures SameEffect(m, ops, i, a) && Ranks(|ops|, pending)[a] < Ranks(|ops|, pending)[i]
  {
    var k :| 0 <= k < |pending| && pending[k] == i;
    var j := TwinAhead(m, ops, pending, k, a);
    RankOf(pending, j);
    RankOf(pending, k);
    forall s ensures Step(m, ops, s, i) == Step(m, ops, s, a) {
      assert m.step(s, ops[a].input, ops[a].output) == m.step(s, ops[i].input, ops[i].output);
    }
  }

  lemma AfterIsOk<S(!new), I(!new), O(!new)>(m: Model<S, I, O>, ops: seq<Op<I, O>>, pending: seq<nat>, after: seq<int>)
    requires SameSound(m) && ByCall(ops, pending) && IsAfter(m, ops, after)
    ensures AfterOk(m, ops, after, Ranks(|ops|, pending))
  {
    hide Twin, ByCall, SameEffect, Sooner;
    forall i: nat | i < |after| && after[i] != -1
      ensures 0 <= after[i] < |ops| && SameEffect(m, ops, i, after[i])
      ensures Ranks(|ops|, pending)[after[i]] < Ranks(|ops|, pending)[i]
    {
      AfterBelow(m, ops, after, i);
      TwinIsOk(m, ops, pending, i, after[i]);
    }
  }

  lemma AfterBelow<S, I, O>(m: Model<S, I, O>, ops: seq<Op<I, O>>, after: seq<int>, i: nat)
    requires IsAfter(m, ops, after) && i < |ops|
    ensures -1 <= after[i] < |ops| && (after[i] != -1 ==> Twin(m, ops, after[i], i))
  {
    assert LastTwin(m, ops, i, after[i]);
  }

  /** An answered operation has no other before it. */
  lemma NotPending<S, I, O>(m: Model<S, I, O>, ops: seq<Op<I, O>>, i: nat)
    requires i < |ops| && (m.same.None? || !ops[i].Pending())
    ensures LastTwin(m, ops, i, -1)
  {
  }

  /** Finds for each operation its last twin before it, or -1. */
  method After<S(!new), I(!new), O(!new)>(m: Model<S, I, O>, ops: seq<Op<I, O>>)
      returns (after: seq<int>, ghost rank: seq<nat>)
    ensures IsAfter(m, ops, after)
    ensures forall i :: 0 <= i < |after| ==> -1 <= after[i] < |ops|
    ensures SameSound(m) ==> AfterOk(m, ops, after, rank)
  {
    hide LastTwin, ByCall, Sort;
    after := seq(|ops|, _ => -1);
    rank := seq(|ops|, _ => 0);
    forall i: nat | i < |ops| && (m.same.None? || !ops[i].Pending()) ensures LastTwin(m, ops, i, -1) {
      NotPending(m, ops, i);
    }
    if m.same.Some? {
      var pending := Pendings(ops);
      rank := Ranks(|ops|, pending);
      for k := 0 to |pending|
        invariant |after| == |ops|
        invariant forall i: nat :: i < |ops| && i in pending[..k] ==> LastTwin(m, ops, i, after[i])
        invariant forall i: nat :: i < |ops| && i !in pending[..k] ==> after[i] == -1
      {
        Called(ops, pending, k);
        var a := FindAfter(m, ops, pending, k);
        TakeNext(pending, k);
        after := after[pending[k] := a];
      }
      TakeAll(pending);
      forall i: nat | i < |ops| ensures LastTwin(m, ops, i, after[i]) {
        Listed(ops, pending, i);
      }
      if SameSound(m) {
        AfterIsOk(m, ops, pending, after);
      }
    }
    forall i: nat | i < |after| ensures -1 <= after[i] < |ops| {
      AfterBelow(m, ops, after, i);
    }
  }

  lemma Listed<I, O>(ops: seq<Op<I, O>>, pending: seq<nat>, i: nat)
    requires ByCall(ops, pending)
    ensures i in pending <==> i < |ops| && ops[i].Pending()
  {
  }
}
