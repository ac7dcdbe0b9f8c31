/** The history of a key is linearizable in the order its entries landed and its reads looked. */
module KeyOrder {
  import opened Seqs
  import opened History
  import opened Sorting
  import opened LogReads

  /** How many of the landings came before an instant. */
  ghost predicate IsCut(land: seq<nat>, e: nat, pos: nat) {
    pos <= |land| && forall i :: 0 <= i < |land| ==> (i < pos <==> land[i] < e)
  }

  ghost predicate CopyAt(xs: seq<Origin>, ev: seq<nat>, offs: seq<nat>, land: seq<nat>, j: nat, i: nat) {
    j < |xs| == |ev| && i < |offs| == |land| && xs[j] == Copy(offs[i]) && ev[j] == land[i]
  }

  ghost predicate IsCopied(xs: seq<Origin>, ev: seq<nat>, offs: seq<nat>, land: seq<nat>, i: nat) {
    exists j: nat :: CopyAt(xs, ev, offs, land, j, i)
  }

  ghost predicate IsCopy(xs: seq<Origin>, ev: seq<nat>, offs: seq<nat>, land: seq<nat>, j: nat) {
    exists i: nat :: CopyAt(xs, ev, offs, land, j, i)
  }

  /**
   Each operation of a key's history had an instant of its own: an entry's, when it landed; a
   read's, when it looked and saw the last entry landed.
   */
  ghost predicate Instants(ops: seq<KeyOp>, xs: seq<Origin>, offs: seq<nat>, ev: seq<nat>, land: seq<nat>) {
    && |ops| == |xs| == |ev| && |offs| == |land|
    && Distinct(ev)
    && (forall i, j :: 0 <= i < j < |land| ==> land[i] < land[j])
    && (forall i: nat :: i < |offs| ==> IsCopied(xs, ev, offs, land, i))
    && (forall j: nat :: j < |xs| && xs[j].Copy? ==>
      !ops[j].input.read && ops[j].input.off == xs[j].off && IsCopy(xs, ev, offs, land, j))
    && (forall j: nat :: j < |xs| && xs[j].Get? ==> ops[j].input.read && ReadLast(ops[j].output, offs, land, ev[j]))
  }

  ghost predicate ReadLast(out: nat, offs: seq<nat>, land: seq<nat>, e: nat) {
    && (forall i :: 0 <= i < |land| ==> land[i] != e)
    && forall pos: nat :: IsCut(land, e, pos) ==> Last(offs, pos) == out
  }

  /** Each instant lies between the operation's call and its return. */
  ghost predicate InTime(ops: seq<KeyOp>, ev: seq<nat>, at: seq<int>) {
    && |ops| == |ev| == |at|
    && (forall j :: 0 <= j < |ops| ==> ops[j].call <= at[j] <= ops[j].ret && ops[j].group == 0)
    && (forall i, j :: 0 <= i < |ev| && 0 <= j < |ev| && ev[i] < ev[j] ==> at[i] <= at[j])
  }

  ghost predicate ByInstant(ev: seq<nat>, order: seq<nat>) {
    && InRange(|ev|, order)
    && (forall p, q :: 0 <= p < q < |order| ==> ev[order[p]] < ev[order[q]])
    && (forall j: nat :: j < |ev| ==> j in order)
  }

  lemma SortByInstant(ev: seq<nat>) returns (order: seq<nat>)
    requires Distinct(ev)
    ensures ByInstant(ev, order) && Distinct(order)
  {
    var all := Upto(|ev|);
    var le := (i: nat, j: nat) => At(ev, i) <= At(ev, j);
    order := Sort(all, le);
    SortSorted(all, le);
    SameElements(all, order);
    SameDistinct(all, order);
    SortedByInstant(ev, all, order, le);
  }

  lemma SortedByInstant(ev: seq<nat>, all: seq<nat>, order: seq<nat>, le: (nat, nat) -> bool)
    requires Distinct(ev) && |all| == |ev| && (forall i :: 0 <= i < |all| ==> all[i] == i) &&
      (forall x :: x in all <==> x in order)
    requires Distinct(order) && Sorted(order, le) && forall i: nat, j: nat :: le(i, j) ==> At(ev, i) <= At(ev, j)
    ensures ByInstant(ev, order)
  {
    forall k | 0 <= k < |order| ensures order[k] < |ev| {
      assert order[k] in order;
    }
    forall p, q | 0 <= p < q < |order| ensures ev[order[p]] < ev[order[q]] {
      assert le(order[p], order[q]);
    }
    forall j: nat | j < |ev| ensures j in order {
      assert all[j] == j;
    }
  }

  ghost function At(ev: seq<nat>, i: nat): nat {
    if i < |ev| then ev[i] else 0
  }

  /** The instant of the operation at `p` of the order, or the end. */
  ghost function Instant(ev: seq<nat>, order: seq<nat>, p: nat, end: nat): nat {
    if p < |order| then At(ev, order[p]) else end
  }

  /** A landing that is not before an instant of the order, nor at it, is not before the next. */
  lemma NotBeforeNext(ops: seq<KeyOp>, xs: seq<Origin>, offs: seq<nat>, ev: seq<nat>, land: seq<nat>,
      order: seq<nat>, p: nat, end: nat, i: nat)
    requires Instants(ops, xs, offs, ev, land) && ByInstant(ev, order) && p < |order| && i < |land| &&
      land[i] > At(ev, order[p])
    ensures land[i] >= Instant(ev, order, p + 1, end) && p + 1 < |order|
  {
    assert IsCopied(xs, ev, offs, land, i);
    var j: nat :| CopyAt(xs, ev, offs, land, j, i);
    assert j in order;
    var q :| 0 <= q < |order| && order[q] == j;
    assert q > p;
  }

  lemma CutNext(ops: seq<KeyOp>, xs: seq<Origin>, offs: seq<nat>, ev: seq<nat>, land: seq<nat>, order: seq<nat>,
      p: nat, end: nat, pos: nat)
    requires Instants(ops, xs, offs, ev, land) && ByInstant(ev, order) && p < |order| &&
      IsCut(land, At(ev, order[p]), pos)
    requires forall j :: 0 <= j < |ev| ==> ev[j] < end
    ensures IsCut(land, Instant(ev, order, p + 1, end), if pos < |land| && land[pos] == At(ev, order[p]) then pos + 1
      else pos)
  {
    var now, next := At(ev, order[p]), Instant(ev, order, p + 1, end);
    assert now < next;
    forall i: nat | i < |land| && land[i] > now ensures land[i] >= next {
      NotBeforeNext(ops, xs, offs, ev, land, order, p, end, i);
    }
    var to := if pos < |land| && land[pos] == now then pos + 1 else pos;
    forall i | 0 <= i < |land| ensures i < to <==> land[i] < next {
      if i > pos {
        assert land[pos] < land[i];
      }
    }
  }

  lemma StepLegal(ops: seq<KeyOp>, xs: seq<Origin>, offs: seq<nat>, ev: seq<nat>, land: seq<nat>, j: nat, pos: nat)
    requires Instants(ops, xs, offs, ev, land) && j < |ops| && IsCut(land, ev[j], pos)
    ensures Step(KeyModel(offs), ops, pos, j) == (true, if pos < |land| && land[pos] == ev[j] then pos + 1 else pos)
  {
    if xs[j].Copy? {
      assert IsCopy(xs, ev, offs, land, j);
      var i: nat :| CopyAt(xs, ev, offs, land, j, i);
      assert i >= pos;
    }
  }

  lemma {:induction false} OrderLegal(ops: seq<KeyOp>, xs: seq<Origin>, offs: seq<nat>, ev: seq<nat>, land: seq<nat>,
      order: seq<nat>, p: nat, end: nat, pos: nat)
    requires Instants(ops, xs, offs, ev, land) && ByInstant(ev, order) && p <= |order| &&
      IsCut(land, Instant(ev, order, p, end), pos)
    requires forall j :: 0 <= j < |ev| ==> ev[j] < end
    ensures InRange(|ops|, order[p..]) && Legal(KeyModel(offs), ops, pos, order[p..])
    decreases |order| - p
  {
    hide Instants, IsCut, KeyModel;
    OpsSize(ops, xs, offs, ev, land);
    if p < |order| {
      StepLegal(ops, xs, offs, ev, land, order[p], pos);
      CutNext(ops, xs, offs, ev, land, order, p, end, pos);
      var next := if pos < |land| && land[pos] == At(ev, order[p]) then pos + 1 else pos;
      OrderLegal(ops, xs, offs, ev, land, order, p + 1, end, next);
      assert order[p..][1..] == order[p + 1..];
    }
  }

  lemma OpsSize(ops: seq<KeyOp>, xs: seq<Origin>, offs: seq<nat>, ev: seq<nat>, land: seq<nat>)
    requires Instants(ops, xs, offs, ev, land)
    ensures |ops| == |xs| == |ev|
  {
  }

  lemma StartCut(ops: seq<KeyOp>, xs: seq<Origin>, offs: seq<nat>, ev: seq<nat>, land: seq<nat>, order: seq<nat>,
      end: nat)
    requires Instants(ops, xs, offs, ev, land) && ByInstant(ev, order)
    ensures IsCut(land, Instant(ev, order, 0, end), 0)
  {
    forall i: nat | i < |land| ensures land[i] >= Instant(ev, order, 0, end) {
      assert IsCopied(xs, ev, offs, land, i);
      var j: nat :| CopyAt(xs, ev, offs, land, j, i);
      assert j in order;
      var q :| 0 <= q < |order| && order[q] == j;
    }
  }

  /** The order of the instants is a linearization. */
  lemma InstantsLinearize(ops: seq<KeyOp>, xs: seq<Origin>, offs: seq<nat>, ev: seq<nat>, land: seq<nat>,
      at: seq<int>, end: nat)
    requires Instants(ops, xs, offs, ev, land) && InTime(ops, ev, at) && forall j :: 0 <= j < |ev| ==> ev[j] < end
    ensures Linearizable(KeyModel(offs), ops) && WellTimed(ops)
  {
    hide KeyModel, IsCut, IsCopied, IsCopy, ReadLast;
    var order := SortByInstant(ev);
    StartCut(ops, xs, offs, ev, land, order, end);
    OrderLegal(ops, xs, offs, ev, land, order, 0, end, 0);
    assert order[0..] == order;
    forall p, q | 0 <= p < q < |order| ensures !(ops[order[q]].ret < ops[order[p]].call) {
      assert ev[order[p]] < ev[order[q]];
    }
    InitIsZero(offs);
    assert IsLinearization(KeyModel(offs), ops, order);
  }

  lemma InitIsZero(offs: seq<nat>)
    ensures KeyModel(offs).init == 0
  {
  }
}
