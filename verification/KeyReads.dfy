/**
 What a linearization of a key's history says of its reads: a read comes after the landing of the
 entry it returned, and before that of every later one.
 */
module KeyReads {
  import opened Seqs
  import opened Maps
  import opened History
  import opened Logs
  import opened LogReads

  /** The operation lands the entry at `o`. */
  predicate Lands(op: KeyOp, o: nat) {
    !op.input.read && op.input.off == o
  }

  ghost predicate LandsBefore(ops: seq<KeyOp>, order: seq<nat>, n: nat, o: nat)
    requires n <= |order| && InRange(|ops|, order)
  {
    exists q :: 0 <= q < n && Lands(ops[order[q]], o)
  }

  /** Just the first `pos` entries have landed. */
  ghost predicate LandedTo(offs: seq<nat>, ops: seq<KeyOp>, order: seq<nat>, n: nat, pos: int)
    requires n <= |order| && InRange(|ops|, order)
  {
    0 <= pos <= |offs| && forall o :: LandsBefore(ops, order, n, o) <==> o in offs[..pos]
  }

  lemma {:induction false} LandedSoFar(offs: seq<nat>, ops: seq<KeyOp>, order: seq<nat>, n: nat)
    requires n <= |order| && InRange(|ops|, order)
    requires forall k :: 0 <= k < n ==> LegalAt(KeyModel(offs), ops, order, k)
    ensures LandedTo(offs, ops, order, n, StateAfter(KeyModel(offs), ops, order, n))
  {
    if n > 0 {
      LandedSoFar(offs, ops, order, n - 1);
      assert LegalAt(KeyModel(offs), ops, order, n - 1);
      LandedNext(offs, ops, order, n - 1, StateAfter(KeyModel(offs), ops, order, n - 1));
    }
  }

  lemma LandedNext(offs: seq<nat>, ops: seq<KeyOp>, order: seq<nat>, n: nat, pos: int)
    requires n < |order| && InRange(|ops|, order) && LandedTo(offs, ops, order, n, pos)
    requires KeyModel(offs).step(pos, ops[order[n]].input, ops[order[n]].output).0
    ensures LandedTo(offs, ops, order, n + 1, KeyModel(offs).step(pos, ops[order[n]].input, ops[order[n]].output).1)
  {
    var op := ops[order[n]];
    forall o ensures LandsBefore(ops, order, n + 1, o) <==> LandsBefore(ops, order, n, o) || Lands(op, o) {
      if LandsBefore(ops, order, n, o) {
        var q :| 0 <= q < n && Lands(ops[order[q]], o);
        assert 0 <= q < n + 1;
      }
    }
    if !op.input.read { TakeNext(offs, pos); }
  }

  /** A read comes after the landing of what it returned, and before that of what is later. */
  lemma ReadBetween(offs: seq<nat>, ops: seq<KeyOp>, order: seq<nat>, n: nat)
    requires Increasing(offs) && InRange(|ops|, order) && n < |order| && ops[order[n]].input.read
    requires Legal(KeyModel(offs), ops, 0, order)
    ensures ops[order[n]].output != 0 ==> LandsBefore(ops, order, n, ops[order[n]].output)
    ensures forall o :: o in offs && o > ops[order[n]].output ==> !LandsBefore(ops, order, n, o)
  {
    hide Legal;
    LegalStepwise(KeyModel(offs), ops, order);
    LandedSoFar(offs, ops, order, n);
    var pos := StateAfter(KeyModel(offs), ops, order, n);
    assert LegalAt(KeyModel(offs), ops, order, n);
    assert Last(offs, pos) == ops[order[n]].output;
    if pos > 0 { assert offs[..pos][pos - 1] == offs[pos - 1]; }
    NoneAbove(offs, pos);
  }

  lemma NoneAbove(offs: seq<nat>, pos: nat)
    requires Increasing(offs) && pos <= |offs|
    ensures forall o :: o in offs[..pos] ==> o <= Last(offs, pos)
  {
  }

  // ----- In the history of a key

  lemma OriginAt(w: Work, k: string, x: Origin) returns (i: nat)
    requires AllMatched(w.landed, w.clean, w.byKey, w.from) && x in Lookup(w.from, k)
    ensures i < |Lookup(w.byKey, k)| && IsOp(w.landed, w.clean, Lookup(w.byKey, k)[i], x)
  {
    hide IsOp;
    assert Matched(w.landed, w.clean, Lookup(w.byKey, k), Lookup(w.from, k));
    i :| 0 <= i < |Lookup(w.from, k)| && Lookup(w.from, k)[i] == x;
  }

  /** An operation that lands an entry has its window. */
  lemma LandsInWindow(w: Work, k: string, i: nat, o: nat)
    requires AllMatched(w.landed, w.clean, w.byKey, w.from) && i < |Lookup(w.byKey, k)|
    requires Lands(Lookup(w.byKey, k)[i], o)
    ensures o in w.landed && Lookup(w.byKey, k)[i].call == w.landed[o].lo && Lookup(w.byKey, k)[i].ret == w.landed[o].hi
  {
    assert Matched(w.landed, w.clean, Lookup(w.byKey, k), Lookup(w.from, k));
    assert IsOp(w.landed, w.clean, Lookup(w.byKey, k)[i], Lookup(w.from, k)[i]);
  }

  lemma PlaceOf(order: seq<nat>, i: nat) returns (n: nat)
    requires i in order
    ensures n < |order| && order[n] == i
  {
    n :| 0 <= n < |order| && order[n] == i;
  }

  /** A read that was answered returned no sooner than the window of its entry opens. */
  lemma ReadAfterOpening(appends: seq<Append>, w: Work, k: string, r: nat)
    requires HistoriesRight(appends, w) && KeyLinearizable(w, k) && Get(r) in Lookup(w.from, k)
    requires r < |w.clean| && w.clean[r].ret != PENDING && w.clean[r].offset != 0
    ensures w.clean[r].offset in w.landed && w.landed[w.clean[r].offset].lo <= w.clean[r].ret
  {
    hide Legal, Contiguous;
    var ops, offs := Lookup(w.byKey, k), Lookup(w.placed, k);
    var order :| IsLinearization(KeyModel(offs), ops, order);
    var i := OriginAt(w, k, Get(r));
    var n := PlaceOf(order, i);
    ReadBetween(offs, ops, order, n);
    var q :| 0 <= q < n && Lands(ops[order[q]], w.clean[r].offset);
    LandsInWindow(w, k, order[q], w.clean[r].offset);
  }

  /** It was sent no later than the windows of its key's later entries close. */
  lemma ReadBeforeClosing(appends: seq<Append>, w: Work, k: string, r: nat, o: nat)
    requires HistoriesRight(appends, w) && KeyLinearizable(w, k) && Get(r) in Lookup(w.from, k)
    requires r < |w.clean| && w.clean[r].ret != PENDING && o in Lookup(w.placed, k) && o > w.clean[r].offset
    ensures o in w.landed && w.clean[r].call <= w.landed[o].hi
  {
    hide Legal, Contiguous, PutThere;
    var ops, offs := Lookup(w.byKey, k), Lookup(w.placed, k);
    var order :| IsLinearization(KeyModel(offs), ops, order);
    var i := OriginAt(w, k, Get(r));
    var n := PlaceOf(order, i);
    ReadBetween(offs, ops, order, n);
    assert Copy(o) in Lookup(w.from, k);
    var j := OriginAt(w, k, Copy(o));
    if !ops[j].Pending() {
      var m := PlaceOf(order, j);
      assert Lands(ops[order[m]], o) && m != n;
    }
  }
}
