/**
 Linearizability on a timeline is serializability in timestamp order (linearize/timeline.go), with
 writes in doubt and without.
 */
module Snapshots {
  import opened Options
  import opened Seqs
  import opened History
  import opened Sorting
  import opened Timeline

  predicate IsWrite(e: Event) { !e.ReadAt? }

  // ----- Serializable in timestamp order

  /**
   The writes in the order they took effect: every answered one and some in doubt, an answered one
   after none with a greater timestamp, each legal after those before it.
   */
  ghost predicate IsWriteOrder<S, I, O>(m: Model<S, I, O>, events: seq<Event>, ops: seq<Op<I, O>>, ws: seq<nat>) {
    && |events| == |ops| && InRange(|ops|, ws) && Distinct(ws)
    && (forall k :: 0 <= k < |ws| ==> IsWrite(events[ws[k]]))
    && (forall i: nat :: i < |events| && events[i].WriteAt? ==> i in ws)
    && (forall j, k :: 0 <= j < k < |ws| && events[ws[k]].WriteAt? ==> events[ws[j]].ts <= events[ws[k]].ts)
    && (forall k :: 0 <= k < |ws| ==> LegalAt(m, ops, ws, k))
  }

  /**
   A snapshot sees the first `n` of the writes: just those answered ones that it holds, and of those
   in doubt only such as could have got a timestamp it holds.
   */
  ghost predicate Sees(l: Timeline, events: seq<Event>, ws: seq<nat>, snapshot: int64, n: nat)
    requires InRange(|events|, ws)
  {
    && n <= |ws|
    && (forall k :: 0 <= k < n ==> HoldsWrite(l, snapshot, events[ws[k]].ts))
    && (forall k :: n <= k < |ws| && events[ws[k]].WriteAt? ==> !HoldsWrite(l, snapshot, events[ws[k]].ts))
  }

  /**
   Each snapshot read sees so many of the writes: a later one no fewer, all its reads the same, and
   each read answers from them.
   */
  ghost predicate ReadsAgree<S, I, O>(m: Model<S, I, O>, l: Timeline, events: seq<Event>, ops: seq<Op<I, O>>,
      ws: seq<nat>, seen: map<int64, nat>)
    requires |events| == |ops| && InRange(|ops|, ws)
  {
    && (forall t :: t in seen ==> Sees(l, events, ws, t, seen[t]))
    && (forall t, u :: t in seen && u in seen && t <= u ==> seen[t] <= seen[u])
    && (forall i: nat :: i < |ops| && events[i].ReadAt? ==>
          events[i].ts in seen && Step(m, ops, StateAfter(m, ops, ws, seen[events[i].ts]), i).0)
  }

  ghost predicate IsSerial<S, I, O>(m: Model<S, I, O>, l: Timeline, events: seq<Event>, ops: seq<Op<I, O>>,
      ws: seq<nat>, seen: map<int64, nat>)
  {
    IsWriteOrder(m, events, ops, ws) && ReadsAgree(m, l, events, ops, ws, seen)
  }

  ghost predicate SerialByTimestamp<S, I, O>(m: Model<S, I, O>, l: Timeline, events: seq<Event>, ops: seq<Op<I, O>>) {
    exists ws, seen :: IsSerial(m, l, events, ops, ws, seen)
  }

  // ----- What is asked of the history

  /** A read leaves the state as it was. */
  ghost predicate PureReads<S(!new), I, O>(m: Model<S, I, O>, events: seq<Event>, ops: seq<Op<I, O>>) {
    forall i: nat, s :: i < |events| == |ops| && events[i].ReadAt? && Step(m, ops, s, i).0 ==> Step(m, ops, s, i).1 == s
  }

  /** The reads of a snapshot are a group, and nothing else is in one. */
  ghost predicate SnapshotGroups<I, O>(events: seq<Event>, ops: seq<Op<I, O>>) {
    && |events| == |ops|
    && (forall i :: 0 <= i < |ops| ==> (events[i].ReadAt? <==> ops[i].Group() != 0))
    && (forall i, j :: 0 <= i < |ops| && 0 <= j < |ops| && events[i].ReadAt? && events[j].ReadAt? ==>
          (events[i].ts == events[j].ts <==> ops[i].Group() == ops[j].Group()))
  }

  /** No groups are needed where no write is in doubt. */
  ghost predicate AllAnswered<I, O>(events: seq<Event>, ops: seq<Op<I, O>>) {
    |events| == |ops| && forall i :: 0 <= i < |ops| ==> !events[i].UnknownFrom? && ops[i].Group() == 0
  }

  ghost predicate GroupsFit<I, O>(events: seq<Event>, ops: seq<Op<I, O>>) {
    SnapshotGroups(events, ops) || AllAnswered(events, ops)
  }

  /** One operation may come ahead of another. */
  ghost predicate MayPrecede(l: Timeline, a: Event, b: Event) {
    match b
    case UnknownFrom(_) => true
    case WriteAt(ts) => if a.ReadAt? then !HoldsWrite(l, a.ts, ts) else a.ts <= ts
    case ReadAt(ts) => if a.ReadAt? then a.ts <= ts else HoldsWrite(l, ts, a.ts)
  }

  lemma PlaceDecides<I, O>(l: Timeline, events: seq<Event>, ops: seq<Op<I, O>>, i: nat, j: nat)
    requires OnTimeline(l, events, ops) && i < |ops| && j < |ops|
    ensures !(ops[j].ret < ops[i].call) <==> MayPrecede(l, events[i], events[j])
  {
    var a, b := events[i], events[j];
    assert Place(l, a) == Some(Span(ops[i].call, ops[i].ret));
    assert Place(l, b) == Some(Span(ops[j].call, ops[j].ret));
    Accepted(l, a.ts);
    Accepted(l, b.ts);
  }

  /** On a timeline, keeping real time is keeping the order of timestamps. */
  lemma RealTimeMeans<I, O>(l: Timeline, events: seq<Event>, ops: seq<Op<I, O>>, order: seq<nat>)
    requires OnTimeline(l, events, ops) && InRange(|ops|, order)
    ensures RealTime(ops, order) <==>
      forall p, q :: 0 <= p < q < |order| ==> MayPrecede(l, events[order[p]], events[order[q]])
  {
    hide MayPrecede, OnTimeline;
    assert |events| == |ops| by { Sized(l, events, ops); }
    forall p, q | 0 <= p < q < |order|
      ensures !(ops[order[q]].ret < ops[order[p]].call) <==> MayPrecede(l, events[order[p]], events[order[q]])
    {
      PlaceDecides(l, events, ops, order[p], order[q]);
    }
  }

  lemma Sized<I, O>(l: Timeline, events: seq<Event>, ops: seq<Op<I, O>>)
    requires OnTimeline(l, events, ops)
    ensures |events| == |ops|
  {
  }

  // ----- The writes of an order

  ghost function Effects(events: seq<Event>, order: seq<nat>, n: nat): (ws: seq<nat>)
    requires n <= |order| && InRange(|events|, order)
    ensures InRange(|events|, ws) && |ws| <= n
  {
    if n == 0 then []
    else Effects(events, order, n - 1) + if IsWrite(events[order[n - 1]]) then [order[n - 1]] else []
  }

  lemma {:induction false} EffectsAre(events: seq<Event>, order: seq<nat>, n: nat, x: nat)
    requires n <= |order| && InRange(|events|, order)
    ensures x in Effects(events, order, n) <==> x < |events| && IsWrite(events[x]) && x in order[..n]
  {
    if n > 0 {
      EffectsAre(events, order, n - 1, x);
      TakeNext(order, n - 1);
    }
  }

  lemma {:induction false} EffectsGrow(events: seq<Event>, order: seq<nat>, n: nat, k: nat)
    requires n <= k <= |order| && InRange(|events|, order)
    ensures Effects(events, order, n) <= Effects(events, order, k)
    decreases k
  {
    if n < k { EffectsGrow(events, order, n, k - 1); }
  }

  /** Where the `k`-th write of an order stands in it. */
  lemma {:induction false} PlaceOf(events: seq<Event>, order: seq<nat>, n: nat, k: nat) returns (p: nat)
    requires n <= |order| && InRange(|events|, order) && k < |Effects(events, order, n)|
    ensures p < n && order[p] == Effects(events, order, n)[k] && |Effects(events, order, p)| == k &&
      IsWrite(events[order[p]])
  {
    if k < |Effects(events, order, n - 1)| {
      p := PlaceOf(events, order, n - 1, k);
    } else {
      p := n - 1;
    }
  }

  /** Reads aside, the state an order leaves is the one its writes leave. */
  lemma {:induction false} StateOfEffects<S(!new), I, O>(m: Model<S, I, O>, events: seq<Event>, ops: seq<Op<I, O>>,
      order: seq<nat>, ws: seq<nat>, n: nat)
    requires |events| == |ops| && InRange(|ops|, order) && InRange(|ops|, ws) && PureReads(m, events, ops) &&
      n <= |order|
    requires Effects(events, order, n) <= ws && forall k :: 0 <= k < n ==> LegalAt(m, ops, order, k)
    ensures StateAfter(m, ops, order, n) == StateAfter(m, ops, ws, |Effects(events, order, n)|)
  {
    if n > 0 {
      var es := Effects(events, order, n - 1);
      assert es <= ws;
      StateOfEffects(m, events, ops, order, ws, n - 1);
      assert LegalAt(m, ops, order, n - 1);
      if IsWrite(events[order[n - 1]]) {
        assert ws[|es|] == order[n - 1];
      }
    }
  }

  // ----- From a linearization to a serial order

  /** How many writes, in doubt or not, stand ahead of place `n`. */
  ghost function Ahead(events: seq<Event>, order: seq<nat>, n: nat): nat
    requires n <= |order| && InRange(|events|, order)
  {
    |Effects(events, order, n)|
  }

  lemma AheadGrows(events: seq<Event>, order: seq<nat>, n: nat, k: nat)
    requires n <= k <= |order| && InRange(|events|, order)
    ensures Ahead(events, order, n) <= Ahead(events, order, k)
  {
    EffectsGrow(events, order, n, k);
  }

  /** With no write between two places, as many stand ahead of each. */
  lemma {:induction false} NoneBetween(events: seq<Event>, order: seq<nat>, n: nat, k: nat)
    requires n <= k <= |order| && InRange(|events|, order) && forall r :: n <= r < k ==> !IsWrite(events[order[r]])
    ensures Effects(events, order, n) == Effects(events, order, k)
    decreases k
  {
    if n < k { NoneBetween(events, order, n, k - 1); }
  }

  /**
   In every linearization the reads of a snapshot have the same writes ahead of them, those in
   doubt too, and so see one state.
   */
  lemma OneState<S(!new), I, O>(m: Model<S, I, O>, l: Timeline, events: seq<Event>, ops: seq<Op<I, O>>,
      order: seq<nat>, p: nat, q: nat)
    requires OnTimeline(l, events, ops) && GroupsFit(events, ops) && PureReads(m, events, ops) &&
      IsLinearization(m, ops, order)
    requires p < q < |order| && events[order[p]].ReadAt? && events[order[q]].ReadAt? &&
      events[order[p]].ts == events[order[q]].ts
    ensures Effects(events, order, p) == Effects(events, order, q)
    ensures StateAfter(m, ops, order, p) == StateAfter(m, ops, order, q)
  {
    hide OnTimeline, Legal, RealTime, PureReads, LegalAt;
    forall r: nat | p <= r < q ensures !IsWrite(events[order[r]]) {
      if p < r {
        NoWriteBetween(m, l, events, ops, order, p, r, q);
      }
    }
    NoneBetween(events, order, p, q);
    LegalStepwise(m, ops, order);
    StateOfEffects(m, events, ops, order, Effects(events, order, q), p);
    StateOfEffects(m, events, ops, order, Effects(events, order, q), q);
  }

  lemma NoWriteBetween<S, I, O>(m: Model<S, I, O>, l: Timeline, events: seq<Event>, ops: seq<Op<I, O>>,
      order: seq<nat>, p: nat, r: nat, q: nat)
    requires OnTimeline(l, events, ops) && GroupsFit(events, ops) && IsLinearization(m, ops, order)
    requires p < r < q < |order| && events[order[p]].ReadAt? && events[order[q]].ReadAt? &&
      events[order[p]].ts == events[order[q]].ts
    ensures !IsWrite(events[order[r]])
  {
    hide OnTimeline, Legal, Distinct, Answered;
    if SnapshotGroups(events, ops) {
      assert Grouped(ops, order[p], order[q]);
      assert ops[order[r]].Group() == ops[order[p]].Group();
    } else {
      RealTimeMeans(l, events, ops, order);
      assert MayPrecede(l, events[order[p]], events[order[r]]) && MayPrecede(l, events[order[r]], events[order[q]]);
      assert !events[order[r]].UnknownFrom?;
    }
  }

  lemma EffectsOrder<S(!new), I, O>(m: Model<S, I, O>, l: Timeline, events: seq<Event>, ops: seq<Op<I, O>>,
      order: seq<nat>)
    requires OnTimeline(l, events, ops) && PureReads(m, events, ops) && IsLinearization(m, ops, order)
    ensures |events| == |ops| && IsWriteOrder(m, events, ops, Effects(events, order, |order|))
  {
    hide OnTimeline, PureReads, Contiguous, RealTime, Legal, LegalAt, MayPrecede;
    Sized(l, events, ops);
    TimelineWellTimed(l, events, ops);
    var ws := Effects(events, order, |order|);
    forall k: nat | k < |ws| ensures IsWrite(events[ws[k]]) && LegalAt(m, ops, ws, k) {
      EffectLegal(m, events, ops, order, k);
    }
    forall j: nat, k: nat | j < k < |ws|
      ensures ws[j] != ws[k] && (events[ws[k]].WriteAt? ==> events[ws[j]].ts <= events[ws[k]].ts)
    {
      EffectsInOrder(m, l, events, ops, order, j, k);
    }
    forall i: nat | i < |events| && events[i].WriteAt? ensures i in ws {
      assert i in order;
      TakeAll(order);
      EffectsAre(events, order, |order|, i);
    }
  }

  lemma EffectLegal<S(!new), I, O>(m: Model<S, I, O>, events: seq<Event>, ops: seq<Op<I, O>>, order: seq<nat>, k: nat)
    requires |events| == |ops| && PureReads(m, events, ops) && IsLinearization(m, ops, order) &&
      k < |Effects(events, order, |order|)|
    ensures var ws := Effects(events, order, |order|); IsWrite(events[ws[k]]) && LegalAt(m, ops, ws, k)
  {
    hide PureReads, Contiguous, RealTime, Legal, Distinct, Answered;
    var ws := Effects(events, order, |order|);
    var p := PlaceOf(events, order, |order|, k);
    LegalStepwise(m, ops, order);
    EffectsGrow(events, order, p, |order|);
    StateOfEffects(m, events, ops, order, ws, p);
    assert LegalAt(m, ops, order, p);
  }

  lemma EffectsInOrder<S, I, O>(m: Model<S, I, O>, l: Timeline, events: seq<Event>, ops: seq<Op<I, O>>,
      order: seq<nat>, j: nat, k: nat)
    requires OnTimeline(l, events, ops) && |events| == |ops| && IsLinearization(m, ops, order) &&
      j < k < |Effects(events, order, |order|)|
    ensures var ws := Effects(events, order, |order|);
      ws[j] != ws[k] && (events[ws[k]].WriteAt? ==> events[ws[j]].ts <= events[ws[k]].ts)
  {
    hide OnTimeline, Contiguous, Legal, Answered;
    var p := PlaceOf(events, order, |order|, j);
    var q := PlaceOf(events, order, |order|, k);
    if q <= p {
      AheadGrows(events, order, q, p);
    }
    RealTimeMeans(l, events, ops, order);
    assert MayPrecede(l, events[order[p]], events[order[q]]);
  }

  lemma ReadSees<S, I, O>(m: Model<S, I, O>, l: Timeline, events: seq<Event>, ops: seq<Op<I, O>>, order: seq<nat>,
      r: nat)
    requires OnTimeline(l, events, ops) && |events| == |ops| && IsLinearization(m, ops, order) && r < |order| &&
      events[order[r]].ReadAt?
    ensures Sees(l, events, Effects(events, order, |order|), events[order[r]].ts, Ahead(events, order, r))
  {
    hide OnTimeline, Contiguous, Legal, Answered, Distinct, RealTime, Effects, HoldsWrite;
    var ws, n := Effects(events, order, |order|), Ahead(events, order, r);
    AheadGrows(events, order, r, |order|);
    forall k: nat | k < |ws|
      ensures k < n ==> HoldsWrite(l, events[order[r]].ts, events[ws[k]].ts)
      ensures n <= k && events[ws[k]].WriteAt? ==> !HoldsWrite(l, events[order[r]].ts, events[ws[k]].ts)
    {
      SeesIfHeld(m, l, events, ops, order, r, k);
    }
  }

  lemma SeesIfHeld<S, I, O>(m: Model<S, I, O>, l: Timeline, events: seq<Event>, ops: seq<Op<I, O>>, order: seq<nat>,
      r: nat, k: nat)
    requires OnTimeline(l, events, ops) && |events| == |ops| && IsLinearization(m, ops, order) && r < |order| &&
      events[order[r]].ReadAt?
    requires k < |Effects(events, order, |order|)|
    ensures var w := events[Effects(events, order, |order|)[k]];
      if k < Ahead(events, order, r) then HoldsWrite(l, events[order[r]].ts, w.ts)
      else w.WriteAt? ==> !HoldsWrite(l, events[order[r]].ts, w.ts)
  {
    hide OnTimeline, Contiguous, Legal, Answered, Distinct, RealTime, HoldsWrite;
    RealTimeMeans(l, events, ops, order);
    var p := PlaceOf(events, order, |order|, k);
    if p < r {
      AheadGrows(events, order, p + 1, r);
      assert MayPrecede(l, events[order[p]], events[order[r]]);
    } else {
      assert p != r;
      AheadGrows(events, order, r, p);
      assert MayPrecede(l, events[order[r]], events[order[p]]);
    }
  }

  /** The place of a read of the snapshot. */
  ghost predicate ReadHere(events: seq<Event>, order: seq<nat>, t: int64, r: nat)
    requires InRange(|events|, order)
  {
    r < |order| && events[order[r]] == ReadAt(t)
  }

  /** What each snapshot sees, from the place of its reads. */
  lemma {:induction false} CollectSeen<S(!new), I, O>(m: Model<S, I, O>, l: Timeline, events: seq<Event>,
      ops: seq<Op<I, O>>, order: seq<nat>, n: nat)
      returns (seen: map<int64, nat>)
    requires OnTimeline(l, events, ops) && GroupsFit(events, ops) && PureReads(m, events, ops) &&
      IsLinearization(m, ops, order) && |events| == |ops|
    requires n <= |order|
    ensures forall r: nat :: r < n && events[order[r]].ReadAt? ==>
      events[order[r]].ts in seen && seen[events[order[r]].ts] == Ahead(events, order, r)
    ensures forall t :: t in seen ==> exists r: nat :: ReadHere(events, order, t, r)
  {
    hide OnTimeline, GroupsFit, PureReads, Legal, RealTime, Contiguous, Answered, Distinct, Ahead, Effects, ReadHere;
    if n == 0 {
      seen := map[];
    } else {
      var before := CollectSeen(m, l, events, ops, order, n - 1);
      var e := events[order[n - 1]];
      seen := if e.ReadAt? then before[e.ts := Ahead(events, order, n - 1)] else before;
      if e.ReadAt? {
        IsHere(events, order, n - 1);
      }
      forall r: nat | r < n && events[order[r]].ReadAt? && e.ReadAt? && events[order[r]].ts == e.ts
        ensures Ahead(events, order, r) == Ahead(events, order, n - 1)
      {
        if r < n - 1 {
          OneState(m, l, events, ops, order, r, n - 1);
          SameAhead(events, order, r, n - 1);
        }
      }
    }
  }

  lemma IsHere(events: seq<Event>, order: seq<nat>, r: nat)
    requires InRange(|events|, order) && r < |order| && events[order[r]].ReadAt?
    ensures ReadHere(events, order, events[order[r]].ts, r)
  {
  }

  lemma SameAhead(events: seq<Event>, order: seq<nat>, p: nat, q: nat)
    requires InRange(|events|, order) && p <= |order| && q <= |order|
    requires Effects(events, order, p) == Effects(events, order, q)
    ensures Ahead(events, order, p) == Ahead(events, order, q)
  {
  }

  lemma SeenRises<S, I, O>(m: Model<S, I, O>, l: Timeline, events: seq<Event>, ops: seq<Op<I, O>>, order: seq<nat>,
      p: nat, q: nat)
    requires OnTimeline(l, events, ops) && |events| == |ops| && IsLinearization(m, ops, order)
    requires p < |order| && q < |order| && events[order[p]].ReadAt? && events[order[q]].ReadAt? &&
      events[order[p]].ts < events[order[q]].ts
    ensures Ahead(events, order, p) <= Ahead(events, order, q)
  {
    hide OnTimeline, Contiguous, Legal, Answered, Distinct;
    RealTimeMeans(l, events, ops, order);
    if q < p {
      assert false;
    }
    AheadGrows(events, order, p, q);
  }

  lemma ReadAnswers<S(!new), I, O>(m: Model<S, I, O>, events: seq<Event>, ops: seq<Op<I, O>>, order: seq<nat>, r: nat)
    requires |events| == |ops| && PureReads(m, events, ops) && IsLinearization(m, ops, order) && r < |order|
    ensures Ahead(events, order, r) <= |Effects(events, order, |order|)|
    ensures Step(m, ops, StateAfter(m, ops, Effects(events, order, |order|), Ahead(events, order, r)), order[r]).0
  {
    hide PureReads, Contiguous, Legal, Answered, Distinct, RealTime;
    LegalStepwise(m, ops, order);
    EffectsGrow(events, order, r, |order|);
    StateOfEffects(m, events, ops, order, Effects(events, order, |order|), r);
    assert LegalAt(m, ops, order, r);
  }

  lemma LinearIsSerial<S(!new), I, O>(m: Model<S, I, O>, l: Timeline, events: seq<Event>, ops: seq<Op<I, O>>,
      order: seq<nat>)
    requires OnTimeline(l, events, ops) && GroupsFit(events, ops) && PureReads(m, events, ops) &&
      IsLinearization(m, ops, order)
    ensures SerialByTimestamp(m, l, events, ops)
  {
    hide OnTimeline, GroupsFit, PureReads, IsLinearization, IsWriteOrder, Sees, StateAfter, Effects, Ahead;
    EffectsOrder(m, l, events, ops, order);
    InOrder(m, ops, order);
    var ws := Effects(events, order, |order|);
    var seen := CollectSeen(m, l, events, ops, order, |order|);
    forall t | t in seen ensures Sees(l, events, ws, t, seen[t]) {
      var r: nat :| ReadHere(events, order, t, r);
      ReadSees(m, l, events, ops, order, r);
    }
    forall t, u | t in seen && u in seen && t < u ensures seen[t] <= seen[u] {
      var p: nat :| ReadHere(events, order, t, p);
      var q: nat :| ReadHere(events, order, u, q);
      SeenRises(m, l, events, ops, order, p, q);
    }
    forall i: nat | i < |ops| && events[i].ReadAt?
      ensures events[i].ts in seen && seen[events[i].ts] <= |ws| &&
        Step(m, ops, StateAfter(m, ops, ws, seen[events[i].ts]), i).0
    {
      var r := WhereRead(m, l, events, ops, order, i);
      ReadAnswers(m, events, ops, order, r);
    }
    assert IsSerial(m, l, events, ops, ws, seen);
  }

  lemma InOrder<S, I, O>(m: Model<S, I, O>, ops: seq<Op<I, O>>, order: seq<nat>)
    requires IsLinearization(m, ops, order)
    ensures InRange(|ops|, order)
  {
  }

  lemma WhereRead<S, I, O>(m: Model<S, I, O>, l: Timeline, events: seq<Event>, ops: seq<Op<I, O>>, order: seq<nat>,
      i: nat) returns (r: nat)
    requires OnTimeline(l, events, ops) && IsLinearization(m, ops, order) && i < |ops| == |events| && events[i].ReadAt?
    ensures r < |order| && order[r] == i
  {
    TimelineWellTimed(l, events, ops);
    assert i in order;
    r :| 0 <= r < |order| && order[r] == i;
  }

  // ----- From a serial order to a linearization

  /**
   Where an operation goes: a write at its place among the writes, a read between what it sees and
   what it does not.
   */
  ghost function Slot(events: seq<Event>, ws: seq<nat>, seen: map<int64, nat>, i: nat): int {
    if i >= |events| then -1
    else if events[i].ReadAt? then (if events[i].ts in seen then 2 * seen[events[i].ts] else -1)
    else if k :| 0 <= k < |ws| && ws[k] == i then 2 * k + 1
    else -1
  }

  ghost function When(events: seq<Event>, i: nat): int {
    if i < |events| && events[i].ReadAt? then events[i].ts else 0
  }

  ghost predicate NoLater(events: seq<Event>, ws: seq<nat>, seen: map<int64, nat>, i: nat, j: nat) {
    || Slot(events, ws, seen, i) < Slot(events, ws, seen, j)
    || (Slot(events, ws, seen, i) == Slot(events, ws, seen, j) && When(events, i) <= When(events, j))
  }

  lemma SlotOfWrite(events: seq<Event>, ws: seq<nat>, seen: map<int64, nat>, k: nat)
    requires Distinct(ws) && k < |ws| && ws[k] < |events| && IsWrite(events[ws[k]])
    ensures Slot(events, ws, seen, ws[k]) == 2 * k + 1
  {
    var j :| 0 <= j < |ws| && ws[j] == ws[k] && Slot(events, ws, seen, ws[k]) == 2 * j + 1;
  }

  /** Every read, and the writes that took effect. */
  ghost predicate Ordered(events: seq<Event>, ws: seq<nat>, seen: map<int64, nat>, order: seq<nat>) {
    && InRange(|events|, order) && Distinct(order)
    && (forall i: nat :: i in order <==> i < |events| && (events[i].ReadAt? || i in ws))
    && (forall p, q :: 0 <= p < q < |order| ==> NoLater(events, ws, seen, order[p], order[q]))
  }

  ghost function Chosen(events: seq<Event>, ws: seq<nat>, n: nat): (s: seq<nat>)
    requires n <= |events|
  {
    if n == 0 then []
    else Chosen(events, ws, n - 1) + if events[n - 1].ReadAt? || n - 1 in ws then [n - 1] else []
  }

  lemma {:induction false} ChosenAre(events: seq<Event>, ws: seq<nat>, n: nat)
    requires n <= |events|
    ensures Distinct(Chosen(events, ws, n)) && forall i: nat :: i in Chosen(events, ws, n) <==>
      i < n && (events[i].ReadAt? || i in ws)
  {
    if n > 0 { ChosenAre(events, ws, n - 1); }
  }

  lemma PutInOrder(events: seq<Event>, ws: seq<nat>, seen: map<int64, nat>) returns (order: seq<nat>)
    ensures Ordered(events, ws, seen, order)
  {
    hide NoLater, Sort, Chosen, TotalPreorder;
    var all, le := Chosen(events, ws, |events|), (i: nat, j: nat) => NoLater(events, ws, seen, i, j);
    ChosenAre(events, ws, |events|);
    NoLaterOrders(events, ws, seen);
    order := Sort(all, le);
    SortSorted(all, le);
    SameElements(all, order);
    SameDistinct(all, order);
    SortedIsOrdered(events, ws, seen, all, order);
  }

  lemma SortedIsOrdered(events: seq<Event>, ws: seq<nat>, seen: map<int64, nat>, all: seq<nat>, order: seq<nat>)
    requires Sorted(order, (i: nat, j: nat) => NoLater(events, ws, seen, i, j)) && Distinct(order)
    requires forall i: nat :: i in order <==> i in all
    requires forall i: nat :: i in all <==> i < |events| && (events[i].ReadAt? || i in ws)
    ensures Ordered(events, ws, seen, order)
  {
    hide NoLater;
    var le := (i: nat, j: nat) => NoLater(events, ws, seen, i, j);
    forall k | 0 <= k < |order| ensures order[k] < |events| {
      assert order[k] in order;
    }
    forall p, q | 0 <= p < q < |order| ensures NoLater(events, ws, seen, order[p], order[q]) {
      assert le(order[p], order[q]);
    }
  }

  lemma NoLaterOrders(events: seq<Event>, ws: seq<nat>, seen: map<int64, nat>)
    ensures TotalPreorder((i: nat, j: nat) => NoLater(events, ws, seen, i, j))
  {
    hide Slot, When;
  }

  lemma SlotsOf<S, I, O>(m: Model<S, I, O>, l: Timeline, events: seq<Event>, ops: seq<Op<I, O>>, ws: seq<nat>,
      seen: map<int64, nat>, i: nat) returns (k: nat)
    requires IsSerial(m, l, events, ops, ws, seen) && i < |events| && (events[i].ReadAt? || i in ws)
    ensures events[i].ReadAt? ==>
      events[i].ts in seen && k == seen[events[i].ts] <= |ws| && Slot(events, ws, seen, i) == 2 * k
    ensures IsWrite(events[i]) ==> k < |ws| && ws[k] == i && Slot(events, ws, seen, i) == 2 * k + 1
  {
    hide LegalAt, StateAfter;
    if events[i].ReadAt? {
      k := seen[events[i].ts];
    } else {
      k :| 0 <= k < |ws| && ws[k] == i;
      SlotOfWrite(events, ws, seen, k);
    }
  }

  lemma SlotsMayPrecede<S, I, O>(m: Model<S, I, O>, l: Timeline, events: seq<Event>, ops: seq<Op<I, O>>,
      ws: seq<nat>, seen: map<int64, nat>, i: nat, j: nat)
    requires IsSerial(m, l, events, ops, ws, seen) && i < |events| && j < |events| && i != j
    requires (events[i].ReadAt? || i in ws) && (events[j].ReadAt? || j in ws) && NoLater(events, ws, seen, i, j)
    ensures MayPrecede(l, events[i], events[j])
  {
    hide LegalAt, StateAfter, Slot, HoldsWrite;
    var p := SlotsOf(m, l, events, ops, ws, seen, i);
    var q := SlotsOf(m, l, events, ops, ws, seen, j);
  }

  lemma OrderedContiguous<S, I, O>(m: Model<S, I, O>, l: Timeline, events: seq<Event>, ops: seq<Op<I, O>>,
      ws: seq<nat>, seen: map<int64, nat>, order: seq<nat>,
      p: nat, r: nat, q: nat)
    requires IsSerial(m, l, events, ops, ws, seen) && GroupsFit(events, ops) && Ordered(events, ws, seen, order)
    requires |events| == |ops| && p < r < q < |order| && Grouped(ops, order[p], order[q])
    ensures ops[order[r]].Group() == ops[order[p]].Group()
  {
    hide LegalAt, StateAfter, Slot, IsSerial;
    assert order[p] in order && order[q] in order && order[r] in order;
    assert NoLater(events, ws, seen, order[p], order[r]) && NoLater(events, ws, seen, order[r], order[q]);
    var j := SlotsOf(m, l, events, ops, ws, seen, order[p]);
    var k := SlotsOf(m, l, events, ops, ws, seen, order[q]);
    var i := SlotsOf(m, l, events, ops, ws, seen, order[r]);
  }

  /** The writes ahead of a place are the first of the writes: up to the one here, or as many as the read here sees. */
  lemma {:induction false} EffectsSoFar<S, I, O>(m: Model<S, I, O>, l: Timeline, events: seq<Event>,
      ops: seq<Op<I, O>>, ws: seq<nat>, seen: map<int64, nat>, order: seq<nat>, n: nat)
    requires IsSerial(m, l, events, ops, ws, seen) && Ordered(events, ws, seen, order) && n <= |order|
    ensures Effects(events, order, n) <= ws
    ensures n < |order| && IsWrite(events[order[n]]) ==>
      Ahead(events, order, n) < |ws| && ws[Ahead(events, order, n)] == order[n]
    ensures n < |order| && events[order[n]].ReadAt? ==>
      events[order[n]].ts in seen && Ahead(events, order, n) == seen[events[order[n]].ts]
  {
    hide LegalAt, StateAfter, Slot, NoLater;
    if n > 0 {
      EffectsSoFar(m, l, events, ops, ws, seen, order, n - 1);
    }
    if n < |order| {
      HereIs(m, l, events, ops, ws, seen, order, n);
    }
  }

  lemma HereIs<S, I, O>(m: Model<S, I, O>, l: Timeline, events: seq<Event>, ops: seq<Op<I, O>>, ws: seq<nat>,
      seen: map<int64, nat>, order: seq<nat>, n: nat)
    requires IsSerial(m, l, events, ops, ws, seen) && Ordered(events, ws, seen, order) && n < |order| &&
      Effects(events, order, n) <= ws
    ensures IsWrite(events[order[n]]) ==> Ahead(events, order, n) < |ws| && ws[Ahead(events, order, n)] == order[n]
    ensures events[order[n]].ReadAt? ==>
      events[order[n]].ts in seen && Ahead(events, order, n) == seen[events[order[n]].ts]
  {
    hide LegalAt, StateAfter, Slot, IsSerial, NoLater, Effects;
    assert order[n] in order;
    var k := SlotsOf(m, l, events, ops, ws, seen, order[n]);
    var c := Ahead(events, order, n);
    if c < k {
      WriteAhead(m, l, events, ops, ws, seen, order, n, k, c);
    } else if k < c {
      WriteAhead(m, l, events, ops, ws, seen, order, n, k, k);
    }
  }

  lemma WriteAhead<S, I, O>(m: Model<S, I, O>, l: Timeline, events: seq<Event>, ops: seq<Op<I, O>>, ws: seq<nat>,
      seen: map<int64, nat>, order: seq<nat>, n: nat, k: nat, j: nat)
    requires IsSerial(m, l, events, ops, ws, seen) && Ordered(events, ws, seen, order) && n < |order| &&
      Effects(events, order, n) <= ws
    requires Slot(events, ws, seen, order[n]) == if events[order[n]].ReadAt? then 2 * k else 2 * k + 1
    requires IsWrite(events[order[n]]) ==> k < |ws| && ws[k] == order[n]
    requires j < |ws|
    ensures j < Ahead(events, order, n) <==> j < k
  {
    hide LegalAt, StateAfter, Slot, Effects, NoLater, ReadsAgree;
    assert ws[j] in ws && IsWrite(events[ws[j]]) && ws[j] in order;
    var p :| 0 <= p < |order| && order[p] == ws[j];
    SlotOfWrite(events, ws, seen, j);
    BySlot(events, ws, seen, order, p, n);
    InFront(events, ws, order, n, p, j);
  }

  lemma BySlot(events: seq<Event>, ws: seq<nat>, seen: map<int64, nat>, order: seq<nat>, p: nat, n: nat)
    requires Ordered(events, ws, seen, order) && p < |order| && n < |order|
    ensures Slot(events, ws, seen, order[p]) < Slot(events, ws, seen, order[n]) ==> p < n
    ensures Slot(events, ws, seen, order[p]) > Slot(events, ws, seen, order[n]) ==> p > n
    ensures order[p] == order[n] ==> p == n
  {
    hide Slot, When;
    if p < n {
      assert NoLater(events, ws, seen, order[p], order[n]);
    } else if n < p {
      assert NoLater(events, ws, seen, order[n], order[p]);
    }
  }

  lemma InFront(events: seq<Event>, ws: seq<nat>, order: seq<nat>, n: nat, p: nat, j: nat)
    requires InRange(|events|, order) && n <= |order| && p < |order| && j < |ws| && order[p] == ws[j] &&
      IsWrite(events[ws[j]])
    requires Distinct(order) && Distinct(ws) && Effects(events, order, n) <= ws
    ensures j < Ahead(events, order, n) <==> p < n
  {
    hide Effects;
    var es := Effects(events, order, n);
    EffectsAre(events, order, n, ws[j]);
    if p < n {
      assert order[..n][p] == ws[j];
      var i :| 0 <= i < |es| && es[i] == ws[j];
      assert ws[i] == ws[j];
    }
  }

  /** A step of the order is legal because the write, or the read, is legal after the writes ahead. */
  lemma {:induction false} OrderedLegal<S(!new), I, O>(m: Model<S, I, O>, l: Timeline, events: seq<Event>,
      ops: seq<Op<I, O>>, ws: seq<nat>, seen: map<int64, nat>, order: seq<nat>, n: nat)
    requires IsSerial(m, l, events, ops, ws, seen) && PureReads(m, events, ops) &&
      Ordered(events, ws, seen, order) && n <= |order|
    ensures forall k :: 0 <= k < n ==> LegalAt(m, ops, order, k)
  {
    hide PureReads, StateAfter, Slot, NoLater, Effects, Sees;
    if n > 0 {
      OrderedLegal(m, l, events, ops, ws, seen, order, n - 1);
      EffectsSoFar(m, l, events, ops, ws, seen, order, n - 1);
      StateOfEffects(m, events, ops, order, ws, n - 1);
      if IsWrite(events[order[n - 1]]) {
        assert LegalAt(m, ops, ws, Ahead(events, order, n - 1));
      }
    }
  }

  lemma SerialIsLinear<S(!new), I, O>(m: Model<S, I, O>, l: Timeline, events: seq<Event>, ops: seq<Op<I, O>>,
      ws: seq<nat>, seen: map<int64, nat>)
    requires OnTimeline(l, events, ops) && GroupsFit(events, ops) && PureReads(m, events, ops) &&
      IsSerial(m, l, events, ops, ws, seen)
    ensures Linearizable(m, ops)
  {
    hide OnTimeline, GroupsFit, PureReads, IsSerial, MayPrecede, NoLater, Slot, RealTime, LegalAt;
    Sized(l, events, ops);
    var order := PutInOrder(events, ws, seen);
    OrderedLegal(m, l, events, ops, ws, seen, order, |order|);
    LegalStepwise(m, ops, order);
    RealTimeMeans(l, events, ops, order);
    forall p, q | 0 <= p < q < |order| ensures MayPrecede(l, events[order[p]], events[order[q]]) {
      assert order[p] in order && order[q] in order;
      SlotsMayPrecede(m, l, events, ops, ws, seen, order[p], order[q]);
    }
    forall p: nat, q: nat, r: nat | p < r < q < |order| && Grouped(ops, order[p], order[q])
      ensures ops[order[r]].Group() == ops[order[p]].Group()
    {
      OrderedContiguous(m, l, events, ops, ws, seen, order, p, r, q);
    }
    AllInOrder(m, l, events, ops, ws, seen, order);
    assert IsLinearization(m, ops, order);
  }

  lemma AllInOrder<S, I, O>(m: Model<S, I, O>, l: Timeline, events: seq<Event>, ops: seq<Op<I, O>>, ws: seq<nat>,
      seen: map<int64, nat>, order: seq<nat>)
    requires OnTimeline(l, events, ops) && IsSerial(m, l, events, ops, ws, seen) && Ordered(events, ws, seen, order)
    ensures Answered(ops, order)
  {
    hide OnTimeline, NoLater;
    TimelineWellTimed(l, events, ops);
  }

  /**
   On a timeline, linearizable and serializable in timestamp order are the same:
   every read of a snapshot answers from the writes the snapshot holds, and no others, and the
   writes in doubt took effect, if at all, where the timestamps they could have got allow.
   */
  lemma LinearizableByTimestamp<S(!new), I, O>(m: Model<S, I, O>, l: Timeline, events: seq<Event>, ops: seq<Op<I, O>>)
    requires OnTimeline(l, events, ops) && GroupsFit(events, ops) && PureReads(m, events, ops)
    ensures Linearizable(m, ops) <==> SerialByTimestamp(m, l, events, ops)
  {
    hide OnTimeline, GroupsFit, PureReads, IsLinearization, IsSerial;
    if Linearizable(m, ops) {
      var order :| IsLinearization(m, ops, order);
      LinearIsSerial(m, l, events, ops, order);
    }
    if SerialByTimestamp(m, l, events, ops) {
      var ws, seen :| IsSerial(m, l, events, ops, ws, seen);
      SerialIsLinear(m, l, events, ops, ws, seen);
    }
  }
}
