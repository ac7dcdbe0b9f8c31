/**
 Placing operations a system orders by timestamps of its own on the line the search orders
 them by (linearize/timeline.go). Arithmetic is on 64-bit integers that wrap around.
 */
module Timeline {
  import opened Options
  import opened History

  const TWO64: int := 0x1_0000_0000_0000_0000

  /** The 64-bit integer that arithmetic gives for `x`. */
  function Wrap(x: int): int64 {
    var r := (x - MIN_INT64) % TWO64 + MIN_INT64;
    r
  }

  datatype Timeline = Timeline(base: int64, inclusive: bool)

  const MAX_OFFSET: int64 := (MAX_INT64 - 3) / 2

  /** How far past the base `ts` lies; None where the source panics. */
  function Offset(l: Timeline, ts: int64): Option<int64> {
    if ts < l.base then None
    else
      var d := Wrap(ts - l.base);
      if d < 0 || d > MAX_OFFSET then None else Some(d)
  }

  datatype Span = Span(call: int64, ret: int64)

  function Write(l: Timeline, ts: int64): Option<Span> {
    match Offset(l, ts)
    case None => None
    case Some(d) => var at := Wrap(Wrap(2 * d) + 1); Some(Span(at, at))
  }

  function Read(l: Timeline, ts: int64): Option<Span> {
    match Offset(l, ts)
    case None => None
    case Some(d) =>
      var at := Wrap(2 * d);
      var at' := if l.inclusive then Wrap(at + 2) else at;
      Some(Span(at', at'))
  }

  function UnknownWrite(l: Timeline, ts: int64): Option<Span> {
    match Write(l, ts)
    case None => None
    case Some(s) => Some(Span(s.call, PENDING))
  }

  lemma WrapInside(x: int)
    requires MIN_INT64 <= x <= MAX_INT64
    ensures Wrap(x) == x
  {
  }

  /** A wrapped difference of ordered timestamps is negative exactly when it is too large for 64 bits. */
  lemma WrapDifference(a: int64, b: int64)
    requires b <= a
    ensures Wrap(a - b) == if a - b <= MAX_INT64 then a - b else a - b - TWO64
  {
    var x := a - b;
    if x <= MAX_INT64 {
      WrapInside(x);
    } else {
      assert (x - MIN_INT64) == TWO64 + (x - TWO64 - MIN_INT64);
      assert 0 <= x - TWO64 - MIN_INT64 < TWO64;
    }
  }

  /**
   The timestamps accepted are exactly those from the base to MAX_OFFSET past it, each placed
   without overflow, short of Pending.
   */
  lemma Accepted(l: Timeline, ts: int64)
    ensures Offset(l, ts).Some? <==> l.base <= ts <= l.base + MAX_OFFSET
    ensures Write(l, ts).Some? <==> Offset(l, ts).Some?
    ensures Read(l, ts).Some? <==> Offset(l, ts).Some?
    ensures Offset(l, ts).Some? ==>
      && Offset(l, ts).value == ts - l.base
      && Write(l, ts).value == Span(2 * (ts - l.base) + 1, 2 * (ts - l.base) + 1)
      && Read(l, ts).value.call == Read(l, ts).value.ret == 2 * (ts - l.base) + (if l.inclusive then 2 else 0)
      && Write(l, ts).value.call < PENDING
      && Read(l, ts).value.call < PENDING
  {
    if l.base <= ts {
      WrapDifference(ts, l.base);
      var d := ts - l.base;
      if d <= MAX_OFFSET {
        WrapInside(2 * d);
        WrapInside(2 * d + 1);
        WrapInside(2 * d + 2);
      }
    }
  }

  /** A snapshot at `snapshot` holds the write at `ts`. */
  predicate HoldsWrite(l: Timeline, snapshot: int64, ts: int64) {
    ts < snapshot || (l.inclusive && ts == snapshot)
  }

  /** A write is placed before a read exactly when the read's snapshot holds it, and after it otherwise. */
  lemma WriteBeforeRead(l: Timeline, ts: int64, snapshot: int64)
    requires Write(l, ts).Some? && Read(l, snapshot).Some?
    ensures HoldsWrite(l, snapshot, ts) <==> Write(l, ts).value.ret < Read(l, snapshot).value.call
    ensures !HoldsWrite(l, snapshot, ts) <==> Read(l, snapshot).value.ret < Write(l, ts).value.call
  {
    Accepted(l, ts);
    Accepted(l, snapshot);
  }

  // ----- Histories on a timeline

  datatype Event = WriteAt(ts: int64) | ReadAt(ts: int64) | UnknownFrom(ts: int64)

  function Place(l: Timeline, e: Event): Option<Span> {
    match e
    case WriteAt(ts) => Write(l, ts)
    case ReadAt(ts) => Read(l, ts)
    case UnknownFrom(ts) => UnknownWrite(l, ts)
  }

  /** Each operation is placed as its event says. */
  ghost predicate OnTimeline<I, O>(l: Timeline, events: seq<Event>, ops: seq<Op<I, O>>) {
    && |events| == |ops|
    && forall i :: 0 <= i < |ops| ==> Place(l, events[i]) == Some(Span(ops[i].call, ops[i].ret))
  }

  lemma TimelineWellTimed<I, O>(l: Timeline, events: seq<Event>, ops: seq<Op<I, O>>)
    requires OnTimeline(l, events, ops)
    ensures WellTimed(ops)
    ensures forall i :: 0 <= i < |ops| ==> (ops[i].Pending() <==> events[i].UnknownFrom?)
  {
    forall i | 0 <= i < |ops| ensures ops[i].call <= ops[i].ret && (ops[i].Pending() <==> events[i].UnknownFrom?) {
      Accepted(l, events[i].ts);
    }
  }

  /** Where an answered operation ends before another begins, a linearization has it first. */
  lemma EarlierFirst<S, I, O>(m: Model<S, I, O>, ops: seq<Op<I, O>>, order: seq<nat>, p: nat, q: nat)
    requires IsLinearization(m, ops, order) && p < |order| && q < |order| && p != q
    requires ops[order[p]].ret < ops[order[q]].call
    ensures p < q
  {
  }

  /** In every linearization a read has ahead of it exactly the answered writes its snapshot should hold. */
  lemma ReadSeesSnapshot<S, I, O>(m: Model<S, I, O>, l: Timeline, events: seq<Event>, ops: seq<Op<I, O>>,
      order: seq<nat>, r: nat, w: nat)
    requires OnTimeline(l, events, ops) && IsLinearization(m, ops, order)
    requires r < |order| && events[order[r]].ReadAt? && w < |order| && events[order[w]].WriteAt?
    ensures w < r <==> HoldsWrite(l, events[order[r]].ts, events[order[w]].ts)
  {
    WriteBeforeRead(l, events[order[w]].ts, events[order[r]].ts);
    assert Place(l, events[order[w]]) == Some(Span(ops[order[w]].call, ops[order[w]].ret));
    assert Place(l, events[order[r]]) == Some(Span(ops[order[r]].call, ops[order[r]].ret));
    if HoldsWrite(l, events[order[r]].ts, events[order[w]].ts) {
      EarlierFirst(m, ops, order, w, r);
    } else {
      EarlierFirst(m, ops, order, r, w);
    }
  }

  /** In every linearization the answered writes come in timestamp order. */
  lemma WritesInOrder<S, I, O>(m: Model<S, I, O>, l: Timeline, events: seq<Event>, ops: seq<Op<I, O>>,
      order: seq<nat>, v: nat, w: nat)
    requires OnTimeline(l, events, ops) && IsLinearization(m, ops, order)
    requires v < |order| && w < |order| && events[order[v]].WriteAt? && events[order[w]].WriteAt?
    requires events[order[v]].ts < events[order[w]].ts
    ensures v < w
  {
    Accepted(l, events[order[v]].ts);
    Accepted(l, events[order[w]].ts);
    assert Place(l, events[order[v]]) == Some(Span(ops[order[v]].call, ops[order[v]].ret));
    assert Place(l, events[order[w]]) == Some(Span(ops[order[w]].call, ops[order[w]].ret));
    EarlierFirst(m, ops, order, v, w);
  }

  /** The answered writes at a read's position in a linearization. */
  ghost function WritesAhead(events: seq<Event>, order: seq<nat>, r: nat): seq<nat>
    requires r <= |order| && InRange(|events|, order)
  {
    if r == 0 then []
    else WritesAhead(events, order, r - 1) + if events[order[r - 1]].WriteAt? then [order[r - 1]] else []
  }

  ghost predicate DistinctWrites(events: seq<Event>) {
    forall i, j :: 0 <= i < j < |events| && events[i].WriteAt? && events[j].WriteAt? ==> events[i].ts != events[j].ts
  }

  lemma {:induction false} WritesAheadAre(events: seq<Event>, order: seq<nat>, r: nat)
    requires r <= |order| && InRange(|events|, order)
    ensures forall x: nat :: x in WritesAhead(events, order, r) <==> x in order[..r] && events[x].WriteAt?
  {
    if r != 0 {
      WritesAheadAre(events, order, r - 1);
      assert order[..r] == order[..r - 1] + [order[r - 1]];
    }
  }

  lemma OnRange<S, I, O>(m: Model<S, I, O>, l: Timeline, events: seq<Event>, ops: seq<Op<I, O>>, order: seq<nat>)
    requires OnTimeline(l, events, ops) && IsLinearization(m, ops, order)
    ensures InRange(|events|, order)
  {
  }

  lemma {:induction false} WritesAheadSorted<S, I, O>(m: Model<S, I, O>, l: Timeline, events: seq<Event>,
      ops: seq<Op<I, O>>, order: seq<nat>, r: nat)
    requires OnTimeline(l, events, ops) && IsLinearization(m, ops, order) && DistinctWrites(events) && r <= |order|
    ensures InRange(|events|, WritesAhead(events, order, r))
    ensures forall i, j :: 0 <= i < j < |WritesAhead(events, order, r)| ==>
      events[WritesAhead(events, order, r)[i]].ts < events[WritesAhead(events, order, r)[j]].ts
  {
    hide OnTimeline, Legal, RealTime, Contiguous, Answered, DistinctWrites;
    OnRange(m, l, events, ops, order);
    if r != 0 {
      WritesAheadSorted(m, l, events, ops, order, r - 1);
      WritesAheadAre(events, order, r - 1);
      var before, x := WritesAhead(events, order, r - 1), order[r - 1];
      if events[x].WriteAt? {
        forall i | 0 <= i < |before| ensures events[before[i]].ts < events[x].ts {
          assert before[i] in before;
          AheadIsEarlier(m, l, events, ops, order, r - 1, before[i]);
        }
      }
    }
  }

  lemma AheadIsEarlier<S, I, O>(m: Model<S, I, O>, l: Timeline, events: seq<Event>, ops: seq<Op<I, O>>,
      order: seq<nat>, q: nat, w: nat)
    requires OnTimeline(l, events, ops) && IsLinearization(m, ops, order) && DistinctWrites(events)
    requires q < |order| && events[order[q]].WriteAt? && w in order[..q] && events[w].WriteAt?
    ensures events[w].ts < events[order[q]].ts
  {
    var p :| 0 <= p < q && order[..q][p] == w;
    LaterTimestamp(m, l, events, ops, order, p, q);
  }

  lemma LaterTimestamp<S, I, O>(m: Model<S, I, O>, l: Timeline, events: seq<Event>, ops: seq<Op<I, O>>,
      order: seq<nat>, p: nat, q: nat)
    requires OnTimeline(l, events, ops) && IsLinearization(m, ops, order) && DistinctWrites(events)
    requires p < q < |order| && events[order[p]].WriteAt? && events[order[q]].WriteAt?
    ensures events[order[p]].ts < events[order[q]].ts
  {
    assert order[p] != order[q];
    if events[order[q]].ts < events[order[p]].ts {
      WritesInOrder(m, l, events, ops, order, q, p);
    }
  }

  /**
   Timeline exactness: in every linearization, what a read has ahead of it of the answered writes is
   those its snapshot should hold, all of them and no others, in timestamp order.
   */
  lemma SnapshotExact<S, I, O>(m: Model<S, I, O>, l: Timeline, events: seq<Event>, ops: seq<Op<I, O>>,
      order: seq<nat>, r: nat)
    requires OnTimeline(l, events, ops) && IsLinearization(m, ops, order) && DistinctWrites(events)
    requires r < |order| && events[order[r]].ReadAt?
    ensures forall w: nat :: w in WritesAhead(events, order, r) <==>
      w < |events| && events[w].WriteAt? && HoldsWrite(l, events[order[r]].ts, events[w].ts)
    ensures forall i, j :: 0 <= i < j < |WritesAhead(events, order, r)| ==>
      WritesAhead(events, order, r)[i] < |events| && WritesAhead(events, order, r)[j] < |events| &&
      events[WritesAhead(events, order, r)[i]].ts < events[WritesAhead(events, order, r)[j]].ts
  {
    TimelineWellTimed(l, events, ops);
    WritesAheadAre(events, order, r);
    WritesAheadSorted(m, l, events, ops, order, r);
    forall w: nat
      ensures w in WritesAhead(events, order, r) <==>
        w < |events| && events[w].WriteAt? && HoldsWrite(l, events[order[r]].ts, events[w].ts)
    {
      if w < |events| && events[w].WriteAt? {
        assert w in order;
        var p :| 0 <= p < |order| && order[p] == w;
        ReadSeesSnapshot(m, l, events, ops, order, r, p);
        assert w in order[..r] <==> p < r by {
          if p < r { assert order[..r][p] == w; }
        }
      }
    }
  }
}
