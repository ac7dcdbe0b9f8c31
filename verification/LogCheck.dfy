/**
 Where a history of appends and a final log contradict each other (logcheck/logcheck.go, Check
 and realtimeOrder).
 */
module LogCheck {
  import opened Options
  import opened Seqs
  import opened Maps
  import opened Reports
  import opened History
  import opened Sorting
  import opened Logs
  import opened Sends

  function OpsOf(a: Append): seq<int> {
    seq(|a.attempts|, i requires 0 <= i < |a.attempts| => a.attempts[i].op)
  }

  /** How many of the first `n` attempts the log did not refuse. */
  ghost function Could(a: Append, n: nat): nat
    requires n <= |a.attempts|
  {
    if n == 0 then 0 else Could(a, n - 1) + if a.attempts[n - 1].outcome.Failed? then 0 else 1
  }

  /** The log refused every attempt at a value, and holds it. */
  ghost predicate FailedVisible(a: Append, offs: seq<nat>) {
    Could(a, |a.attempts|) == 0 && |offs| > 0
  }

  /** There are more copies of a value than attempts that may have made one. */
  ghost predicate HeldTooOften(a: Append, offs: seq<nat>) {
    Could(a, |a.attempts|) > 0 && |offs| > 1 && (a.idempotent || |offs| > Could(a, |a.attempts|))
  }

  predicate HoldsAt(l: Index, a: Append, off: nat) {
    off in l.byOffset && l.byOffset[off].value == a.value && l.byOffset[off].key == a.key
  }

  /** Two attempts that are appends of their own were acked at one place. */
  ghost predicate AckedTwice(a: Append, n: nat)
    requires n <= |a.attempts|
  {
    !a.idempotent && exists t, u ::
      0 <= t < u < n && a.attempts[t].outcome.OK? && a.attempts[u].outcome.OK? &&
      a.attempts[t].offset == a.attempts[u].offset
  }

  /** An ack named a place where the log holds nothing. */
  ghost predicate AckedNowhere(l: Index, a: Append, n: nat)
    requires n <= |a.attempts|
  {
    exists t :: 0 <= t < n && a.attempts[t].outcome.OK? && a.attempts[t].offset !in l.byOffset
  }

  /** An ack named a place where the log holds something else. */
  ghost predicate AckedWrongly(l: Index, a: Append, n: nat)
    requires n <= |a.attempts|
  {
    exists t ::
      0 <= t < n && a.attempts[t].outcome.OK? && a.attempts[t].offset in l.byOffset &&
      !HoldsAt(l, a, a.attempts[t].offset)
  }

  ghost predicate Named(a: Append, off: nat) {
    exists t :: 0 <= t < |a.attempts| && a.attempts[t].outcome.OK? && a.attempts[t].offset == off
  }

  /** A copy is under the append's key, but for one an ack named. */
  ghost predicate FiledAt(l: Index, a: Append, off: nat) {
    off in l.byOffset && (l.byOffset[off].key == a.key || Named(a, off))
  }

  /** A copy follows the entry its append was conditional on. */
  predicate MetAt(l: Index, a: Append, off: nat) {
    && (a.afterKey.Some? ==> Before(Lookup(l.byKey, a.key), off) == a.afterKey.value)
    && (a.afterLog.Some? ==> Before(l.offsets, off) == a.afterLog.value)
  }

  ghost predicate AllFiled(l: Index, a: Append, offs: seq<nat>, n: nat)
    requires n <= |offs|
  {
    forall i :: 0 <= i < n ==> FiledAt(l, a, offs[i])
  }

  ghost predicate AllMet(l: Index, a: Append, offs: seq<nat>, n: nat)
    requires n <= |offs|
  {
    forall i :: 0 <= i < n ==> MetAt(l, a, offs[i])
  }

  ghost function AckKinds(l: Index, a: Append, n: nat): set<string>
    requires n <= |a.attempts|
  {
    When(AckedNowhere(l, a, n) || AckedTwice(a, n), "lost") + When(AckedWrongly(l, a, n), "ack-mismatch")
  }

  ghost function CopyKinds(l: Index, a: Append, offs: seq<nat>): set<string> {
    When(!AllFiled(l, a, offs, |offs|), "misfiled") + When(!AllMet(l, a, offs, |offs|), "condition")
  }

  /** The kinds to report of one append. */
  ghost function AppendKinds(l: Index, a: Append): set<string> {
    var offs := Lookup(l.byValue, a.value);
    When(FailedVisible(a, offs), "failed-visible") + When(HeldTooOften(a, offs), "duplicate") + AckKinds(l, a,
      |a.attempts|) + CopyKinds(l, a, offs)
  }

  method CountCould(a: Append) returns (could: nat)
    ensures could == Could(a, |a.attempts|)
  {
    could := 0;
    for n := 0 to |a.attempts|
      invariant could == Could(a, n)
    {
      if !a.attempts[n].outcome.Failed? { could := could + 1; }
    }
  }

  /** Checks each ack against the log. */
  method CheckAcks(l: Index, a: Append) returns (bad: seq<Anomaly<About>>)
    ensures KindsOf(bad) == AckKinds(l, a, |a.attempts|)
  {
    hide KindsOf, AckKinds;
    bad := [];
    KindsNone<About>([]);
    NoAcks(l, a);
    var acked: map<nat, int> := map[];
    for n := 0 to |a.attempts|
      invariant forall o :: o in acked <==> AckedAt(a, n, o)
      invariant KindsOf(bad) == AckKinds(l, a, n)
    {
      var t := a.attempts[n];
      AckNext(l, a, n);
      if t.outcome.OK? {
        var more: seq<Anomaly<About>> := [];
        if t.offset in acked && !a.idempotent {
          more := [Anomaly("lost", About(a.value, a.key, [acked[t.offset], t.op]))];
        } else {
          acked := acked[t.offset := t.op];
          if t.offset !in l.byOffset {
            more := [Anomaly("lost", About(a.value, a.key, [t.op]))];
          } else if l.byOffset[t.offset].value != a.value || l.byOffset[t.offset].key != a.key {
            more := [Anomaly("ack-mismatch", About(a.value, a.key, [t.op]))];
          }
        }
        KindsOfOne(more);
        KindsJoin(bad, more);
        bad := bad + more;
      }
    }
  }

  ghost predicate AckedAt(a: Append, n: nat, o: nat)
    requires n <= |a.attempts|
  {
    exists t :: 0 <= t < n && a.attempts[t].outcome.OK? && a.attempts[t].offset == o
  }

  lemma KindsOfOne(more: seq<Anomaly<About>>)
    requires |more| <= 1
    ensures KindsOf(more) == if |more| == 1 then {more[0].kind} else {}
  {
  }

  lemma NoAcks(l: Index, a: Append)
    ensures AckKinds(l, a, 0) == {}
  {
  }

  ghost function NewAckKind(l: Index, a: Append, n: nat): set<string>
    requires n < |a.attempts|
  {
    var t := a.attempts[n];
    if !a.idempotent && AckedAt(a, n, t.offset) then {"lost"}
    else if t.offset !in l.byOffset then {"lost"}
    else if !HoldsAt(l, a, t.offset) then {"ack-mismatch"}
    else {}
  }

  /** What one more attempt adds. */
  lemma AckNext(l: Index, a: Append, n: nat)
    requires n < |a.attempts|
    ensures var t := a.attempts[n];
      && (forall o :: AckedAt(a, n + 1, o) <==> AckedAt(a, n, o) || (t.outcome.OK? && t.offset == o))
      && (!t.outcome.OK? ==> AckKinds(l, a, n + 1) == AckKinds(l, a, n))
      && (t.outcome.OK? ==> AckKinds(l, a, n + 1) == AckKinds(l, a, n) + NewAckKind(l, a, n))
  {
    hide HoldsAt;
    var t := a.attempts[n];
    AckedNext(a, n);
    NowhereNext(l, a, n);
    TwiceNext(a, n);
    WronglyNext(l, a, n);
    if t.outcome.OK? && !a.idempotent && AckedAt(a, n, t.offset) {
      var u :| 0 <= u < n && a.attempts[u].outcome.OK? && a.attempts[u].offset == t.offset;
      assert t.offset in l.byOffset && !HoldsAt(l, a, t.offset) ==> AckedWrongly(l, a, n);
    }
  }

  lemma AckedNext(a: Append, n: nat)
    requires n < |a.attempts|
    ensures forall o :: AckedAt(a, n + 1, o) <==>
      AckedAt(a, n, o) || (a.attempts[n].outcome.OK? && a.attempts[n].offset == o)
  {
    forall o | AckedAt(a, n + 1, o)
      ensures AckedAt(a, n, o) || (a.attempts[n].outcome.OK? && a.attempts[n].offset == o)
    {
      var t :| 0 <= t <= n && a.attempts[t].outcome.OK? && a.attempts[t].offset == o;
    }
    forall o | AckedAt(a, n, o) || (a.attempts[n].outcome.OK? && a.attempts[n].offset == o)
      ensures AckedAt(a, n + 1, o)
    {
      if AckedAt(a, n, o) {
        var t :| 0 <= t < n && a.attempts[t].outcome.OK? && a.attempts[t].offset == o;
      }
    }
  }

  lemma NowhereNext(l: Index, a: Append, n: nat)
    requires n < |a.attempts|
    ensures AckedNowhere(l, a, n + 1) <==>
      AckedNowhere(l, a, n) || (a.attempts[n].outcome.OK? && a.attempts[n].offset !in l.byOffset)
  {
  }

  lemma TwiceNext(a: Append, n: nat)
    requires n < |a.attempts|
    ensures AckedTwice(a, n + 1) <==>
      AckedTwice(a, n) || (!a.idempotent && a.attempts[n].outcome.OK? && AckedAt(a, n, a.attempts[n].offset))
  {
  }

  lemma WronglyNext(l: Index, a: Append, n: nat)
    requires n < |a.attempts|
    ensures AckedWrongly(l, a, n + 1) <==>
      AckedWrongly(l, a, n) || (a.attempts[n].outcome.OK? && a.attempts[n].offset in l.byOffset &&
        !HoldsAt(l, a, a.attempts[n].offset))
  {
    hide HoldsAt;
  }

  method IsNamed(a: Append, off: nat) returns (named: bool)
    ensures named <==> Named(a, off)
  {
    for n := 0 to |a.attempts|
      invariant forall t :: 0 <= t < n ==> !(a.attempts[t].outcome.OK? && a.attempts[t].offset == off)
    {
      if a.attempts[n].outcome.OK? && a.attempts[n].offset == off { return true; }
    }
    named := false;
  }

  /** Checks that each copy is under the append's key, and follows what it was conditional on. */
  method CheckCopies(l: Index, a: Append, offs: seq<nat>) returns (bad: seq<Anomaly<About>>)
    requires forall i :: 0 <= i < |offs| ==> offs[i] in l.byOffset
    ensures KindsOf(bad) == CopyKinds(l, a, offs)
  {
    hide Named, Before, KindsOf;
    bad := [];
    KindsNone<About>([]);
    for i := 0 to |offs|
      invariant KindsOf(bad) == When(!AllFiled(l, a, offs, i), "misfiled")
    {
      var named := IsNamed(a, offs[i]);
      if l.byOffset[offs[i]].key != a.key && !named {
        KindsMore(bad, Anomaly("misfiled", About(a.value, a.key, OpsOf(a))));
        bad := bad + [Anomaly("misfiled", About(a.value, a.key, OpsOf(a)))];
      }
    }
    for i := 0 to |offs|
      invariant KindsOf(bad) == When(!AllFiled(l, a, offs, |offs|), "misfiled") + When(!AllMet(l, a, offs, i),
        "condition")
    {
      if a.afterKey.Some? && Before(Lookup(l.byKey, a.key), offs[i]) != a.afterKey.value {
        KindsMore(bad, Anomaly("condition", About(a.value, a.key, OpsOf(a))));
        bad := bad + [Anomaly("condition", About(a.value, a.key, OpsOf(a)))];
      }
      if a.afterLog.Some? && Before(l.offsets, offs[i]) != a.afterLog.value {
        KindsMore(bad, Anomaly("condition", About(a.value, a.key, OpsOf(a))));
        bad := bad + [Anomaly("condition", About(a.value, a.key, OpsOf(a)))];
      }
    }
  }

  /** Checks one append. */
  method CheckAppend(l: Index, a: Append) returns (bad: seq<Anomaly<About>>)
    requires ListsValues(l.byOffset, l.byValue)
    ensures KindsOf(bad) == AppendKinds(l, a)
  {
    hide KindsOf, AckKinds, CopyKinds;
    var offs := Lookup(l.byValue, a.value);
    var could := CountCould(a);
    bad := [];
    if could == 0 && |offs| > 0 {
      bad := [Anomaly("failed-visible", About(a.value, a.key, OpsOf(a)))];
    } else if |offs| > 1 && (a.idempotent || |offs| > could) {
      bad := [Anomaly("duplicate", About(a.value, a.key, OpsOf(a)))];
    }
    KindsOfOne(bad);
    var acks := CheckAcks(l, a);
    forall i | 0 <= i < |offs| ensures offs[i] in l.byOffset {
      assert offs[i] in Lookup(l.byValue, a.value);
    }
    var copies := CheckCopies(l, a, offs);
    KindsJoin(bad, acks);
    KindsJoin(bad + acks, copies);
    bad := bad + acks + copies;
  }

  // ----- Real time

  /** A copy, and when it was sent at the earliest. */
  datatype Sent = Sent(a: Append, call: int64, off: nat)

  /** An ack, and the place it named. */
  datatype Ack = Ack(a: Append, ret: int64, off: nat)

  predicate SentNoLater(x: Sent, y: Sent) { x.call <= y.call }

  predicate AckNoLater(x: Ack, y: Ack) { x.ret <= y.ret }

  ghost predicate IsSent(l: Index, a: Append, s: Sent) {
    var offs := Lookup(l.byValue, a.value);
    s.a == a && |a.attempts| > 0 && exists i :: 0 <= i < |offs| && s.off == offs[i] && SentAt(a, offs, i, s.call)
  }

  ghost predicate IsAck(l: Index, a: Append, r: Ack, n: nat)
    requires n <= |a.attempts|
  {
    r.a == a && exists t ::
      0 <= t < n && a.attempts[t].outcome.OK? && r.ret == a.attempts[t].ret && r.off == a.attempts[t].offset &&
      r.off in Lookup(l.byValue, a.value)
  }

  /** The ack came before the copy's call, and names a greater offset. */
  predicate Inverted(s: Sent, r: Ack) {
    r.ret < s.call && r.off > s.off
  }

  ghost predicate AllSent(l: Index, appends: seq<Append>, n: nat, byCall: seq<Sent>)
    requires n <= |appends|
  {
    forall s :: s in byCall <==> exists x :: 0 <= x < n && IsSent(l, appends[x], s)
  }

  ghost predicate AllAcks(l: Index, appends: seq<Append>, n: nat, byRet: seq<Ack>)
    requires n <= |appends|
  {
    forall r :: r in byRet <==> exists x :: 0 <= x < n && IsAck(l, appends[x], r, |appends[x].attempts|)
  }

  ghost predicate InRealTime(l: Index, appends: seq<Append>) {
    forall x, y, s, r ::
      && 0 <= x < |appends| && 0 <= y < |appends|
      && IsSent(l, appends[x], s) && IsAck(l, appends[y], r, |appends[y].attempts|)
      ==> !Inverted(s, r)
  }

  lemma SentOnce(a: Append, offs: seq<nat>, i: nat, c: int64, d: int64)
    requires |a.attempts| > 0 && i < |offs| && SentAt(a, offs, i, c) && SentAt(a, offs, i, d)
    ensures c == d
  {
    hide LeftOver;
    assert a.attempts[0].call <= PENDING;
  }

  method SentOf(l: Index, a: Append) returns (sent: seq<Sent>)
    requires |a.attempts| > 0 && Increasing(Lookup(l.byValue, a.value))
    ensures forall s :: s in sent <==> IsSent(l, a, s)
  {
    hide SentAt;
    var offs := Lookup(l.byValue, a.value);
    var calls := Calls(a, offs);
    sent := [];
    for i := 0 to |offs|
      invariant forall s :: s in sent <==> s.a == a && exists j :: 0 <= j < i && s.off == offs[j] && s.call == calls[j]
    {
      sent := sent + [Sent(a, calls[i], offs[i])];
    }
    forall s ensures s in sent <==> IsSent(l, a, s) {
      if IsSent(l, a, s) {
        var i :| 0 <= i < |offs| && s.off == offs[i] && SentAt(a, offs, i, s.call);
        SentOnce(a, offs, i, s.call, calls[i]);
      }
    }
  }

  method AcksOf(l: Index, a: Append) returns (acks: seq<Ack>)
    requires Increasing(Lookup(l.byValue, a.value))
    ensures forall r :: r in acks <==> IsAck(l, a, r, |a.attempts|)
  {
    acks := [];
    var offs := Lookup(l.byValue, a.value);
    for n := 0 to |a.attempts|
      invariant forall r :: r in acks <==> IsAck(l, a, r, n)
    {
      var t := a.attempts[n];
      var _, held := BinarySearch(offs, t.offset);
      if held && t.outcome.OK? {
        acks := acks + [Ack(a, t.ret, t.offset)];
      }
    }
  }

  method GatherRealTime(l: Index, appends: seq<Append>) returns (byCall: seq<Sent>, byRet: seq<Ack>)
    requires forall v :: Increasing(Lookup(l.byValue, v))
    ensures AllSent(l, appends, |appends|, byCall) && AllAcks(l, appends, |appends|, byRet)
  {
    hide IsSent, IsAck;
    byCall, byRet := [], [];
    for x := 0 to |appends|
      invariant AllSent(l, appends, x, byCall) && AllAcks(l, appends, x, byRet)
    {
      var a := appends[x];
      NothingSent(l, a);
      if |a.attempts| > 0 && |Lookup(l.byValue, a.value)| > 0 {
        var sent := SentOf(l, a);
        var acks := AcksOf(l, a);
        byCall, byRet := byCall + sent, byRet + acks;
      }
    }
  }

  lemma NothingSent(l: Index, a: Append)
    ensures |a.attempts| == 0 || |Lookup(l.byValue, a.value)| == 0 ==> forall s :: !IsSent(l, a, s)
    ensures |a.attempts| == 0 || |Lookup(l.byValue, a.value)| == 0 ==> forall r :: !IsAck(l, a, r, |a.attempts|)
  {
  }

  /** The ack with the greatest offset among the first `i`. */
  ghost predicate Highest(byRet: seq<Ack>, i: nat, done: Option<Ack>)
    requires i <= |byRet|
  {
    && (done.None? ==> i == 0)
    && (done.Some? ==> done.value in byRet[..i] && forall j :: 0 <= j < i ==> byRet[j].off <= done.value.off)
  }

  /** Reports each copy that some ack is inverted with. */
  method RealtimeOrder(appends: seq<Append>, l: Index) returns (bad: seq<Anomaly<About>>)
    requires forall v :: Increasing(Lookup(l.byValue, v))
    ensures KindsOf(bad) == When(!InRealTime(l, appends), "realtime-order")
  {
    hide AllSent, AllAcks, IsSent, IsAck, KindsOf, NoInversion, Inverted, InRealTime;
    var sent, acks := GatherRealTime(l, appends);
    var byCall, byRet := Sort(sent, SentNoLater), Sort(acks, AckNoLater);
    SortSorted(sent, SentNoLater);
    SortSorted(acks, AckNoLater);
    SameElements(sent, byCall);
    SameElements(acks, byRet);
    bad := Sweep(byCall, byRet);
    SweepMeans(byCall, byRet);
    RealTimeMeans(l, appends, sent, acks);
  }

  /** No ack is inverted with any of the first `n` copies. */
  ghost predicate NoInversion(byCall: seq<Sent>, n: nat, byRet: seq<Ack>)
    requires n <= |byCall|
  {
    forall m :: 0 <= m < n ==> NotInvertedBy(byCall[m], byRet)
  }

  ghost predicate NotInvertedBy(s: Sent, byRet: seq<Ack>) {
    forall j :: 0 <= j < |byRet| ==> !Inverted(s, byRet[j])
  }

  method Sweep(byCall: seq<Sent>, byRet: seq<Ack>) returns (bad: seq<Anomaly<About>>)
    requires Sorted(byCall, SentNoLater) && Sorted(byRet, AckNoLater)
    ensures KindsOf(bad) == When(!NoInversion(byCall, |byCall|, byRet), "realtime-order")
  {
    hide KindsOf, NotInvertedBy, Highest;
    bad := [];
    KindsNone<About>([]);
    var done: Option<Ack> := None;
    var i := 0;
    HighestNone(byRet);
    for n := 0 to |byCall|
      invariant 0 <= i <= |byRet| && Highest(byRet, i, done)
      invariant forall j :: 0 <= j < i ==> n > 0 && byRet[j].ret < byCall[n - 1].call
      invariant KindsOf(bad) == When(!NoInversion(byCall, n, byRet), "realtime-order")
    {
      var b := byCall[n];
      assert n > 0 ==> SentNoLater(byCall[n - 1], b);
      i, done := Advance(b, byRet, i, done);
      SweepOne(b, byRet, i, done);
      if done.Some? && done.value.off > b.off {
        KindsMore(bad, Anomaly("realtime-order", About(b.a.value, b.a.key, OpsOf(done.value.a) + OpsOf(b.a))));
        bad := bad + [Anomaly("realtime-order", About(b.a.value, b.a.key, OpsOf(done.value.a) + OpsOf(b.a)))];
      }
    }
  }

  /** Takes in the acks that came before a copy was sent. */
  method Advance(b: Sent, byRet: seq<Ack>, i0: nat, done0: Option<Ack>) returns (i: nat, done: Option<Ack>)
    requires i0 <= |byRet| && Highest(byRet, i0, done0) && forall j :: 0 <= j < i0 ==> byRet[j].ret < b.call
    ensures i0 <= i <= |byRet| && Highest(byRet, i, done)
    ensures (forall j :: 0 <= j < i ==> byRet[j].ret < b.call) && (i < |byRet| ==> byRet[i].ret >= b.call)
  {
    i, done := i0, done0;
    while i < |byRet| && byRet[i].ret < b.call
      invariant i0 <= i <= |byRet| && Highest(byRet, i, done)
      invariant forall j :: 0 <= j < i ==> byRet[j].ret < b.call
    {
      HighestNext(byRet, i, done);
      if done.None? || byRet[i].off > done.value.off {
        done := Some(byRet[i]);
      }
      i := i + 1;
    }
  }

  lemma HighestNone(byRet: seq<Ack>)
    ensures Highest(byRet, 0, None)
  {
  }

  lemma HighestNext(byRet: seq<Ack>, i: nat, done: Option<Ack>)
    requires i < |byRet| && Highest(byRet, i, done)
    ensures Highest(byRet, i + 1, if done.None? || byRet[i].off > done.value.off then Some(byRet[i]) else done)
  {
    TakeNext(byRet, i);
  }

  lemma SweepOne(b: Sent, byRet: seq<Ack>, i: nat, done: Option<Ack>)
    requires Sorted(byRet, AckNoLater) && i <= |byRet| && Highest(byRet, i, done)
    requires (forall j :: 0 <= j < i ==> byRet[j].ret < b.call) && (i < |byRet| ==> byRet[i].ret >= b.call)
    ensures NotInvertedBy(b, byRet) <==> !(done.Some? && done.value.off > b.off)
  {
    forall j | i <= j < |byRet| ensures !Inverted(b, byRet[j]) {
      assert j > i ==> AckNoLater(byRet[i], byRet[j]);
    }
    if done.Some? {
      var j :| 0 <= j < i && byRet[..i][j] == done.value;
      assert byRet[j] == done.value;
    }
  }

  lemma SweepMeans(byCall: seq<Sent>, byRet: seq<Ack>)
    ensures NoInversion(byCall, |byCall|, byRet) <==> forall s, r :: s in byCall && r in byRet ==> !Inverted(s, r)
  {
    hide Inverted;
    if forall s, r :: s in byCall && r in byRet ==> !Inverted(s, r) {
      forall m, j | 0 <= m < |byCall| && 0 <= j < |byRet| ensures !Inverted(byCall[m], byRet[j]) {
        assert byCall[m] in byCall && byRet[j] in byRet;
      }
    }
    if NoInversion(byCall, |byCall|, byRet) {
      forall s, r | s in byCall && r in byRet ensures !Inverted(s, r) {
        var m :| 0 <= m < |byCall| && byCall[m] == s;
        assert NotInvertedBy(byCall[m], byRet);
      }
    }
  }

  lemma RealTimeMeans(l: Index, appends: seq<Append>, sent: seq<Sent>, acks: seq<Ack>)
    requires AllSent(l, appends, |appends|, sent) && AllAcks(l, appends, |appends|, acks)
    ensures (forall s, r :: s in sent && r in acks ==> !Inverted(s, r)) <==> InRealTime(l, appends)
  {
    hide IsSent, IsAck, Inverted;
  }

  // ----- All of it

  /** Every entry some client appended. */
  ghost predicate NoPhantom(appends: seq<Append>, l: Index) {
    forall o :: o in l.byOffset ==> exists x ::
      0 <= x < |appends| && |appends[x].attempts| > 0 && appends[x].value == l.byOffset[o].value
  }

  /** The kinds to report of the first `n` appends. */
  ghost function AllAppendKinds(l: Index, appends: seq<Append>, n: nat): set<string>
    requires n <= |appends|
  {
    if n == 0 then {}
    else AllAppendKinds(l, appends, n - 1) + if |appends[n - 1].attempts| > 0 then AppendKinds(l, appends[n - 1])
      else {}
  }

  /** The kinds to report of a history and a final log. */
  ghost function CheckKinds(appends: seq<Append>, entries: seq<Entry>, l: Index): set<string> {
    AllAppendKinds(l, appends, |appends|) + When(!NoPhantom(appends, l), "phantom") + When(!NoCollision(entries),
      "collision") + When(!InRealTime(l, appends), "realtime-order")
  }

  method CheckAppends(appends: seq<Append>, l: Index) returns (bad: seq<Anomaly<About>>, appended: set<string>)
    requires ListsValues(l.byOffset, l.byValue)
    ensures KindsOf(bad) == AllAppendKinds(l, appends, |appends|)
    ensures forall v :: v in appended <==>
      exists x :: 0 <= x < |appends| && |appends[x].attempts| > 0 && appends[x].value == v
  {
    hide AppendKinds, ListsValues, KindsOf;
    bad, appended := [], {};
    KindsNone<About>([]);
    for x := 0 to |appends|
      invariant KindsOf(bad) == AllAppendKinds(l, appends, x)
      invariant forall v :: v in appended <==>
        exists y :: 0 <= y < x && |appends[y].attempts| > 0 && appends[y].value == v
    {
      if |appends[x].attempts| > 0 {
        appended := appended + {appends[x].value};
        var more := CheckAppend(l, appends[x]);
        KindsJoin(bad, more);
        bad := bad + more;
      }
    }
  }

  method CheckPhantoms(l: Index, appended: set<string>) returns (bad: seq<Anomaly<About>>)
    requires ListsOffsets(l.byOffset, l.offsets)
    ensures KindsOf(bad) == When(!(forall o :: o in l.byOffset ==> l.byOffset[o].value in appended), "phantom")
  {
    hide KindsOf;
    bad := [];
    KindsNone<About>([]);
    for n := 0 to |l.offsets|
      invariant KindsOf(bad) == When(!(forall j :: 0 <= j < n ==>
        l.offsets[j] in l.byOffset && l.byOffset[l.offsets[j]].value in appended), "phantom")
    {
      assert l.offsets[n] in l.offsets;
      var e := l.byOffset[l.offsets[n]];
      if e.value !in appended {
        KindsMore(bad, Anomaly("phantom", About(e.value, e.key, [])));
        bad := bad + [Anomaly("phantom", About(e.value, e.key, []))];
      }
    }
    forall o ensures o in l.byOffset <==> exists j :: 0 <= j < |l.offsets| && l.offsets[j] == o {
      assert o in l.byOffset <==> o in l.offsets;
    }
  }

  // ----- The kinds by name

  ghost predicate Tried(appends: seq<Append>, x: int) {
    0 <= x < |appends| && |appends[x].attempts| > 0
  }

  function Held(l: Index, a: Append): seq<nat> { Lookup(l.byValue, a.value) }

  ghost predicate LostAck(l: Index, a: Append) {
    AckedNowhere(l, a, |a.attempts|) || AckedTwice(a, |a.attempts|)
  }

  ghost predicate Mismatched(l: Index, a: Append) {
    AckedWrongly(l, a, |a.attempts|)
  }

  ghost predicate Misfiled(l: Index, a: Append) {
    exists o :: o in Held(l, a) && !FiledAt(l, a, o)
  }

  ghost predicate Unmet(l: Index, a: Append) {
    exists o :: o in Held(l, a) && !MetAt(l, a, o)
  }

  /** The ways in which a log and a history contradict each other, by name. */
  ghost predicate Contradictions(appends: seq<Append>, entries: seq<Entry>, l: Index, kinds: set<string>) {
    && ("failed-visible" in kinds <==> exists x :: Tried(appends, x) && FailedVisible(appends[x], Held(l, appends[x])))
    && ("duplicate" in kinds <==> exists x :: Tried(appends, x) && HeldTooOften(appends[x], Held(l, appends[x])))
    && ("lost" in kinds <==> exists x :: Tried(appends, x) && LostAck(l, appends[x]))
    && ("ack-mismatch" in kinds <==> exists x :: Tried(appends, x) && Mismatched(l, appends[x]))
    && ("misfiled" in kinds <==> exists x :: Tried(appends, x) && Misfiled(l, appends[x]))
    && ("condition" in kinds <==> exists x :: Tried(appends, x) && Unmet(l, appends[x]))
    && ("phantom" in kinds <==> !NoPhantom(appends, l))
    && ("collision" in kinds <==> !NoCollision(entries))
    && ("realtime-order" in kinds <==> !InRealTime(l, appends))
  }

  lemma {:induction false} KindOfSome(l: Index, appends: seq<Append>, n: nat, kind: string)
    requires n <= |appends|
    ensures kind in AllAppendKinds(l, appends, n) <==>
      exists x :: Tried(appends, x) && x < n && kind in AppendKinds(l, appends[x])
  {
    hide AppendKinds;
    if n > 0 {
      KindOfSome(l, appends, n - 1, kind);
      if kind in AllAppendKinds(l, appends, n) && kind !in AllAppendKinds(l, appends, n - 1) {
        assert Tried(appends, n - 1);
      }
      if x :| Tried(appends, x) && x < n && kind in AppendKinds(l, appends[x]) {
        assert x < n - 1 || x == n - 1;
      }
    }
  }

  lemma FiledMeans(l: Index, a: Append)
    ensures Misfiled(l, a) <==> !AllFiled(l, a, Held(l, a), |Held(l, a)|)
    ensures Unmet(l, a) <==> !AllMet(l, a, Held(l, a), |Held(l, a)|)
  {
    hide FiledAt, MetAt;
    var offs := Held(l, a);
    assert AllFiled(l, a, offs, |offs|) <==> forall o :: o in offs ==> FiledAt(l, a, o);
    assert AllMet(l, a, offs, |offs|) <==> forall o :: o in offs ==> MetAt(l, a, o);
  }

  /** The kinds of one append, by name. */
  lemma AppendByName(l: Index, a: Append)
    ensures var kinds := AppendKinds(l, a);
      && ("failed-visible" in kinds <==> FailedVisible(a, Held(l, a)))
      && ("duplicate" in kinds <==> HeldTooOften(a, Held(l, a)))
      && ("lost" in kinds <==> LostAck(l, a)) && ("ack-mismatch" in kinds <==> Mismatched(l, a))
      && ("misfiled" in kinds <==> Misfiled(l, a)) && ("condition" in kinds <==> Unmet(l, a))
      && kinds <= {"failed-visible", "duplicate", "lost", "ack-mismatch", "misfiled", "condition"}
  {
    FiledMeans(l, a);
    hide FailedVisible, HeldTooOften, AckedNowhere, AckedTwice, AckedWrongly, AllFiled, AllMet, Misfiled, Unmet;
  }

  lemma AppendsByName(appends: seq<Append>, l: Index)
    ensures var kinds := AllAppendKinds(l, appends, |appends|);
      && ("failed-visible" in kinds <==>
        exists x :: Tried(appends, x) && FailedVisible(appends[x], Held(l, appends[x])))
      && ("duplicate" in kinds <==> exists x :: Tried(appends, x) && HeldTooOften(appends[x], Held(l, appends[x])))
      && ("lost" in kinds <==> exists x :: Tried(appends, x) && LostAck(l, appends[x]))
      && ("ack-mismatch" in kinds <==> exists x :: Tried(appends, x) && Mismatched(l, appends[x]))
      && ("misfiled" in kinds <==> exists x :: Tried(appends, x) && Misfiled(l, appends[x]))
      && ("condition" in kinds <==> exists x :: Tried(appends, x) && Unmet(l, appends[x]))
      && kinds <= {"failed-visible", "duplicate", "lost", "ack-mismatch", "misfiled", "condition"}
  {
    hide AllAppendKinds, AppendKinds, FailedVisible, HeldTooOften, LostAck, Mismatched, Misfiled, Unmet, Held;
    forall x | 0 <= x < |appends| ensures var a, kinds := appends[x], AppendKinds(l, appends[x]);
      && ("failed-visible" in kinds <==> FailedVisible(a, Held(l, a)))
      && ("duplicate" in kinds <==> HeldTooOften(a, Held(l, a)))
      && ("lost" in kinds <==> LostAck(l, a)) && ("ack-mismatch" in kinds <==> Mismatched(l, a))
      && ("misfiled" in kinds <==> Misfiled(l, a)) && ("condition" in kinds <==> Unmet(l, a))
      && kinds <= {"failed-visible", "duplicate", "lost", "ack-mismatch", "misfiled", "condition"}
    {
      AppendByName(l, appends[x]);
    }
    forall kind: string ensures kind in AllAppendKinds(l, appends, |appends|) <==>
      exists x :: Tried(appends, x) && x < |appends| && kind in AppendKinds(l, appends[x])
    {
      KindOfSome(l, appends, |appends|, kind);
    }
  }

  lemma AllByName(appends: seq<Append>, entries: seq<Entry>, l: Index)
    ensures Contradictions(appends, entries, l, CheckKinds(appends, entries, l))
  {
    hide AllAppendKinds, FailedVisible, HeldTooOften, LostAck, Mismatched, Misfiled, Unmet, NoPhantom, NoCollision,
      InRealTime, Held;
    AppendsByName(appends, l);
    WholeByName(!NoPhantom(appends, l), !NoCollision(entries), !InRealTime(l, appends));
    hide When;
  }

  lemma WholeByName(a: bool, b: bool, c: bool)
    ensures var kinds := When(a, "phantom") + When(b, "collision") + When(c, "realtime-order");
      && ("phantom" in kinds <==> a) && ("collision" in kinds <==> b) && ("realtime-order" in kinds <==> c)
      && kinds !! {"failed-visible", "duplicate", "lost", "ack-mismatch", "misfiled", "condition"}
  {
  }

  /** The reports are of exactly the kinds in which the log contradicts the history. */
  ghost predicate Reported(appends: seq<Append>, entries: seq<Entry>, bad: seq<Anomaly<About>>) {
    exists l :: Indexed(entries, l) && KindsOf(bad) == CheckKinds(appends, entries, l) &&
      Contradictions(appends, entries, l, KindsOf(bad))
  }

  /** Reports each kind exactly when the log contradicts the history in that way. */
  method Check(appends: seq<Append>, entries: seq<Entry>) returns (bad: seq<Anomaly<About>>)
    requires forall i :: 0 <= i < |entries| ==> entries[i].offset > 0
    ensures Reported(appends, entries, bad)
  {
    hide AllAppendKinds, NoCollision, ByOffset, InRealTime, KindsOf;
    var l := MakeIndex(entries);
    var appended, phantoms, late;
    bad, appended := CheckAppends(appends, l);
    phantoms := CheckPhantoms(l, appended);
    late := RealtimeOrder(appends, l);
    KindsJoin(bad, phantoms);
    KindsJoin(bad + phantoms, l.collisions);
    KindsJoin(bad + phantoms + l.collisions, late);
    bad := bad + phantoms + l.collisions + late;
    assert KindsOf(bad) == CheckKinds(appends, entries, l);
    AllByName(appends, entries, l);
  }
}
