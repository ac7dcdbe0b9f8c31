/**
 The check of a log is exact: it reports nothing just when an atomic log could have left the
 history and the final log.
 */
module LogExact {
  import opened Seqs
  import opened Maps
  import opened Reports
  import opened History
  import opened Logs
  import opened Sends
  import opened LogCheck
  import opened LogRuns
  import opened LogSound
  import opened LogSources
  import opened LogSchedule

  /** No ack came before its call. */
  ghost predicate AcksAfterCalls(appends: seq<Append>) {
    forall a: nat, t: nat :: InHistory(appends, a, t) && appends[a].attempts[t].outcome.OK? ==>
      appends[a].attempts[t].call <= appends[a].attempts[t].ret
  }

  // ----- What silence says

  ghost predicate Quiet(l: Index, a: Append) {
    var offs, n := Lookup(l.byValue, a.value), |a.attempts|;
    && !FailedVisible(a, offs) && !HeldTooOften(a, offs)
    && !AckedNowhere(l, a, n) && !AckedTwice(a, n) && !AckedWrongly(l, a, n)
    && AllFiled(l, a, offs, |offs|) && AllMet(l, a, offs, |offs|)
  }

  lemma QuietOne(l: Index, a: Append)
    requires AppendKinds(l, a) == {}
    ensures Quiet(l, a)
  {
    hide FailedVisible, HeldTooOften, AckedNowhere, AckedTwice, AckedWrongly, AllFiled, AllMet;
  }

  lemma {:induction false} QuietAll(l: Index, appends: seq<Append>, n: nat, x: nat)
    requires x < n <= |appends| && AllAppendKinds(l, appends, n) == {} && |appends[x].attempts| > 0
    ensures Quiet(l, appends[x])
  {
    hide Quiet, AppendKinds;
    if x == n - 1 {
      QuietOne(l, appends[x]);
    } else {
      QuietAll(l, appends, n - 1, x);
    }
  }

  ghost predicate Silent(appends: seq<Append>, entries: seq<Entry>, l: Index) {
    && (forall x :: 0 <= x < |appends| && |appends[x].attempts| > 0 ==> Quiet(l, appends[x]))
    && NoPhantom(appends, l) && NoCollision(entries) && InRealTime(l, appends)
  }

  lemma SilentMeans(appends: seq<Append>, entries: seq<Entry>, l: Index)
    requires CheckKinds(appends, entries, l) == {}
    ensures Silent(appends, entries, l)
  {
    hide NoPhantom, NoCollision, InRealTime, Quiet, AllAppendKinds;
    forall x | 0 <= x < |appends| && |appends[x].attempts| > 0 ensures Quiet(l, appends[x]) {
      QuietAll(l, appends, |appends|, x);
    }
  }

  lemma QuietAccounted(l: Index, a: Append)
    requires Quiet(l, a) && ListsValues(l.byOffset, l.byValue) && Increasing(Lookup(l.byValue, a.value))
    ensures Accounted(a, Lookup(l.byValue, a.value))
  {
    hide FailedVisible, HeldTooOften, AckedTwice, AllFiled, AllMet, Increasing;
    forall t | 0 <= t < |a.attempts| && a.attempts[t].outcome.OK?
      ensures a.attempts[t].offset in Lookup(l.byValue, a.value)
    {
      assert HoldsAt(l, a, a.attempts[t].offset);
    }
  }

  lemma QuietFiled(l: Index, a: Append, o: nat)
    requires Quiet(l, a) && o in Lookup(l.byValue, a.value)
    ensures MetAt(l, a, o) && o in l.byOffset && l.byOffset[o].key == a.key
  {
    hide FailedVisible, HeldTooOften, AckedTwice, MetAt;
    var offs := Lookup(l.byValue, a.value);
    var i :| 0 <= i < |offs| && offs[i] == o;
    assert FiledAt(l, a, offs[i]) && MetAt(l, a, offs[i]);
  }

  // ----- The attempt each entry came of, with its call

  ghost predicate PickAt(l: Index, a: Append, o: nat, s: Source, i: nat) {
    var offs := Lookup(l.byValue, a.value);
    i < |offs| && offs[i] == o && Makes(a, offs, i, s.t) && s.at == a.attempts[s.t].call
  }

  ghost predicate Pick(appends: seq<Append>, l: Index, o: nat, s: Source) {
    s.a < |appends| && |appends[s.a].attempts| > 0 && exists i: nat :: PickAt(l, appends[s.a], o, s, i)
  }

  ghost predicate Picks(appends: seq<Append>, l: Index, picks: map<nat, Source>) {
    && (forall o :: o in picks <==> o in l.byOffset)
    && (forall o :: o in picks ==> Pick(appends, l, o, picks[o]))
  }

  /** All of the index but the report of collisions. */
  ghost predicate Filed(entries: seq<Entry>, l: Index) {
    && ByOffset(entries, l.byOffset) && ListsValues(l.byOffset, l.byValue)
    && (forall v :: Increasing(Lookup(l.byValue, v))) && ListsOffsets(l.byOffset, l.offsets) && Increasing(l.offsets)
  }

  lemma PickOne(appends: seq<Append>, entries: seq<Entry>, l: Index, o: nat) returns (s: Source)
    requires Silent(appends, entries, l) && Filed(entries, l) && o in l.byOffset
    ensures Pick(appends, l, o, s)
  {
    hide Quiet, InRealTime, NoCollision, ByOffset, ListsOffsets, Increasing;
    var x :| 0 <= x < |appends| && |appends[x].attempts| > 0 && appends[x].value == l.byOffset[o].value;
    var a := appends[x];
    var offs := Lookup(l.byValue, a.value);
    assert o in offs;
    var i :| 0 <= i < |offs| && offs[i] == o;
    QuietAccounted(l, a);
    var t := MakerOf(a, offs, i);
    s := Source(x, t, a.attempts[t].call);
    assert PickAt(l, a, o, s, i);
  }

  lemma PickAll(appends: seq<Append>, entries: seq<Entry>, l: Index) returns (picks: map<nat, Source>)
    requires Silent(appends, entries, l) && Filed(entries, l)
    ensures Picks(appends, l, picks)
  {
    hide Silent, Filed, Pick;
    forall o | o in l.byOffset ensures exists s :: Pick(appends, l, o, s) {
      var s := PickOne(appends, entries, l, o);
    }
    picks := map o | o in l.byOffset :: var s :| Pick(appends, l, o, s); s;
  }

  // ----- What reads that did not see an entry say of it

  /** A read of the entry's key that returned an earlier entry, or none. */
  predicate Missed(l: Index, r: Read, o: nat) {
    o in l.byOffset && l.byOffset[o].key == r.key && r.offset < o
  }

  /** The latest call of the reads that missed an entry. */
  function LastMiss(l: Index, gets: seq<Read>, o: nat, n: nat): int64
    requires n <= |gets|
  {
    if n == 0 then MIN_INT64
    else
      var late := LastMiss(l, gets, o, n - 1);
      if Missed(l, gets[n - 1], o) && gets[n - 1].call > late then gets[n - 1].call else late
  }

  lemma {:induction false} LastMissIs(l: Index, gets: seq<Read>, o: nat, n: nat)
    requires n <= |gets|
    ensures forall r :: 0 <= r < n && Missed(l, gets[r], o) ==> gets[r].call <= LastMiss(l, gets, o, n)
    ensures LastMiss(l, gets, o, n) == MIN_INT64 ||
      exists r :: 0 <= r < n && Missed(l, gets[r], o) && gets[r].call == LastMiss(l, gets, o, n)
  {
    if n > 0 { LastMissIs(l, gets, o, n - 1); }
  }

  /** The same attempts, each entry sent and missed by then. */
  ghost function Bounded(l: Index, gets: seq<Read>, picks: map<nat, Source>): map<nat, Source> {
    map o | o in picks ::
      var late := LastMiss(l, gets, o, |gets|);
      if late > picks[o].at then picks[o].(at := late) else picks[o]
  }

  /** An entry the log acked, at or above `p`, was acked no sooner than the read was sent. */
  ghost predicate BeforeAcks(appends: seq<Append>, r: Read, p: nat) {
    forall a: nat, t: nat :: InHistory(appends, a, t) ==>
      (appends[a].attempts[t].outcome.OK? && p <= appends[a].attempts[t].offset ==>
        r.call <= appends[a].attempts[t].ret)
  }

  /** A read of an entry at or above `p` returned no sooner than the read was sent. */
  ghost predicate BeforeReads(gets: seq<Read>, r: Read, p: nat) {
    forall q :: 0 <= q < |gets| && p <= gets[q].offset ==> r.call <= gets[q].ret
  }

  /**
   A read ends no sooner than it was sent, and than every entry up to the one it returned was, which the
   log holds; and it was sent by the time any entry was seen at or above one of its key that it missed.
   */
  ghost predicate ReadFits(appends: seq<Append>, l: Index, gets: seq<Read>, picks: map<nat, Source>, r: Read) {
    && r.call <= r.ret
    && (r.offset != 0 ==> r.offset in l.byOffset && l.byOffset[r.offset] == Entry(r.offset, r.key, r.value))
    && (forall p :: p in picks && p <= r.offset ==> picks[p].at <= r.ret)
    && (forall p :: Missed(l, r, p) ==> BeforeAcks(appends, r, p) && BeforeReads(gets, r, p))
  }

  ghost predicate ReadsFit(appends: seq<Append>, l: Index, gets: seq<Read>, picks: map<nat, Source>) {
    forall r :: 0 <= r < |gets| ==> ReadFits(appends, l, gets, picks, gets[r])
  }

  // ----- Each entry lands once all below it were sent

  /** The latest call of the entries at or below an offset. */
  ghost function LatestCall(picks: map<nat, Source>, o: nat): int64 {
    var low := if o == 0 then MIN_INT64 else LatestCall(picks, o - 1);
    if o in picks && picks[o].at > low then picks[o].at else low
  }

  lemma {:induction false} LatestRises(picks: map<nat, Source>, o: nat, p: nat)
    requires o <= p
    ensures LatestCall(picks, o) <= LatestCall(picks, p)
  {
    if o < p { LatestRises(picks, o, p - 1); }
  }

  /** It is the call of one of them, or of no one's concern. */
  lemma {:induction false} LatestIsCall(picks: map<nat, Source>, o: nat)
    ensures LatestCall(picks, o) == MIN_INT64 || exists p :: p in picks && p <= o && picks[p].at == LatestCall(picks, o)
  {
    if o > 0 { LatestIsCall(picks, o - 1); }
  }

  /** The same attempts, each entry landing once all below it were sent. */
  ghost function Raised(picks: map<nat, Source>): map<nat, Source> {
    map o | o in picks :: picks[o].(at := LatestCall(picks, o))
  }

  // ----- That is a plan

  lemma PickMeans(appends: seq<Append>, entries: seq<Entry>, l: Index, o: nat, s: Source)
    requires Silent(appends, entries, l) && Filed(entries, l) && o in l.byOffset && Pick(appends, l, o, s)
    ensures InHistory(appends, s.a, s.t) && appends[s.a].value == l.byOffset[o].value
    ensures !appends[s.a].attempts[s.t].outcome.Failed? && s.at == appends[s.a].attempts[s.t].call
    ensures MetAt(l, appends[s.a], o) && l.byOffset[o].key == appends[s.a].key
    ensures IsSent(l, appends[s.a], Sent(appends[s.a], s.at, o))
  {
    hide Quiet, InRealTime, NoCollision, ByOffset, ListsOffsets, Increasing, MetAt, NoPhantom, SentAt, Accounted;
    var a := appends[s.a];
    var offs := Lookup(l.byValue, a.value);
    var i: nat :| PickAt(l, a, o, s, i);
    assert o in offs;
    QuietFiled(l, a, o);
    QuietAccounted(l, a);
    MakerSent(a, offs, i, s.t);
    MakerNotRefused(a, offs, i, s.t);
  }

  lemma RaisedSource(appends: seq<Append>, entries: seq<Entry>, l: Index, gets: seq<Read>, picks: map<nat, Source>,
      o: nat)
    requires Silent(appends, entries, l) && Filed(entries, l) && Picks(appends, l, picks) && o in picks && o > 0
    ensures SourceOk(appends, l, o, Raised(Bounded(l, gets, picks))[o])
  {
    hide Silent, Pick, MetAt, LastMiss;
    PickMeans(appends, entries, l, o, picks[o]);
    EntryAt(entries, l, o);
  }

  lemma EntryAt(entries: seq<Entry>, l: Index, o: nat)
    requires ByOffset(entries, l.byOffset) && o in l.byOffset
    ensures l.byOffset[o].offset == o
  {
  }

  lemma RaisedApart(appends: seq<Append>, entries: seq<Entry>, l: Index, gets: seq<Read>, picks: map<nat, Source>,
      o: nat, p: nat)
    requires Silent(appends, entries, l) && Filed(entries, l) && Picks(appends, l, picks)
    requires o in picks && p in picks && o < p
    ensures var plan := Raised(Bounded(l, gets, picks)); Apart(appends, plan[o], plan[p])
  {
    hide Silent, Pick, LatestCall, Filed, LastMiss;
    LatestRises(Bounded(l, gets, picks), o, p);
    if picks[o].a == picks[p].a { OwnAttempts(appends, entries, l, o, p, picks[o], picks[p]); }
  }

  lemma OwnAttempts(appends: seq<Append>, entries: seq<Entry>, l: Index, o: nat, p: nat, s: Source, r: Source)
    requires Silent(appends, entries, l) && Filed(entries, l) && o < p && s.a == r.a
    requires Pick(appends, l, o, s) && Pick(appends, l, p, r)
    ensures s.a < |appends| && s.t != r.t && !appends[s.a].idempotent
  {
    hide Quiet, InRealTime, NoCollision, ByOffset, ListsOffsets, NoPhantom, Makes;
    var a := appends[s.a];
    var offs := Lookup(l.byValue, a.value);
    var i: nat :| PickAt(l, a, o, s, i);
    var j: nat :| PickAt(l, a, p, r, j);
    assert Increasing(offs);
    assert i < j;
    QuietAccounted(l, a);
    MakersDiffer(a, offs, i, j, s.t, r.t);
  }

  /** The bound of an entry is the call of its attempt, or of a read that missed it. */
  lemma BoundIs(l: Index, gets: seq<Read>, picks: map<nat, Source>, p: nat)
    requires p in picks
    ensures var at := Bounded(l, gets, picks)[p].at;
      at == picks[p].at || exists r :: 0 <= r < |gets| && Missed(l, gets[r], p) && gets[r].call == at
  {
    hide LastMiss;
    LastMissIs(l, gets, p, |gets|);
  }

  lemma RaisedAck(appends: seq<Append>, entries: seq<Entry>, l: Index, gets: seq<Read>, picks: map<nat, Source>, a: nat,
      t: nat)
    requires Silent(appends, entries, l) && Filed(entries, l) && Picks(appends, l, picks)
    requires ReadsFit(appends, l, gets, picks)
    requires UniqueValues(appends) && AcksAfterCalls(appends) && InHistory(appends, a, t)
    ensures AckOk(appends, Raised(Bounded(l, gets, picks)), a, t)
  {
    hide Silent, Pick, LatestCall, Filed, UniqueValues, LastMiss, ReadFits;
    var T, base := appends[a].attempts[t], Bounded(l, gets, picks);
    if T.outcome.OK? {
      AckedHeld(appends, entries, l, a, t);
      AckedPick(appends, entries, l, a, t, picks[T.offset]);
      LatestIsCall(base, T.offset);
      if LatestCall(base, T.offset) != MIN_INT64 {
        var p :| p in base && p <= T.offset && base[p].at == LatestCall(base, T.offset);
        BoundByAck(appends, entries, l, gets, picks, a, t, p);
      }
    }
  }

  lemma BoundByAck(appends: seq<Append>, entries: seq<Entry>, l: Index, gets: seq<Read>, picks: map<nat, Source>,
      a: nat,
      t: nat, p: nat)
    requires Silent(appends, entries, l) && Filed(entries, l) && Picks(appends, l, picks)
    requires ReadsFit(appends, l, gets, picks) && UniqueValues(appends) && AcksAfterCalls(appends)
    requires InHistory(appends, a, t) && appends[a].attempts[t].outcome.OK?
    requires p in picks && p <= appends[a].attempts[t].offset
    ensures Bounded(l, gets, picks)[p].at <= appends[a].attempts[t].ret
  {
    hide Silent, Pick, Filed, UniqueValues, LastMiss;
    var T := appends[a].attempts[t];
    BoundIs(l, gets, picks, p);
    if Bounded(l, gets, picks)[p].at == picks[p].at {
      if p < T.offset {
        SentByAck(appends, entries, l, a, t, p, picks[p]);
      } else {
        AckedPick(appends, entries, l, a, t, picks[p]);
      }
    } else {
      var r :| 0 <= r < |gets| && Missed(l, gets[r], p) && gets[r].call == Bounded(l, gets, picks)[p].at;
      assert ReadFits(appends, l, gets, picks, gets[r]);
      assert BeforeAcks(appends, gets[r], p);
    }
  }

  /** A read that fits is one the plan allows. */
  lemma RaisedRead(appends: seq<Append>, entries: seq<Entry>, l: Index, gets: seq<Read>, picks: map<nat, Source>,
      r: nat)
    requires Picks(appends, l, picks) && ReadsFit(appends, l, gets, picks) && r < |gets|
    ensures ReadOk(l, Raised(Bounded(l, gets, picks)), gets[r])
  {
    hide Pick, LatestCall, LastMiss, BeforeAcks;
    var base, g := Bounded(l, gets, picks), gets[r];
    assert ReadFits(appends, l, gets, picks, g);
    if g.offset != 0 {
      LatestIsCall(base, g.offset);
      if LatestCall(base, g.offset) != MIN_INT64 {
        var p :| p in base && p <= g.offset && base[p].at == LatestCall(base, g.offset);
        BoundByRead(appends, l, gets, picks, r, p);
      }
    }
    forall o | o in base && o in l.byOffset && l.byOffset[o].key == g.key && o > g.offset
      ensures g.call <= LatestCall(base, o)
    {
      LastMissIs(l, gets, o, |gets|);
      assert Missed(l, gets[r], o);
      LatestAtLeast(base, o);
    }
  }

  lemma LatestAtLeast(picks: map<nat, Source>, o: nat)
    requires o in picks
    ensures picks[o].at <= LatestCall(picks, o)
  {
  }

  lemma BoundByRead(appends: seq<Append>, l: Index, gets: seq<Read>, picks: map<nat, Source>, r: nat, p: nat)
    requires ReadsFit(appends, l, gets, picks) && r < |gets| && p in picks && p <= gets[r].offset
    ensures Bounded(l, gets, picks)[p].at <= gets[r].ret
  {
    hide LastMiss;
    BoundIs(l, gets, picks, p);
    assert ReadFits(appends, l, gets, picks, gets[r]);
    if Bounded(l, gets, picks)[p].at != picks[p].at {
      var q :| 0 <= q < |gets| && Missed(l, gets[q], p) && gets[q].call == Bounded(l, gets, picks)[p].at;
      assert ReadFits(appends, l, gets, picks, gets[q]);
      assert BeforeReads(gets, gets[q], p);
    }
  }

  lemma AckedHeld(appends: seq<Append>, entries: seq<Entry>, l: Index, a: nat, t: nat)
    requires Silent(appends, entries, l) && Filed(entries, l) && InHistory(appends, a, t)
    requires appends[a].attempts[t].outcome.OK?
    ensures HoldsAt(l, appends[a], appends[a].attempts[t].offset)
    ensures appends[a].attempts[t].offset in Lookup(l.byValue, appends[a].value)
  {
    hide InRealTime, NoCollision, ByOffset, ListsOffsets, NoPhantom, Increasing;
    assert Quiet(l, appends[a]);
  }

  lemma AckedPick(appends: seq<Append>, entries: seq<Entry>, l: Index, a: nat, t: nat, s: Source)
    requires Silent(appends, entries, l) && Filed(entries, l) && InHistory(appends, a, t) && UniqueValues(appends)
    requires appends[a].attempts[t].outcome.OK? && Pick(appends, l, appends[a].attempts[t].offset, s)
    ensures s.a == a && (appends[a].idempotent || s.t == t) && s.at <= appends[a].attempts[t].call
  {
    hide Silent, Filed, ListsOffsets, Makes;
    var o := appends[a].attempts[t].offset;
    AckedHeld(appends, entries, l, a, t);
    PickMeans(appends, entries, l, o, s);
    assert s.a == a;
    var offs := Lookup(l.byValue, appends[a].value);
    var i: nat :| PickAt(l, appends[a], o, s, i);
    SilentAccounted(appends, entries, l, a);
    AckNamesMade(appends[a], offs, i, s.t, t);
  }

  lemma SilentAccounted(appends: seq<Append>, entries: seq<Entry>, l: Index, a: nat)
    requires Silent(appends, entries, l) && Filed(entries, l) && a < |appends| && |appends[a].attempts| > 0
    ensures Accounted(appends[a], Lookup(l.byValue, appends[a].value))
  {
    hide Quiet, InRealTime, NoCollision, ByOffset, ListsOffsets, NoPhantom, Increasing, ListsValues;
    QuietAccounted(l, appends[a]);
  }

  /** What is below an acked entry was sent by the ack. */
  lemma SentByAck(appends: seq<Append>, entries: seq<Entry>, l: Index, a: nat, t: nat, p: nat, s: Source)
    requires Silent(appends, entries, l) && Filed(entries, l) && InHistory(appends, a, t)
    requires appends[a].attempts[t].outcome.OK? && p in l.byOffset && p < appends[a].attempts[t].offset
    requires Pick(appends, l, p, s)
    ensures s.at <= appends[a].attempts[t].ret
  {
    hide Pick, Filed, Quiet, IsSent, NoPhantom, NoCollision;
    PickMeans(appends, entries, l, p, s);
    AckedHeld(appends, entries, l, a, t);
    var T := appends[a].attempts[t];
    var ack := Ack(appends[a], T.ret, T.offset);
    assert IsAck(l, appends[a], ack, |appends[a].attempts|);
    assert !Inverted(Sent(appends[s.a], s.at, p), ack);
  }

  lemma PlanOf(appends: seq<Append>, entries: seq<Entry>, l: Index, gets: seq<Read>, picks: map<nat, Source>)
      returns (plan: map<nat, Source>)
    requires Silent(appends, entries, l) && Filed(entries, l) && UniqueValues(appends) && AcksAfterCalls(appends)
    requires (forall o :: o in l.byOffset ==> o > 0) && Picks(appends, l, picks)
    requires ReadsFit(appends, l, gets, picks)
    ensures Planned(appends, l, plan) && ReadsOk(l, plan, gets)
  {
    hide Silent, Filed, UniqueValues, AcksAfterCalls, Pick, SourceOk, Apart, AckOk, LatestCall, InHistory, LastMiss,
      ReadsFit, ReadOk;
    plan := Raised(Bounded(l, gets, picks));
    forall o | o in plan ensures SourceOk(appends, l, o, plan[o]) {
      RaisedSource(appends, entries, l, gets, picks, o);
    }
    forall o, p | o in plan && p in plan && o < p ensures Apart(appends, plan[o], plan[p]) {
      RaisedApart(appends, entries, l, gets, picks, o, p);
    }
    forall a: nat, t: nat | InHistory(appends, a, t) ensures AckOk(appends, plan, a, t) {
      RaisedAck(appends, entries, l, gets, picks, a, t);
    }
    forall r | 0 <= r < |gets| ensures ReadOk(l, plan, gets[r]) {
      RaisedRead(appends, entries, l, gets, picks, r);
    }
  }

  // ----- Exactness

  lemma OffsetsPositive(entries: seq<Entry>, l: Index)
    requires ByOffset(entries, l.byOffset) && forall i :: 0 <= i < |entries| ==> entries[i].offset > 0
    ensures forall o :: o in l.byOffset ==> o > 0
  {
  }

  /** A silent check: some run of an atomic log leaves this history and this log. */
  lemma SilentHasRun(appends: seq<Append>, entries: seq<Entry>, bad: seq<Anomaly<About>>) returns (run: seq<Event>)
    requires Reported(appends, entries, bad) && bad == []
    requires UniqueValues(appends) && AcksAfterCalls(appends)
    requires forall i :: 0 <= i < |entries| ==> entries[i].offset > 0
    ensures OfRun(appends, [], run, entries)
  {
    hide CheckKinds, KindsOf, UniqueValues, AcksAfterCalls, ByOffset, ListsValues, ListsKeys, ListsOffsets, Increasing,
      OfRun;
    var l :| Indexed(entries, l) && KindsOf(bad) == CheckKinds(appends, entries, l);
    KindsNone(bad);
    SilentMeans(appends, entries, l);
    OffsetsPositive(entries, l);
    var picks := PickAll(appends, entries, l);
    var plan := PlanOf(appends, entries, l, [], picks);
    run := RunOf(appends, [], entries, l, plan);
  }

  /** In a run no ack comes before its call. */
  lemma RunAcksAfterCalls(appends: seq<Append>, gets: seq<Read>, run: seq<Event>)
    requires IsRun(appends, gets, run) && LogRuns.Recorded(appends, run)
    ensures AcksAfterCalls(appends)
  {
    hide IsRun;
    forall a: nat, t: nat | InHistory(appends, a, t) && appends[a].attempts[t].outcome.OK?
      ensures appends[a].attempts[t].call <= appends[a].attempts[t].ret
    {
      assert RecordedAt(appends, run, a, t);
      var T := appends[a].attempts[t];
      var g :| 0 <= g < |run| && run[g] == Accepted(a, t, T.offset, T.ret);
      var s :| 0 <= s < |run| && run[s] == Send(a, t, T.call);
      AcceptedAfterSent(appends, gets, run, s, g);
    }
  }

  lemma AcceptedAfterSent(appends: seq<Append>, gets: seq<Read>, run: seq<Event>, s: nat, g: nat)
    requires IsRun(appends, gets, run) && s < |run| && g < |run| && run[s].Send? && run[g].Accepted?
    requires run[s].a == run[g].a && run[s].t == run[g].t
    ensures run[s].time <= run[g].time
  {
    hide LastOff;
    assert Allowed(appends, gets, run, g);
    var a, t := run[g].a, run[g].t;
    var d :| 0 <= d < g && (run[d].Land? || run[d].Repeat?) && run[d].a == a && run[d].t == t;
    assert Allowed(appends, gets, run, d);
    var e :| 0 <= e < d && run[e].Send? && run[e].a == a && run[e].t == t;
    LogRuns.SentOnce(appends, gets, run, s, e);
  }

  /** The check reports nothing, and no ack came before its call, just when an atomic log could have done it. */
  lemma SilentIffRun(appends: seq<Append>, entries: seq<Entry>, bad: seq<Anomaly<About>>)
    requires Reported(appends, entries, bad) && UniqueValues(appends)
    requires forall i :: 0 <= i < |entries| ==> entries[i].offset > 0
    ensures bad == [] && AcksAfterCalls(appends) <==> exists run :: OfRun(appends, [], run, entries)
  {
    hide Reported, AcksAfterCalls, IsRun, LogRuns.Recorded, UniqueValues, Final;
    if bad == [] && AcksAfterCalls(appends) {
      var run := SilentHasRun(appends, entries, bad);
    }
    if run :| OfRun(appends, [], run, entries) {
      CheckIsSilent(appends, [], run, entries, bad);
      RunAcksAfterCalls(appends, [], run);
    }
  }
}
