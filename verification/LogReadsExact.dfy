/**
 The two checks of a log are exact together: they report nothing just when an atomic log could have
 left the history, the final log and the reads.
 */
module LogReadsExact {
  import opened Options
  import opened Seqs
  import opened Maps
  import opened Reports
  import opened History
  import opened Logs
  import opened Sends
  import opened LogWindows
  import opened LogCheck
  import opened LogRuns
  import opened LogSound
  import opened LogReads
  import opened LogReadsSound
  import opened LogSchedule
  import opened LogExact
  import opened KeyReads

  // ----- Floors and ceilings

  /** A floor is as high as every bound at or below it, and no higher than some. */
  lemma {:induction false} FloorMeans(offsets: seq<nat>, own: map<nat, Window>, n: nat)
    requires n <= |offsets|
    ensures forall m :: 0 <= m < n && offsets[m] in own ==> own[offsets[m]].lo <= Floor(offsets, own, n)
    ensures Floor(offsets, own, n) == MIN_INT64 ||
      exists m :: 0 <= m < n && offsets[m] in own && own[offsets[m]].lo == Floor(offsets, own, n)
  {
    if n > 0 { FloorMeans(offsets, own, n - 1); }
  }

  /** A ceiling is as low as every ack and sight at or above it, and no lower than some. */
  lemma {:induction false} CeilMeans(offsets: seq<nat>, own: map<nat, Window>, seen: map<nat, int64>, n: nat)
    requires n <= |offsets|
    ensures forall m :: n <= m < |offsets| && offsets[m] in own ==> Ceil(offsets, own, seen, n) <= own[offsets[m]].hi
    ensures forall m :: n <= m < |offsets| && offsets[m] in seen ==> Ceil(offsets, own, seen, n) <= seen[offsets[m]]
    ensures Ceil(offsets, own, seen, n) == PENDING ||
      (exists m :: n <= m < |offsets| && offsets[m] in own && own[offsets[m]].hi == Ceil(offsets, own, seen, n)) ||
      (exists m :: n <= m < |offsets| && offsets[m] in seen && seen[offsets[m]] == Ceil(offsets, own, seen, n))
    decreases |offsets| - n
  {
    if n < |offsets| { CeilMeans(offsets, own, seen, n + 1); }
  }

  /** The first ack is as early as every one, and is one if there is any. */
  lemma {:induction false} FirstAckMeans(a: Append, off: nat, n: nat)
    requires n <= |a.attempts|
    ensures forall t :: 0 <= t < n && a.attempts[t].outcome.OK? && a.attempts[t].offset == off ==>
      FirstAck(a, off, n) <= a.attempts[t].ret
    ensures FirstAck(a, off, n) == PENDING ||
      exists t :: 0 <= t < n && a.attempts[t].outcome.OK? && a.attempts[t].offset == off &&
        a.attempts[t].ret == FirstAck(a, off, n)
  {
    if n > 0 { FirstAckMeans(a, off, n - 1); }
  }

  lemma {:induction false} FirstSeenMeans(gets: seq<Read>, floor: map<nat, int64>, off: nat, n: nat)
    requires n <= |gets|
    ensures forall r :: 0 <= r < n && Possible(gets[r], floor) && gets[r].offset == off ==>
      FirstSeen(gets, floor, off, n).Some? && FirstSeen(gets, floor, off, n).value <= gets[r].ret
    ensures FirstSeen(gets, floor, off, n).Some? ==> exists r ::
      0 <= r < n && Possible(gets[r], floor) && gets[r].offset == off &&
      gets[r].ret == FirstSeen(gets, floor, off, n).value
  {
    hide Possible;
    if n > 0 { FirstSeenMeans(gets, floor, off, n - 1); }
  }

  // ----- What the two checks' silence says

  /** Nothing was reported of the appends, and nothing of the reads. */
  ghost predicate BothSilent(appends: seq<Append>, entries: seq<Entry>, gets: seq<Read>, w: Work,
      picks: map<nat, Source>)
  {
    && Silent(appends, entries, w.l) && Filed(entries, w.l) && UniqueValues(appends) && AcksAfterCalls(appends)
    && Picks(appends, w.l, picks)
    && WindowsRight(appends, w) && HistoriesRight(appends, w) && w.clean == gets
    && (forall r :: 0 <= r < |gets| ==> gets[r].ret != PENDING && !Dirty(w.l, gets[r]))
    && (forall k :: k in w.byKey ==> KeyLinearizable(w, k) && WellTimed(w.byKey[k]))
  }

  lemma Place(l: Index, o: nat) returns (n: nat)
    requires ListsOffsets(l.byOffset, l.offsets) && o in l.byOffset
    ensures n < |l.offsets| && l.offsets[n] == o
  {
    assert o in l.offsets;
    n :| 0 <= n < |l.offsets| && l.offsets[n] == o;
  }

  lemma Listed(appends: seq<Append>, entries: seq<Entry>, gets: seq<Read>, w: Work, picks: map<nat, Source>)
    requires BothSilent(appends, entries, gets, w, picks)
    ensures ListsOffsets(w.l.byOffset, w.l.offsets) && Increasing(w.l.offsets)
    ensures forall o :: o in picks <==> o in w.l.byOffset
    ensures forall o :: o in picks ==> Pick(appends, w.l, o, picks[o])
  {
    hide Silent, Pick, WindowsRight, HistoriesRight, Dirty, KeyLinearizable, WellTimed, ByOffset, ListsValues;
  }

  lemma SilentPart(appends: seq<Append>, entries: seq<Entry>, gets: seq<Read>, w: Work, picks: map<nat, Source>)
    requires BothSilent(appends, entries, gets, w, picks)
    ensures Silent(appends, entries, w.l) && Filed(entries, w.l) && UniqueValues(appends) && AcksAfterCalls(appends)
    ensures WindowsRight(appends, w)
  {
    hide Silent, Filed, WindowsRight, HistoriesRight, Picks, Dirty, KeyLinearizable, WellTimed, UniqueValues,
      AcksAfterCalls;
  }

  /** The bounds an append gives its copy are the call of the attempt that made it and its first ack. */
  lemma OwnIs(appends: seq<Append>, entries: seq<Entry>, gets: seq<Read>, w: Work, picks: map<nat, Source>, o: nat)
    requires BothSilent(appends, entries, gets, w, picks) && o in w.l.byOffset
    ensures o in picks && picks[o].a < |appends| && o in w.own && w.own[o].lo == picks[o].at
    ensures w.own[o].hi == FirstAck(appends[picks[o].a], o, |appends[picks[o].a].attempts|)
  {
    hide BothSilent, Silent, SentAt, HistoriesRight, AcksAfterCalls;
    Listed(appends, entries, gets, w, picks);
    SilentPart(appends, entries, gets, w, picks);
    PickMeans(appends, entries, w.l, o, picks[o]);
    OwnBound(appends, w.l, w.own, o, picks[o]) by { hide FloorRight, SeenRight, LandedFrom; }
  }

  lemma OwnBound(appends: seq<Append>, l: Index, own: map<nat, Window>, o: nat, s: Source)
    requires OwnRight(appends, l, |appends|, own) && UniqueValues(appends) && ListsValues(l.byOffset, l.byValue)
    requires (forall v :: Increasing(Lookup(l.byValue, v))) && o in l.byOffset && s.a < |appends|
    requires appends[s.a].value == l.byOffset[o].value && IsSent(l, appends[s.a], LogCheck.Sent(appends[s.a], s.at, o))
    ensures o in own && own[o].lo == s.at && own[o].hi == FirstAck(appends[s.a], o, |appends[s.a].attempts|)
  {
    hide SentAt, FirstAck;
    var offs := Lookup(l.byValue, appends[s.a].value);
    assert o in offs;
    var x :| 0 <= x < |appends| && OwnBounds(l, appends[x], o, own[o]);
    SameAppend(appends, l, x, s.a, o, own[o]);
    var i :| 0 <= i < |offs| && offs[i] == o && SentAt(appends[s.a], offs, i, own[o].lo);
    var j :| 0 <= j < |offs| && o == offs[j] && SentAt(appends[s.a], offs, j, s.at);
    assert Increasing(offs);
    assert i == j;
    LogCheck.SentOnce(appends[s.a], offs, i, own[o].lo, s.at);
  }

  lemma SameAppend(appends: seq<Append>, l: Index, x: nat, y: nat, o: nat, own: Window)
    requires UniqueValues(appends) && ListsValues(l.byOffset, l.byValue) && o in l.byOffset
    requires x < |appends| && y < |appends| && OwnBounds(l, appends[x], o, own)
    requires appends[y].value == l.byOffset[o].value
    ensures x == y
  {
    hide SentAt, FirstAck;
    assert o in Lookup(l.byValue, appends[x].value);
  }

  // ----- Windows

  /** What is at or below an offset was sent no later than its floor. */
  lemma SentByFloor(appends: seq<Append>, entries: seq<Entry>, gets: seq<Read>, w: Work, picks: map<nat, Source>,
      n: nat, p: nat)
    requires BothSilent(appends, entries, gets, w, picks) && n < |w.l.offsets| && p in picks && p <= w.l.offsets[n]
    ensures picks[p].at <= Floor(w.l.offsets, w.own, n + 1)
  {
    hide BothSilent, Floor, Pick;
    Listed(appends, entries, gets, w, picks);
    OwnIs(appends, entries, gets, w, picks, p);
    var m := Place(w.l, p);
    assert m <= n;
    FloorMeans(w.l.offsets, w.own, n + 1);
  }

  /** What an ack or a possible read bounds is no earlier than the floor. */
  lemma FloorUnderCeil(appends: seq<Append>, entries: seq<Entry>, gets: seq<Read>, w: Work, picks: map<nat, Source>,
      n: nat)
    requires BothSilent(appends, entries, gets, w, picks) && n < |w.l.offsets|
    ensures Floor(w.l.offsets, w.own, n + 1) <= Ceil(w.l.offsets, w.own, w.seen, n)
  {
    hide BothSilent, Floor, Ceil;
    var lo, hi := Floor(w.l.offsets, w.own, n + 1), Ceil(w.l.offsets, w.own, w.seen, n);
    FloorMeans(w.l.offsets, w.own, n + 1);
    CeilMeans(w.l.offsets, w.own, w.seen, n);
    if lo != MIN_INT64 && hi != PENDING {
      var q :| 0 <= q < n + 1 && w.l.offsets[q] in w.own && w.own[w.l.offsets[q]].lo == lo;
      if m :| n <= m < |w.l.offsets| && w.l.offsets[m] in w.own && w.own[w.l.offsets[m]].hi == hi {
        SentUnderAck(appends, entries, gets, w, picks, q, m);
      } else {
        var m :| n <= m < |w.l.offsets| && w.l.offsets[m] in w.seen && w.seen[w.l.offsets[m]] == hi;
        FloorUnderSight(appends, entries, gets, w, picks, n, m);
      }
    }
  }

  lemma SentUnderAck(appends: seq<Append>, entries: seq<Entry>, gets: seq<Read>, w: Work, picks: map<nat, Source>,
      q: nat, m: nat)
    requires BothSilent(appends, entries, gets, w, picks) && q <= m < |w.l.offsets|
    requires w.l.offsets[q] in w.own && w.l.offsets[m] in w.own
    ensures w.own[w.l.offsets[q]].lo <= w.own[w.l.offsets[m]].hi
  {
    hide BothSilent, Silent, Filed, UniqueValues, Pick, WindowsRight, AcksAfterCalls, FirstAck;
    Listed(appends, entries, gets, w, picks);
    SilentPart(appends, entries, gets, w, picks);
    var o, i := w.l.offsets[q], w.l.offsets[m];
    assert o in w.l.offsets && i in w.l.offsets;
    OwnIs(appends, entries, gets, w, picks, o);
    OwnIs(appends, entries, gets, w, picks, i);
    var a := picks[i].a;
    FirstAckMeans(appends[a], i, |appends[a].attempts|);
    if w.own[i].hi != PENDING {
      var t :| 0 <= t < |appends[a].attempts| && appends[a].attempts[t].outcome.OK? &&
        appends[a].attempts[t].offset == i && appends[a].attempts[t].ret == w.own[i].hi;
      SentByOwnAck(appends, entries, w.l, picks, o, a, t);
    }
  }

  lemma SentByOwnAck(appends: seq<Append>, entries: seq<Entry>, l: Index, picks: map<nat, Source>, o: nat, a: nat,
      t: nat)
    requires Silent(appends, entries, l) && Filed(entries, l) && UniqueValues(appends) && AcksAfterCalls(appends)
    requires Picks(appends, l, picks) && InHistory(appends, a, t) && appends[a].attempts[t].outcome.OK?
    requires o in picks && appends[a].attempts[t].offset in picks && o <= appends[a].attempts[t].offset
    ensures picks[o].at <= appends[a].attempts[t].ret
  {
    hide Silent, Filed, UniqueValues, Pick;
    if o < appends[a].attempts[t].offset {
      SentByAck(appends, entries, l, a, t, o, picks[o]);
    } else {
      AckedPick(appends, entries, l, a, t, picks[o]);
    }
  }

  lemma SeenIs(appends: seq<Append>, entries: seq<Entry>, gets: seq<Read>, w: Work, picks: map<nat, Source>, o: nat)
    requires BothSilent(appends, entries, gets, w, picks)
    ensures FirstSeen(gets, w.floor, o, |gets|) == if o in w.seen then Some(w.seen[o]) else None
    ensures FloorRight(w.l.offsets, w.own, |w.l.offsets|, w.floor)
  {
    hide Silent, Filed, Picks, HistoriesRight, OwnRight, LandedFrom, Dirty, KeyLinearizable, WellTimed, UniqueValues,
      AcksAfterCalls;
  }

  lemma FloorUnderSight(appends: seq<Append>, entries: seq<Entry>, gets: seq<Read>, w: Work, picks: map<nat, Source>,
      n: nat, m: nat)
    requires BothSilent(appends, entries, gets, w, picks) && n <= m < |w.l.offsets| && w.l.offsets[m] in w.seen
    ensures Floor(w.l.offsets, w.own, n + 1) <= w.seen[w.l.offsets[m]]
  {
    hide BothSilent, Floor, FirstSeen;
    var o := w.l.offsets[m];
    SeenIs(appends, entries, gets, w, picks, o);
    FirstSeenMeans(gets, w.floor, o, |gets|);
    FloorGrows(w.l.offsets, w.own, n + 1, m + 1);
  }

  lemma {:induction false} FloorGrows(offsets: seq<nat>, own: map<nat, Window>, n: nat, m: nat)
    requires n <= m <= |offsets|
    ensures Floor(offsets, own, n) <= Floor(offsets, own, m)
  {
    if n < m { FloorGrows(offsets, own, n, m - 1); }
  }

  /** Nothing contradicts anything else, so the window of an entry is from its floor to its ceiling. */
  lemma WindowIs(appends: seq<Append>, entries: seq<Entry>, gets: seq<Read>, w: Work, picks: map<nat, Source>, n: nat)
    requires BothSilent(appends, entries, gets, w, picks) && n < |w.l.offsets|
    ensures w.l.offsets[n] in w.landed
    ensures w.landed[w.l.offsets[n]] ==
      Window(Floor(w.l.offsets, w.own, n + 1), Ceil(w.l.offsets, w.own, w.seen, n))
  {
    Listed(appends, entries, gets, w, picks);
    assert w.l.offsets[n] in w.l.offsets;
    OwnIs(appends, entries, gets, w, picks, w.l.offsets[n]);
    FloorUnderCeil(appends, entries, gets, w, picks, n);
    LandedAt(appends, w, n) by { SilentPart(appends, entries, gets, w, picks); }
  }

  lemma LandedAt(appends: seq<Append>, w: Work, n: nat)
    requires WindowsRight(appends, w) && n < |w.l.offsets| && w.l.offsets[n] in w.own
    ensures w.l.offsets[n] in w.landed && w.landed[w.l.offsets[n]] == WindowAt(w.l.offsets, w.own, w.seen, n)
  {
    hide OwnRight, FloorRight, SeenRight, WindowAt;
  }

  // ----- Reads

  /** Every read is in the history of its key. */
  lemma ReadListed(appends: seq<Append>, entries: seq<Entry>, gets: seq<Read>, w: Work, picks: map<nat, Source>, r: nat)
    requires BothSilent(appends, entries, gets, w, picks) && r < |gets|
    ensures Get(r) in Lookup(w.from, gets[r].key) && HistoriesRight(appends, w) && w.clean == gets
    ensures gets[r].ret != PENDING && KeyLinearizable(w, gets[r].key) && gets[r].call <= gets[r].ret
    ensures gets[r].offset != 0 ==>
      gets[r].offset in w.l.byOffset && w.l.byOffset[gets[r].offset] ==
        Entry(gets[r].offset, gets[r].key, gets[r].value)
  {
    hide Silent, WindowsRight, Picks, UniqueValues, AcksAfterCalls, ListsValues, ListsOffsets, Increasing,
      KeyLinearizable, IsOp, PutThere;
    var k, o := gets[r].key, gets[r].offset;
    if o != 0 {
      assert !Dirty(w.l, gets[r]);
      EntryAt(entries, w.l, o);
      EntryPlaced(appends, entries, gets, w, picks, o);
    }
    assert Usable(w.placed, gets[r]);
    assert Get(r) in Lookup(w.from, k);
    ReadTimed(appends, gets, w, r);
  }

  lemma ReadTimed(appends: seq<Append>, gets: seq<Read>, w: Work, r: nat)
    requires HistoriesRight(appends, w) && w.clean == gets && r < |gets| && Get(r) in Lookup(w.from, gets[r].key)
    requires forall k :: k in w.byKey ==> KeyLinearizable(w, k) && WellTimed(w.byKey[k])
    ensures KeyLinearizable(w, gets[r].key) && gets[r].call <= gets[r].ret
  {
    hide KeyLinearizable, PutThere, Increasing;
    var i := OriginAt(w, gets[r].key, Get(r));
    assert gets[r].key in w.byKey;
  }

  lemma EntryPlaced(appends: seq<Append>, entries: seq<Entry>, gets: seq<Read>, w: Work, picks: map<nat, Source>,
      o: nat)
    requires BothSilent(appends, entries, gets, w, picks) && o in w.l.byOffset
    ensures o in Lookup(w.placed, w.l.byOffset[o].key)
  {
    hide WindowsRight, Filed, Picks, UniqueValues, AcksAfterCalls, KeyLinearizable, Dirty, WellTimed, Quiet, InRealTime,
      NoCollision, AllMatched, Usable;
    assert PutThere(appends, w.l, |appends|, w.l.byOffset[o].key, o);
  }

  /** What is at or below the entry a read returned was sent by its return. */
  lemma SentByRead(appends: seq<Append>, entries: seq<Entry>, gets: seq<Read>, w: Work, picks: map<nat, Source>, r: nat)
    requires BothSilent(appends, entries, gets, w, picks) && r < |gets| && gets[r].offset != 0
    ensures forall p :: p in picks && p <= gets[r].offset ==> picks[p].at <= gets[r].ret
    ensures Possible(gets[r], w.floor)
  {
    hide BothSilent, Floor, Ceil, HistoriesRight, KeyLinearizable, Pick;
    ReadListed(appends, entries, gets, w, picks, r);
    Listed(appends, entries, gets, w, picks);
    ReadAfterOpening(appends, w, gets[r].key, r);
    var n := Place(w.l, gets[r].offset);
    WindowIs(appends, entries, gets, w, picks, n);
    SeenIs(appends, entries, gets, w, picks, gets[r].offset);
    forall p | p in picks && p <= gets[r].offset ensures picks[p].at <= gets[r].ret {
      SentByFloor(appends, entries, gets, w, picks, n, p);
    }
  }

  /** A read was sent by the ceiling of an entry it missed. */
  lemma MissedByCeil(appends: seq<Append>, entries: seq<Entry>, gets: seq<Read>, w: Work, picks: map<nat, Source>,
      r: nat, p: nat) returns (n: nat)
    requires BothSilent(appends, entries, gets, w, picks) && r < |gets| && Missed(w.l, gets[r], p)
    ensures n < |w.l.offsets| && w.l.offsets[n] == p && gets[r].call <= Ceil(w.l.offsets, w.own, w.seen, n)
  {
    hide BothSilent, Floor, Ceil, HistoriesRight, KeyLinearizable, Pick;
    ReadListed(appends, entries, gets, w, picks, r);
    Listed(appends, entries, gets, w, picks);
    EntryPlaced(appends, entries, gets, w, picks, p);
    ReadBeforeClosing(appends, w, gets[r].key, r, p);
    n := Place(w.l, p);
    WindowIs(appends, entries, gets, w, picks, n);
  }

  lemma MissedBeforeAcks(appends: seq<Append>, entries: seq<Entry>, gets: seq<Read>, w: Work, picks: map<nat, Source>,
      r: nat, p: nat)
    requires BothSilent(appends, entries, gets, w, picks) && r < |gets| && Missed(w.l, gets[r], p)
    ensures BeforeAcks(appends, gets[r], p)
  {
    hide BothSilent, Ceil, Silent, Filed, UniqueValues, Pick, WindowsRight, AcksAfterCalls;
    Listed(appends, entries, gets, w, picks);
    SilentPart(appends, entries, gets, w, picks);
    var n := MissedByCeil(appends, entries, gets, w, picks, r, p);
    CeilMeans(w.l.offsets, w.own, w.seen, n);
    forall a: nat, t: nat | InHistory(appends, a, t) && appends[a].attempts[t].outcome.OK? &&
      p <= appends[a].attempts[t].offset
      ensures gets[r].call <= appends[a].attempts[t].ret
    {
      var i := appends[a].attempts[t].offset;
      AckedHeld(appends, entries, w.l, a, t);
      AckedPick(appends, entries, w.l, a, t, picks[i]);
      OwnIs(appends, entries, gets, w, picks, i);
      var m := Place(w.l, i);
      assert n <= m;
      FirstAckMeans(appends[a], i, |appends[a].attempts|);
    }
  }

  lemma MissedBeforeReads(appends: seq<Append>, entries: seq<Entry>, gets: seq<Read>, w: Work, picks: map<nat, Source>,
      r: nat, p: nat)
    requires BothSilent(appends, entries, gets, w, picks) && r < |gets| && Missed(w.l, gets[r], p) && p > 0
    ensures BeforeReads(gets, gets[r], p)
  {
    hide BothSilent, Ceil, Pick, FirstSeen, HistoriesRight, KeyLinearizable, FloorRight, Missed;
    Listed(appends, entries, gets, w, picks);
    var n := MissedByCeil(appends, entries, gets, w, picks, r, p);
    CeilMeans(w.l.offsets, w.own, w.seen, n);
    forall q | 0 <= q < |gets| && p <= gets[q].offset ensures gets[r].call <= gets[q].ret {
      var i := gets[q].offset;
      SentByRead(appends, entries, gets, w, picks, q);
      ReadListed(appends, entries, gets, w, picks, q);
      var m := Place(w.l, i);
      assert n <= m;
      SeenIs(appends, entries, gets, w, picks, i);
      FirstSeenMeans(gets, w.floor, i, |gets|);
    }
  }

  lemma AllFit(appends: seq<Append>, entries: seq<Entry>, gets: seq<Read>, w: Work, picks: map<nat, Source>)
    requires BothSilent(appends, entries, gets, w, picks) && forall o :: o in w.l.byOffset ==> o > 0
    ensures ReadsFit(appends, w.l, gets, picks)
  {
    hide BothSilent, BeforeAcks, BeforeReads, HistoriesRight, KeyLinearizable;
    Listed(appends, entries, gets, w, picks);
    forall r | 0 <= r < |gets| ensures ReadFits(appends, w.l, gets, picks, gets[r]) {
      ReadListed(appends, entries, gets, w, picks, r);
      if gets[r].offset != 0 { SentByRead(appends, entries, gets, w, picks, r); }
      forall p | Missed(w.l, gets[r], p) ensures BeforeAcks(appends, gets[r], p) && BeforeReads(gets, gets[r], p) {
        MissedBeforeAcks(appends, entries, gets, w, picks, r, p);
        MissedBeforeReads(appends, entries, gets, w, picks, r, p);
      }
    }
  }

  // ----- Exactness

  ghost predicate AllAnswered(gets: seq<Read>) {
    forall r :: 0 <= r < |gets| ==> gets[r].ret != PENDING
  }

  /** What Check is silent about in one index of the log it is in every one. */
  lemma SilentInAny(appends: seq<Append>, entries: seq<Entry>, bad: seq<Anomaly<About>>, l: Index)
    requires LogCheck.Reported(appends, entries, bad) && bad == [] && UniqueValues(appends) && AcksAfterCalls(appends)
    requires (forall i :: 0 <= i < |entries| ==> entries[i].offset > 0) && Indexed(entries, l)
    ensures Silent(appends, entries, l)
  {
    hide LogCheck.Reported, OfRun, Silent, UniqueValues, AcksAfterCalls, Indexed, CheckKinds;
    var run := SilentHasRun(appends, entries, bad);
    NoFalseAlarms(appends, [], run, entries, l);
    SilentMeans(appends, entries, l);
  }

  lemma VerdictSilent(gets: seq<Read>, w: Work, unknown: seq<string>, limit: nat, ctx: nat -> bool)
    requires ReadVerdict(gets, w, [], unknown) && GivenUp(w, unknown, limit, ctx) && unknown == []
    ensures NoDirty(w.l, gets, |gets|) && forall k :: k in w.byKey ==> KeyLinearizable(w, k) && WellTimed(w.byKey[k])
  {
    hide KeyLinearizable, WellTimed, GivenUpFor, Dirty;
    DirtyReported(w.l, gets, |gets|);
  }

  /** Silence of both checks, with no search given up: some run leaves this history, this log and these reads. */
  lemma SilenceHasRun(appends: seq<Append>, entries: seq<Entry>, gets: seq<Read>, bad: seq<Anomaly<About>>,
      badReads: seq<Anomaly<About>>, unknown: seq<string>, limit: nat, ctx: nat -> bool) returns (run: seq<Event>)
    requires LogCheck.Reported(appends, entries, bad) && bad == []
    requires ReadsReported(appends, entries, gets, badReads, unknown, limit, ctx) && badReads == [] && unknown == []
    requires UniqueValues(appends) && AcksAfterCalls(appends) && AllAnswered(gets)
    requires forall i :: 0 <= i < |entries| ==> entries[i].offset > 0
    ensures OfRun(appends, gets, run, entries) && RecordedReads(appends, gets, run)
  {
    hide LogCheck.Reported, UniqueValues, AcksAfterCalls, OfRun, RecordedReads, ReadKinds, WindowsRight,
      HistoriesRight, KeyLinearizable, WellTimed, Silent, ReadVerdict, GivenUp, Dirty, ByOffset, ListsValues, ListsKeys,
      ListsOffsets, Increasing, KindsOf;
    var w :| Worked(appends, entries, gets, w) && ReadVerdict(gets, w, badReads, unknown) &&
      ReadKinds(gets, w, KindsOf(badReads), unknown) && GivenUp(w, unknown, limit, ctx);
    VerdictSilent(gets, w, unknown, limit, ctx);
    CleanIsAll(w.l, gets, |gets|);
    TakeAll(gets);
    SilentInAny(appends, entries, bad, w.l);
    var picks := PickAll(appends, entries, w.l);
    hide Picks, ReadsFit;
    OffsetsPositive(entries, w.l);
    AllFit(appends, entries, gets, w, picks);
    var plan := PlanOf(appends, entries, w.l, gets, picks);
    SilentNoCollision(appends, entries, w.l);
    run := RunOf(appends, gets, entries, w.l, plan);
  }

  lemma SilentNoCollision(appends: seq<Append>, entries: seq<Entry>, l: Index)
    requires Silent(appends, entries, l)
    ensures NoCollision(entries)
  {
  }

  /**
   Both checks report nothing, and no ack came before its call, just when some run of an atomic log
   leaves this history, this log and these reads; where no search was given up.
   */
  lemma SilenceIffRun(appends: seq<Append>, entries: seq<Entry>, gets: seq<Read>, bad: seq<Anomaly<About>>,
      badReads: seq<Anomaly<About>>, unknown: seq<string>, limit: nat, ctx: nat -> bool)
    requires LogCheck.Reported(appends, entries, bad)
    requires ReadsReported(appends, entries, gets, badReads, unknown, limit, ctx) && unknown == []
    requires UniqueValues(appends) && AllAnswered(gets)
    requires forall i :: 0 <= i < |entries| ==> entries[i].offset > 0
    ensures bad == [] && badReads == [] && AcksAfterCalls(appends) <==>
      exists run :: OfRun(appends, gets, run, entries) && RecordedReads(appends, gets, run)
  {
    hide LogCheck.Reported, ReadsReported, AcksAfterCalls, UniqueValues, AllAnswered, RecordedReads, IsRun,
      LogRuns.Recorded, Final;
    if bad == [] && badReads == [] && AcksAfterCalls(appends) {
      var run := SilenceHasRun(appends, entries, gets, bad, badReads, unknown, limit, ctx);
    }
    if run :| OfRun(appends, gets, run, entries) && RecordedReads(appends, gets, run) {
      CheckIsSilent(appends, gets, run, entries, bad);
      CheckReadsIsSilent(appends, gets, run, entries, badReads, unknown, limit, ctx);
      RunAcksAfterCalls(appends, gets, run);
    }
  }
}
