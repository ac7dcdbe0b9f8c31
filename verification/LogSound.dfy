/**
 No false alarms: whatever an atomic append-only log did, the history it leaves contradicts
 nothing in the final log.
 */
module LogSound {
  import opened Options
  import opened Seqs
  import opened Maps
  import opened Reports
  import opened Logs
  import opened Sends
  import opened SendBound
  import opened LogCheck
  import opened LogRuns

  lemma Parts(appends: seq<Append>, gets: seq<Read>, run: seq<Event>, entries: seq<Entry>, l: Index)
    requires Observed(appends, gets, run, entries, l)
    ensures IsRun(appends, gets, run) && LogRuns.Recorded(appends, run) && UniqueValues(appends) && NoCollision(entries)
    ensures ListsValues(l.byOffset, l.byValue) && ListsKeys(l.byOffset, l.byKey) && ListsOffsets(l.byOffset, l.offsets)
    ensures (forall v :: Increasing(Lookup(l.byValue, v))) && (forall k :: Increasing(Lookup(l.byKey, k))) &&
      Increasing(l.offsets)
  {
  }

  lemma LanderOf(appends: seq<Append>, gets: seq<Read>, run: seq<Event>, e: nat)
    requires IsRun(appends, gets, run) && e < |run| && run[e].Land? && run[e].a < |appends|
    ensures Lander(appends, run, run[e].off) == e
  {
    hide IsRun;
    assert IsLander(appends, run, run[e].off, e);
    OffsetsRise(appends, gets, run, |run|);
  }

  /** What the log holds at an offset, and the event that landed it. */
  lemma HeldLander(appends: seq<Append>, gets: seq<Read>, run: seq<Event>, entries: seq<Entry>, l: Index, off: nat)
    requires Observed(appends, gets, run, entries, l) && off in l.byOffset
    ensures IsLander(appends, run, off, Lander(appends, run, off)) &&
      EntryOf(appends, run[Lander(appends, run, off)]) == l.byOffset[off]
  {
    hide Observed;
    HeldMeans(appends, gets, run, entries, l, off);
    var e: nat :| IsLander(appends, run, off, e) && EntryOf(appends, run[e]) == l.byOffset[off];
    Parts(appends, gets, run, entries, l);
    LanderOf(appends, gets, run, e);
  }

  lemma LandersRise(appends: seq<Append>, gets: seq<Read>, run: seq<Event>, e: nat, f: nat)
    requires IsRun(appends, gets, run) && e < |run| && f < |run| && run[e].Land? && run[f].Land?
    ensures run[e].off < run[f].off <==> e < f
    ensures run[e].off < run[f].off ==> run[e].time <= run[f].time
  {
    OffsetsRise(appends, gets, run, |run|);
  }

  // ----- An append's copies

  ghost function CopySrc(appends: seq<Append>, run: seq<Event>, off: nat): nat {
    var e := Lander(appends, run, off);
    if e < |run| && run[e].Land? then run[e].t else 0
  }

  ghost function CopyTime(appends: seq<Append>, run: seq<Event>, off: nat): int {
    var e := Lander(appends, run, off);
    if e < |run| && run[e].Land? then run[e].time else 0
  }

  /** A copy of an append was landed by one of its attempts. */
  lemma CopyIsOwn(appends: seq<Append>, gets: seq<Read>, run: seq<Event>, entries: seq<Entry>, l: Index, x: nat,
      off: nat)
    requires Observed(appends, gets, run, entries, l) && x < |appends| && off in Lookup(l.byValue, appends[x].value)
    ensures off in l.byOffset && l.byOffset[off].value == appends[x].value &&
      l.byOffset[off].key == appends[x].key && off > 0
    ensures var e := Lander(appends, run, off);
      && IsLander(appends, run, off, e) && run[e].a == x
      && run[e].t == CopySrc(appends, run, off) < |appends[x].attempts| && run[e].time == CopyTime(appends, run, off)
      && !appends[x].attempts[run[e].t].outcome.Failed? && appends[x].attempts[run[e].t].call <= run[e].time
  {
    hide Observed, LogRuns.Recorded, IsRun;
    Parts(appends, gets, run, entries, l);
    HeldLander(appends, gets, run, entries, l, off);
    var e := Lander(appends, run, off);
    LandingAllowed(appends, gets, run, e);
    assert appends[run[e].a].value == appends[x].value;
  }

  lemma CopiesOf(appends: seq<Append>, gets: seq<Read>, run: seq<Event>, entries: seq<Entry>, l: Index, x: nat)
      returns (src: seq<nat>, at: seq<int>)
    requires Observed(appends, gets, run, entries, l) && x < |appends|
    ensures Copies(appends[x], Lookup(l.byValue, appends[x].value), src, at)
    ensures var offs := Lookup(l.byValue, appends[x].value);
      |at| == |offs| && forall i :: 0 <= i < |offs| ==> at[i] == CopyTime(appends, run, offs[i])
  {
    hide Observed, LogRuns.Recorded, IsRun, UniqueValues, IsLander, ListsValues, ListsKeys, ListsOffsets, NoCollision,
      CopySrc, CopyTime, Lookup;
    var a := appends[x];
    var offs := Lookup(l.byValue, a.value);
    Parts(appends, gets, run, entries, l);
    src := seq(|offs|, i requires 0 <= i < |offs| => CopySrc(appends, run, offs[i]));
    at := seq(|offs|, i requires 0 <= i < |offs| => CopyTime(appends, run, offs[i]));
    forall i | 0 <= i < |offs|
      ensures src[i] < |a.attempts| && !a.attempts[src[i]].outcome.Failed? && a.attempts[src[i]].call <= at[i]
    {
      CopyIsOwn(appends, gets, run, entries, l, x, offs[i]);
    }
    forall i, j | 0 <= i < j < |offs| ensures src[i] != src[j] && at[i] <= at[j] {
      TwoCopies(appends, gets, run, entries, l, x, offs[i], offs[j]);
    }
    if |offs| > 1 {
      TwoCopies(appends, gets, run, entries, l, x, offs[0], offs[1]);
    }
    forall t | 0 <= t < |a.attempts| && a.attempts[t].outcome.OK?
      ensures exists i :: 0 <= i < |offs| && Acked(a, offs, src, at, t, i)
    {
      AckedCopy(appends, gets, run, entries, l, x, t);
      var i :| 0 <= i < |offs| && offs[i] == a.attempts[t].offset;
      assert Acked(a, offs, src, at, t, i);
    }
  }

  lemma TwoCopies(appends: seq<Append>, gets: seq<Read>, run: seq<Event>, entries: seq<Entry>, l: Index, x: nat,
      p: nat, q: nat)
    requires Observed(appends, gets, run, entries, l) && x < |appends| && p < q &&
      p in Lookup(l.byValue, appends[x].value) && q in Lookup(l.byValue, appends[x].value)
    ensures CopySrc(appends, run, p) != CopySrc(appends, run, q) &&
      CopyTime(appends, run, p) <= CopyTime(appends, run, q) && !appends[x].idempotent
  {
    hide Observed, LogRuns.Recorded, IsRun, UniqueValues, ListsValues, ListsKeys, ListsOffsets, NoCollision, Lander,
      CopySrc, CopyTime;
    Parts(appends, gets, run, entries, l);
    CopyIsOwn(appends, gets, run, entries, l, x, p);
    CopyIsOwn(appends, gets, run, entries, l, x, q);
    var e, f := Lander(appends, run, p), Lander(appends, run, q);
    LandersRise(appends, gets, run, e, f);
    if run[e].t == run[f].t {
      AnsweredOnce(appends, gets, run, e, f, x, run[e].t);
    }
    if appends[x].idempotent {
      IdempotentOnce(appends, gets, run, e, f);
    }
  }

  lemma AckedCopy(appends: seq<Append>, gets: seq<Read>, run: seq<Event>, entries: seq<Entry>, l: Index, x: nat, t: nat)
    requires Observed(appends, gets, run, entries, l) && x < |appends| && t < |appends[x].attempts| &&
      appends[x].attempts[t].outcome.OK?
    ensures var off := appends[x].attempts[t].offset;
      && off in Lookup(l.byValue, appends[x].value)
      && CopyTime(appends, run, off) <= appends[x].attempts[t].ret
      && (!appends[x].idempotent ==> CopySrc(appends, run, off) == t)
  {
    hide Observed, LogRuns.Recorded, IsRun, UniqueValues, ListsKeys, ListsOffsets, NoCollision, Lander;
    Parts(appends, gets, run, entries, l);
    var e := AckNamesLanding(appends, gets, run, x, t);
    LandedHeld(appends, gets, run, entries, l, e);
    LanderOf(appends, gets, run, e);
  }

  // ----- The checks of one append

  ghost function NotRefused(a: Append, n: nat): set<nat>
    requires n <= |a.attempts|
  {
    set t: nat | t < n && !a.attempts[t].outcome.Failed?
  }

  lemma {:induction false} CouldCount(a: Append, n: nat)
    requires n <= |a.attempts|
    ensures Could(a, n) == |NotRefused(a, n)|
  {
    if n > 0 {
      CouldCount(a, n - 1);
      NotRefusedNext(a, n - 1);
    }
  }

  lemma NotRefusedNext(a: Append, n: nat)
    requires n < |a.attempts|
    ensures n !in NotRefused(a, n)
    ensures NotRefused(a, n + 1) ==
      if a.attempts[n].outcome.Failed? then NotRefused(a, n) else NotRefused(a, n) + {n}
  {
  }

  lemma {:induction false} DistinctInside(s: seq<nat>, all: set<nat>)
    requires Distinct(s) && forall i :: 0 <= i < |s| ==> s[i] in all
    ensures |s| <= |all|
  {
    if s != [] {
      var n := |s| - 1;
      DistinctInside(s[..n], all - {s[n]});
    }
  }

  lemma HeldAsOften(a: Append, offs: seq<nat>, src: seq<nat>, at: seq<int>)
    requires Copies(a, offs, src, at)
    ensures !FailedVisible(a, offs) && !HeldTooOften(a, offs)
  {
    CouldCount(a, |a.attempts|);
    DistinctInside(src, NotRefused(a, |a.attempts|));
  }

  lemma AcksAreHeld(appends: seq<Append>, gets: seq<Read>, run: seq<Event>, entries: seq<Entry>, l: Index, x: nat)
    requires Observed(appends, gets, run, entries, l) && x < |appends|
    ensures AckKinds(l, appends[x], |appends[x].attempts|) == {}
  {
    hide Observed, CopySrc, CopyTime, Lander;
    var a := appends[x];
    forall t | 0 <= t < |a.attempts| && a.attempts[t].outcome.OK?
      ensures HoldsAt(l, a, a.attempts[t].offset) &&
        (!a.idempotent ==> CopySrc(appends, run, a.attempts[t].offset) == t)
    {
      AckedCopy(appends, gets, run, entries, l, x, t);
      CopyIsOwn(appends, gets, run, entries, l, x, a.attempts[t].offset);
    }
  }

  ghost predicate LandedUnder(appends: seq<Append>, run: seq<Event>, key: Option<string>, o: nat) {
    exists f: nat :: f < |run| && LandsUnder(appends, run[f], key) && run[f].off == o
  }

  /** The last entry before a copy, as the log was when the copy landed. */
  lemma BeforeIsLast(appends: seq<Append>, gets: seq<Read>, run: seq<Event>, e: nat, key: Option<string>,
      offs: seq<nat>)
    requires IsRun(appends, gets, run) && LogRuns.Recorded(appends, run) && e < |run| && run[e].Land? &&
      Increasing(offs)
    requires forall o :: o in offs <==> LandedUnder(appends, run, key, o)
    ensures Before(offs, run[e].off) == LastOff(appends, run, e, key)
  {
    hide IsRun, LogRuns.Recorded, LastOff, Before, Increasing;
    OffsetsRise(appends, gets, run, |run|);
    LastOffMeans(appends, run, e, key);
    BeforeMeans(offs, run[e].off);
    var last, off := LastOff(appends, run, e, key), run[e].off;
    if last != 0 {
      var f :| 0 <= f < e && LandsUnder(appends, run[f], key) && run[f].off == last;
      assert last in offs && last < off;
    }
    if Before(offs, off) != 0 {
      var f: nat :| f < |run| && LandsUnder(appends, run[f], key) && run[f].off == Before(offs, off);
      LandersRise(appends, gets, run, f, e);
    }
  }

  lemma KeyOffsets(appends: seq<Append>, gets: seq<Read>, run: seq<Event>, entries: seq<Entry>, l: Index, k: string,
      o: nat)
    requires Observed(appends, gets, run, entries, l)
    ensures o in Lookup(l.byKey, k) <==> LandedUnder(appends, run, Some(k), o)
  {
    hide Observed, Lander, ListsValues, ListsOffsets, NoCollision, LogRuns.Recorded, IsRun, UniqueValues;
    Parts(appends, gets, run, entries, l);
    if o in Lookup(l.byKey, k) {
      HeldLander(appends, gets, run, entries, l, o);
      assert LandsUnder(appends, run[Lander(appends, run, o)], Some(k));
    }
    if f: nat :| f < |run| && LandsUnder(appends, run[f], Some(k)) && run[f].off == o {
      LandedHeld(appends, gets, run, entries, l, f);
    }
  }

  lemma AllOffsets(appends: seq<Append>, gets: seq<Read>, run: seq<Event>, entries: seq<Entry>, l: Index, o: nat)
    requires Observed(appends, gets, run, entries, l)
    ensures o in l.offsets <==> LandedUnder(appends, run, None, o)
  {
    hide Observed, Lander, ListsValues, ListsKeys, NoCollision, LogRuns.Recorded, IsRun, UniqueValues;
    Parts(appends, gets, run, entries, l);
    if o in l.offsets {
      HeldLander(appends, gets, run, entries, l, o);
      assert LandsUnder(appends, run[Lander(appends, run, o)], None);
    }
    if f: nat :| f < |run| && LandsUnder(appends, run[f], None) && run[f].off == o {
      LandedHeld(appends, gets, run, entries, l, f);
    }
  }

  lemma ConditionsMet(appends: seq<Append>, gets: seq<Read>, run: seq<Event>, entries: seq<Entry>, l: Index, x: nat,
      off: nat)
    requires Observed(appends, gets, run, entries, l) && x < |appends| && off in Lookup(l.byValue, appends[x].value)
    ensures MetAt(l, appends[x], off)
  {
    hide Observed, Lander, ListsValues, ListsKeys, ListsOffsets, NoCollision, LogRuns.Recorded, UniqueValues,
      LandedUnder, LastOff, Before, CopySrc, CopyTime;
    Parts(appends, gets, run, entries, l);
    CopyIsOwn(appends, gets, run, entries, l, x, off);
    var e, k := Lander(appends, run, off), appends[x].key;
    forall o: nat ensures o in Lookup(l.byKey, k) <==> LandedUnder(appends, run, Some(k), o) {
      KeyOffsets(appends, gets, run, entries, l, k, o);
    }
    BeforeIsLast(appends, gets, run, e, Some(k), Lookup(l.byKey, k));
    forall o: nat ensures o in l.offsets <==> LandedUnder(appends, run, None, o) {
      AllOffsets(appends, gets, run, entries, l, o);
    }
    BeforeIsLast(appends, gets, run, e, None, l.offsets);
    assert Allowed(appends, gets, run, e);
  }

  lemma AppendIsOk(appends: seq<Append>, gets: seq<Read>, run: seq<Event>, entries: seq<Entry>, l: Index, x: nat)
    requires Observed(appends, gets, run, entries, l) && x < |appends|
    ensures AppendKinds(l, appends[x]) == {}
  {
    hide Observed, Copies, FailedVisible, HeldTooOften, AckKinds, MetAt, Named, CopySrc, CopyTime, Lander;
    var offs := Lookup(l.byValue, appends[x].value);
    var src, at := CopiesOf(appends, gets, run, entries, l, x);
    HeldAsOften(appends[x], offs, src, at);
    AcksAreHeld(appends, gets, run, entries, l, x);
    forall i | 0 <= i < |offs| ensures FiledAt(l, appends[x], offs[i]) && MetAt(l, appends[x], offs[i]) {
      CopyIsOwn(appends, gets, run, entries, l, x, offs[i]);
      ConditionsMet(appends, gets, run, entries, l, x, offs[i]);
    }
  }

  lemma {:induction false} AppendsAreOk(appends: seq<Append>, gets: seq<Read>, run: seq<Event>, entries: seq<Entry>,
      l: Index, n: nat)
    requires Observed(appends, gets, run, entries, l) && n <= |appends|
    ensures AllAppendKinds(l, appends, n) == {}
  {
    hide Observed, AppendKinds;
    if n > 0 {
      AppendsAreOk(appends, gets, run, entries, l, n - 1);
      AppendIsOk(appends, gets, run, entries, l, n - 1);
    }
  }

  // ----- Real time

  /** A copy was sent before it landed. */
  lemma SentBeforeCopy(appends: seq<Append>, gets: seq<Read>, run: seq<Event>, entries: seq<Entry>, l: Index, x: nat,
      s: Sent)
    requires Observed(appends, gets, run, entries, l) && x < |appends| && IsSent(l, appends[x], s)
    ensures s.off in Lookup(l.byValue, appends[x].value) && s.call <= CopyTime(appends, run, s.off)
  {
    hide Observed, Copies, SentAt, CopyTime, ListsValues, ListsKeys, ListsOffsets, NoCollision, LogRuns.Recorded,
      IsRun, UniqueValues;
    Parts(appends, gets, run, entries, l);
    var a := appends[x];
    var offs := Lookup(l.byValue, a.value);
    var i :| 0 <= i < |offs| && s.off == offs[i] && SentAt(a, offs, i, s.call);
    var src, at := CopiesOf(appends, gets, run, entries, l, x);
    SentBeforeLanding(a, offs, src, at, i, s.call);
  }

  lemma TimesRise(appends: seq<Append>, gets: seq<Read>, run: seq<Event>, entries: seq<Entry>, l: Index, p: nat, q: nat)
    requires Observed(appends, gets, run, entries, l) && p in l.byOffset && q in l.byOffset && p < q
    ensures CopyTime(appends, run, p) <= CopyTime(appends, run, q)
  {
    hide Observed, ListsValues, ListsKeys, ListsOffsets, NoCollision, LogRuns.Recorded, IsRun, UniqueValues, Lander;
    Parts(appends, gets, run, entries, l);
    HeldLander(appends, gets, run, entries, l, p);
    HeldLander(appends, gets, run, entries, l, q);
    LandersRise(appends, gets, run, Lander(appends, run, p), Lander(appends, run, q));
  }

  lemma NotInverted(appends: seq<Append>, gets: seq<Read>, run: seq<Event>, entries: seq<Entry>, l: Index, x: nat,
      y: nat, s: Sent, r: Ack)
    requires Observed(appends, gets, run, entries, l) && x < |appends| && y < |appends|
    requires IsSent(l, appends[x], s) && IsAck(l, appends[y], r, |appends[y].attempts|)
    ensures !Inverted(s, r)
  {
    hide Observed, IsSent, CopyTime, CopySrc, Lander;
    SentBeforeCopy(appends, gets, run, entries, l, x, s);
    CopyIsOwn(appends, gets, run, entries, l, x, s.off);
    var t :| 0 <= t < |appends[y].attempts| && appends[y].attempts[t].outcome.OK? &&
      r.ret == appends[y].attempts[t].ret && r.off == appends[y].attempts[t].offset;
    AckedCopy(appends, gets, run, entries, l, y, t);
    CopyIsOwn(appends, gets, run, entries, l, y, r.off);
    if s.off < r.off {
      TimesRise(appends, gets, run, entries, l, s.off, r.off);
    }
  }

  /** For every run of the log, there is nothing to report of the history and the final log. */
  lemma NoFalseAlarms(appends: seq<Append>, gets: seq<Read>, run: seq<Event>, entries: seq<Entry>, l: Index)
    requires Observed(appends, gets, run, entries, l)
    ensures CheckKinds(appends, entries, l) == {}
  {
    hide Observed, AllAppendKinds, IsSent, IsAck, Inverted, Lander, ListsValues, ListsKeys, ListsOffsets,
      NoCollision, LogRuns.Recorded, IsRun, UniqueValues;
    Parts(appends, gets, run, entries, l);
    AppendsAreOk(appends, gets, run, entries, l, |appends|);
    forall o | o in l.byOffset
      ensures exists x :: 0 <= x < |appends| && |appends[x].attempts| > 0 && appends[x].value == l.byOffset[o].value
    {
      HeldLander(appends, gets, run, entries, l, o);
      LandingAllowed(appends, gets, run, Lander(appends, run, o));
    }
    forall x, y, s, r | 0 <= x < |appends| && 0 <= y < |appends| && IsSent(l, appends[x], s) &&
        IsAck(l, appends[y], r, |appends[y].attempts|)
      ensures !Inverted(s, r)
    {
      NotInverted(appends, gets, run, entries, l, x, y, s, r);
    }
  }

  /** Of every run of the log, what Check reports is nothing. */
  lemma CheckIsSilent(appends: seq<Append>, gets: seq<Read>, run: seq<Event>, entries: seq<Entry>,
      bad: seq<Anomaly<About>>)
    requires OfRun(appends, gets, run, entries) && Reported(appends, entries, bad)
    ensures bad == []
  {
    hide OfRun, CheckKinds, KindsOf, Indexed;
    var l :| Indexed(entries, l) && KindsOf(bad) == CheckKinds(appends, entries, l);
    NoFalseAlarms(appends, gets, run, entries, l);
    KindsNone(bad);
  }
}
