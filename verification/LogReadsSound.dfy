/**
 No false alarms on reads: whatever an atomic log with atomic reads of its last entries did, each
 entry landed in its window, and each key's history is linearizable.
 */
module LogReadsSound {
  import opened Options
  import opened Seqs
  import opened Maps
  import opened Reports
  import opened History
  import opened Logs
  import opened Sends
  import opened SendBound
  import opened LogRuns
  import opened LogSound
  import opened LogWindows
  import opened LogReads
  import opened KeyOrder

  // ----- Every entry landed in its window

  lemma {:induction false} ByFirstAck(appends: seq<Append>, gets: seq<Read>, run: seq<Event>, entries: seq<Entry>,
      l: Index, x: nat, off: nat, n: nat)
    requires Observed(appends, gets, run, entries, l) && x < |appends| && n <= |appends[x].attempts| &&
      off in Lookup(l.byValue, appends[x].value)
    ensures CopyTime(appends, run, off) <= FirstAck(appends[x], off, n)
  {
    hide Observed, Lander;
    if n > 0 {
      ByFirstAck(appends, gets, run, entries, l, x, off, n - 1);
      var t := appends[x].attempts[n - 1];
      if t.outcome.OK? && t.offset == off {
        AckedCopy(appends, gets, run, entries, l, x, n - 1);
      }
    } else {
      CopyIsOwn(appends, gets, run, entries, l, x, off);
    }
  }

  /** An entry landed within the bounds its append gives it. */
  lemma OwnHolds(appends: seq<Append>, gets: seq<Read>, run: seq<Event>, entries: seq<Entry>, l: Index,
      own: map<nat, Window>, o: nat)
    requires Observed(appends, gets, run, entries, l) && OwnRight(appends, l, |appends|, own) && o in own
    ensures o in l.byOffset && own[o].lo <= CopyTime(appends, run, o) <= own[o].hi
  {
    hide Observed, CopyTime, Copies, SentAt, CopySrc, Lander, FirstAck, Increasing, IsRun, LogRuns.Recorded,
      UniqueValues, NoCollision;
    var x :| 0 <= x < |appends| && OwnBounds(l, appends[x], o, own[o]);
    var a := appends[x];
    var offs := Lookup(l.byValue, a.value);
    var i :| 0 <= i < |offs| && offs[i] == o && SentAt(a, offs, i, own[o].lo);
    Parts(appends, gets, run, entries, l);
    var src, at := CopiesOf(appends, gets, run, entries, l, x);
    SentBeforeLanding(a, offs, src, at, i, own[o].lo);
    ByFirstAck(appends, gets, run, entries, l, x, o, |a.attempts|);
    CopyIsOwn(appends, gets, run, entries, l, x, o);
  }

  lemma InLog(appends: seq<Append>, gets: seq<Read>, run: seq<Event>, entries: seq<Entry>, l: Index, n: nat)
    requires Observed(appends, gets, run, entries, l) && n < |l.offsets|
    ensures l.offsets[n] in l.byOffset
  {
    hide ByOffset, IsRun, LogRuns.Recorded, UniqueValues, NoCollision, ListsKeys, ListsValues, Final;
    assert l.offsets[n] in l.offsets;
  }

  lemma OffsetOrder(appends: seq<Append>, gets: seq<Read>, run: seq<Event>, entries: seq<Entry>, l: Index, m: nat,
      n: nat)
    requires Observed(appends, gets, run, entries, l) && m <= n < |l.offsets|
    ensures CopyTime(appends, run, l.offsets[m]) <= CopyTime(appends, run, l.offsets[n])
  {
    hide Observed, CopyTime, IsRun, LogRuns.Recorded, UniqueValues, NoCollision, ListsKeys, ListsValues, ListsOffsets;
    Parts(appends, gets, run, entries, l);
    InLog(appends, gets, run, entries, l, m);
    InLog(appends, gets, run, entries, l, n);
    if m < n {
      TimesRise(appends, gets, run, entries, l, l.offsets[m], l.offsets[n]);
    }
  }

  lemma TimeInRange(appends: seq<Append>, run: seq<Event>, o: nat)
    ensures MIN_INT64 <= CopyTime(appends, run, o) <= MAX_INT64
  {
  }

  lemma {:induction false} FloorHolds(appends: seq<Append>, gets: seq<Read>, run: seq<Event>, entries: seq<Entry>,
      l: Index, own: map<nat, Window>, n: nat)
    requires Observed(appends, gets, run, entries, l) && OwnRight(appends, l, |appends|, own) && n < |l.offsets|
    ensures Floor(l.offsets, own, n + 1) <= CopyTime(appends, run, l.offsets[n])
  {
    hide Observed, OwnRight, CopyTime;
    TimeInRange(appends, run, l.offsets[n]);
    if n > 0 {
      FloorHolds(appends, gets, run, entries, l, own, n - 1);
      OffsetOrder(appends, gets, run, entries, l, n - 1, n);
    }
    if l.offsets[n] in own {
      OwnHolds(appends, gets, run, entries, l, own, l.offsets[n]);
    }
  }

  /** A read saw an entry that had landed. */
  lemma SeenLanded(appends: seq<Append>, gets: seq<Read>, run: seq<Event>, entries: seq<Entry>, l: Index, r: nat)
    requires Observed(appends, gets, run, entries, l) && RecordedReads(appends, gets, run) && r < |gets| &&
      gets[r].offset != 0
    ensures CopyTime(appends, run, gets[r].offset) <= gets[r].ret
    ensures !Dirty(l, gets[r])
  {
    hide Observed, IsRun, LogRuns.Recorded, UniqueValues, NoCollision, ListsKeys, ListsValues, ListsOffsets, LastOff,
      Lander, RecordedRead;
    Parts(appends, gets, run, entries, l);
    assert RecordedRead(appends, gets, run, r);
    var g := LookedBetween(appends, gets, run, r);
    OffsetsRise(appends, gets, run, |run|);
    LastOffMeans(appends, run, g, Some(gets[r].key));
    var e :| 0 <= e < g && LandsUnder(appends, run[e], Some(gets[r].key)) && run[e].off == gets[r].offset;
    LanderOf(appends, gets, run, e);
    LandedHeld(appends, gets, run, entries, l, e);
    SameLanding(appends, gets, run, r, e);
    NoLaterThan(appends, gets, run, e, g);
  }

  lemma NoLaterThan(appends: seq<Append>, gets: seq<Read>, run: seq<Event>, e: nat, g: nat)
    requires IsRun(appends, gets, run) && e <= g < |run|
    ensures run[e].time <= run[g].time
  {
  }

  lemma SameLanding(appends: seq<Append>, gets: seq<Read>, run: seq<Event>, r: nat, e: nat)
    requires IsRun(appends, gets, run) && r < |gets| && RecordedRead(appends, gets, run, r) && gets[r].offset != 0
    requires e < |run| && run[e].Land? && run[e].a < |appends| && run[e].off == gets[r].offset
    ensures appends[run[e].a].value == gets[r].value
  {
    hide IsRun;
    OffsetsRise(appends, gets, run, |run|);
    var f :| 0 <= f < |run| && run[f].Land? && run[f].a < |appends| && run[f].off == gets[r].offset &&
      appends[run[f].a].value == gets[r].value;
    assert e == f;
  }

  lemma {:induction false} FirstSeenIs(gets: seq<Read>, floor: map<nat, int64>, off: nat, n: nat)
    requires n <= |gets| && FirstSeen(gets, floor, off, n).Some?
    ensures off != 0 && exists r ::
      0 <= r < n && gets[r].offset == off && gets[r].ret == FirstSeen(gets, floor, off, n).value
  {
    if n > 0 && FirstSeen(gets, floor, off, n) == FirstSeen(gets, floor, off, n - 1) {
      FirstSeenIs(gets, floor, off, n - 1);
    }
  }

  lemma {:induction false} CeilHolds(appends: seq<Append>, gets: seq<Read>, run: seq<Event>, entries: seq<Entry>,
      l: Index, own: map<nat, Window>, floor: map<nat, int64>, seen: map<nat, int64>, n: nat)
    requires Observed(appends, gets, run, entries, l) && RecordedReads(appends, gets, run) &&
      OwnRight(appends, l, |appends|, own) && SeenRight(gets, floor, |gets|, seen)
    requires n < |l.offsets|
    ensures CopyTime(appends, run, l.offsets[n]) <= Ceil(l.offsets, own, seen, n)
    decreases |l.offsets| - n
  {
    hide Observed, OwnRight, CopyTime, RecordedReads, FirstSeen;
    var off := l.offsets[n];
    TimeInRange(appends, run, off);
    if n + 1 < |l.offsets| {
      CeilHolds(appends, gets, run, entries, l, own, floor, seen, n + 1);
      OffsetOrder(appends, gets, run, entries, l, n, n + 1);
    }
    if off in own {
      OwnHolds(appends, gets, run, entries, l, own, off);
    }
    if off in seen {
      FirstSeenIs(gets, floor, off, |gets|);
      var r :| 0 <= r < |gets| && gets[r].offset == off && gets[r].ret == FirstSeen(gets, floor, off, |gets|).value;
      SeenLanded(appends, gets, run, entries, l, r);
    }
  }

  /** An entry landed in its window. */
  lemma LandedInWindow(appends: seq<Append>, gets: seq<Read>, run: seq<Event>, entries: seq<Entry>, w: Work, o: nat)
    requires Observed(appends, gets, run, entries, w.l) && RecordedReads(appends, gets, run) && w.clean == gets &&
      WindowsRight(appends, w)
    requires o in w.landed && o in w.l.byOffset
    ensures w.landed[o].lo <= CopyTime(appends, run, o) <= w.landed[o].hi
  {
    hide Observed, OwnRight, SeenRight, RecordedReads, CopyTime, Floor, Ceil, FloorRight;
    InOffsets(appends, gets, run, entries, w.l, o);
    var m :| 0 <= m < |w.l.offsets| && w.l.offsets[m] == o;
    FloorHolds(appends, gets, run, entries, w.l, w.own, m);
    CeilHolds(appends, gets, run, entries, w.l, w.own, w.floor, w.seen, m);
  }

  lemma InOffsets(appends: seq<Append>, gets: seq<Read>, run: seq<Event>, entries: seq<Entry>, l: Index, o: nat)
    requires Observed(appends, gets, run, entries, l) && o in l.byOffset
    ensures o in l.offsets
  {
    hide Observed, IsRun, LogRuns.Recorded, UniqueValues, NoCollision, ListsKeys, ListsValues;
    Parts(appends, gets, run, entries, l);
  }

  // ----- The instants of a key's history

  /** A run, with its reads recorded and the check's work on what it left. */
  ghost predicate Watched(appends: seq<Append>, gets: seq<Read>, run: seq<Event>, entries: seq<Entry>, w: Work) {
    Observed(appends, gets, run, entries, w.l) && RecordedReads(appends, gets, run) && w.clean == gets &&
      WindowsRight(appends, w) && HistoriesRight(appends, w)
  }

  ghost predicate Saw(appends: seq<Append>, gets: seq<Read>, run: seq<Event>, r: nat, g: nat) {
    && r < |gets| && g < |run| && run[g].See? && run[g].r == r && gets[r].call <= run[g].time <= gets[r].ret
    && gets[r].offset == LastOff(appends, run, g, Some(gets[r].key))
  }

  ghost function Seer(appends: seq<Append>, gets: seq<Read>, run: seq<Event>, r: nat): nat {
    if exists g: nat :: Saw(appends, gets, run, r, g) then
      var g: nat :| Saw(appends, gets, run, r, g);
      g
    else 0
  }

  lemma SeerSaw(appends: seq<Append>, gets: seq<Read>, run: seq<Event>, r: nat)
    requires IsRun(appends, gets, run) && RecordedReads(appends, gets, run) && r < |gets|
    ensures Saw(appends, gets, run, r, Seer(appends, gets, run, r))
  {
    hide IsRun, LastOff, RecordedRead;
    assert RecordedRead(appends, gets, run, r);
    var g := LookedBetween(appends, gets, run, r);
    assert Saw(appends, gets, run, r, g);
  }

  ghost function EventOf(appends: seq<Append>, gets: seq<Read>, run: seq<Event>, x: Origin): nat {
    match x
    case Copy(o) => Lander(appends, run, o)
    case Get(r) => Seer(appends, gets, run, r)
  }

  /**
   An entry under a key was landed under it, and what was landed under a key is an entry under it
   some append put there.
   */
  lemma PutThereMeans(appends: seq<Append>, gets: seq<Read>, run: seq<Event>, entries: seq<Entry>, l: Index,
      k: string, o: nat)
    requires Observed(appends, gets, run, entries, l)
    ensures PutThere(appends, l, |appends|, k, o) <==> LandedUnder(appends, run, Some(k), o)
    ensures PutThere(appends, l, |appends|, k, o) ==>
      IsLander(appends, run, o, Lander(appends, run, o)) && LandsUnder(appends, run[Lander(appends, run, o)], Some(k))
  {
    hide Observed, Lander, LandedUnder, IsRun, LogRuns.Recorded, UniqueValues, NoCollision, ListsValues, ListsOffsets;
    Parts(appends, gets, run, entries, l);
    KeyOffsets(appends, gets, run, entries, l, k, o);
    if o in l.byOffset && l.byOffset[o].key == k {
      HeldLander(appends, gets, run, entries, l, o);
      LandingAllowed(appends, gets, run, Lander(appends, run, o));
    }
  }

  /** What a read of a key looked at, by how many of the key's entries had landed. */
  lemma LooksLast(appends: seq<Append>, gets: seq<Read>, run: seq<Event>, entries: seq<Entry>, w: Work, k: string,
      r: nat, land: seq<nat>, pos: nat)
    requires Watched(appends, gets, run, entries, w) && r < |gets| && gets[r].key == k &&
      Landers(appends, run, Lookup(w.placed, k), land)
    requires IsCut(land, Seer(appends, gets, run, r), pos)
    ensures Last(Lookup(w.placed, k), pos) == gets[r].offset
  {
    hide Observed, Seer, Lander, IsRun, LogRuns.Recorded, UniqueValues, RecordedReads, NoCollision, ListsValues,
      ListsKeys, ListsOffsets, LastOff, PutThere, WindowsRight, AllMatched, Usable, Lookup;
    var g, offs := Seer(appends, gets, run, r), Lookup(w.placed, k);
    Parts(appends, gets, run, entries, w.l);
    SeerSaw(appends, gets, run, r);
    OffsetsRise(appends, gets, run, |run|);
    LastOffMeans(appends, run, g, Some(k));
    var last := LastOff(appends, run, g, Some(k));
    if last != 0 {
      var e :| 0 <= e < g && LandsUnder(appends, run[e], Some(k)) && run[e].off == last;
      LanderOf(appends, gets, run, e);
      assert LandedUnder(appends, run, Some(k), last);
      PutThereMeans(appends, gets, run, entries, w.l, k, last);
      assert last in offs;
      var i: nat :| i < |offs| && offs[i] == last;
      assert land[i] == e;
    }
    if pos > 0 {
      var o := offs[pos - 1];
      assert o in offs;
      PutThereMeans(appends, gets, run, entries, w.l, k, o);
      LandingAllowed(appends, gets, run, Lander(appends, run, o));
      assert land[pos - 1] < g;
    }
  }

  ghost predicate Landers(appends: seq<Append>, run: seq<Event>, offs: seq<nat>, land: seq<nat>) {
    |land| == |offs| && forall i :: 0 <= i < |offs| ==> land[i] == Lander(appends, run, offs[i])
  }

  lemma LandersInOrder(appends: seq<Append>, gets: seq<Read>, run: seq<Event>, entries: seq<Entry>, w: Work,
      k: string, i: nat, j: nat)
    requires Watched(appends, gets, run, entries, w) && i < j < |Lookup(w.placed, k)|
    ensures Lander(appends, run, Lookup(w.placed, k)[i]) < Lander(appends, run, Lookup(w.placed, k)[j])
  {
    hide Observed, Lander, IsRun, LogRuns.Recorded, UniqueValues, RecordedReads, NoCollision, ListsValues, ListsKeys,
      ListsOffsets, PutThere, WindowsRight, AllMatched, Usable, Lookup;
    var offs := Lookup(w.placed, k);
    Parts(appends, gets, run, entries, w.l);
    assert offs[i] in offs && offs[j] in offs;
    PutThereMeans(appends, gets, run, entries, w.l, k, offs[i]);
    PutThereMeans(appends, gets, run, entries, w.l, k, offs[j]);
    LandersRise(appends, gets, run, Lander(appends, run, offs[i]), Lander(appends, run, offs[j]));
  }

  /** Each operation's instant is an event of the run, of its own kind, between its call and its return. */
  lemma EventHolds(appends: seq<Append>, gets: seq<Read>, run: seq<Event>, entries: seq<Entry>, w: Work, k: string,
      j: nat)
    requires Watched(appends, gets, run, entries, w) && j < |Lookup(w.from, k)|
    ensures |Lookup(w.byKey, k)| == |Lookup(w.from, k)|
    ensures var x := Lookup(w.from, k)[j];
      var e := EventOf(appends, gets, run, x);
      var op := Lookup(w.byKey, k)[j];
      && e < |run| && op.call <= run[e].time <= op.ret && op.group == 0 && IsOp(w.landed, w.clean, op, x)
      && match x {
        case Copy(o) => IsLander(appends, run, o, e) && o in Lookup(w.placed, k)
        case Get(r) => r < |gets| && gets[r].key == k && Saw(appends, gets, run, r, e)
      }
  {
    hide Observed, IsRun, LogRuns.Recorded, UniqueValues, RecordedReads, NoCollision, ListsValues, ListsKeys,
      ListsOffsets, LastOff, PutThere, WindowsRight, Usable, Lookup, Seer, Lander;
    Parts(appends, gets, run, entries, w.l);
    assert Matched(w.landed, w.clean, Lookup(w.byKey, k), Lookup(w.from, k));
    var x := Lookup(w.from, k)[j];
    assert x in Lookup(w.from, k);
    match x {
      case Copy(o) =>
        PutThereMeans(appends, gets, run, entries, w.l, k, o);
        InIndex(appends, w.l, k, o);
        LandedInWindow(appends, gets, run, entries, w, o);
      case Get(r) =>
        SeerSaw(appends, gets, run, r);
    }
  }

  lemma InIndex(appends: seq<Append>, l: Index, k: string, o: nat)
    requires PutThere(appends, l, |appends|, k, o)
    ensures o in l.byOffset
  {
  }

  lemma EventsDistinct(appends: seq<Append>, gets: seq<Read>, run: seq<Event>, entries: seq<Entry>, w: Work,
      k: string, i: nat, j: nat)
    requires Watched(appends, gets, run, entries, w) && i < j < |Lookup(w.from, k)|
    ensures EventOf(appends, gets, run, Lookup(w.from, k)[i]) != EventOf(appends, gets, run, Lookup(w.from, k)[j])
  {
    hide Observed, RecordedReads, LastOff, PutThere, WindowsRight, Usable, Lookup, EventOf;
    EventHolds(appends, gets, run, entries, w, k, i);
    EventHolds(appends, gets, run, entries, w, k, j);
    assert Matched(w.landed, w.clean, Lookup(w.byKey, k), Lookup(w.from, k));
  }

  ghost predicate Events(appends: seq<Append>, gets: seq<Read>, run: seq<Event>, xs: seq<Origin>, ev: seq<nat>) {
    |ev| == |xs| && forall j :: 0 <= j < |xs| ==> ev[j] == EventOf(appends, gets, run, xs[j])
  }

  lemma KeyInstants(appends: seq<Append>, gets: seq<Read>, run: seq<Event>, entries: seq<Entry>, w: Work, k: string,
      ev: seq<nat>, land: seq<nat>)
    requires Watched(appends, gets, run, entries, w) && Events(appends, gets, run, Lookup(w.from, k), ev) &&
      Landers(appends, run, Lookup(w.placed, k), land)
    ensures Instants(Lookup(w.byKey, k), Lookup(w.from, k), Lookup(w.placed, k), ev, land)
  {
    hide Watched, LastOff, Lookup, Lander, Seer, IsCut, IsCopied, IsCopy;
    var ops, xs, offs := Lookup(w.byKey, k), Lookup(w.from, k), Lookup(w.placed, k);
    KeySizes(appends, gets, run, entries, w, k);
    forall i, j | 0 <= i < j < |ev| ensures ev[i] != ev[j] {
      EventsDistinct(appends, gets, run, entries, w, k, i, j);
    }
    forall i, j | 0 <= i < j < |land| ensures land[i] < land[j] {
      LandersInOrder(appends, gets, run, entries, w, k, i, j);
    }
    forall i: nat | i < |offs| ensures IsCopied(xs, ev, offs, land, i) {
      CopiedIn(appends, gets, run, entries, w, k, ev, land, i);
    }
    forall j: nat | j < |xs| && xs[j].Copy?
      ensures !ops[j].input.read && ops[j].input.off == xs[j].off && IsCopy(xs, ev, offs, land, j)
    {
      EventHolds(appends, gets, run, entries, w, k, j);
      CopyIn(appends, run, xs, offs, ev, land, j, gets);
    }
    forall j: nat | j < |xs| && xs[j].Get? ensures ops[j].input.read && ReadLast(ops[j].output, offs, land, ev[j]) {
      EventHolds(appends, gets, run, entries, w, k, j);
      GetIn(appends, gets, run, entries, w, k, ev, land, j);
    }
  }

  lemma KeySizes(appends: seq<Append>, gets: seq<Read>, run: seq<Event>, entries: seq<Entry>, w: Work, k: string)
    requires Watched(appends, gets, run, entries, w)
    ensures |Lookup(w.byKey, k)| == |Lookup(w.from, k)|
  {
    hide Observed, RecordedReads, WindowsRight, Usable, Lookup, IsOp;
    assert Matched(w.landed, w.clean, Lookup(w.byKey, k), Lookup(w.from, k));
  }

  lemma CopiedIn(appends: seq<Append>, gets: seq<Read>, run: seq<Event>, entries: seq<Entry>, w: Work, k: string,
      ev: seq<nat>, land: seq<nat>, i: nat)
    requires Watched(appends, gets, run, entries, w) && Events(appends, gets, run, Lookup(w.from, k), ev) &&
      Landers(appends, run, Lookup(w.placed, k), land)
    requires i < |Lookup(w.placed, k)|
    ensures IsCopied(Lookup(w.from, k), ev, Lookup(w.placed, k), land, i)
  {
    hide Observed, RecordedReads, WindowsRight, Usable, Lookup, AllMatched, PutThere;
    var xs, offs := Lookup(w.from, k), Lookup(w.placed, k);
    assert offs[i] in offs;
    assert Copy(offs[i]) in xs;
    var j: nat :| j < |xs| && xs[j] == Copy(offs[i]);
    assert CopyAt(xs, ev, offs, land, j, i);
  }

  lemma CopyIn(appends: seq<Append>, run: seq<Event>, xs: seq<Origin>, offs: seq<nat>, ev: seq<nat>, land: seq<nat>,
      j: nat, gets: seq<Read>)
    requires Events(appends, gets, run, xs, ev) && Landers(appends, run, offs, land) && j < |xs| && xs[j].Copy? &&
      xs[j].off in offs
    ensures IsCopy(xs, ev, offs, land, j)
  {
    var i: nat :| i < |offs| && offs[i] == xs[j].off;
    assert CopyAt(xs, ev, offs, land, j, i);
  }

  lemma GetIn(appends: seq<Append>, gets: seq<Read>, run: seq<Event>, entries: seq<Entry>, w: Work, k: string,
      ev: seq<nat>, land: seq<nat>, j: nat)
    requires Watched(appends, gets, run, entries, w) && Events(appends, gets, run, Lookup(w.from, k), ev) &&
      Landers(appends, run, Lookup(w.placed, k), land)
    requires j < |Lookup(w.from, k)| && Lookup(w.from, k)[j].Get?
    ensures |Lookup(w.byKey, k)| == |Lookup(w.from, k)| &&
      ReadLast(Lookup(w.byKey, k)[j].output, Lookup(w.placed, k), land, ev[j])
  {
    hide Observed, RecordedReads, WindowsRight, Usable, Lookup, AllMatched, PutThere, LastOff, Lander, Seer, IsCut;
    var xs, offs := Lookup(w.from, k), Lookup(w.placed, k);
    EventHolds(appends, gets, run, entries, w, k, j);
    forall i | 0 <= i < |land| ensures land[i] != ev[j] {
      assert offs[i] in offs;
      PutThereMeans(appends, gets, run, entries, w.l, k, offs[i]);
    }
    forall pos: nat | IsCut(land, ev[j], pos) ensures Last(offs, pos) == Lookup(w.byKey, k)[j].output {
      LooksLast(appends, gets, run, entries, w, k, xs[j].r, land, pos);
    }
  }

  lemma KeyInTime(appends: seq<Append>, gets: seq<Read>, run: seq<Event>, entries: seq<Entry>, w: Work, k: string,
      ev: seq<nat>) returns (at: seq<int>)
    requires Watched(appends, gets, run, entries, w) && Events(appends, gets, run, Lookup(w.from, k), ev)
    ensures InTime(Lookup(w.byKey, k), ev, at) && forall j :: 0 <= j < |ev| ==> ev[j] < |run|
  {
    hide Watched, Lookup, IsOp, Saw, IsLander, EventOf;
    KeySizes(appends, gets, run, entries, w, k);
    var ops := Lookup(w.byKey, k);
    forall j | 0 <= j < |ev|
      ensures ev[j] < |run| && ops[j].call <= run[ev[j]].time <= ops[j].ret && ops[j].group == 0
    {
      EventHolds(appends, gets, run, entries, w, k, j);
    }
    at := seq(|ev|, j requires 0 <= j < |ev| => run[ev[j]].time);
    forall i, j | 0 <= i < |ev| && 0 <= j < |ev| && ev[i] < ev[j] ensures at[i] <= at[j] {
      WatchedRises(appends, gets, run, entries, w, ev[i], ev[j]);
    }
  }

  lemma WatchedRises(appends: seq<Append>, gets: seq<Read>, run: seq<Event>, entries: seq<Entry>, w: Work, e: nat,
      f: nat)
    requires Watched(appends, gets, run, entries, w) && e < f < |run|
    ensures run[e].time <= run[f].time
  {
    hide Allowed, RecordedReads, WindowsRight, HistoriesRight, Indexed, Final, UniqueValues, LogRuns.Recorded;
  }

  /** For every run of the log, each key's history is linearizable. */
  lemma KeysLinearizable(appends: seq<Append>, gets: seq<Read>, run: seq<Event>, entries: seq<Entry>, w: Work,
      k: string)
    requires Watched(appends, gets, run, entries, w)
    ensures KeyLinearizable(w, k) && WellTimed(Lookup(w.byKey, k))
  {
    hide Watched, Lookup, EventOf, Lander, Instants, InTime, KeyModel, Linearizable;
    var xs, offs := Lookup(w.from, k), Lookup(w.placed, k);
    var ev := seq(|xs|, j requires 0 <= j < |xs| => EventOf(appends, gets, run, xs[j]));
    var land := seq(|offs|, i requires 0 <= i < |offs| => Lander(appends, run, offs[i]));
    KeyInstants(appends, gets, run, entries, w, k, ev, land);
    var at := KeyInTime(appends, gets, run, entries, w, k, ev);
    InstantsLinearize(Lookup(w.byKey, k), xs, offs, ev, land, at, |run|);
  }

  /** For every run of the log and its reads, there is no dirty read and no read that is not linearizable. */
  lemma NoFalseReadAlarms(appends: seq<Append>, gets: seq<Read>, run: seq<Event>, entries: seq<Entry>, w: Work)
    requires Observed(appends, gets, run, entries, w.l) && RecordedReads(appends, gets, run) &&
      Worked(appends, entries, gets, w)
    ensures DirtyReports(w.l, gets, |gets|) == []
    ensures forall k :: KeyLinearizable(w, k) && WellTimed(Lookup(w.byKey, k))
  {
    hide Observed, RecordedReads, WindowsRight, HistoriesRight, KeyLinearizable, WellTimed, Indexed, IsRun,
      LogRuns.Recorded, UniqueValues;
    Parts(appends, gets, run, entries, w.l);
    forall r | 0 <= r < |gets| ensures !Dirty(w.l, gets[r]) {
      if gets[r].offset != 0 {
        SeenLanded(appends, gets, run, entries, w.l, r);
      }
    }
    DirtyReported(w.l, gets, |gets|);
    CleanIsAll(w.l, gets, |gets|);
    TakeAll(gets);
    forall k ensures KeyLinearizable(w, k) && WellTimed(Lookup(w.byKey, k)) {
      KeysLinearizable(appends, gets, run, entries, w, k);
    }
  }

  /**
   Of every run of the log and its reads, what CheckReads reports is nothing; and with no limit
   every search finishes.
   */
  lemma CheckReadsIsSilent(appends: seq<Append>, gets: seq<Read>, run: seq<Event>, entries: seq<Entry>,
      bad: seq<Anomaly<About>>, unknown: seq<string>, limit: nat, ctx: nat -> bool)
    requires OfRun(appends, gets, run, entries) && RecordedReads(appends, gets, run)
    requires ReadsReported(appends, entries, gets, bad, unknown, limit, ctx)
    ensures bad == [] && (limit == 0 && (forall n :: !ctx(n)) ==> unknown == [])
  {
    hide OfRun, RecordedReads, Worked, KeyLinearizable, WellTimed, Unexplained, DirtyReports;
    var w :| Worked(appends, entries, gets, w) && ReadVerdict(gets, w, bad, unknown) &&
      ReadKinds(gets, w, KindsOf(bad), unknown) && GivenUp(w, unknown, limit, ctx);
    WorkedIndex(appends, entries, gets, w);
    NoFalseReadAlarms(appends, gets, run, entries, w);
    forall k | k in w.byKey ensures Unexplained(k) !in bad && WellTimed(w.byKey[k]) {
      assert KeyLinearizable(w, k) && WellTimed(Lookup(w.byKey, k));
    }
    assert bad[0..] == bad;
    forall x ensures x !in bad {
    }
    NothingIn(bad);
    if limit == 0 && forall n :: !ctx(n) {
      forall k ensures k !in unknown {
        assert k in unknown ==> GivenUpFor(Lookup(w.byKey, k), Lookup(w.placed, k), limit, ctx);
      }
      NothingIn(unknown);
    }
  }

  lemma WorkedIndex(appends: seq<Append>, entries: seq<Entry>, gets: seq<Read>, w: Work)
    requires Worked(appends, entries, gets, w)
    ensures Indexed(entries, w.l)
  {
  }
}
