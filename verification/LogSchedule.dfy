/**
 A run of the atomic log and its reads, made from a plan: for each entry of the final log, the
 attempt that put it there and the time it did.
 */
module LogSchedule {
  import opened Options
  import opened Seqs
  import opened Maps
  import opened History
  import opened Sorting
  import opened Logs
  import opened LogWindows
  import opened LogCheck
  import opened LogRuns

  /** The append and the attempt an entry came of, and the time it landed. */
  datatype Source = Source(a: nat, t: nat, at: int64)

  predicate InHistory(appends: seq<Append>, a: nat, t: nat) {
    a < |appends| && t < |appends[a].attempts|
  }

  /** The attempt may have made the entry at `o`, at that time. */
  ghost predicate SourceOk(appends: seq<Append>, l: Index, o: nat, s: Source) {
    && o > 0 && InHistory(appends, s.a, s.t) && !appends[s.a].attempts[s.t].outcome.Failed?
    && appends[s.a].attempts[s.t].call <= s.at
    && o in l.byOffset && l.byOffset[o] == Entry(o, appends[s.a].key, appends[s.a].value)
    && MetAt(l, appends[s.a], o)
  }

  /** Two entries land in the order of their offsets, and from attempts of their own. */
  ghost predicate Apart(appends: seq<Append>, s: Source, r: Source) {
    && s.at <= r.at
    && (s.a == r.a ==> s.t != r.t && s.a < |appends| && !appends[s.a].idempotent)
  }

  /** An ack names an entry of its append, with no idempotency key its own, landed by then. */
  ghost predicate AckOk(appends: seq<Append>, plan: map<nat, Source>, a: nat, t: nat)
    requires InHistory(appends, a, t)
  {
    var T := appends[a].attempts[t];
    T.outcome.OK? ==>
      && T.call <= T.ret && T.offset in plan && plan[T.offset].a == a && plan[T.offset].at <= T.ret
      && (appends[a].idempotent || plan[T.offset].t == t)
  }

  ghost predicate Planned(appends: seq<Append>, l: Index, plan: map<nat, Source>) {
    && (forall o :: o in plan <==> o in l.byOffset)
    && (forall o :: o in plan ==> SourceOk(appends, l, o, plan[o]))
    && (forall o, p :: o in plan && p in plan && o < p ==> Apart(appends, plan[o], plan[p]))
    && (forall a: nat, t: nat :: InHistory(appends, a, t) ==> AckOk(appends, plan, a, t))
  }

  /**
   A read returned an entry under its key that landed by its return, or none; and the key's later
   entries landed no sooner than its call.
   */
  ghost predicate ReadOk(l: Index, plan: map<nat, Source>, r: Read) {
    && r.call <= r.ret
    && (r.offset != 0 ==>
      r.offset in plan && r.offset in l.byOffset && l.byOffset[r.offset] == Entry(r.offset, r.key, r.value) &&
      plan[r.offset].at <= r.ret)
    && (forall o :: o in plan && o in l.byOffset && l.byOffset[o].key == r.key && o > r.offset ==> r.call <= plan[o].at)
  }

  ghost predicate ReadsOk(l: Index, plan: map<nat, Source>, gets: seq<Read>) {
    forall r :: 0 <= r < |gets| ==> ReadOk(l, plan, gets[r])
  }

  // ----- The events

  /** When a read looks: once it is sent and its entry has landed. */
  function LookTime(plan: map<nat, Source>, r: Read): int64 {
    if r.offset != 0 && r.offset in plan then Greatest(r.call, plan[r.offset].at) else r.call
  }

  /** What takes place, and when. */
  predicate Happens(appends: seq<Append>, gets: seq<Read>, plan: map<nat, Source>, e: Event) {
    match e
    case Send(a, t, time) => InHistory(appends, a, t) && time == appends[a].attempts[t].call
    case Land(a, t, off, time) => off in plan && plan[off] == Source(a, t, time)
    case Repeat(a, t, off, time) =>
      && InHistory(appends, a, t) && appends[a].attempts[t].outcome.OK? && appends[a].idempotent
      && off == appends[a].attempts[t].offset && off in plan && plan[off].t != t
      && time == Greatest(appends[a].attempts[t].call, plan[off].at)
    case Refuse(a, t, time) =>
      InHistory(appends, a, t) && appends[a].attempts[t].outcome.Failed? && time == appends[a].attempts[t].call
    case Accepted(a, t, off, time) =>
      && InHistory(appends, a, t) && appends[a].attempts[t].outcome.OK?
      && off == appends[a].attempts[t].offset && time == appends[a].attempts[t].ret
    case Declined(a, t, time) =>
      InHistory(appends, a, t) && appends[a].attempts[t].outcome.Failed? && time == appends[a].attempts[t].call
    case Ask(r, time) => r < |gets| && time == gets[r].call
    case See(r, off, time) => r < |gets| && off == gets[r].offset && time == LookTime(plan, gets[r])
    case Told(r, time) => r < |gets| && time == gets[r].ret
  }

  /**
   Of events at one time: what is sent first, then what lands and who looks, then other answers,
   then their arrival.
   */
  function Phase(e: Event): nat {
    if e.Send? || e.Ask? then 0 else if e.Land? || e.See? then 1 else if e.Repeat? || e.Refuse? then 2 else 3
  }

  /** A read looks just after its entry has landed. */
  function Tie(e: Event): nat { if e.Land? then 2 * e.off else if e.See? then 2 * e.off + 1 else 0 }

  predicate NoLaterEvent(x: Event, y: Event) {
    x.time < y.time ||
    (x.time == y.time && (Phase(x) < Phase(y) || (Phase(x) == Phase(y) && Tie(x) <= Tie(y))))
  }

  /** All that happens, once, in order. */
  ghost predicate Scheduled(appends: seq<Append>, gets: seq<Read>, plan: map<nat, Source>, run: seq<Event>) {
    && Distinct(run) && Sorted(run, NoLaterEvent)
    && (forall e :: e in run <==> Happens(appends, gets, plan, e))
  }

  lemma OrderTotal()
    ensures TotalPreorder(NoLaterEvent)
  {
  }

  ghost function Attempts(appends: seq<Append>): set<(nat, nat)> {
    set a, t | 0 <= a < |appends| && 0 <= t < |appends[a].attempts| :: (a, t)
  }

  /** The events of an attempt. */
  ghost function EventsOf(appends: seq<Append>, gets: seq<Read>, plan: map<nat, Source>, a: nat, t: nat): set<Event>
    requires InHistory(appends, a, t)
  {
    var T := appends[a].attempts[t];
    var all := {Send(a, t, T.call), Refuse(a, t, T.call), Declined(a, t, T.call), Accepted(a, t, T.offset, T.ret)} +
      if T.offset in plan then {Repeat(a, t, T.offset, Greatest(T.call, plan[T.offset].at))} else {};
    set e | e in all && Happens(appends, gets, plan, e)
  }

  ghost function Landings(plan: map<nat, Source>): set<Event> {
    set o | o in plan :: Land(plan[o].a, plan[o].t, o, plan[o].at)
  }

  ghost function AllEvents(appends: seq<Append>, gets: seq<Read>, plan: map<nat, Source>): set<Event> {
    (set p, e | p in Attempts(appends) && e in EventsOf(appends, gets, plan, p.0, p.1) :: e) + Landings(plan) +
    (set r, e | 0 <= r < |gets| && e in ReadEvents(gets, plan, r) :: e)
  }

  ghost function ReadEvents(gets: seq<Read>, plan: map<nat, Source>, r: nat): set<Event>
    requires r < |gets|
  {
    {Ask(r, gets[r].call), See(r, gets[r].offset, LookTime(plan, gets[r])), Told(r, gets[r].ret)}
  }

  lemma EventsAre(appends: seq<Append>, gets: seq<Read>, plan: map<nat, Source>, e: Event)
    ensures e in AllEvents(appends, gets, plan) <==> Happens(appends, gets, plan, e)
  {
    if Happens(appends, gets, plan, e) {
      if e.Ask? || e.See? || e.Told? {
        assert e in ReadEvents(gets, plan, e.r);
      } else if !e.Land? {
        assert (e.a, e.t) in Attempts(appends);
        assert e in EventsOf(appends, gets, plan, e.a, e.t);
      }
    }
  }

  lemma Schedule(appends: seq<Append>, gets: seq<Read>, plan: map<nat, Source>) returns (run: seq<Event>)
    ensures Scheduled(appends, gets, plan, run)
  {
    hide AllEvents, Happens, NoLaterEvent;
    var all := Enumerated(AllEvents(appends, gets, plan));
    run := Sort(all, NoLaterEvent);
    OrderTotal();
    SortSorted(all, NoLaterEvent);
    SameElements(all, run);
    SameDistinct(all, run);
    forall e ensures e in run <==> Happens(appends, gets, plan, e) {
      EventsAre(appends, gets, plan, e);
    }
  }

  // ----- What comes before what

  lemma HappensAt(appends: seq<Append>, gets: seq<Read>, plan: map<nat, Source>, run: seq<Event>, e: nat)
    requires Scheduled(appends, gets, plan, run) && e < |run|
    ensures Happens(appends, gets, plan, run[e])
  {
    hide Happens, NoLaterEvent;
    assert run[e] in run;
  }

  /** What is to come before an event does. */
  lemma Earlier(appends: seq<Append>, gets: seq<Read>, plan: map<nat, Source>, run: seq<Event>, x: Event, e: nat)
      returns (d: nat)
    requires Scheduled(appends, gets, plan, run) && e < |run| && Happens(appends, gets, plan, x) &&
      !NoLaterEvent(run[e], x)
    ensures d < e && run[d] == x
  {
    hide Happens;
    assert x in run;
    d :| 0 <= d < |run| && run[d] == x;
  }

  lemma InOrder(appends: seq<Append>, gets: seq<Read>, plan: map<nat, Source>, run: seq<Event>, d: nat, e: nat)
    requires Scheduled(appends, gets, plan, run) && d < e < |run|
    ensures NoLaterEvent(run[d], run[e]) && run[d] != run[e] && run[d].time <= run[e].time
  {
    hide Happens;
  }

  lemma LandsInOrder(appends: seq<Append>, gets: seq<Read>, l: Index, plan: map<nat, Source>, run: seq<Event>,
      d: nat, e: nat)
    requires Planned(appends, l, plan) && Scheduled(appends, gets, plan, run) && d < e < |run|
    requires run[d].Land? && run[e].Land?
    ensures run[d].off < run[e].off
  {
    hide Scheduled, AckOk, SourceOk;
    HappensAt(appends, gets, plan, run, d);
    HappensAt(appends, gets, plan, run, e);
    var o, p := run[d].off, run[e].off;
    assert p < o ==> Apart(appends, plan[p], plan[o]);
    InOrder(appends, gets, plan, run, d, e);
  }

  lemma BelowLanded(appends: seq<Append>, gets: seq<Read>, l: Index, plan: map<nat, Source>, run: seq<Event>, o: nat,
      e: nat)
      returns (d: nat)
    requires Planned(appends, l, plan) && Scheduled(appends, gets, plan, run) && e < |run| && run[e].Land?
    requires o in plan && o < run[e].off
    ensures d < e && run[d] == Land(plan[o].a, plan[o].t, o, plan[o].at)
  {
    hide Scheduled, AckOk, SourceOk;
    HappensAt(appends, gets, plan, run, e);
    assert Apart(appends, plan[o], plan[run[e].off]);
    d := Earlier(appends, gets, plan, run, Land(plan[o].a, plan[o].t, o, plan[o].at), e);
  }

  /** The log answers an attempt once. */
  lemma OneAnswer(appends: seq<Append>, gets: seq<Read>, l: Index, plan: map<nat, Source>, x: Event, y: Event,
      a: nat, t: nat)
    requires Planned(appends, l, plan) && Happens(appends, gets, plan, x) && Happens(appends, gets, plan, y)
    requires Answers(x, a, t) && Answers(y, a, t)
    ensures x == y
  {
    hide MetAt;
    if x.Land? && y.Land? {
      LandOnce(appends, gets, l, plan, x, y);
    } else if x.Land? {
      LandNotRepeat(appends, gets, l, plan, x, y);
    } else if y.Land? {
      LandNotRepeat(appends, gets, l, plan, y, x);
    }
  }

  lemma LandOnce(appends: seq<Append>, gets: seq<Read>, l: Index, plan: map<nat, Source>, x: Event, y: Event)
    requires Planned(appends, l, plan) && Happens(appends, gets, plan, x) && Happens(appends, gets, plan, y)
    requires x.Land? && y.Land? && x.a == y.a && (x.t == y.t || (x.a < |appends| && appends[x.a].idempotent))
    ensures x == y
  {
    hide MetAt, AckOk, SourceOk;
    assert x.off < y.off ==> Apart(appends, plan[x.off], plan[y.off]);
    assert y.off < x.off ==> Apart(appends, plan[y.off], plan[x.off]);
  }

  lemma LandNotRepeat(appends: seq<Append>, gets: seq<Read>, l: Index, plan: map<nat, Source>, x: Event, y: Event)
    requires Planned(appends, l, plan) && Happens(appends, gets, plan, x) && Happens(appends, gets, plan, y)
    requires x.Land? && (y.Repeat? || y.Refuse?) && x.a == y.a
    ensures x.t != y.t
  {
    hide MetAt;
    assert SourceOk(appends, l, x.off, plan[x.off]);
    if y.Repeat? {
      assert AckOk(appends, plan, y.a, y.t);
      var s := plan[y.off];
      LandOnce(appends, gets, l, plan, x, Land(s.a, s.t, y.off, s.at));
    }
  }

  lemma NotAnswered(appends: seq<Append>, gets: seq<Read>, l: Index, plan: map<nat, Source>, run: seq<Event>, e: nat,
      a: nat, t: nat)
    requires Planned(appends, l, plan) && Scheduled(appends, gets, plan, run) && e < |run| && Answers(run[e], a, t)
    ensures !AnsweredBefore(run, e, a, t)
  {
    hide Planned, Scheduled, Happens;
    forall d | 0 <= d < e ensures !Answers(run[d], a, t) {
      HappensAt(appends, gets, plan, run, d);
      HappensAt(appends, gets, plan, run, e);
      InOrder(appends, gets, plan, run, d, e);
      if Answers(run[d], a, t) { OneAnswer(appends, gets, l, plan, run[d], run[e], a, t); }
    }
  }

  lemma Sent(appends: seq<Append>, gets: seq<Read>, plan: map<nat, Source>, run: seq<Event>, e: nat, a: nat, t: nat)
    requires Scheduled(appends, gets, plan, run) && e < |run| && InHistory(appends, a, t)
    requires appends[a].attempts[t].call <= run[e].time && !run[e].Send? && !run[e].Ask?
    ensures SentBefore(run, e, a, t)
  {
    hide Scheduled;
    var _ := Earlier(appends, gets, plan, run, Send(a, t, appends[a].attempts[t].call), e);
  }

  // ----- What the log ends with, at each landing

  ghost predicate Lists(l: Index, key: Option<string>, offs: seq<nat>) {
    && Increasing(offs)
    && forall o :: o in offs <==> o in l.byOffset && (key.None? || l.byOffset[o].key == key.value)
  }

  lemma UnderKey(appends: seq<Append>, gets: seq<Read>, l: Index, plan: map<nat, Source>, x: Event, key: Option<string>)
    requires Planned(appends, l, plan) && Happens(appends, gets, plan, x) && x.Land?
    ensures x.off > 0 && x.off in l.byOffset
    ensures LandsUnder(appends, x, key) <==> key.None? || l.byOffset[x.off].key == key.value
  {
    hide MetAt, AckOk, Apart;
    assert SourceOk(appends, l, x.off, plan[x.off]);
  }

  ghost predicate LandedUnder(appends: seq<Append>, run: seq<Event>, e: nat, key: Option<string>, o: nat) {
    exists d :: 0 <= d < e <= |run| && LandsUnder(appends, run[d], key) && run[d].off == o
  }

  /** If just the entries below `cut` have landed, the last is the one below it. */
  lemma LastBelow(appends: seq<Append>, gets: seq<Read>, l: Index, plan: map<nat, Source>, run: seq<Event>, e: nat,
      key: Option<string>, offs: seq<nat>, cut: nat)
    requires Planned(appends, l, plan) && Scheduled(appends, gets, plan, run) && e < |run| && Lists(l, key, offs)
    requires forall d :: 0 <= d < e && LandsUnder(appends, run[d], key) ==> run[d].off < cut
    requires forall o :: o in offs && o < cut ==> LandedUnder(appends, run, e, key, o)
    ensures LastOff(appends, run, e, key) == Before(offs, cut)
  {
    hide Planned, Scheduled, Happens;
    var last, low := LastOff(appends, run, e, key), Before(offs, cut);
    BeforeMeans(offs, cut);
    forall c, d | 0 <= c < d < e && run[c].Land? && run[d].Land? ensures run[c].off < run[d].off {
      LandsInOrder(appends, gets, l, plan, run, c, d);
    }
    LastOffMeans(appends, run, e, key);
    if last != 0 {
      var d :| 0 <= d < e && LandsUnder(appends, run[d], key) && run[d].off == last;
      HappensAt(appends, gets, plan, run, d);
      UnderKey(appends, gets, l, plan, run[d], key);
      assert last in offs;
    }
    if low != 0 { assert LandedUnder(appends, run, e, key, low); }
  }

  /** Just before an entry lands, the last one there is the one below it. */
  lemma LastIsBefore(appends: seq<Append>, gets: seq<Read>, l: Index, plan: map<nat, Source>, run: seq<Event>, e: nat,
      key: Option<string>, offs: seq<nat>)
    requires Planned(appends, l, plan) && Scheduled(appends, gets, plan, run) && e < |run| && run[e].Land?
    requires Lists(l, key, offs)
    ensures LastOff(appends, run, e, key) == Before(offs, run[e].off)
  {
    hide Planned, Scheduled, Lists;
    forall d | 0 <= d < e && LandsUnder(appends, run[d], key) ensures run[d].off < run[e].off {
      LandsInOrder(appends, gets, l, plan, run, d, e);
    }
    forall o | o in offs && o < run[e].off ensures LandedUnder(appends, run, e, key, o) {
      LowLanded(appends, gets, l, plan, run, e, key, offs, o);
    }
    LastBelow(appends, gets, l, plan, run, e, key, offs, run[e].off);
  }

  lemma LowLanded(appends: seq<Append>, gets: seq<Read>, l: Index, plan: map<nat, Source>, run: seq<Event>, e: nat,
      key: Option<string>, offs: seq<nat>, low: nat)
    requires Planned(appends, l, plan) && Scheduled(appends, gets, plan, run) && e < |run| && run[e].Land?
    requires Lists(l, key, offs) && low in offs && low < run[e].off
    ensures LandedUnder(appends, run, e, key, low)
  {
    hide Scheduled, SourceOk, AckOk, Apart, LandsUnder;
    var d := BelowLanded(appends, gets, l, plan, run, low, e);
    UnderKey(appends, gets, l, plan, run[d], key);
  }

  // ----- Each event is allowed

  lemma AllowedSend(appends: seq<Append>, gets: seq<Read>, l: Index, plan: map<nat, Source>, run: seq<Event>, e: nat)
    requires Scheduled(appends, gets, plan, run) && e < |run| && run[e].Send?
    ensures Allowed(appends, gets, run, e)
  {
    hide Scheduled;
    HappensAt(appends, gets, plan, run, e);
    forall d | 0 <= d < e && run[d].Send? ensures run[d].a != run[e].a || run[d].t != run[e].t {
      HappensAt(appends, gets, plan, run, d);
      InOrder(appends, gets, plan, run, d, e);
    }
  }

  lemma AllowedLand(appends: seq<Append>, gets: seq<Read>, l: Index, plan: map<nat, Source>, run: seq<Event>, e: nat)
    requires Planned(appends, l, plan) && Scheduled(appends, gets, plan, run) && e < |run| && run[e].Land?
    requires ListsKeys(l.byOffset, l.byKey) && (forall k :: Increasing(Lookup(l.byKey, k)))
    requires ListsOffsets(l.byOffset, l.offsets) && Increasing(l.offsets)
    ensures Allowed(appends, gets, run, e)
  {
    hide Scheduled, LastOff, Apart, AckOk, Increasing, ListsKeys, ListsOffsets, MetAt;
    HappensAt(appends, gets, plan, run, e);
    var a, t, off := run[e].a, run[e].t, run[e].off;
    assert SourceOk(appends, l, off, plan[off]);
    Sent(appends, gets, plan, run, e, a, t);
    NotAnswered(appends, gets, l, plan, run, e, a, t);
    Met(appends, gets, l, plan, run, e);
    if appends[a].idempotent { NotLanded(appends, gets, l, plan, run, e); }
  }

  lemma Met(appends: seq<Append>, gets: seq<Read>, l: Index, plan: map<nat, Source>, run: seq<Event>, e: nat)
    requires Planned(appends, l, plan) && Scheduled(appends, gets, plan, run) && e < |run| && run[e].Land?
    requires ListsKeys(l.byOffset, l.byKey) && (forall k :: Increasing(Lookup(l.byKey, k)))
    requires ListsOffsets(l.byOffset, l.offsets) && Increasing(l.offsets)
    requires run[e].a < |appends| && run[e].off > 0 && MetAt(l, appends[run[e].a], run[e].off)
    ensures run[e].off > LastOff(appends, run, e, None)
    ensures Holds(appends[run[e].a].afterKey, LastOff(appends, run, e, Some(appends[run[e].a].key)))
    ensures Holds(appends[run[e].a].afterLog, LastOff(appends, run, e, None))
  {
    hide Planned, Scheduled, LastOff, Increasing, Before;
    var a := appends[run[e].a];
    LastIsBefore(appends, gets, l, plan, run, e, None, l.offsets);
    LastIsBefore(appends, gets, l, plan, run, e, Some(a.key), Lookup(l.byKey, a.key));
    BeforeMeans(l.offsets, run[e].off);
  }

  lemma NotLanded(appends: seq<Append>, gets: seq<Read>, l: Index, plan: map<nat, Source>, run: seq<Event>, e: nat)
    requires Planned(appends, l, plan) && Scheduled(appends, gets, plan, run) && e < |run| && run[e].Land?
    requires run[e].a < |appends| && appends[run[e].a].idempotent
    ensures !LandedBefore(run, e, run[e].a)
  {
    hide Planned, Scheduled, Happens;
    forall d | 0 <= d < e && run[d].Land? ensures run[d].a != run[e].a {
      HappensAt(appends, gets, plan, run, d);
      HappensAt(appends, gets, plan, run, e);
      InOrder(appends, gets, plan, run, d, e);
      if run[d].a == run[e].a { LandOnce(appends, gets, l, plan, run[d], run[e]); }
    }
  }

  lemma AllowedRepeat(appends: seq<Append>, gets: seq<Read>, l: Index, plan: map<nat, Source>, run: seq<Event>, e: nat)
    requires Planned(appends, l, plan) && Scheduled(appends, gets, plan, run) && e < |run| && run[e].Repeat?
    ensures Allowed(appends, gets, run, e)
  {
    hide Scheduled, SourceOk, Apart;
    HappensAt(appends, gets, plan, run, e);
    var a, t, s := run[e].a, run[e].t, plan[run[e].off];
    assert AckOk(appends, plan, a, t);
    Sent(appends, gets, plan, run, e, a, t);
    NotAnswered(appends, gets, l, plan, run, e, a, t);
    var d := Earlier(appends, gets, plan, run, Land(s.a, s.t, run[e].off, s.at), e);
    assert run[d].Land?;
  }

  lemma AllowedRefuse(appends: seq<Append>, gets: seq<Read>, l: Index, plan: map<nat, Source>, run: seq<Event>, e: nat)
    requires Planned(appends, l, plan) && Scheduled(appends, gets, plan, run) && e < |run| && run[e].Refuse?
    ensures Allowed(appends, gets, run, e)
  {
    hide Scheduled, Planned;
    HappensAt(appends, gets, plan, run, e);
    Sent(appends, gets, plan, run, e, run[e].a, run[e].t);
    NotAnswered(appends, gets, l, plan, run, e, run[e].a, run[e].t);
  }

  lemma AllowedAccepted(appends: seq<Append>, gets: seq<Read>, l: Index, plan: map<nat, Source>, run: seq<Event>,
      e: nat)
    requires Planned(appends, l, plan) && Scheduled(appends, gets, plan, run) && e < |run| && run[e].Accepted?
    ensures Allowed(appends, gets, run, e)
  {
    hide Scheduled, SourceOk, Apart;
    HappensAt(appends, gets, plan, run, e);
    var a, t, off := run[e].a, run[e].t, run[e].off;
    assert AckOk(appends, plan, a, t);
    var x := if plan[off].t == t then Land(a, t, off, plan[off].at)
      else Repeat(a, t, off, Greatest(appends[a].attempts[t].call, plan[off].at));
    var d := Earlier(appends, gets, plan, run, x, e);
    assert run[d].Land? || run[d].Repeat?;
  }

  lemma AllowedDeclined(appends: seq<Append>, gets: seq<Read>, l: Index, plan: map<nat, Source>, run: seq<Event>,
      e: nat)
    requires Scheduled(appends, gets, plan, run) && e < |run| && run[e].Declined?
    ensures Allowed(appends, gets, run, e)
  {
    hide Scheduled;
    HappensAt(appends, gets, plan, run, e);
    var d := Earlier(appends, gets, plan, run, Refuse(run[e].a, run[e].t, run[e].time), e);
    assert run[d].Refuse?;
  }

  // ----- Each read is

  lemma AllowedAsk(appends: seq<Append>, gets: seq<Read>, plan: map<nat, Source>, run: seq<Event>, e: nat)
    requires Scheduled(appends, gets, plan, run) && e < |run| && run[e].Ask?
    ensures Allowed(appends, gets, run, e)
  {
    hide Scheduled;
    HappensAt(appends, gets, plan, run, e);
    forall d | 0 <= d < e && run[d].Ask? ensures run[d].r != run[e].r {
      HappensAt(appends, gets, plan, run, d);
      InOrder(appends, gets, plan, run, d, e);
    }
  }

  /** Of the entries of its key, those up to the one a read returned have landed when it looks, and no others. */
  lemma LooksLast(appends: seq<Append>, gets: seq<Read>, l: Index, plan: map<nat, Source>, run: seq<Event>, e: nat)
    requires Planned(appends, l, plan) && Scheduled(appends, gets, plan, run) && ReadsOk(l, plan, gets)
    requires e < |run| && run[e].See? && run[e].r < |gets|
    requires ListsKeys(l.byOffset, l.byKey) && forall k :: Increasing(Lookup(l.byKey, k))
    ensures run[e].off == gets[run[e].r].offset
    ensures run[e].off == LastOff(appends, run, e, Some(gets[run[e].r].key))
  {
    hide Planned, Scheduled, ReadOk, LastOff, Increasing, ListsKeys, Before;
    var r := gets[run[e].r];
    var offs := Lookup(l.byKey, r.key);
    HappensAt(appends, gets, plan, run, e);
    assert ReadOk(l, plan, r);
    KeyLists(l, r.key);
    forall d | 0 <= d < e && LandsUnder(appends, run[d], Some(r.key)) ensures run[d].off < r.offset + 1 {
      NoneAfterLook(appends, gets, l, plan, run, e, d);
    }
    forall o | o in offs && o < r.offset + 1 ensures LandedUnder(appends, run, e, Some(r.key), o) {
      LandedByLook(appends, gets, l, plan, run, e, o);
    }
    LastBelow(appends, gets, l, plan, run, e, Some(r.key), offs, r.offset + 1);
    BeforeIsOwn(l, plan, r);
  }

  lemma KeyLists(l: Index, key: string)
    requires ListsKeys(l.byOffset, l.byKey) && forall k :: Increasing(Lookup(l.byKey, k))
    ensures Lists(l, Some(key), Lookup(l.byKey, key))
  {
  }

  lemma BeforeIsOwn(l: Index, plan: map<nat, Source>, r: Read)
    requires ListsKeys(l.byOffset, l.byKey) && (forall k :: Increasing(Lookup(l.byKey, k))) && ReadOk(l, plan, r)
    ensures Before(Lookup(l.byKey, r.key), r.offset + 1) == r.offset
  {
    BeforeMeans(Lookup(l.byKey, r.key), r.offset + 1);
    if r.offset != 0 { assert r.offset in Lookup(l.byKey, r.key); }
  }

  lemma NoneAfterLook(appends: seq<Append>, gets: seq<Read>, l: Index, plan: map<nat, Source>, run: seq<Event>, e: nat,
      d: nat)
    requires Planned(appends, l, plan) && Scheduled(appends, gets, plan, run) && d < e < |run|
    requires run[e].See? && run[e].r < |gets| && ReadOk(l, plan, gets[run[e].r])
    requires LandsUnder(appends, run[d], Some(gets[run[e].r].key))
    ensures run[d].off <= gets[run[e].r].offset
  {
    hide Scheduled, SourceOk, AckOk;
    var r, o := gets[run[e].r], run[d].off;
    HappensAt(appends, gets, plan, run, e);
    HappensAt(appends, gets, plan, run, d);
    UnderKey(appends, gets, l, plan, run[d], Some(r.key));
    assert o > r.offset ==> r.call <= plan[o].at;
    assert o > r.offset && r.offset in plan ==> Apart(appends, plan[r.offset], plan[o]);
    InOrder(appends, gets, plan, run, d, e);
  }

  lemma LandedByLook(appends: seq<Append>, gets: seq<Read>, l: Index, plan: map<nat, Source>, run: seq<Event>, e: nat,
      o: nat)
    requires Planned(appends, l, plan) && Scheduled(appends, gets, plan, run) && e < |run|
    requires run[e].See? && run[e].r < |gets| && ReadOk(l, plan, gets[run[e].r])
    requires o in l.byOffset && l.byOffset[o].key == gets[run[e].r].key && o <= gets[run[e].r].offset
    ensures LandedUnder(appends, run, e, Some(gets[run[e].r].key), o)
  {
    hide Scheduled, AckOk, MetAt, LandsUnder;
    var r := gets[run[e].r];
    HappensAt(appends, gets, plan, run, e);
    assert SourceOk(appends, l, o, plan[o]);
    assert o < r.offset ==> Apart(appends, plan[o], plan[r.offset]);
    var x := Land(plan[o].a, plan[o].t, o, plan[o].at);
    var d := Earlier(appends, gets, plan, run, x, e);
    UnderKey(appends, gets, l, plan, x, Some(r.key));
  }

  lemma AllowedSee(appends: seq<Append>, gets: seq<Read>, l: Index, plan: map<nat, Source>, run: seq<Event>, e: nat)
    requires Planned(appends, l, plan) && Scheduled(appends, gets, plan, run) && ReadsOk(l, plan, gets)
    requires ListsKeys(l.byOffset, l.byKey) && (forall k :: Increasing(Lookup(l.byKey, k)))
    requires e < |run| && run[e].See?
    ensures Allowed(appends, gets, run, e)
  {
    hide Scheduled, Planned, ReadsOk, LastOff, Increasing, ListsKeys;
    HappensAt(appends, gets, plan, run, e);
    var r := run[e].r;
    LooksLast(appends, gets, l, plan, run, e);
    forall d | 0 <= d < e && run[d].See? ensures run[d].r != r {
      HappensAt(appends, gets, plan, run, d);
      InOrder(appends, gets, plan, run, d, e);
    }
    var d := Earlier(appends, gets, plan, run, Ask(r, gets[r].call), e);
    assert run[d].Ask?;
  }

  lemma AllowedTold(appends: seq<Append>, gets: seq<Read>, l: Index, plan: map<nat, Source>, run: seq<Event>, e: nat)
    requires Scheduled(appends, gets, plan, run) && ReadsOk(l, plan, gets) && e < |run| && run[e].Told?
    ensures Allowed(appends, gets, run, e)
  {
    hide Scheduled;
    HappensAt(appends, gets, plan, run, e);
    var r := run[e].r;
    assert ReadOk(l, plan, gets[r]);
    var d := Earlier(appends, gets, plan, run, See(r, gets[r].offset, LookTime(plan, gets[r])), e);
    assert run[d].See?;
  }

  lemma AllAllowed(appends: seq<Append>, gets: seq<Read>, l: Index, plan: map<nat, Source>, run: seq<Event>)
    requires Planned(appends, l, plan) && Scheduled(appends, gets, plan, run) && ReadsOk(l, plan, gets)
    requires ListsKeys(l.byOffset, l.byKey) && (forall k :: Increasing(Lookup(l.byKey, k)))
    requires ListsOffsets(l.byOffset, l.offsets) && Increasing(l.offsets)
    ensures IsRun(appends, gets, run)
  {
    hide Planned, Scheduled, Allowed, ListsKeys, ListsOffsets, Increasing, ReadsOk;
    forall e | 0 <= e < |run| ensures Allowed(appends, gets, run, e) {
      HappensAt(appends, gets, plan, run, e);
      match run[e]
      case Send(_, _, _) => AllowedSend(appends, gets, l, plan, run, e);
      case Land(_, _, _, _) => AllowedLand(appends, gets, l, plan, run, e);
      case Repeat(_, _, _, _) => AllowedRepeat(appends, gets, l, plan, run, e);
      case Refuse(_, _, _) => AllowedRefuse(appends, gets, l, plan, run, e);
      case Accepted(_, _, _, _) => AllowedAccepted(appends, gets, l, plan, run, e);
      case Declined(_, _, _) => AllowedDeclined(appends, gets, l, plan, run, e);
      case Ask(_, _) => AllowedAsk(appends, gets, plan, run, e);
      case See(_, _, _) => AllowedSee(appends, gets, l, plan, run, e);
      case Told(_, _) => AllowedTold(appends, gets, l, plan, run, e);
    }
    forall d, e | 0 <= d < e < |run| ensures run[d].time <= run[e].time {
      InOrder(appends, gets, plan, run, d, e);
    }
  }

  // ----- The run leaves the history and the log

  lemma AllRecorded(appends: seq<Append>, gets: seq<Read>, plan: map<nat, Source>, run: seq<Event>)
    requires Scheduled(appends, gets, plan, run)
    ensures Recorded(appends, run)
  {
    hide NoLaterEvent;
    forall a, t: nat | 0 <= a < |appends| && t < |appends[a].attempts| ensures RecordedAt(appends, run, a, t) {
      var T := appends[a].attempts[t];
      assert Send(a, t, T.call) in run;
      assert T.outcome.OK? ==> Accepted(a, t, T.offset, T.ret) in run;
      assert T.outcome.Failed? ==> Declined(a, t, T.call) in run;
    }
  }

  lemma IsFinal(appends: seq<Append>, gets: seq<Read>, entries: seq<Entry>, l: Index, plan: map<nat, Source>,
      run: seq<Event>)
    requires Planned(appends, l, plan) && Scheduled(appends, gets, plan, run)
    requires ByOffset(entries, l.byOffset) && NoCollision(entries)
    ensures Final(appends, run, entries)
  {
    hide Planned, Scheduled, ByOffset;
    forall i | 0 <= i < |entries| ensures LandedAs(appends, run, entries[i]) {
      EntryHeld(entries, l, i);
      Lands(appends, gets, l, plan, run, entries[i].offset);
    }
    forall e | 0 <= e < |run| && run[e].Land? && run[e].a < |appends| ensures EntryOf(appends, run[e]) in entries {
      LandingHeld(appends, gets, l, plan, run, e);
      HeldListed(entries, l, run[e].off);
    }
  }

  lemma HeldListed(entries: seq<Entry>, l: Index, o: nat)
    requires ByOffset(entries, l.byOffset) && o in l.byOffset
    ensures l.byOffset[o] in entries
  {
  }

  lemma EntryHeld(entries: seq<Entry>, l: Index, i: nat)
    requires ByOffset(entries, l.byOffset) && NoCollision(entries) && i < |entries|
    ensures entries[i].offset in l.byOffset && l.byOffset[entries[i].offset] == entries[i]
  {
    var o := entries[i].offset;
    var j: nat :| IsFirst(entries, j) && entries[j] == l.byOffset[o] && l.byOffset[o].offset == o;
    if i != j { assert entries[i].offset == entries[j].offset; }
  }

  lemma Lands(appends: seq<Append>, gets: seq<Read>, l: Index, plan: map<nat, Source>, run: seq<Event>, o: nat)
    requires Planned(appends, l, plan) && Scheduled(appends, gets, plan, run) && o in l.byOffset
    ensures LandedAs(appends, run, l.byOffset[o])
  {
    hide MetAt, Apart, AckOk, NoLaterEvent;
    assert SourceOk(appends, l, o, plan[o]);
    assert Land(plan[o].a, plan[o].t, o, plan[o].at) in run;
    var e :| 0 <= e < |run| && run[e] == Land(plan[o].a, plan[o].t, o, plan[o].at);
    assert run[e].Land?;
  }

  lemma LandingHeld(appends: seq<Append>, gets: seq<Read>, l: Index, plan: map<nat, Source>, run: seq<Event>, e: nat)
    requires Planned(appends, l, plan) && Scheduled(appends, gets, plan, run) && e < |run| && run[e].Land?
    ensures run[e].a < |appends| && run[e].off in l.byOffset && EntryOf(appends, run[e]) == l.byOffset[run[e].off]
  {
    hide Scheduled, MetAt, Apart, AckOk;
    HappensAt(appends, gets, plan, run, e);
    assert SourceOk(appends, l, run[e].off, plan[run[e].off]);
  }

  lemma ReadsRecorded(appends: seq<Append>, gets: seq<Read>, l: Index, plan: map<nat, Source>, run: seq<Event>)
    requires Planned(appends, l, plan) && Scheduled(appends, gets, plan, run) && ReadsOk(l, plan, gets)
    ensures RecordedReads(appends, gets, run)
  {
    hide Planned, NoLaterEvent;
    forall r | 0 <= r < |gets| ensures RecordedRead(appends, gets, run, r) {
      assert ReadOk(l, plan, gets[r]);
      assert Ask(r, gets[r].call) in run;
      assert Told(r, gets[r].ret) in run;
      var look := See(r, gets[r].offset, LookTime(plan, gets[r]));
      assert look in run;
      var e :| 0 <= e < |run| && run[e] == look;
      assert run[e].See?;
      if gets[r].offset != 0 {
        Lands(appends, gets, l, plan, run, gets[r].offset);
        var d :| 0 <= d < |run| && run[d].Land? && run[d].a < |appends| &&
          EntryOf(appends, run[d]) == l.byOffset[gets[r].offset];
        assert run[d].Land?;
      }
    }
  }

  /** A plan makes a run that leaves the history, the log and the reads. */
  lemma RunOf(appends: seq<Append>, gets: seq<Read>, entries: seq<Entry>, l: Index, plan: map<nat, Source>)
      returns (run: seq<Event>)
    requires Planned(appends, l, plan) && ReadsOk(l, plan, gets)
    requires Indexed(entries, l) && UniqueValues(appends) && NoCollision(entries)
    ensures OfRun(appends, gets, run, entries) && RecordedReads(appends, gets, run)
  {
    hide Planned, Scheduled, IsRun, Recorded, Final, ReadsOk, RecordedReads;
    run := Schedule(appends, gets, plan);
    AllAllowed(appends, gets, l, plan, run);
    AllRecorded(appends, gets, plan, run);
    IsFinal(appends, gets, entries, l, plan, run);
    ReadsRecorded(appends, gets, l, plan, run);
  }
}
