/**
 Runs of an atomic append-only log, as a client and a server make them step by step, and the
 histories they leave (logcheck/logcheck.go, the package comment).
 */
module LogRuns {
  import opened Options
  import opened History
  import opened Logs

  /**
   A step of a run. A client sends an attempt; the log stores it at an offset, or knows it for one
   it holds, or refuses it; the answer arrives, or never does. A client asks for a key's last
   entry; the log looks; the answer arrives.
   */
  datatype Event =
    | Send(a: nat, t: nat, time: int64)
    | Land(a: nat, t: nat, off: nat, time: int64)
    | Repeat(a: nat, t: nat, off: nat, time: int64)
    | Refuse(a: nat, t: nat, time: int64)
    | Accepted(a: nat, t: nat, off: nat, time: int64)
    | Declined(a: nat, t: nat, time: int64)
    | Ask(r: nat, time: int64)
    | See(r: nat, off: nat, time: int64)
    | Told(r: nat, time: int64)

  ghost predicate SentBefore(run: seq<Event>, n: nat, a: nat, t: nat) {
    exists e :: 0 <= e < n <= |run| && run[e].Send? && run[e].a == a && run[e].t == t
  }

  /** The log's answer to an attempt. */
  predicate Answers(e: Event, a: nat, t: nat) {
    (e.Land? || e.Repeat? || e.Refuse?) && e.a == a && e.t == t
  }

  ghost predicate AnsweredBefore(run: seq<Event>, n: nat, a: nat, t: nat) {
    exists e :: 0 <= e < n <= |run| && Answers(run[e], a, t)
  }

  ghost predicate LandedBefore(run: seq<Event>, n: nat, a: nat) {
    exists e :: 0 <= e < n <= |run| && run[e].Land? && run[e].a == a
  }

  predicate LandsUnder(appends: seq<Append>, e: Event, key: Option<string>) {
    e.Land? && e.a < |appends| && (key.None? || appends[e.a].key == key.value)
  }

  /** The offset landed last so far, of those under the key if one is given; 0 if none is. */
  function LastOff(appends: seq<Append>, run: seq<Event>, n: nat, key: Option<string>): nat
    requires n <= |run|
  {
    if n == 0 then 0 else if LandsUnder(appends, run[n - 1], key) then run[n - 1].off
        else LastOff(appends, run, n - 1, key)
  }

  /** A condition on the last entry. */
  predicate Holds(condition: Option<nat>, last: nat) {
    condition.Some? ==> last == condition.value
  }

  ghost predicate MayLand(appends: seq<Append>, run: seq<Event>, e: nat, a: nat, t: nat, off: nat)
    requires e <= |run|
  {
    && SentBefore(run, e, a, t) && !AnsweredBefore(run, e, a, t) && a < |appends| && t < |appends[a].attempts|
    && off > LastOff(appends, run, e, None)
    && (appends[a].idempotent ==> !LandedBefore(run, e, a))
    && Holds(appends[a].afterKey, LastOff(appends, run, e, Some(appends[a].key)))
    && Holds(appends[a].afterLog, LastOff(appends, run, e, None))
  }

  /** What the steps before allow at step `e`. */
  ghost predicate Allowed(appends: seq<Append>, gets: seq<Read>, run: seq<Event>, e: nat)
    requires e < |run|
  {
    match run[e]
    case Send(a, t, _) => a < |appends| && t < |appends[a].attempts| && !SentBefore(run, e, a, t)
    case Land(a, t, off, _) => MayLand(appends, run, e, a, t, off)
    case Repeat(a, t, off, _) =>
      a < |appends| && appends[a].idempotent && SentBefore(run, e, a, t) && !AnsweredBefore(run, e, a, t) &&
      exists d :: 0 <= d < e && run[d].Land? && run[d].a == a && run[d].off == off
    case Refuse(a, t, _) => SentBefore(run, e, a, t) && !AnsweredBefore(run, e, a, t)
    case Accepted(a, t, off, _) => exists d ::
      0 <= d < e && (run[d].Land? || run[d].Repeat?) && run[d].a == a && run[d].t == t && run[d].off == off
    case Declined(a, t, _) => exists d :: 0 <= d < e && run[d].Refuse? && run[d].a == a && run[d].t == t
    case Ask(r, _) => r < |gets| && forall d :: 0 <= d < e && run[d].Ask? ==> run[d].r != r
    case See(r, off, _) => r < |gets| && (forall d :: 0 <= d < e && run[d].See? ==> run[d].r != r) &&
      off == LastOff(appends, run, e, Some(gets[r].key)) && exists d :: 0 <= d < e && run[d].Ask? && run[d].r == r
    case Told(r, _) => exists d :: 0 <= d < e && run[d].See? && run[d].r == r
  }

  ghost predicate IsRun(appends: seq<Append>, gets: seq<Read>, run: seq<Event>) {
    && (forall e :: 0 <= e < |run| ==> Allowed(appends, gets, run, e))
    && (forall e, f :: 0 <= e < f < |run| ==> run[e].time <= run[f].time)
  }

  /** The history holds what the clients saw of the run. */
  ghost predicate Recorded(appends: seq<Append>, run: seq<Event>) {
    forall a, t: nat :: 0 <= a < |appends| && t < |appends[a].attempts| ==> RecordedAt(appends, run, a, t)
  }

  ghost predicate RecordedAt(appends: seq<Append>, run: seq<Event>, a: nat, t: nat)
    requires a < |appends| && t < |appends[a].attempts|
  {
    var T := appends[a].attempts[t];
    && (exists e :: 0 <= e < |run| && run[e] == Send(a, t, T.call))
    && (T.outcome.OK? ==> exists e :: 0 <= e < |run| && run[e] == Accepted(a, t, T.offset, T.ret))
    && (T.outcome.Failed? ==> exists e :: 0 <= e < |run| && run[e].Declined? && run[e].a == a && run[e].t == t)
  }

  /** So does what they read: an entry's offset and value, or 0 for none. */
  ghost predicate RecordedRead(appends: seq<Append>, gets: seq<Read>, run: seq<Event>, r: nat)
    requires r < |gets|
  {
    && (exists e :: 0 <= e < |run| && run[e] == Ask(r, gets[r].call))
    && (exists e :: 0 <= e < |run| && run[e] == Told(r, gets[r].ret))
    && (exists e :: 0 <= e < |run| && run[e].See? && run[e].r == r && run[e].off == gets[r].offset)
    && (gets[r].offset != 0 ==> exists e ::
      0 <= e < |run| && run[e].Land? && run[e].a < |appends| && run[e].off == gets[r].offset &&
      appends[run[e].a].value == gets[r].value)
  }

  ghost predicate RecordedReads(appends: seq<Append>, gets: seq<Read>, run: seq<Event>) {
    forall r :: 0 <= r < |gets| ==> RecordedRead(appends, gets, run, r)
  }

  ghost predicate UniqueValues(appends: seq<Append>) {
    forall x, y :: 0 <= x < y < |appends| ==> appends[x].value != appends[y].value
  }

  /** The entry a landing makes. */
  function EntryOf(appends: seq<Append>, e: Event): Entry
    requires e.Land? && e.a < |appends|
  {
    Entry(e.off, appends[e.a].key, appends[e.a].value)
  }

  ghost predicate LandedAs(appends: seq<Append>, run: seq<Event>, x: Entry) {
    exists e :: 0 <= e < |run| && run[e].Land? && run[e].a < |appends| && EntryOf(appends, run[e]) == x
  }

  /** The entries are those the run landed, in any order. */
  ghost predicate Final(appends: seq<Append>, run: seq<Event>, entries: seq<Entry>) {
    && NoCollision(entries)
    && (forall i :: 0 <= i < |entries| ==> LandedAs(appends, run, entries[i]))
    && (forall e :: 0 <= e < |run| && run[e].Land? && run[e].a < |appends| ==> EntryOf(appends, run[e]) in entries)
  }

  /** The history and the final log are those of a run. */
  ghost predicate OfRun(appends: seq<Append>, gets: seq<Read>, run: seq<Event>, entries: seq<Entry>) {
    IsRun(appends, gets, run) && Recorded(appends, run) && UniqueValues(appends) && Final(appends, run, entries)
  }

  ghost predicate Observed(appends: seq<Append>, gets: seq<Read>, run: seq<Event>, entries: seq<Entry>, l: Index) {
    OfRun(appends, gets, run, entries) && Indexed(entries, l)
  }

  // ----- Offsets and times rise along a run

  lemma {:induction false} LastOffMeans(appends: seq<Append>, run: seq<Event>, n: nat, key: Option<string>)
    requires n <= |run| && forall e, f :: 0 <= e < f < n && run[e].Land? && run[f].Land? ==> run[e].off < run[f].off
    ensures LastOff(appends, run, n, key) == 0 || exists e ::
      0 <= e < n && LandsUnder(appends, run[e], key) && run[e].off == LastOff(appends, run, n, key)
    ensures forall e :: 0 <= e < n && LandsUnder(appends, run[e], key) ==> run[e].off <= LastOff(appends, run, n, key)
  {
    if n > 0 {
      LastOffMeans(appends, run, n - 1, key);
    }
  }

  lemma {:induction false} OffsetsRise(appends: seq<Append>, gets: seq<Read>, run: seq<Event>, n: nat)
    requires IsRun(appends, gets, run) && n <= |run|
    ensures forall e, f :: 0 <= e < f < n && run[e].Land? && run[f].Land? ==> run[e].off < run[f].off
  {
    hide LastOff;
    if n > 0 {
      OffsetsRise(appends, gets, run, n - 1);
      LastOffMeans(appends, run, n - 1, None);
      assert Allowed(appends, gets, run, n - 1);
      forall e | 0 <= e < n - 1 && run[e].Land? ensures LandsUnder(appends, run[e], None) {
        assert Allowed(appends, gets, run, e);
      }
    }
  }

  /** A landing is of an attempt that was sent before it, and not refused. */
  lemma LandingAllowed(appends: seq<Append>, gets: seq<Read>, run: seq<Event>, e: nat)
    requires IsRun(appends, gets, run) && Recorded(appends, run) && e < |run| && run[e].Land?
    ensures run[e].off > 0 && run[e].a < |appends| && run[e].t < |appends[run[e].a].attempts|
    ensures appends[run[e].a].attempts[run[e].t].call <= run[e].time
    ensures !appends[run[e].a].attempts[run[e].t].outcome.Failed?
  {
    hide LastOff;
    var a, t := run[e].a, run[e].t;
    assert Allowed(appends, gets, run, e);
    assert RecordedAt(appends, run, a, t);
    var T := appends[a].attempts[t];
    var s :| 0 <= s < |run| && run[s] == Send(a, t, T.call);
    var d :| 0 <= d < e && run[d].Send? && run[d].a == a && run[d].t == t;
    SentOnce(appends, gets, run, s, d);
    if T.outcome.Failed? {
      var g :| 0 <= g < |run| && run[g].Declined? && run[g].a == a && run[g].t == t;
      assert Allowed(appends, gets, run, g);
      var h :| 0 <= h < g && run[h].Refuse? && run[h].a == a && run[h].t == t;
      AnsweredOnce(appends, gets, run, e, h, a, t);
    }
  }

  lemma SentOnce(appends: seq<Append>, gets: seq<Read>, run: seq<Event>, s: nat, d: nat)
    requires IsRun(appends, gets, run) && s < |run| && d < |run|
    requires run[s].Send? && run[d].Send? && run[s].a == run[d].a && run[s].t == run[d].t
    ensures s == d
  {
    assert Allowed(appends, gets, run, s) && Allowed(appends, gets, run, d);
  }

  lemma AnsweredOnce(appends: seq<Append>, gets: seq<Read>, run: seq<Event>, e: nat, f: nat, a: nat, t: nat)
    requires IsRun(appends, gets, run) && e < |run| && f < |run| && Answers(run[e], a, t) && Answers(run[f], a, t)
    ensures e == f
  {
    hide LastOff;
    assert Allowed(appends, gets, run, e) && Allowed(appends, gets, run, f);
  }

  /** An ack names where the log put the append, by then; with no idempotency key, where it put that attempt. */
  lemma AckNamesLanding(appends: seq<Append>, gets: seq<Read>, run: seq<Event>, a: nat, t: nat) returns (e: nat)
    requires IsRun(appends, gets, run) && Recorded(appends, run) && a < |appends| && t < |appends[a].attempts| &&
      appends[a].attempts[t].outcome.OK?
    ensures e < |run| && run[e].Land? && run[e].a == a && run[e].off == appends[a].attempts[t].offset &&
      run[e].time <= appends[a].attempts[t].ret
    ensures !appends[a].idempotent ==> run[e].t == t
  {
    hide LastOff;
    assert RecordedAt(appends, run, a, t);
    var T := appends[a].attempts[t];
    var g :| 0 <= g < |run| && run[g] == Accepted(a, t, T.offset, T.ret);
    assert Allowed(appends, gets, run, g);
    var d :| 0 <= d < g && (run[d].Land? || run[d].Repeat?) && run[d].a == a && run[d].t == t && run[d].off == T.offset;
    if run[d].Land? {
      e := d;
    } else {
      assert Allowed(appends, gets, run, d);
      e :| 0 <= e < d && run[e].Land? && run[e].a == a && run[e].off == T.offset;
    }
  }

  lemma IdempotentOnce(appends: seq<Append>, gets: seq<Read>, run: seq<Event>, e: nat, f: nat)
    requires IsRun(appends, gets, run) && e < |run| && f < |run| && run[e].Land? && run[f].Land? && run[e].a == run[f].a
    requires run[e].a < |appends| && appends[run[e].a].idempotent
    ensures e == f
  {
    hide LastOff;
    assert Allowed(appends, gets, run, e) && Allowed(appends, gets, run, f);
  }

  /** A read looked at the log between its call and its return. */
  lemma LookedBetween(appends: seq<Append>, gets: seq<Read>, run: seq<Event>, r: nat) returns (g: nat)
    requires IsRun(appends, gets, run) && r < |gets| && RecordedRead(appends, gets, run, r)
    ensures g < |run| && run[g].See? && run[g].r == r && run[g].off == gets[r].offset &&
      gets[r].call <= run[g].time <= gets[r].ret
    ensures gets[r].offset == LastOff(appends, run, g, Some(gets[r].key))
  {
    hide LastOff, IsRun;
    g :| 0 <= g < |run| && run[g].See? && run[g].r == r && run[g].off == gets[r].offset;
    SeeAllowed(appends, gets, run, g);
    var f :| 0 <= f < |run| && run[f] == Told(r, gets[r].ret);
    ToldAfter(appends, gets, run, g, f);
    var a :| 0 <= a < |run| && run[a] == Ask(r, gets[r].call);
    AskedBefore(appends, gets, run, a, g);
    TimesInOrder(appends, gets, run, a, g);
    TimesInOrder(appends, gets, run, g, f);
  }

  lemma TimesInOrder(appends: seq<Append>, gets: seq<Read>, run: seq<Event>, e: nat, f: nat)
    requires IsRun(appends, gets, run) && e < f < |run|
    ensures run[e].time <= run[f].time
  {
    hide Allowed;
  }

  lemma SeeAllowed(appends: seq<Append>, gets: seq<Read>, run: seq<Event>, g: nat)
    requires IsRun(appends, gets, run) && g < |run| && run[g].See?
    ensures run[g].r < |gets| && run[g].off == LastOff(appends, run, g, Some(gets[run[g].r].key))
    ensures forall d :: 0 <= d < g && run[d].See? ==> run[d].r != run[g].r
    ensures exists d :: 0 <= d < g && run[d].Ask? && run[d].r == run[g].r
  {
    hide LastOff;
    assert Allowed(appends, gets, run, g);
  }

  /** A read is answered after it looked. */
  lemma ToldAfter(appends: seq<Append>, gets: seq<Read>, run: seq<Event>, g: nat, f: nat)
    requires IsRun(appends, gets, run) && g < |run| && f < |run| && run[g].See? && run[f].Told? && run[f].r == run[g].r
    ensures g < f
  {
    hide LastOff;
    assert Allowed(appends, gets, run, f);
    var h :| 0 <= h < f && run[h].See? && run[h].r == run[f].r;
    SeeAllowed(appends, gets, run, g);
    SeeAllowed(appends, gets, run, h);
  }

  /** And looked after it was asked. */
  lemma AskedBefore(appends: seq<Append>, gets: seq<Read>, run: seq<Event>, a: nat, g: nat)
    requires IsRun(appends, gets, run) && a < |run| && g < |run| && run[a].Ask? && run[g].See? && run[a].r == run[g].r
    ensures a < g
  {
    hide LastOff;
    SeeAllowed(appends, gets, run, g);
    var d :| 0 <= d < g && run[d].Ask? && run[d].r == run[g].r;
    assert Allowed(appends, gets, run, a) && Allowed(appends, gets, run, d);
  }

  // ----- The index of the final log

  lemma HeldMeans(appends: seq<Append>, gets: seq<Read>, run: seq<Event>, entries: seq<Entry>, l: Index, off: nat)
    requires Observed(appends, gets, run, entries, l) && off in l.byOffset
    ensures exists e: nat :: IsLander(appends, run, off, e) && EntryOf(appends, run[e]) == l.byOffset[off]
  {
    hide IsRun, Recorded, UniqueValues, ListsValues, ListsKeys, ListsOffsets, NoCollision;
    var i: nat :| IsFirst(entries, i) && entries[i] == l.byOffset[off] && l.byOffset[off].offset == off;
    var e :| 0 <= e < |run| && run[e].Land? && run[e].a < |appends| && EntryOf(appends, run[e]) == entries[i];
    assert IsLander(appends, run, off, e);
  }

  lemma LandedHeld(appends: seq<Append>, gets: seq<Read>, run: seq<Event>, entries: seq<Entry>, l: Index, e: nat)
    requires Observed(appends, gets, run, entries, l) && e < |run| && run[e].Land? && run[e].a < |appends|
    ensures run[e].off in l.byOffset && l.byOffset[run[e].off] == EntryOf(appends, run[e])
  {
    hide IsRun, Recorded, UniqueValues, ListsValues, ListsKeys, ListsOffsets;
    var x := EntryOf(appends, run[e]);
    var i :| 0 <= i < |entries| && entries[i] == x;
    var j: nat :| IsFirst(entries, j) && entries[j] == l.byOffset[x.offset] && l.byOffset[x.offset].offset == x.offset;
    assert i == j;
  }

  ghost predicate IsLander(appends: seq<Append>, run: seq<Event>, off: nat, e: nat) {
    e < |run| && run[e].Land? && run[e].a < |appends| && run[e].off == off
  }

  /** The event that landed what the log holds at an offset. */
  ghost function Lander(appends: seq<Append>, run: seq<Event>, off: nat): nat {
    if exists e: nat :: IsLander(appends, run, off, e) then
      var e: nat :| IsLander(appends, run, off, e);
      e
    else 0
  }
}
