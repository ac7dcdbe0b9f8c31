/**
 The entry list of a history (linearize/linearize.go, link): its order, and what the order says
 of the operations left in it.
 */
module Layout {
  import opened History
  import opened Seqs
  import opened Sorting
  import opened EntryList

  // ----- Events in time order

  datatype Event = Event(t: int64, call: bool, op: nat)

  /** In time order; at one time, calls come first. */
  predicate EventLe(a: Event, b: Event) {
    if a.t != b.t then a.t < b.t else a.call || !b.call
  }

  function CallOf<I, O>(ops: seq<Op<I, O>>, i: nat): Event
    requires i < |ops|
  {
    Event(ops[i].call, true, i)
  }

  function ReturnOf<I, O>(ops: seq<Op<I, O>>, i: nat): Event
    requires i < |ops|
  {
    Event(ops[i].ret, false, i)
  }

  ghost predicate EventOf<I, O>(ops: seq<Op<I, O>>, e: Event) {
    e.op < |ops| && e == if e.call then CallOf(ops, e.op) else ReturnOf(ops, e.op)
  }

  /** `evs` holds the call and the return of each operation once, in time order. */
  ghost predicate Timeline<I, O>(ops: seq<Op<I, O>>, evs: seq<Event>) {
    && Distinct(evs)
    && (forall k :: 0 <= k < |evs| ==> EventOf(ops, evs[k]))
    && (forall i: nat :: i < |ops| ==> CallOf(ops, i) in evs && ReturnOf(ops, i) in evs)
    && Sorted(evs, EventLe)
  }

  method Events<I, O>(ops: seq<Op<I, O>>) returns (evs: seq<Event>)
    ensures Timeline(ops, evs)
  {
    evs := [];
    for i := 0 to |ops|
      invariant |evs| == 2 * i
      invariant forall k :: 0 <= k < i ==> evs[2 * k] == CallOf(ops, k) && evs[2 * k + 1] == ReturnOf(ops, k)
    {
      evs := evs + [CallOf(ops, i), ReturnOf(ops, i)];
    }
    RawEvents(ops, evs);
    SortedTimeline(ops, evs);
    evs := Sort(evs, EventLe);
  }

  lemma EventsOrdered()
    ensures TotalPreorder(EventLe)
  {
  }

  lemma SortedTimeline<I, O>(ops: seq<Op<I, O>>, raw: seq<Event>)
    requires Distinct(raw)
    requires forall k :: 0 <= k < |raw| ==> EventOf(ops, raw[k])
    requires forall i: nat :: i < |ops| ==> CallOf(ops, i) in raw && ReturnOf(ops, i) in raw
    ensures Timeline(ops, Sort(raw, EventLe))
  {
    hide Sort, EventOf, EventLe, TotalPreorder;
    var evs := Sort(raw, EventLe);
    EventsOrdered();
    SortSorted(raw, EventLe);
    SameDistinct(raw, evs);
    SameEvents(ops, raw, evs);
  }

  lemma SameEvents<I, O>(ops: seq<Op<I, O>>, raw: seq<Event>, evs: seq<Event>)
    requires multiset(raw) == multiset(evs)
    requires forall k :: 0 <= k < |raw| ==> EventOf(ops, raw[k])
    requires forall i: nat :: i < |ops| ==> CallOf(ops, i) in raw && ReturnOf(ops, i) in raw
    ensures forall k :: 0 <= k < |evs| ==> EventOf(ops, evs[k])
    ensures forall i: nat :: i < |ops| ==> CallOf(ops, i) in evs && ReturnOf(ops, i) in evs
  {
    SameElements(raw, evs);
    forall k | 0 <= k < |evs| ensures EventOf(ops, evs[k]) {
      assert evs[k] in raw;
    }
  }

  lemma RawEvents<I, O>(ops: seq<Op<I, O>>, evs: seq<Event>)
    requires |evs| == 2 * |ops|
    requires forall k :: 0 <= k < |ops| ==> evs[2 * k] == CallOf(ops, k) && evs[2 * k + 1] == ReturnOf(ops, k)
    ensures Distinct(evs)
    ensures forall k :: 0 <= k < |evs| ==> EventOf(ops, evs[k])
    ensures forall i: nat :: i < |ops| ==> CallOf(ops, i) in evs && ReturnOf(ops, i) in evs
  {
    forall k | 0 <= k < |evs| ensures evs[k] == if k % 2 == 0 then CallOf(ops, k / 2) else ReturnOf(ops, k / 2) {
      assert k == 2 * (k / 2) + k % 2;
    }
    forall i: nat | i < |ops| ensures CallOf(ops, i) in evs && ReturnOf(ops, i) in evs {
      assert evs[2 * i] == CallOf(ops, i) && evs[2 * i + 1] == ReturnOf(ops, i);
    }
  }

  /** A return comes after its call. */
  lemma CallFirst<I, O>(ops: seq<Op<I, O>>, evs: seq<Event>, k: nat) returns (j: nat)
    requires WellTimed(ops) && Timeline(ops, evs) && k < |evs| && !evs[k].call
    ensures j < k && evs[j] == CallOf(ops, evs[k].op)
  {
    assert EventOf(ops, evs[k]);
    j :| 0 <= j < |evs| && evs[j] == CallOf(ops, evs[k].op);
    assert !EventLe(evs[k], evs[j]);
  }

  // ----- The list of a history

  function Time<I, O>(ops: seq<Op<I, O>>, e: Entry): int64
    requires 0 <= e.op < |ops|
  {
    if e.call then ops[e.op].call else ops[e.op].ret
  }

  ghost predicate Before<I, O>(ops: seq<Op<I, O>>, x: Entry, y: Entry)
    requires 0 <= x.op < |ops| && 0 <= y.op < |ops|
  {
    EventLe(Event(Time(ops, x), x.call, x.op), Event(Time(ops, y), y.call, y.op))
  }

  /** The entries of each operation, by operation. */
  ghost predicate Named(n: nat, calls: map<nat, Entry>, rets: map<nat, Entry>) {
    && (forall i: nat :: i < n ==> i in calls && i in rets)
    && (forall i: nat :: i in calls ==> calls[i].op == i && calls[i].call)
    && (forall i: nat :: i in rets ==> rets[i].op == i && !rets[i].call)
  }

  ghost predicate IsNamed(calls: map<nat, Entry>, rets: map<nat, Entry>, e: Entry) {
    e.op >= 0 && if e.call then e.op in calls && e == calls[e.op] else e.op in rets && e == rets[e.op]
  }

  /** Behind its head, `list` holds the call and the return of each operation not in `done`, in time order. */
  ghost predicate Laid<I, O>(ops: seq<Op<I, O>>, done: set<nat>, calls: map<nat, Entry>, rets: map<nat, Entry>,
      list: seq<Entry>)
  {
    && Named(|ops|, calls, rets)
    && |list| > 0 && list[0].op == -1
    && Distinct(list)
    && (forall k :: 1 <= k < |list| ==> 0 <= list[k].op < |ops| && list[k].op !in done && IsNamed(calls, rets, list[k]))
    && (forall i: nat :: i < |ops| && i !in done ==> calls[i] in list && rets[i] in list)
    && (forall p, q :: 1 <= p < q < |list| ==> Before(ops, list[p], list[q]))
  }

  /** Each call points at its return. */
  ghost predicate Mated(n: nat, calls: map<nat, Entry>, rets: map<nat, Entry>)
    reads set i: nat | i in calls :: calls[i]
  {
    forall i: nat :: i < n && i in calls && i in rets ==> calls[i].mate == rets[i]
  }

  ghost function Shift(i: nat, j: nat, p: nat): nat {
    if p < i then p else if p < j - 1 then p + 1 else p + 2
  }

  lemma WithoutFacts(list: seq<Entry>, i: nat, j: nat)
    requires Distinct(list) && i < j < |list|
    ensures |Without(list, i, j)| == |list| - 2
    ensures forall p :: 0 <= p < |list| - 2 ==> Without(list, i, j)[p] == list[Shift(i, j, p)]
    ensures forall y :: y in Without(list, i, j) <==> y in list && y != list[i] && y != list[j]
    ensures Distinct(Without(list, i, j))
  {
    var rest := RemoveAt(list, i);
    var w := Without(list, i, j);
    assert rest[j - 1] == list[j];
    RemoveAtMeans(list, i);
    RemoveAtMeans(rest, j - 1);
    forall y ensures y in w <==> y in list && y != list[i] && y != list[j] {
    }
    forall p | 0 <= p < |w| ensures w[p] == list[Shift(i, j, p)] {
      RemoveAtElement(rest, j - 1, p);
      RemoveAtElement(list, i, if p < j - 1 then p else p + 1);
    }
  }

  lemma WithoutOrder<I, O>(ops: seq<Op<I, O>>, done: set<nat>, calls: map<nat, Entry>, rets: map<nat, Entry>,
      list: seq<Entry>, i: nat, j: nat)
    requires Laid(ops, done, calls, rets, list) && 0 < i < j < |list|
    ensures forall p, q :: 1 <= p < q < |Without(list, i, j)| ==>
      && 0 <= Without(list, i, j)[p].op < |ops|
      && 0 <= Without(list, i, j)[q].op < |ops|
      && Before(ops, Without(list, i, j)[p], Without(list, i, j)[q])
  {
    WithoutFacts(list, i, j);
    var w := Without(list, i, j);
    forall p, q | 1 <= p < q < |w| ensures 0 <= w[p].op < |ops| && 0 <= w[q].op < |ops| && Before(ops, w[p], w[q]) {
      assert Before(ops, list[Shift(i, j, p)], list[Shift(i, j, q)]);
    }
  }

  /** Taking an operation's call and return out of the list adds it to those done. */
  lemma LaidWithout<I, O>(ops: seq<Op<I, O>>, done: set<nat>, calls: map<nat, Entry>, rets: map<nat, Entry>,
      list: seq<Entry>, i: nat, j: nat, x: nat)
    requires Laid(ops, done, calls, rets, list) && x < |ops|
    requires 0 < i < j < |list| && list[i] == calls[x] && list[j] == rets[x]
    ensures Laid(ops, done + {x}, calls, rets, Without(list, i, j))
  {
    var w := Without(list, i, j);
    WithoutFacts(list, i, j);
    forall k | 1 <= k < |w|
      ensures 0 <= w[k].op < |ops| && w[k].op !in done + {x} && IsNamed(calls, rets, w[k])
    {
      var e := list[Shift(i, j, k)];
      assert w[k] == e && w[k] in w;
    }
    WithoutOrder(ops, done, calls, rets, list, i, j);
    assert w[0] == list[0];
  }

  /** A return of an answered operation bounds the admissible calls: those after it are not timely. */
  lemma ReturnBefore<I, O>(ops: seq<Op<I, O>>, done: set<nat>, calls: map<nat, Entry>, rets: map<nat, Entry>,
      list: seq<Entry>, p: nat, q: nat)
    requires Laid(ops, done, calls, rets, list)
    requires 1 <= p < q < |list| && !list[p].call && list[q].call
    ensures ops[list[p].op].ret < ops[list[q].op].call
  {
    assert Before(ops, list[p], list[q]);
  }

  /** An operation's call comes before its return. */
  lemma CallBeforeReturn<I, O>(ops: seq<Op<I, O>>, done: set<nat>, calls: map<nat, Entry>, rets: map<nat, Entry>,
      list: seq<Entry>, p: nat, q: nat)
    requires WellTimed(ops) && Laid(ops, done, calls, rets, list)
    requires 1 <= p < |list| && 1 <= q < |list| && list[p].call && !list[q].call && list[p].op == list[q].op
    ensures p < q
  {
    assert p != q;
    assert q < p ==> Before(ops, list[q], list[p]);
  }

  // ----- Building it

  ghost predicate Mirrors(list: seq<Entry>, evs: seq<Event>) {
    && |list| == |evs| + 1
    && forall k :: 1 <= k < |list| ==> list[k].op == evs[k - 1].op && list[k].call == evs[k - 1].call
  }

  method Append(prev: Entry, e: Entry, ghost list: seq<Entry>)
    requires Linked(list) && prev == list[|list| - 1]
    requires e !in list && e.prev == prev && e.next == null
    modifies prev`next
    ensures Linked(list + [e])
  {
    prev.next := e;
  }

  /** The entries made for the first events: each call and return seen so far, by operation. */
  ghost predicate Built(evs: seq<Event>, list: seq<Entry>, calls: map<nat, Entry>, rets: map<nat, Entry>) {
    && Mirrors(list, evs)
    && list[0].op == -1
    && (forall i: nat :: i in calls ==> calls[i].op == i && calls[i].call && calls[i] in list)
    && (forall i: nat :: i in rets ==> rets[i].op == i && !rets[i].call && rets[i] in list)
    && (forall k :: 1 <= k < |list| ==> IsNamed(calls, rets, list[k]))
  }

  lemma BuiltNext(evs: seq<Event>, ev: Event, list: seq<Entry>, e: Entry, calls: map<nat, Entry>, rets: map<nat, Entry>)
    requires Built(evs, list, calls, rets)
    requires forall k :: 0 <= k < |evs| ==> evs[k].op != ev.op || evs[k].call != ev.call
    requires e.op == ev.op && e.call == ev.call
    ensures ev.call ==> Built(evs + [ev], list + [e], calls[ev.op := e], rets)
    ensures !ev.call ==> Built(evs + [ev], list + [e], calls, rets[ev.op := e])
  {
  }

  /** Every return made so far is the mate of its call. */
  ghost predicate MatedSoFar(calls: map<nat, Entry>, rets: map<nat, Entry>)
    reads set i: nat | i in calls :: calls[i]
  {
    forall i: nat :: i in rets ==> i in calls && calls[i].mate == rets[i]
  }

  method Extend(v: Event, prev: Entry, calls: map<nat, Entry>, ghost evs: seq<Event>, ghost list: seq<Entry>,
      ghost rets: map<nat, Entry>)
      returns (e: Entry, calls': map<nat, Entry>, ghost rets': map<nat, Entry>)
    requires Linked(list) && prev == list[|list| - 1]
    requires Built(evs, list, calls, rets) && MatedSoFar(calls, rets)
    requires forall k :: 0 <= k < |evs| ==> evs[k].op != v.op || evs[k].call != v.call
    requires v.call || v.op in calls
    modifies prev`next, (if v.call then {} else {calls[v.op]})`mate
    ensures fresh(e) && Linked(list + [e])
    ensures Built(evs + [v], list + [e], calls', rets') && MatedSoFar(calls', rets')
  {
    hide IsNamed, Mirrors;
    e := new Entry(v.op, v.call, prev);
    BuiltNext(evs, v, list, e, calls, rets);
    calls', rets' := calls, rets;
    if v.call {
      assert v.op !in rets by {
        if v.op in rets { MateSeen(evs, list, calls, rets, v); }
      }
      calls' := calls[v.op := e];
    } else {
      calls[v.op].mate := e;
      rets' := rets[v.op := e];
    }
    Append(prev, e, list);
  }

  lemma MateSeen(evs: seq<Event>, list: seq<Entry>, calls: map<nat, Entry>, rets: map<nat, Entry>, v: Event)
    requires Built(evs, list, calls, rets) && v.op in calls && v.call
    ensures exists k :: 0 <= k < |evs| && evs[k].op == v.op && evs[k].call == v.call
  {
    var k :| 0 <= k < |list| && list[k] == calls[v.op];
    assert evs[k - 1].op == v.op;
  }

  /** Lays the history out behind a fresh head. */
  method Link<I, O>(ops: seq<Op<I, O>>)
      returns (head: Entry, ghost list: seq<Entry>, ghost calls: map<nat, Entry>, ghost rets: map<nat, Entry>)
    requires WellTimed(ops)
    ensures Linked(list) && |list| > 0 && list[0] == head && fresh(set e | e in list)
    ensures Laid(ops, {}, calls, rets, list) && Mated(|ops|, calls, rets)
    ensures forall i :: (i in calls ==> calls[i] in list) && (i in rets ==> rets[i] in list)
  {
    hide Timeline, Laid, IsNamed, Mirrors;
    var evs := Events(ops);
    head := new Entry(-1, false, null);
    NothingBuilt(head);
    list := [head];
    var made: map<nat, Entry> := map[];
    rets := map[];
    var prev := head;
    for k := 0 to |evs|
      invariant Linked(list) && list[0] == head && prev == list[|list| - 1]
      invariant fresh(set e | e in list)
      invariant Built(evs[..k], list, made, rets) && MatedSoFar(made, rets)
    {
      NewEvent(ops, evs, k);
      if !evs[k].call {
        CallMade(ops, evs, k, list, made, rets);
      }
      TakeNext(evs, k);
      var e;
      e, made, rets := Extend(evs[k], prev, made, evs[..k], list, rets);
      list := list + [e];
      prev := e;
    }
    calls := made;
    TakeAll(evs);
    BuiltLaid(ops, evs, list, calls, rets);
  }

  lemma NothingBuilt(head: Entry)
    requires head.op == -1
    ensures Built([], [head], map[], map[])
  {
  }

  /** The call of an operation has its entry before its return comes. */
  lemma CallMade<I, O>(ops: seq<Op<I, O>>, evs: seq<Event>, k: nat, list: seq<Entry>, made: map<nat, Entry>,
      rets: map<nat, Entry>)
    requires WellTimed(ops) && Timeline(ops, evs) && k < |evs| && !evs[k].call && Built(evs[..k], list, made, rets)
    ensures evs[k].op in made
  {
    hide Sorted, EventLe, Distinct;
    var j := CallFirst(ops, evs, k);
    assert evs[..k][j] == evs[j] && IsNamed(made, rets, list[j + 1]);
  }

  lemma NewEvent<I, O>(ops: seq<Op<I, O>>, evs: seq<Event>, k: nat)
    requires Timeline(ops, evs) && k < |evs|
    ensures forall j :: 0 <= j < k ==> evs[..k][j].op != evs[k].op || evs[..k][j].call != evs[k].call
  {
    forall j | 0 <= j < k ensures evs[..k][j].op != evs[k].op || evs[..k][j].call != evs[k].call {
      assert EventOf(ops, evs[j]) && EventOf(ops, evs[k]) && evs[j] != evs[k];
    }
  }

  lemma BuiltLaid<I, O>(ops: seq<Op<I, O>>, evs: seq<Event>, list: seq<Entry>, calls: map<nat, Entry>,
      rets: map<nat, Entry>)
    requires Timeline(ops, evs) && Built(evs, list, calls, rets) && Distinct(list)
    ensures Laid(ops, {}, calls, rets, list)
  {
    hide Sorted, Mirrors, EventOf, Distinct, Time, IsNamed;
    forall i: nat | i < |ops| ensures i in calls && i in rets {
      BothNamed(ops, evs, list, calls, rets, i);
    }
    forall k | 1 <= k < |list| ensures 0 <= list[k].op < |ops| {
      EntryTime(ops, evs, list, k);
    }
    forall p, q | 1 <= p < q < |list| ensures Before(ops, list[p], list[q]) {
      EntryTime(ops, evs, list, p);
      EntryTime(ops, evs, list, q);
      MirrorSize(list, evs);
      InTimeOrder(ops, evs, p - 1, q - 1);
    }
    MirrorSize(list, evs);
  }

  lemma MirrorSize(list: seq<Entry>, evs: seq<Event>)
    requires Mirrors(list, evs)
    ensures |list| == |evs| + 1
  {
  }

  lemma BothNamed<I, O>(ops: seq<Op<I, O>>, evs: seq<Event>, list: seq<Entry>, calls: map<nat, Entry>,
      rets: map<nat, Entry>, i: nat)
    requires Timeline(ops, evs) && Built(evs, list, calls, rets) && i < |ops|
    ensures i in calls && i in rets
  {
    hide Sorted, Distinct;
    var j :| 0 <= j < |evs| && evs[j] == CallOf(ops, i);
    var k :| 0 <= k < |evs| && evs[k] == ReturnOf(ops, i);
    assert IsNamed(calls, rets, list[j + 1]) && IsNamed(calls, rets, list[k + 1]);
  }

  lemma EntryTime<I, O>(ops: seq<Op<I, O>>, evs: seq<Event>, list: seq<Entry>, k: nat)
    requires Timeline(ops, evs) && Mirrors(list, evs) && 1 <= k < |list|
    ensures |list| == |evs| + 1
    ensures 0 <= list[k].op < |ops| && evs[k - 1] == Event(Time(ops, list[k]), list[k].call, list[k].op)
  {
    hide Sorted, Distinct;
    assert EventOf(ops, evs[k - 1]);
  }

  lemma InTimeOrder<I, O>(ops: seq<Op<I, O>>, evs: seq<Event>, p: nat, q: nat)
    requires Timeline(ops, evs) && p < q < |evs|
    ensures EventLe(evs[p], evs[q])
  {
  }
}
