/**
 Which attempt made each copy of an append, where the acks and the count of copies allow it: the
 one whose ack named the copy, or else the attempts left over, in the order of their calls.
 */
module LogSources {
  import opened Seqs
  import opened History
  import opened Sorting
  import opened Logs
  import opened Sends
  import opened LogCheck

  /** An attempt that may have made a copy no ack placed. */
  datatype Spare = Spare(call: int64, t: nat)

  predicate SpareNoLater(x: Spare, y: Spare) { x.call <= y.call }

  ghost function SpareList(a: Append, offs: seq<nat>, n: nat): seq<Spare>
    requires n <= |a.attempts|
  {
    if n == 0 then []
    else SpareList(a, offs, n - 1) + if Spares(a, offs, n - 1) then [Spare(a.attempts[n - 1].call, n - 1)] else []
  }

  ghost function CallsOf(s: seq<Spare>): (r: seq<int64>)
    ensures |r| == |s| && forall i :: 0 <= i < |s| ==> r[i] == s[i].call
  {
    if s == [] then [] else [s[0].call] + CallsOf(s[1..])
  }

  lemma {:induction false} ListCalls(a: Append, offs: seq<nat>, n: nat)
    requires n <= |a.attempts|
    ensures CallsOf(SpareList(a, offs, n)) == SpareCalls(a, offs, n)
  {
    if n > 0 { ListCalls(a, offs, n - 1); }
  }

  lemma {:induction false} InsertCalls(x: Spare, s: seq<Spare>)
    ensures CallsOf(Insert(x, s, SpareNoLater)) == Insert(x.call, CallsOf(s), NoLater)
  {
    if s != [] {
      assert CallsOf(s)[1..] == CallsOf(s[1..]);
      InsertCalls(x, s[1..]);
    }
  }

  /** Sorting the attempts by call sorts their calls. */
  lemma {:induction false} SortCalls(s: seq<Spare>)
    ensures CallsOf(Sort(s, SpareNoLater)) == Sort(CallsOf(s), NoLater)
  {
    if s != [] {
      assert CallsOf(s)[1..] == CallsOf(s[1..]);
      SortCalls(s[1..]);
      InsertCalls(s[0], Sort(s[1..], SpareNoLater));
    }
  }

  ghost predicate IsSpare(a: Append, offs: seq<nat>, n: nat, x: Spare) {
    x.t < n <= |a.attempts| && Spares(a, offs, x.t) && x.call == a.attempts[x.t].call
  }

  lemma {:induction false} SpareListMeans(a: Append, offs: seq<nat>, n: nat)
    requires n <= |a.attempts|
    ensures Distinct(SpareList(a, offs, n))
    ensures forall x :: x in SpareList(a, offs, n) <==> IsSpare(a, offs, n, x)
  {
    hide Spares;
    if n > 0 {
      SpareListMeans(a, offs, n - 1);
      var was, x := SpareList(a, offs, n - 1), Spare(a.attempts[n - 1].call, n - 1);
      DistinctNext(was, x);
    }
  }

  /** The attempts left over, in the order of their calls. */
  ghost function ByCall(a: Append, offs: seq<nat>): seq<Spare> {
    Sort(SpareList(a, offs, |a.attempts|), SpareNoLater)
  }

  lemma ByCallMeans(a: Append, offs: seq<nat>)
    ensures CallsOf(ByCall(a, offs)) == Sort(SpareCalls(a, offs, |a.attempts|), NoLater)
    ensures |ByCall(a, offs)| == |SpareList(a, offs, |a.attempts|)| == |SpareCalls(a, offs, |a.attempts|)|
    ensures Distinct(ByCall(a, offs)) && Sorted(ByCall(a, offs), SpareNoLater)
    ensures forall x :: x in ByCall(a, offs) <==> IsSpare(a, offs, |a.attempts|, x)
  {
    hide IsSpare;
    var list := SpareList(a, offs, |a.attempts|);
    SpareListMeans(a, offs, |a.attempts|);
    ListCalls(a, offs, |a.attempts|);
    SortCalls(list);
    SortSorted(list, SpareNoLater);
    SameElements(list, ByCall(a, offs));
    SameDistinct(list, ByCall(a, offs));
  }

  // ----- There are enough attempts

  ghost function PlacedOffs(a: Append, offs: seq<nat>, n: nat): set<nat>
    requires n <= |a.attempts|
  {
    if n == 0 then {}
    else PlacedOffs(a, offs, n - 1) + if Places(a, offs, n - 1) then {a.attempts[n - 1].offset} else {}
  }

  lemma {:induction false} PlacedOffsMeans(a: Append, offs: seq<nat>, n: nat, o: nat)
    requires n <= |a.attempts|
    ensures o in PlacedOffs(a, offs, n) <==> PlacedBy(a, offs, o, n)
  {
    hide PlacedBy;
    if n > 0 {
      PlacedOffsMeans(a, offs, n - 1, o);
      PlacedNext(a, offs, n - 1, o);
    } else {
      assert !PlacedBy(a, offs, o, 0) by { NoneBefore(a, offs, o); }
    }
  }

  lemma NoneBefore(a: Append, offs: seq<nat>, o: nat)
    ensures !PlacedBy(a, offs, o, 0)
  {
  }

  /** An attempt the log did not refuse placed a copy of its own, or is left over. */
  lemma {:induction false} CouldIs(a: Append, offs: seq<nat>, n: nat)
    requires n <= |a.attempts| && !AckedTwice(a, |a.attempts|)
    ensures |PlacedOffs(a, offs, n)| + |SpareList(a, offs, n)| == Could(a, n)
  {
    hide AckedTwice, PlacedBy, PlacedOffs, Places;
    if n == 0 {
      NoneOffs(a, offs);
    } else {
      CouldIs(a, offs, n - 1);
      OffsNext(a, offs, n - 1);
      assert !Places(a, offs, n - 1) ==> (Spares(a, offs, n - 1) <==> !a.attempts[n - 1].outcome.Failed?);
    }
  }

  lemma NoneOffs(a: Append, offs: seq<nat>)
    ensures PlacedOffs(a, offs, 0) == {}
  {
  }

  lemma OffsNext(a: Append, offs: seq<nat>, n: nat)
    requires n < |a.attempts| && !AckedTwice(a, |a.attempts|)
    ensures |PlacedOffs(a, offs, n + 1)| == |PlacedOffs(a, offs, n)| + if Places(a, offs, n) then 1 else 0
    ensures Places(a, offs, n) ==> !a.attempts[n].outcome.Failed?
  {
    hide AckedTwice, PlacedBy;
    if Places(a, offs, n) {
      PlacedOffsMeans(a, offs, n, a.attempts[n].offset);
      PlacedOnce(a, offs, n);
    }
  }

  lemma PlacedOnce(a: Append, offs: seq<nat>, t: nat)
    requires t < |a.attempts| && !AckedTwice(a, |a.attempts|) && Places(a, offs, t)
    ensures !PlacedBy(a, offs, a.attempts[t].offset, t)
    ensures forall u :: 0 <= u < |a.attempts| && PlacesAt(a, offs, u, a.attempts[t].offset) ==> u == t
  {
  }

  lemma {:induction false} RankIs(a: Append, offs: seq<nat>, k: nat)
    requires Distinct(offs) && k <= |offs|
    ensures Rank(a, offs, k) == |Elements(offs[..k]) - PlacedOffs(a, offs, |a.attempts|)|
  {
    hide PlacedBy, PlacedOffs, Elements, Distinct;
    var placed := PlacedOffs(a, offs, |a.attempts|);
    if k == 0 {
      NoElements(offs[..0]);
    } else {
      RankIs(a, offs, k - 1);
      PlacedOffsMeans(a, offs, |a.attempts|, offs[k - 1]);
      ElementsNext(offs, k - 1);
      OneMoreLeft(Elements(offs[..k - 1]), offs[k - 1], placed);
    }
  }

  lemma NoElements(s: seq<nat>)
    requires s == []
    ensures Elements(s) == {}
  {
  }

  lemma ElementsNext(s: seq<nat>, k: nat)
    requires Distinct(s) && k < |s|
    ensures Elements(s[..k + 1]) == Elements(s[..k]) + {s[k]} && s[k] !in Elements(s[..k])
  {
    TakeNext(s, k);
  }

  lemma OneMoreLeft(s: set<nat>, o: nat, placed: set<nat>)
    requires o !in s
    ensures |(s + {o}) - placed| == |s - placed| + if o in placed then 0 else 1
  {
    assert (s + {o}) - placed == (s - placed) + if o in placed then {} else {o};
  }

  lemma {:induction false} RankGrows(a: Append, offs: seq<nat>, i: nat, j: nat)
    requires i <= j <= |offs|
    ensures Rank(a, offs, i) <= Rank(a, offs, j)
    ensures i < j && !PlacedBy(a, offs, offs[i], |a.attempts|) ==> Rank(a, offs, i) < Rank(a, offs, j)
  {
    hide PlacedBy;
    if i < j { RankGrows(a, offs, i, j - 1); }
  }

  /** The acks name copies, each its own, and there are no more copies than attempts for them. */
  ghost predicate Accounted(a: Append, offs: seq<nat>) {
    && Increasing(offs) && !FailedVisible(a, offs) && !HeldTooOften(a, offs) && !AckedTwice(a, |a.attempts|)
    && forall t :: 0 <= t < |a.attempts| && a.attempts[t].outcome.OK? ==> a.attempts[t].offset in offs
  }

  lemma EnoughLeft(a: Append, offs: seq<nat>, i: nat)
    requires Accounted(a, offs) && i < |offs| && !PlacedBy(a, offs, offs[i], |a.attempts|)
    ensures Rank(a, offs, i) < |ByCall(a, offs)|
  {
    hide PlacedBy, AckedTwice, ByCall, PlacedOffs, Rank, Could, Increasing;
    RankGrows(a, offs, i, |offs|);
    UnplacedCount(a, offs);
    CouldIs(a, offs, |a.attempts|);
    ByCallMeans(a, offs);
  }

  lemma UnplacedCount(a: Append, offs: seq<nat>)
    requires Increasing(offs)
    ensures Rank(a, offs, |offs|) + |PlacedOffs(a, offs, |a.attempts|)| == |offs|
  {
    hide PlacedBy, PlacedOffs, Rank;
    var placed := PlacedOffs(a, offs, |a.attempts|);
    RankIs(a, offs, |offs|);
    TakeAll(offs);
    DistinctSize(offs);
    forall o | o in placed ensures o in Elements(offs) {
      PlacedOffsMeans(a, offs, |a.attempts|, o);
      PlacedHeld(a, offs, o);
    }
    assert Elements(offs) == placed + (Elements(offs) - placed);
  }

  lemma PlacedHeld(a: Append, offs: seq<nat>, o: nat)
    requires PlacedBy(a, offs, o, |a.attempts|)
    ensures o in offs
  {
  }

  // ----- The attempt each copy came of

  ghost predicate Makes(a: Append, offs: seq<nat>, i: nat, t: nat)
    requires i < |offs|
  {
    t < |a.attempts| &&
    if PlacedBy(a, offs, offs[i], |a.attempts|) then PlacesAt(a, offs, t, offs[i])
    else Rank(a, offs, i) < |ByCall(a, offs)| && ByCall(a, offs)[Rank(a, offs, i)].t == t
  }

  lemma MakerOf(a: Append, offs: seq<nat>, i: nat) returns (t: nat)
    requires Accounted(a, offs) && i < |offs|
    ensures Makes(a, offs, i, t)
  {
    hide Accounted;
    if PlacedBy(a, offs, offs[i], |a.attempts|) {
      t :| 0 <= t < |a.attempts| && PlacesAt(a, offs, t, offs[i]);
    } else {
      EnoughLeft(a, offs, i);
      ByCallMeans(a, offs);
      var x := ByCall(a, offs)[Rank(a, offs, i)];
      assert IsSpare(a, offs, |a.attempts|, x);
      t := x.t;
    }
  }

  lemma LeftMaker(a: Append, offs: seq<nat>, i: nat, t: nat)
    requires i < |offs| && Makes(a, offs, i, t) && !PlacedBy(a, offs, offs[i], |a.attempts|)
    ensures Spares(a, offs, t)
    ensures ByCall(a, offs)[Rank(a, offs, i)] == Spare(a.attempts[t].call, t)
  {
    hide PlacedBy;
    ByCallMeans(a, offs);
    assert IsSpare(a, offs, |a.attempts|, ByCall(a, offs)[Rank(a, offs, i)]);
  }

  lemma MakerNotRefused(a: Append, offs: seq<nat>, i: nat, t: nat)
    requires i < |offs| && Makes(a, offs, i, t)
    ensures !a.attempts[t].outcome.Failed?
  {
    if !PlacedBy(a, offs, offs[i], |a.attempts|) { LeftMaker(a, offs, i, t); }
  }

  /** No attempt made two copies. */
  lemma MakersDiffer(a: Append, offs: seq<nat>, i: nat, j: nat, t: nat, u: nat)
    requires Accounted(a, offs) && i < j < |offs| && Makes(a, offs, i, t) && Makes(a, offs, j, u)
    ensures t != u
  {
    if PlacedBy(a, offs, offs[i], |a.attempts|) {
      if !PlacedBy(a, offs, offs[j], |a.attempts|) { LeftMaker(a, offs, j, u); }
    } else {
      LeftMaker(a, offs, i, t);
      if !PlacedBy(a, offs, offs[j], |a.attempts|) {
        LeftMaker(a, offs, j, u);
        RankGrows(a, offs, i, j);
        ByCallMeans(a, offs);
      }
    }
  }

  /** The bound on when the copy was sent is the call of the attempt that made it. */
  lemma MakerSent(a: Append, offs: seq<nat>, i: nat, t: nat)
    requires Accounted(a, offs) && i < |offs| && Makes(a, offs, i, t)
    ensures SentAt(a, offs, i, a.attempts[t].call)
  {
    if PlacedBy(a, offs, offs[i], |a.attempts|) {
      PlacedOnce(a, offs, t);
    } else {
      LeftSent(a, offs, i, t);
    }
  }

  lemma LeftSent(a: Append, offs: seq<nat>, i: nat, t: nat)
    requires i < |offs| && Makes(a, offs, i, t) && !PlacedBy(a, offs, offs[i], |a.attempts|)
    ensures SentAt(a, offs, i, a.attempts[t].call)
  {
    hide PlacedBy;
    LeftMaker(a, offs, i, t);
    ByCallMeans(a, offs);
    assert LeftOver(a, offs) == SpareCalls(a, offs, |a.attempts|);
    assert CallsOf(ByCall(a, offs))[Rank(a, offs, i)] == a.attempts[t].call;
  }

  /** An ack names a copy sent by its own call; with no idempotency key, the copy its attempt made. */
  lemma AckNamesMade(a: Append, offs: seq<nat>, i: nat, t: nat, u: nat)
    requires Accounted(a, offs) && i < |offs| && Makes(a, offs, i, t)
    requires u < |a.attempts| && a.attempts[u].outcome.OK? && a.attempts[u].offset == offs[i]
    ensures a.attempts[t].call <= a.attempts[u].call && (a.idempotent || t == u)
  {
    if a.idempotent {
      FirstCall(a, offs, i, t, u);
    } else {
      assert PlacesAt(a, offs, u, offs[i]);
      PlacedOnce(a, offs, u);
    }
  }

  lemma FirstCall(a: Append, offs: seq<nat>, i: nat, t: nat, u: nat)
    requires Accounted(a, offs) && i < |offs| && Makes(a, offs, i, t)
    requires a.idempotent && u < |a.attempts| && a.attempts[u].outcome.OK?
    ensures a.attempts[t].call <= a.attempts[u].call
  {
    assert i == 0 && !PlacedBy(a, offs, offs[i], |a.attempts|);
    assert IsSpare(a, offs, |a.attempts|, Spare(a.attempts[u].call, u));
    LeftMaker(a, offs, i, t);
    FirstIsLeast(a, offs, Spare(a.attempts[u].call, u));
  }

  lemma FirstIsLeast(a: Append, offs: seq<nat>, x: Spare)
    requires IsSpare(a, offs, |a.attempts|, x)
    ensures |ByCall(a, offs)| > 0 && ByCall(a, offs)[0].call <= x.call
  {
    hide ByCall, IsSpare, Distinct;
    ByCallMeans(a, offs);
    var s := ByCall(a, offs);
    var k :| 0 <= k < |s| && s[k] == x;
    assert k > 0 ==> SpareNoLater(s[0], s[k]);
  }
}
