/**
 A lower bound on the sending of each copy of an append (logcheck/logcheck.go, calls).
 */
module Sends {
  import opened Seqs
  import opened History
  import opened Sorting
  import opened Logs

  /** The place of an offset in a sorted list, or where it would go. */
  method BinarySearch(offs: seq<nat>, o: nat) returns (i: nat, found: bool)
    requires Increasing(offs)
    ensures i <= |offs| && (forall j :: 0 <= j < i ==> offs[j] < o) && (forall j :: i <= j < |offs| ==> o <= offs[j])
    ensures found <==> o in offs
    ensures found ==> i < |offs| && offs[i] == o
  {
    var lo, hi := 0, |offs|;
    while lo < hi
      invariant 0 <= lo <= hi <= |offs|
      invariant (forall j :: 0 <= j < lo ==> offs[j] < o) && (forall j :: hi <= j < |offs| ==> o <= offs[j])
    {
      var mid := (lo + hi) / 2;
      if offs[mid] < o { lo := mid + 1; } else { hi := mid; }
    }
    i, found := lo, lo < |offs| && offs[lo] == o;
  }

  /** The attempt's ack named a copy the log holds, and so the copy the attempt placed. */
  predicate Places(a: Append, offs: seq<nat>, t: nat)
    requires t < |a.attempts|
  {
    a.attempts[t].outcome.OK? && !a.idempotent && a.attempts[t].offset in offs
  }

  predicate PlacesAt(a: Append, offs: seq<nat>, t: nat, off: nat)
    requires t < |a.attempts|
  {
    Places(a, offs, t) && a.attempts[t].offset == off
  }

  ghost predicate PlacedBy(a: Append, offs: seq<nat>, off: nat, n: nat)
    requires n <= |a.attempts|
  {
    exists t :: 0 <= t < n && PlacesAt(a, offs, t, off)
  }

  /** The attempt may have placed a copy no ack placed. */
  predicate Spares(a: Append, offs: seq<nat>, t: nat)
    requires t < |a.attempts|
  {
    !Places(a, offs, t) && !a.attempts[t].outcome.Failed?
  }

  ghost function SpareCalls(a: Append, offs: seq<nat>, n: nat): seq<int64>
    requires n <= |a.attempts|
  {
    if n == 0 then [] else SpareCalls(a, offs, n - 1) + if Spares(a, offs, n - 1) then [a.attempts[n - 1].call] else []
  }

  ghost function RefusedCalls(a: Append, n: nat): seq<int64>
    requires n <= |a.attempts|
  {
    if n == 0 then [] else RefusedCalls(a, n - 1) + if a.attempts[n - 1].outcome.Failed? then
        [a.attempts[n - 1].call] else []
  }

  /** The calls left over for the copies no ack placed. */
  ghost function LeftOver(a: Append, offs: seq<nat>): seq<int64> {
    var left := SpareCalls(a, offs, |a.attempts|);
    if left == [] then RefusedCalls(a, |a.attempts|) else left
  }

  predicate NoLater(x: int64, y: int64) { x <= y }

  /** How many of the first `i` copies no ack placed. */
  ghost function Rank(a: Append, offs: seq<nat>, i: nat): nat
    requires i <= |offs|
  {
    if i == 0 then 0 else Rank(a, offs, i - 1) + if PlacedBy(a, offs, offs[i - 1], |a.attempts|) then 0 else 1
  }

  /** The earliest call of the attempts whose acks named the copy. */
  ghost predicate EarliestPlacing(a: Append, offs: seq<nat>, off: nat, n: nat, c: int64)
    requires n <= |a.attempts|
  {
    && (exists t :: 0 <= t < n && PlacesAt(a, offs, t, off) && a.attempts[t].call == c)
    && (forall t :: 0 <= t < n && PlacesAt(a, offs, t, off) ==> c <= a.attempts[t].call)
  }

  ghost predicate EarliestCall(a: Append, n: nat, c: int64)
    requires n <= |a.attempts|
  {
    && (forall t :: 0 <= t < n ==> c <= a.attempts[t].call)
    && (c == PENDING || exists t :: 0 <= t < n && a.attempts[t].call == c)
  }

  /** When the copy at place `i` was sent, at the earliest. */
  ghost predicate SentAt(a: Append, offs: seq<nat>, i: nat, c: int64)
    requires i < |offs|
  {
    if PlacedBy(a, offs, offs[i], |a.attempts|) then EarliestPlacing(a, offs, offs[i], |a.attempts|, c)
    else
      var left := Sort(LeftOver(a, offs), NoLater);
      if left == [] then EarliestCall(a, |a.attempts|, c)
      else c == left[if Rank(a, offs, i) < |left| then Rank(a, offs, i) else |left| - 1]
  }

  ghost predicate PlacedSoFar(a: Append, offs: seq<nat>, n: nat, placed: seq<bool>, out: seq<int64>)
    requires n <= |a.attempts|
  {
    && |placed| == |out| == |offs|
    && forall i :: 0 <= i < |offs| ==>
      (placed[i] <==> PlacedBy(a, offs, offs[i], n)) && (placed[i] ==> EarliestPlacing(a, offs, offs[i], n, out[i]))
  }

  lemma PlacedNext(a: Append, offs: seq<nat>, n: nat, off: nat)
    requires n < |a.attempts|
    ensures PlacedBy(a, offs, off, n + 1) <==> PlacedBy(a, offs, off, n) || PlacesAt(a, offs, n, off)
    ensures !PlacesAt(a, offs, n, off) ==> forall c :: EarliestPlacing(a, offs, off, n + 1, c) <==>
      EarliestPlacing(a, offs, off, n, c)
    ensures PlacesAt(a, offs, n, off) && !PlacedBy(a, offs, off, n) ==>
      EarliestPlacing(a, offs, off, n + 1, a.attempts[n].call)
    ensures PlacesAt(a, offs, n, off) ==> forall c :: EarliestPlacing(a, offs, off, n, c) ==>
      EarliestPlacing(a, offs, off, n + 1, if a.attempts[n].call < c then a.attempts[n].call else c)
  {
  }

  lemma PlaceOne(a: Append, offs: seq<nat>, n: nat, placed: seq<bool>, out: seq<int64>, i: nat)
    requires n < |a.attempts| && Increasing(offs) && PlacedSoFar(a, offs, n, placed, out) && i < |offs| &&
      PlacesAt(a, offs, n, offs[i])
    ensures PlacedSoFar(a, offs, n + 1, placed[i := true], if !placed[i] || a.attempts[n].call < out[i] then
      out[i := a.attempts[n].call] else out)
  {
    hide PlacedBy, EarliestPlacing;
    var now := if !placed[i] || a.attempts[n].call < out[i] then out[i := a.attempts[n].call] else out;
    forall j | 0 <= j < |offs|
      ensures (placed[i := true][j] <==> PlacedBy(a, offs, offs[j], n + 1)) &&
        (placed[i := true][j] ==> EarliestPlacing(a, offs, offs[j], n + 1, now[j]))
    {
      PlacedNext(a, offs, n, offs[j]);
    }
  }

  lemma PlaceNone(a: Append, offs: seq<nat>, n: nat, placed: seq<bool>, out: seq<int64>)
    requires n < |a.attempts| && PlacedSoFar(a, offs, n, placed, out) && !Places(a, offs, n)
    ensures PlacedSoFar(a, offs, n + 1, placed, out)
  {
    hide PlacedBy, EarliestPlacing;
    forall j | 0 <= j < |offs|
      ensures (placed[j] <==> PlacedBy(a, offs, offs[j], n + 1)) &&
        (placed[j] ==> EarliestPlacing(a, offs, offs[j], n + 1, out[j]))
    {
      PlacedNext(a, offs, n, offs[j]);
    }
  }

  lemma PlacedNone(a: Append, offs: seq<nat>)
    ensures PlacedSoFar(a, offs, 0, seq(|offs|, _ => false), seq(|offs|, _ => 0))
  {
  }

  /** Reads the attempts: which copies acks placed, and what calls are left over. */
  method ReadAttempts(a: Append, offs: seq<nat>)
      returns (out: seq<int64>, placed: seq<bool>, left: seq<int64>, refused: seq<int64>, first: int64)
    requires Increasing(offs)
    ensures PlacedSoFar(a, offs, |a.attempts|, placed, out)
    ensures left == SpareCalls(a, offs, |a.attempts|) && refused == RefusedCalls(a, |a.attempts|) &&
      EarliestCall(a, |a.attempts|, first)
  {
    hide PlacedSoFar;
    out, placed := seq(|offs|, _ => 0), seq(|offs|, _ => false);
    left, refused, first := [], [], PENDING;
    PlacedNone(a, offs);
    for n := 0 to |a.attempts|
      invariant PlacedSoFar(a, offs, n, placed, out)
      invariant left == SpareCalls(a, offs, n) && refused == RefusedCalls(a, n) && EarliestCall(a, n, first)
    {
      var t := a.attempts[n];
      if t.call < first { first := t.call; }
      var i, found := BinarySearch(offs, t.offset);
      if t.outcome.OK? && !a.idempotent && found {
        PlaceOne(a, offs, n, placed, out, i);
        PlacedSizes(a, offs, n, placed, out);
        if !placed[i] || t.call < out[i] {
          out := out[i := t.call];
        }
        placed := placed[i := true];
      } else {
        PlaceNone(a, offs, n, placed, out);
        if t.outcome.Failed? {
          refused := refused + [t.call];
        } else {
          left := left + [t.call];
        }
      }
    }
  }

  lemma PlacedSizes(a: Append, offs: seq<nat>, n: nat, placed: seq<bool>, out: seq<int64>)
    requires n <= |a.attempts| && PlacedSoFar(a, offs, n, placed, out)
    ensures |placed| == |out| == |offs|
  {
  }

  method Calls(a: Append, offs: seq<nat>) returns (out: seq<int64>)
    requires Increasing(offs)
    ensures |out| == |offs| && forall i :: 0 <= i < |offs| ==> SentAt(a, offs, i, out[i])
  {
    hide SpareCalls, RefusedCalls, EarliestCall, EarliestPlacing, PlacedBy;
    var placed, left, refused, first;
    out, placed, left, refused, first := ReadAttempts(a, offs);
    if |left| == 0 {
      left := refused;
    }
    assert left == LeftOver(a, offs);
    SameElements(left, Sort(left, NoLater));
    left := Sort(left, NoLater);
    var j := 0;
    ghost var was := out;
    for i := 0 to |out|
      invariant |out| == |offs| && j == Rank(a, offs, i)
      invariant forall k :: i <= k < |out| ==> out[k] == was[k]
      invariant forall k :: 0 <= k < i ==> SentAt(a, offs, k, out[k])
    {
      if !placed[i] {
        if |left| == 0 {
          out := out[i := first];
        } else {
          out := out[i := left[if j < |left| - 1 then j else |left| - 1]];
        }
        j := j + 1;
      }
    }
  }
}
