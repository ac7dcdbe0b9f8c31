/** The search's two moves on the list: linearizing an operation, and taking it back. */
module Moves {
  import opened Seqs
  import opened History
  import opened Completion
  import opened Bitset
  import opened EntryList
  import opened Layout
  import opened Trail
  import opened SearchTheory

  /** The list is as the trail says. */
  ghost predicate InPlace<S, I, O>(k: Task<S, I, O>, t: Trail<S>)
    reads k.Entries(), t.Places().Keys, set e | e in t.list
  {
    Linked(t.list) && Placed(t.Places()) && Mated(|k.ops|, k.calls, k.rets)
  }

  method TakeOut(e: Entry, ghost list: seq<Entry>, ghost i: nat, ghost j: nat, ghost places: map<Entry, Place>)
    requires Linked(list) && 0 < i < j < |list| && list[i] == e && e.mate == list[j]
    requires Placed(places) && forall x :: x in places ==> x !in list
    modifies (set x | x in list)`prev, (set x | x in list)`next
    ensures Linked(Without(list, i, j))
    ensures Placed(AndPlaces(places, list, i, j))
  {
    Lift(e, list, i, j);
  }

  method PutBack(e: Entry, ghost list: seq<Entry>, ghost i: nat, ghost j: nat, ghost places: map<Entry, Place>)
    requires Distinct(list) && 0 < i < j < |list| && list[i] == e && e.mate == list[j]
    requires Linked(Without(list, i, j))
    requires Placed(AndPlaces(places, list, i, j)) && forall x :: x in places ==> x !in list
    modifies (set x | x in list)`prev, (set x | x in list)`next
    ensures Linked(list)
    ensures Placed(places)
  {
    ghost var all := AndPlaces(places, list, i, j);
    assert list[i] in all && list[j] in all;
    assert Lifted(list, i, j);
    forall x | x in places ensures x in all && all[x] == places[x] {}
    Unlift(e, list, i, j);
  }

  /** Where linearizing the call at `pos` takes the trail. */
  ghost predicate Pushed<S, I, O>(k: Task<S, I, O>, t: Trail<S>, pos: nat, t': Trail<S>)
    requires pos < |t.list| && 0 <= t.list[pos].op < |k.ops|
  {
    && t'.Then? && t'.prev == t && t'.op == t.list[pos].op && t'.i == pos
    && t'.op / 64 < |t.words| && t'.words == Set(t.words, t'.op)
    && t'.state == Step(k.m, k.ops, t.state, t'.op).1
    && 0 < pos < t'.j < |t.list| && t'.list == Without(t.list, pos, t'.j)
  }

  lemma PushTarget<S, I, O>(k: Task<S, I, O>, t: Trail<S>, pos: nat) returns (t': Trail<S>)
    requires WellTimed(k.ops) && |k.after| == |k.ops| && TrailOk(k, t)
    requires 1 <= pos < |t.list| && t.list[pos].call && 0 <= t.list[pos].op < |k.ops|
    requires Tried(k.m, k.ops, k.after, t.Done(), t.state, t.list[pos].op)
    ensures Pushed(k, t, pos, t') && TrailOk(k, t')
    ensures t.list[pos] == k.calls[t'.op] && t.list[t'.j] == k.rets[t'.op]
  {
    assert IsNamed(k.calls, k.rets, t.list[pos]);
    var j := PositionOf(t.list, k.rets[t.list[pos].op]);
    CallBeforeReturn(k.ops, t.Done(), k.calls, k.rets, t.list, pos, j);
    t' := PushOk(k, t, pos, j);
  }

  /** The entries listed are those of the history being searched, and none of them was taken out. */
  ghost predicate Apart<S, I, O>(k: Task<S, I, O>, t: Trail<S>) {
    && (forall e :: e in t.list ==> e in k.Entries())
    && (forall e :: e in t.Places() ==> e !in t.list)
  }

  lemma TrailApart<S, I, O>(k: Task<S, I, O>, t: Trail<S>)
    requires |k.after| == |k.ops| && TrailOk(k, t)
    ensures Apart(k, t)
  {
    ListedAreEntries(k, t);
    TakenNotListed(k, t);
  }

  method Push<S, I, O>(ghost k: Task<S, I, O>, ghost t: Trail<S>, ghost pos: nat, e: Entry, ghost t': Trail<S>)
    requires InPlace(k, t) && Apart(k, t)
    requires 1 <= pos < |t.list| && t.list[pos] == e && 0 <= e.op < |k.ops|
    requires Pushed(k, t, pos, t')
    requires e.op in k.calls && e.op in k.rets && e == k.calls[e.op] && t.list[t'.j] == k.rets[e.op]
    modifies k.Entries()`prev, k.Entries()`next
    ensures InPlace(k, t')
  {
    assert e.mate == t.list[t'.j];
    TakeOut(e, t.list, pos, t'.j, t.Places());
  }

  method Pop<S, I, O>(ghost k: Task<S, I, O>, ghost t: Trail<S>, e: Entry)
    requires t.Then? && InPlace(k, t) && Apart(k, t.prev) && Distinct(t.prev.list)
    requires 0 < t.i < t.j < |t.prev.list| && t.list == Without(t.prev.list, t.i, t.j)
    requires t.op < |k.ops| && t.op in k.calls && t.op in k.rets
    requires e == k.calls[t.op] == t.prev.list[t.i] && t.prev.list[t.j] == k.rets[t.op]
    modifies k.Entries()`prev, k.Entries()`next
    ensures InPlace(k, t.prev)
  {
    assert e.mate == t.prev.list[t.j];
    PutBack(e, t.prev.list, t.i, t.j, t.prev.Places());
  }
}
