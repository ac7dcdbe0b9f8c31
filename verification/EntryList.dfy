/**
 The doubly linked list of calls and returns the search works on: taking an operation out
 and putting it back (linearize/linearize.go, entry, lift and unlift).
 */
module EntryList {
  import opened Seqs

  class Entry {
    const op: int
    const call: bool
    var mate: Entry?  // a call's return
    var prev: Entry?
    var next: Entry?

    constructor (op: int, call: bool, prev: Entry?)
      ensures this.op == op && this.call == call && this.prev == prev
      ensures this.mate == null && this.next == null
    {
      this.op, this.call, this.prev := op, call, prev;
      mate, next := null, null;
    }
  }

  /** `list` is what following `next` from its first entry gives, with `prev` its inverse. */
  ghost predicate Linked(list: seq<Entry>)
    reads list
  {
    && |list| > 0
    && Distinct(list)
    && (forall k {:trigger list[k].next} :: 0 <= k < |list| - 1 ==> list[k].next == list[k + 1])
    && (forall k {:trigger list[k].prev} :: 1 <= k < |list| ==> list[k].prev == list[k - 1])
    && list[|list| - 1].next == null
  }

  ghost function At(list: seq<Entry>, k: nat): Entry? {
    if k < |list| then list[k] else null
  }

  method Unhook(e: Entry, ghost list: seq<Entry>, ghost k: nat)
    requires Linked(list) && 0 < k < |list| && list[k] == e
    modifies e.prev`next, (if e.next == null then {} else {e.next})`prev
    ensures Linked(RemoveAt(list, k))
    ensures e.prev == list[k - 1] && e.next == At(list, k + 1)
  {
    e.prev.next := e.next;
    if e.next != null {
      e.next.prev := e.prev;
    }
  }

  method Hook(e: Entry, ghost list: seq<Entry>, ghost k: nat)
    requires Distinct(list) && 0 < k < |list| && list[k] == e
    requires Linked(RemoveAt(list, k))
    requires e.prev == list[k - 1] && e.next == At(list, k + 1)
    modifies e.prev`next, (if e.next == null then {} else {e.next})`prev
    ensures Linked(list)
  {
    ghost var rest := RemoveAt(list, k);
    assert forall i {:trigger list[i]} :: 0 <= i < k ==> list[i] == rest[i];
    assert forall i {:trigger list[i]} :: k < i < |list| ==> list[i] == rest[i - 1];
    e.prev.next := e;
    if e.next != null {
      e.next.prev := e;
    }
    forall i | 0 <= i < |list| - 1 ensures list[i].next == list[i + 1] {
      if i < k - 1 {
        assert rest[i].next == rest[i + 1];
      } else if k < i {
        assert rest[i - 1].next == rest[i];
      }
    }
    forall i | 1 <= i < |list| ensures list[i].prev == list[i - 1] {
      if i < k {
        assert rest[i].prev == rest[i - 1];
      } else if k + 1 < i {
        assert rest[i - 1].prev == rest[i - 2];
      }
    }
  }

  // ----- lift and unlift

  /** The list with the entries at `i` and `j` taken out. */
  ghost function Without(list: seq<Entry>, i: nat, j: nat): seq<Entry>
    requires i < j < |list|
  {
    RemoveAt(RemoveAt(list, i), j - 1)
  }

  /** What the entries at `i` and `j` remember of where they were, once taken out. */
  ghost predicate Lifted(list: seq<Entry>, i: nat, j: nat)
    requires 0 < i < j < |list|
    reads list[i], list[j]
  {
    && list[i].mate == list[j]
    && list[i].prev == list[i - 1]
    && list[i].next == list[i + 1]
    && list[j].prev == RemoveAt(list, i)[j - 2]
    && list[j].next == At(list, j + 1)
  }

  method Lift(e: Entry, ghost list: seq<Entry>, ghost i: nat, ghost j: nat)
    requires Linked(list) && 0 < i < j < |list| && list[i] == e && e.mate == list[j]
    modifies (set x | x in list)`prev, (set x | x in list)`next
    ensures Linked(Without(list, i, j))
    ensures Lifted(list, i, j)
  {
    hide RemoveAt;
    ghost var rest := RemoveAt(list, i);
    RemoveAtMeans(list, i);
    RemoveAtElement(list, i, j - 1);
    NextInRest(list, i, j);
    assert list[i - 1] in list && list[i + 1] in list && e !in rest && rest[j - 2] in rest;
    Unhook(e, list, i);
    Unhook(e.mate, rest, j - 1);
  }

  lemma NextInRest(list: seq<Entry>, i: nat, j: nat)
    requires Distinct(list) && 0 < i < j < |list|
    ensures |RemoveAt(list, i)| == |list| - 1 && At(RemoveAt(list, i), j) == At(list, j + 1)
    ensures forall x :: x in RemoveAt(list, i) ==> x in list
  {
  }

  method Unlift(e: Entry, ghost list: seq<Entry>, ghost i: nat, ghost j: nat)
    requires Distinct(list) && 0 < i < j < |list| && list[i] == e
    requires Linked(Without(list, i, j)) && Lifted(list, i, j)
    modifies (set x | x in list)`prev, (set x | x in list)`next
    ensures Linked(list)
  {
    ghost var rest := RemoveAt(list, i);
    assert rest[j - 1] == list[j];
    Hook(e.mate, rest, j - 1);
    Hook(e, list, i);
  }
}
