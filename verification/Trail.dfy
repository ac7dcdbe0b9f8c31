/**
 The search's position: the operations it has linearized, one on top of the other, with the
 state, the bits and the list it had at each.
 */
module Trail {
  import opened Seqs
  import opened History
  import opened Completion
  import opened CompletionTheory
  import opened Bitset
  import opened EntryList
  import opened Layout

  datatype Trail<S> =
    | Start(state: S, words: Words, list: seq<Entry>)
    | Then(prev: Trail<S>, op: nat, state: S, words: Words, list: seq<Entry>, i: nat, j: nat)
  {
    ghost function Done(): set<nat> {
      if Start? then {} else prev.Done() + {op}
    }

    ghost function Path(): seq<nat> {
      if Start? then [] else prev.Path() + [op]
    }

    /** The entries taken out of the list along the way, and what they remember of their places. */
    ghost function Places(): map<Entry, Place> {
      if Start? then map[]
      else if 0 < i < j < |prev.list| then
        AndPlaces(prev.Places(), prev.list, i, j)
      else prev.Places()
    }
  }

  datatype Place = Place(prev: Entry?, next: Entry?)

  ghost function AndPlaces(places: map<Entry, Place>, list: seq<Entry>, i: nat, j: nat): map<Entry, Place>
    requires 0 < i < j < |list|
  {
    places[list[i] := Place(list[i - 1], list[i + 1])]
          [list[j] := Place(RemoveAt(list, i)[j - 2], At(list, j + 1))]
  }

  ghost predicate Placed(places: map<Entry, Place>)
    reads places.Keys
  {
    forall e :: e in places ==> e.prev == places[e].prev && e.next == places[e].next
  }

  /** What the search is about: the history, its model, and its entries. */
  datatype Task<!S, !I, !O> =
    Task(m: Model<S, I, O>, ops: seq<Op<I, O>>, after: seq<int>, head: Entry, calls: map<nat, Entry>,
      rets: map<nat, Entry>)
  {
    /** Every entry of the history's list. */
    ghost function Entries(): set<Entry> {
      {head} + calls.Values + rets.Values
    }
  }

  ghost predicate LevelOk<S, I, O>(k: Task<S, I, O>, t: Trail<S>) {
    && Laid(k.ops, t.Done(), k.calls, k.rets, t.list)
    && t.list[0] == k.head
    && |k.ops| <= 64 * |t.words|
    && Members(t.words, |k.ops|) == t.Done()
  }

  ghost predicate StepOk<S, I, O>(k: Task<S, I, O>, t: Trail<S>)
    requires |k.after| == |k.ops| && t.Then? && LevelOk(k, t.prev)
  {
    && Tried(k.m, k.ops, k.after, t.prev.Done(), t.prev.state, t.op)
    && t.state == Step(k.m, k.ops, t.prev.state, t.op).1
    && t.words == Set(t.prev.words, t.op)
    && 0 < t.i < t.j < |t.prev.list|
    && t.prev.list[t.i] == k.calls[t.op]
    && t.prev.list[t.j] == k.rets[t.op]
    && t.list == Without(t.prev.list, t.i, t.j)
  }

  /** Every step of the trail was one the search tries. */
  ghost predicate TrailOk<S, I, O>(k: Task<S, I, O>, t: Trail<S>)
    requires |k.after| == |k.ops|
  {
    && LevelOk(k, t)
    && match t
       case Start(state, words, _) => state == k.m.init && words == New(|k.ops|)
       case Then(prev, _, _, _, _, _, _) => TrailOk(k, prev) && StepOk(k, t)
  }

  lemma {:induction false} TakenAreDone<S, I, O>(k: Task<S, I, O>, t: Trail<S>, e: Entry)
    requires |k.after| == |k.ops| && TrailOk(k, t) && e in t.Places()
    ensures e.op >= 0 && e.op in t.Done()
  {
    if e in t.prev.Places() {
      TakenAreDone(k, t.prev, e);
    }
  }

  lemma ListedAreLeft<S, I, O>(k: Task<S, I, O>, t: Trail<S>, e: Entry)
    requires LevelOk(k, t) && e in t.list
    ensures e.op == -1 || e.op !in t.Done()
  {
  }

  lemma TakenNotListed<S, I, O>(k: Task<S, I, O>, t: Trail<S>)
    requires |k.after| == |k.ops| && TrailOk(k, t)
    ensures forall e :: e in t.Places() ==> e !in t.list
  {
    forall e | e in t.Places() ensures e !in t.list {
      TakenAreDone(k, t, e);
      if e in t.list { ListedAreLeft(k, t, e); }
    }
  }

  lemma ListedAreEntries<S, I, O>(k: Task<S, I, O>, t: Trail<S>)
    requires LevelOk(k, t)
    ensures (set e | e in t.list) <= k.Entries()
  {
    forall e | e in t.list ensures e in k.Entries() {
      var p :| 0 <= p < |t.list| && t.list[p] == e;
      assert p > 0 ==> IsNamed(k.calls, k.rets, e);
    }
  }

  /** Linearizing one more operation the search tries. */
  lemma PushOk<S, I, O>(k: Task<S, I, O>, t: Trail<S>, i: nat, j: nat) returns (t': Trail<S>)
    requires |k.after| == |k.ops| && TrailOk(k, t)
    requires 0 < i < j < |t.list| && t.list[i].call && t.list[i].op < |k.ops| && t.list[j] == k.rets[t.list[i].op]
    requires Tried(k.m, k.ops, k.after, t.Done(), t.state, t.list[i].op)
    ensures t' == Then(t, t.list[i].op, Step(k.m, k.ops, t.state, t.list[i].op).1, Set(t.words, t.list[i].op),
      Without(t.list, i, j), i, j)
    ensures TrailOk(k, t')
  {
    hide Set, Tried, Laid, Without;
    CallNamed(k, t, i);
    var x := t.list[i].op;
    t' := Then(t, x, Step(k.m, k.ops, t.state, x).1, Set(t.words, x), Without(t.list, i, j), i, j);
    LaidWithout(k.ops, t.Done(), k.calls, k.rets, t.list, i, j, x);
    FirstKept(t.list, i, j);
    MembersAfterSet(t.words, x, |k.ops|);
  }

  lemma CallNamed<S, I, O>(k: Task<S, I, O>, t: Trail<S>, i: nat)
    requires LevelOk(k, t) && 0 < i < |t.list| && t.list[i].call
    ensures 0 <= t.list[i].op < |k.ops| && t.list[i].op in k.calls && t.list[i] == k.calls[t.list[i].op]
    ensures t.list[i].op !in t.Done()
  {
    assert IsNamed(k.calls, k.rets, t.list[i]);
  }

  lemma FirstKept(list: seq<Entry>, i: nat, j: nat)
    requires 0 < i < j < |list|
    ensures |Without(list, i, j)| > 0 && Without(list, i, j)[0] == list[0]
  {
  }

  lemma {:induction false} DoneIsPath<S>(t: Trail<S>)
    ensures t.Done() == Elements(t.Path())
  {
    if t.Then? {
      DoneIsPath(t.prev);
    }
  }

  /** What the trail has linearized carries on to the end of the history as any completion of its end does. */
  lemma {:induction false} TrailCompletes<S, I, O>(k: Task<S, I, O>, t: Trail<S>, rest: seq<nat>)
    requires |k.after| == |k.ops| && TrailOk(k, t)
    requires Completes(k.m, k.ops, t.Done(), t.state, rest)
    ensures Completes(k.m, k.ops, {}, k.m.init, t.Path() + rest)
  {
    if t.Start? {
      assert t.Path() + rest == rest;
    } else {
      CompletesCons(k.m, k.ops, t.prev.Done(), t.prev.state, t.op, rest);
      TrailCompletes(k, t.prev, [t.op] + rest);
      Regroup(t.prev.Path(), t.op, rest);
    }
  }

  /** And what the search tries from its end it tried from the start. */
  lemma {:induction false} TrailTries<S, I, O>(k: Task<S, I, O>, t: Trail<S>, rest: seq<nat>)
    requires |k.after| == |k.ops| && TrailOk(k, t)
    requires Tries(k.m, k.ops, k.after, t.Done(), t.state, rest)
    ensures Tries(k.m, k.ops, k.after, {}, k.m.init, t.Path() + rest)
  {
    if t.Start? {
      assert t.Path() + rest == rest;
    } else {
      TriesCons(k.m, k.ops, k.after, t.prev.Done(), t.prev.state, t.op, rest);
      TrailTries(k, t.prev, [t.op] + rest);
      Regroup(t.prev.Path(), t.op, rest);
    }
  }

  lemma {:induction false} DoneSize<S, I, O>(k: Task<S, I, O>, t: Trail<S>)
    requires |k.after| == |k.ops| && TrailOk(k, t)
    ensures |t.Done()| == |t.Path()|
  {
    hide TrailOk;
    if t.Then? {
      OpIsNew(k, t);
      DoneSize(k, t.prev);
    }
  }

  lemma OpIsNew<S, I, O>(k: Task<S, I, O>, t: Trail<S>)
    requires |k.after| == |k.ops| && TrailOk(k, t) && t.Then?
    ensures TrailOk(k, t.prev) && t.op !in t.prev.Done()
  {
    hide Laid;
  }

  lemma TrailLinearizes<S, I, O>(k: Task<S, I, O>, t: Trail<S>)
    requires |k.after| == |k.ops| && TrailOk(k, t)
    requires AllAnswered(k.ops, t.Done())
    ensures IsLinearization(k.m, k.ops, t.Path())
  {
    TrailCompletes(k, t, []);
    assert t.Path() + [] == t.Path();
    CompletionIsLinearization(k.m, k.ops, t.Path());
  }
}
