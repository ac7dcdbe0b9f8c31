/**
 A history that some run on snapshots explains gives nothing to report of its reads, and that run
 keeps every dependency the checker infers. A serial run is one in which each sees all before it.
 */
module NoFalseAlarm {
  import opened Seqs
  import opened History
  import opened Txns
  import opened Inference
  import opened Serial

  /** A run on snapshots of a history of unique values, who appended what, and the longest read of each key. */
  ghost predicate Explains(txns: seq<Txn>, writer: Writer, order: Order, pi: seq<nat>, from: seq<nat>) {
    Unique(txns) && IsSnapshot(txns, pi, from) && Attributed(txns, writer) && Longest(txns, order)
  }

  // ----- The list of a key in a serial run

  lemma ReplayNext(txns: seq<Txn>, pi: seq<nat>, k: Key, q: nat)
    requires InRange(|txns|, pi) && q < |pi|
    ensures Replay(txns, pi[..q + 1], k) == Replay(txns, pi[..q], k) + Appended(txns[pi[q]].mops, k)
  {
    assert pi[..q + 1][..q] == pi[..q];
  }

  lemma {:induction false} ReplayGrows(txns: seq<Txn>, pi: seq<nat>, k: Key, p: nat, q: nat)
    requires InRange(|txns|, pi) && p <= q <= |pi|
    ensures Replay(txns, pi[..p], k) <= Replay(txns, pi[..q], k)
    decreases q - p
  {
    if p < q {
      ReplayGrows(txns, pi, k, p, q - 1);
      ReplayNext(txns, pi, k, q - 1);
    }
  }

  lemma {:induction false} ReplayIn(txns: seq<Txn>, pi: seq<nat>, k: Key, q: nat, v: Value)
    requires InRange(|txns|, pi) && q <= |pi|
    ensures v in Replay(txns, pi[..q], k) <==> exists r :: 0 <= r < q && Writes(txns, pi[r], k, v)
  {
    hide Appended;
    if q > 0 {
      ReplayIn(txns, pi, k, q - 1, v);
      ReplayNext(txns, pi, k, q - 1);
      assert v in Appended(txns[pi[q - 1]].mops, k) <==> Writes(txns, pi[q - 1], k, v);
    }
  }

  /** A value is in a run's list when its writer has run. */
  lemma InWhenWritten(txns: seq<Txn>, pi: seq<nat>, k: Key, q: nat, v: Value, w: nat)
    requires Unique(txns) && InRange(|txns|, pi) && Distinct(pi) && q <= |pi| && Writes(txns, w, k, v)
    ensures v in Replay(txns, pi[..q], k) <==> w in pi && Pos(pi, w) < q
  {
    hide Unique, Replay, Appended;
    ReplayIn(txns, pi, k, q, v);
    if r :| 0 <= r < q && Writes(txns, pi[r], k, v) {
      OneWriter(txns, w, pi[r], k, v);
      PosAt(pi, r);
    }
    if w in pi && Pos(pi, w) < q {
      assert pi[Pos(pi, w)] == w;
    }
  }

  lemma {:induction false} ReplayDistinct(txns: seq<Txn>, pi: seq<nat>, k: Key, q: nat)
    requires Unique(txns) && InRange(|txns|, pi) && Distinct(pi) && q <= |pi|
    ensures Distinct(Replay(txns, pi[..q], k))
  {
    hide Unique, Appended;
    if q > 0 {
      ReplayDistinct(txns, pi, k, q - 1);
      ReplayNext(txns, pi, k, q - 1);
      var w := pi[q - 1];
      PosAt(pi, q - 1);
      AppendedDistinct(txns, w, k, |txns[w].mops|);
      TakeAll(txns[w].mops);
      var before, added := Replay(txns, pi[..q - 1], k), Appended(txns[w].mops, k);
      forall v | v in added ensures v !in before {
        InWhenWritten(txns, pi, k, q - 1, v, w);
      }
      DistinctJoin(before, added);
    }
  }

  // ----- A read is a beginning of the list

  lemma CommittedIn(txns: seq<Txn>, pi: seq<nat>, i: nat)
    requires OfEffect(txns, pi) && i < |txns| && txns[i].status.Committed?
    ensures i in pi && Pos(pi, i) < |pi| && pi[Pos(pi, i)] == i
  {
  }

  lemma {:induction false} ReplaySame(txns: seq<Txn>, pi: seq<nat>, k: Key, p: nat, q: nat)
    requires InRange(|txns|, pi) && p <= q <= |pi| && forall r :: p <= r < q ==> !AppendsTo(txns, pi[r], k)
    ensures Replay(txns, pi[..p], k) == Replay(txns, pi[..q], k)
    decreases q - p
  {
    if p < q {
      ReplaySame(txns, pi, k, p, q - 1);
      ReplayNext(txns, pi, k, q - 1);
      assert !AppendsTo(txns, pi[q - 1], k);
    }
  }

  /** One that appends to a key sees all who did before it. */
  lemma WriterCurrent(txns: seq<Txn>, pi: seq<nat>, from: seq<nat>, p: nat, k: Key)
    requires IsSnapshot(txns, pi, from) && p < |pi| && AppendsTo(txns, pi[p], k)
    ensures Replay(txns, pi[..from[p]], k) == Replay(txns, pi[..p], k)
  {
    hide Replay, AppendsTo, ReadsRight;
    ReplaySame(txns, pi, k, from[p], p);
  }

  lemma RunParts(txns: seq<Txn>, pi: seq<nat>, from: seq<nat>)
    requires IsSnapshot(txns, pi, from)
    ensures OfEffect(txns, pi) && Starts(pi, from)
  {
  }

  lemma ReadShows(txns: seq<Txn>, pi: seq<nat>, from: seq<nat>, i: nat, j: nat, k: Key, list: seq<Value>)
    requires IsSnapshot(txns, pi, from) && ReadAt(txns, i, j, k, list)
    ensures i in pi && Start(pi, from, i) <= Pos(pi, i) < |pi|
    ensures list == Replay(txns, pi[..Start(pi, from, i)], k) + Appended(txns[i].mops[..j], k)
    ensures list <= Replay(txns, pi, k)
  {
    hide Replay, Appended;
    CommittedIn(txns, pi, i);
    var p := Pos(pi, i);
    assert ReadsRight(txns, pi, p, from[p]) && ReadRight(txns, pi, p, from[p], j);
    ReadBegins(txns, pi, from, p, j, k);
  }

  /** What a transaction sees, and its own appends so far, begin the list. */
  lemma ReadBegins(txns: seq<Txn>, pi: seq<nat>, from: seq<nat>, p: nat, j: nat, k: Key)
    requires IsSnapshot(txns, pi, from) && p < |pi| && j <= |txns[pi[p]].mops|
    ensures from[p] <= p && Replay(txns, pi[..from[p]], k) + Appended(txns[pi[p]].mops[..j], k) <= Replay(txns, pi, k)
  {
    hide Replay, Appended, ReadsRight, FirstCommitterWins;
    AppendedGrows(txns[pi[p]].mops, k, j);
    TakeAll(pi);
    if Appended(txns[pi[p]].mops[..j], k) == [] {
      ReplayGrows(txns, pi, k, from[p], |pi|);
    } else {
      WriterCurrent(txns, pi, from, p, k);
      ReplayNext(txns, pi, k, p);
      ReplayGrows(txns, pi, k, p + 1, |pi|);
    }
  }

  lemma ExternalShows(txns: seq<Txn>, pi: seq<nat>, from: seq<nat>, i: nat, k: Key, list: seq<Value>)
    requires IsSnapshot(txns, pi, from) && External(txns, i, k, list)
    ensures i in pi && Start(pi, from, i) <= Pos(pi, i) < |pi| && list == Replay(txns, pi[..Start(pi, from, i)], k)
  {
    hide IsSnapshot, Replay, Appended;
    RunParts(txns, pi, from);
    var j: nat :| ReadAt(txns, i, j, k, list) && Appended(txns[i].mops[..j], k) == [];
    ReadShows(txns, pi, from, i, j, k, list);
  }

  lemma OrderShows(txns: seq<Txn>, order: Order, pi: seq<nat>, from: seq<nat>, k: Key)
    requires IsSnapshot(txns, pi, from) && Longest(txns, order)
    ensures OrderOf(order, k) <= Replay(txns, pi, k)
  {
    hide IsSnapshot, Replay;
    if k in order {
      var i, j :| ReadAt(txns, i, j, k, order[k]);
      ReadShows(txns, pi, from, i, j, k, order[k]);
    }
  }

  lemma SeenIn(txns: seq<Txn>, pi: seq<nat>, k: Key, v: Value, w: nat)
    requires Unique(txns) && OfEffect(txns, pi) && Writes(txns, w, k, v)
    ensures v in Replay(txns, pi, k) <==> w in pi
  {
    hide Unique, Replay;
    InWhenWritten(txns, pi, k, |pi|, v, w);
    TakeAll(pi);
  }

  lemma TookIn(txns: seq<Txn>, writer: Writer, order: Order, pi: seq<nat>, from: seq<nat>, i: nat)
    requires Explains(txns, writer, order, pi, from) && Took(txns, writer, order, i)
    ensures i in pi
  {
    hide Unique, Replay;
    if !txns[i].status.Committed? {
      var k, v :| k in order && v in order[k] && WriterIs(writer, k, v, i);
      OrderShows(txns, order, pi, from, k);
      SeenIn(txns, pi, k, v, i);
    }
  }

  // ----- Writers come in the list's order

  lemma WritersInOrder(txns: seq<Txn>, pi: seq<nat>, k: Key, a: nat, b: nat, u: nat, w: nat)
    requires Unique(txns) && OfEffect(txns, pi)
    requires a <= b < |Replay(txns, pi, k)| && Writes(txns, u, k, Replay(txns, pi, k)[a]) &&
      Writes(txns, w, k, Replay(txns, pi, k)[b])
    ensures u in pi && w in pi && Pos(pi, u) <= Pos(pi, w)
  {
    hide Unique, Replay, Appended;
    var all := Replay(txns, pi, k);
    TakeAll(pi);
    ReplayDistinct(txns, pi, k, |pi|);
    SeenIn(txns, pi, k, all[a], u);
    SeenIn(txns, pi, k, all[b], w);
    var q := Pos(pi, w);
    ReplayGrows(txns, pi, k, q + 1, |pi|);
    InWhenWritten(txns, pi, k, q + 1, all[b], w);
    var upTo := Replay(txns, pi[..q + 1], k);
    PrefixHas(upTo, all, b);
    assert upTo[a] == all[a];
    InWhenWritten(txns, pi, k, q + 1, all[a], u);
  }

  lemma PrefixHas<T>(s: seq<T>, t: seq<T>, b: nat)
    requires s <= t && Distinct(t) && b < |t| && t[b] in s
    ensures b < |s|
  {
    var c: nat :| c < |s| && s[c] == t[b];
    assert t[c] == t[b];
  }

  lemma NotInPrefix<T>(s: seq<T>, t: seq<T>)
    requires s < t && Distinct(t)
    ensures t[|s|] !in s
  {
  }

  lemma PosDistinct(pi: seq<nat>, u: nat, w: nat)
    requires u in pi && w in pi && u != w
    ensures Pos(pi, u) != Pos(pi, w)
  {
  }

  // ----- A run keeps the dependencies

  /** Of two that append to a key, the second sees the first. */
  lemma SecondSees(txns: seq<Txn>, pi: seq<nat>, from: seq<nat>, k: Key, u: nat, v: nat)
    requires IsSnapshot(txns, pi, from) && u in pi && v in pi && u != v && Pos(pi, u) <= Pos(pi, v)
    requires AppendsTo(txns, u, k) && AppendsTo(txns, v, k)
    ensures Pos(pi, u) < Start(pi, from, v)
  {
    hide AppendsTo, ReadsRight;
    PosDistinct(pi, u, v);
    assert pi[Pos(pi, u)] == u && pi[Pos(pi, v)] == v;
  }

  lemma WriteForward(txns: seq<Txn>, writer: Writer, order: Order, pi: seq<nat>, from: seq<nat>, u: nat, v: nat)
    requires Explains(txns, writer, order, pi, from) && WriteDep(txns, writer, order, u, v)
    ensures u in pi && v in pi && (u != v ==> Pos(pi, u) < Start(pi, from, v))
  {
    hide Unique, IsSnapshot, Replay, Appended, Longest;
    RunParts(txns, pi, from);
    if k, n: nat :| WroteNext(writer, order, k, n, u, v) {
      OrderShows(txns, order, pi, from, k);
      WritersInOrder(txns, pi, k, n - 1, n, u, v);
      if u != v { SecondSees(txns, pi, from, k, u, v); }
    } else {
      var k :| WroteLast(writer, order, k, u) && Unread(txns, writer, order, v, k);
      UnreadForward(txns, writer, order, pi, from, k, u, v);
      if u != v { SecondSees(txns, pi, from, k, u, v); }
    }
  }

  lemma UnreadForward(txns: seq<Txn>, writer: Writer, order: Order, pi: seq<nat>, from: seq<nat>, k: Key, u: nat,
      v: nat)
    requires Explains(txns, writer, order, pi, from) && WroteLast(writer, order, k, u)
    requires Unread(txns, writer, order, v, k)
    ensures u in pi && v in pi && Pos(pi, u) <= Pos(pi, v) && AppendsTo(txns, u, k) && AppendsTo(txns, v, k)
  {
    hide Unique, IsSnapshot, Replay, Appended, Longest, Took;
    RunParts(txns, pi, from);
    OrderShows(txns, order, pi, from, k);
    var o, all := OrderOf(order, k), Replay(txns, pi, k);
    var x :| Writes(txns, v, k, x) && x !in o;
    TookIn(txns, writer, order, pi, from, v);
    SeenIn(txns, pi, k, x, v);
    var b: nat :| b < |all| && all[b] == x;
    assert b >= |o|;
    WritersInOrder(txns, pi, k, |o| - 1, b, u, v);
  }

  lemma ReadForward(txns: seq<Txn>, writer: Writer, order: Order, pi: seq<nat>, from: seq<nat>, u: nat, v: nat)
    requires Explains(txns, writer, order, pi, from) && ReadDep(txns, writer, u, v)
    ensures u in pi && v in pi && Pos(pi, u) < Start(pi, from, v)
  {
    hide Unique, IsSnapshot, Replay, Appended, Longest, External;
    RunParts(txns, pi, from);
    var k, list :| External(txns, v, k, list) && |list| > 0 && WriterIs(writer, k, list[|list| - 1], u);
    ExternalShows(txns, pi, from, v, k, list);
    var x := list[|list| - 1];
    assert x in list;
    InWhenWritten(txns, pi, k, Start(pi, from, v), x, u);
  }

  lemma AntiForward(txns: seq<Txn>, writer: Writer, order: Order, pi: seq<nat>, from: seq<nat>, u: nat, v: nat)
    requires Explains(txns, writer, order, pi, from) && AntiDep(txns, writer, order, u, v)
    ensures u in pi && v in pi && Start(pi, from, u) <= Pos(pi, v)
  {
    hide Unique, IsSnapshot, Replay, Appended, Longest, External;
    RunParts(txns, pi, from);
    var n := Start(pi, from, u);
    if k, list :| ReadBefore(txns, writer, order, k, list, u, v) {
      ExternalShows(txns, pi, from, u, k, list);
      OrderShows(txns, order, pi, from, k);
      var all := Replay(txns, pi, k);
      var x := all[|list|];
      assert x in all;
      SeenIn(txns, pi, k, x, v);
      InWhenWritten(txns, pi, k, n, x, v);
      ReplayDistinct(txns, pi, k, |pi|);
      TakeAll(pi);
      NotInPrefix(list, all);
    } else {
      var k :| External(txns, u, k, OrderOf(order, k)) && Unread(txns, writer, order, v, k);
      ExternalShows(txns, pi, from, u, k, OrderOf(order, k));
      var x :| Writes(txns, v, k, x) && x !in OrderOf(order, k);
      TookIn(txns, writer, order, pi, from, v);
      InWhenWritten(txns, pi, k, n, x, v);
    }
  }

  /** A run keeps every dependency inferred. */
  lemma DepForward(txns: seq<Txn>, writer: Writer, order: Order, pi: seq<nat>, from: seq<nat>, u: nat, v: nat)
    requires Explains(txns, writer, order, pi, from)
    ensures MustSee(txns, writer, order, u, v) ==>
      u in pi && v in pi && (u != v ==> Pos(pi, u) < Start(pi, from, v))
    ensures AntiDep(txns, writer, order, u, v) ==> u in pi && v in pi && Start(pi, from, u) <= Pos(pi, v)
  {
    hide Explains, WriteDep, ReadDep, AntiDep;
    if WriteDep(txns, writer, order, u, v) { WriteForward(txns, writer, order, pi, from, u, v); }
    if ReadDep(txns, writer, u, v) { ReadForward(txns, writer, order, pi, from, u, v); }
    if AntiDep(txns, writer, order, u, v) { AntiForward(txns, writer, order, pi, from, u, v); }
  }

  // ----- The reads of a run are clean

  lemma PrefixDistinct<T>(s: seq<T>, t: seq<T>)
    requires s <= t && Distinct(t)
    ensures Distinct(s)
  {
    forall i, j | 0 <= i < j < |s| ensures s[i] != s[j] {
      assert s[i] == t[i] && s[j] == t[j];
    }
  }

  lemma SnapshotOrdered(txns: seq<Txn>, writer: Writer, order: Order, pi: seq<nat>, from: seq<nat>)
    requires Explains(txns, writer, order, pi, from)
    ensures Ordered(txns, order)
  {
    hide Unique, IsSnapshot, Replay, Appended;
    RunParts(txns, pi, from);
    forall i, j, k, list | ReadAt(txns, i, j, k, list) ensures k in order && list <= order[k] && Distinct(list) {
      ReadShows(txns, pi, from, i, j, k, list);
      OrderShows(txns, order, pi, from, k);
      ReplayDistinct(txns, pi, k, |pi|);
      TakeAll(pi);
      PrefixDistinct(list, Replay(txns, pi, k));
    }
  }

  /** What a read shows of a transaction's is all it appended, or nothing. */
  lemma {:induction false} WrittenReplay(txns: seq<Txn>, writer: Writer, pi: seq<nat>, k: Key, q: nat, w: nat)
    requires Unique(txns) && Attributed(txns, writer) && InRange(|txns|, pi) && Distinct(pi) && q <= |pi| && w < |txns|
    ensures Written(writer, k, Replay(txns, pi[..q], k), w) == if w in pi && Pos(pi, w) < q then
      Appended(txns[w].mops, k) else []
  {
    hide Unique, Appended, Written, Attributed, Replay;
    if q > 0 {
      var made := Appended(txns[pi[q - 1]].mops, k);
      WrittenReplay(txns, writer, pi, k, q - 1, w);
      ReplayNext(txns, pi, k, q - 1);
      WrittenJoin(writer, k, Replay(txns, pi[..q - 1], k), made, w);
      AppendedAre(txns, pi[q - 1], k);
      WrittenOwn(txns, writer, k, pi[q - 1], made, w);
      RunBefore(pi, q, w);
    } else {
      NothingRun(txns, pi, k);
      WrittenNone(writer, k, [], w);
    }
  }

  lemma NothingRun(txns: seq<Txn>, pi: seq<nat>, k: Key)
    requires InRange(|txns|, pi)
    ensures Replay(txns, pi[..0], k) == []
  {
  }

  lemma AppendedAre(txns: seq<Txn>, i: nat, k: Key)
    requires i < |txns|
    ensures var made := Appended(txns[i].mops, k); forall a :: 0 <= a < |made| ==> Writes(txns, i, k, made[a])
  {
  }

  /** A transaction has run before place `q` if it is at the place before, or had run before that. */
  lemma RunBefore(pi: seq<nat>, q: nat, w: nat)
    requires Distinct(pi) && 0 < q <= |pi|
    ensures if w == pi[q - 1] then w in pi && Pos(pi, w) == q - 1 else w in pi && Pos(pi, w) < q <==>
      w in pi && Pos(pi, w) < q - 1
  {
    PosAt(pi, q - 1);
  }

  lemma WrittenOwn(txns: seq<Txn>, writer: Writer, k: Key, i: nat, made: seq<Value>, w: nat)
    requires Unique(txns) && Attributed(txns, writer) && i < |txns| && forall a :: 0 <= a < |made| ==>
      Writes(txns, i, k, made[a])
    ensures Written(writer, k, made, w) == if w == i then made else []
  {
    hide Unique, Appended, Written;
    forall a | 0 <= a < |made| ensures WriterIs(writer, k, made[a], i) {
      OneWriter(txns, i, writer[(k, made[a])], k, made[a]);
    }
    if w == i { WrittenAll(writer, k, made, w); } else { WrittenNone(writer, k, made, w); }
  }

  lemma OwnAll(txns: seq<Txn>, i: nat, j: nat, k: Key)
    requires i < |txns| && j <= |txns[i].mops|
    ensures var mine := Appended(txns[i].mops[..j], k); forall a :: 0 <= a < |mine| ==> Writes(txns, i, k, mine[a])
  {
    AppendedGrows(txns[i].mops, k, j);
  }

  lemma SnapshotInMadeOrder(txns: seq<Txn>, writer: Writer, order: Order, pi: seq<nat>, from: seq<nat>, i: nat,
      j: nat, k: Key,
      list: seq<Value>)
    requires Explains(txns, writer, order, pi, from) && ReadAt(txns, i, j, k, list)
    ensures InMadeOrder(txns, writer, i, k, list)
  {
    hide Unique, IsSnapshot, Replay, Appended, Written, Longest;
    RunParts(txns, pi, from);
    ReadShows(txns, pi, from, i, j, k, list);
    var p, mine := Start(pi, from, i), Appended(txns[i].mops[..j], k);
    forall w: nat | w < |txns| && w != i && |Appended(txns[w].mops, k)| > 1
      ensures Agree(Written(writer, k, list, w), Appended(txns[w].mops, k))
    {
      WrittenReplay(txns, writer, pi, k, p, w);
      WrittenJoin(writer, k, Replay(txns, pi[..p], k), mine, w);
      OwnAll(txns, i, j, k);
      WrittenOwn(txns, writer, k, i, mine, w);
    }
  }

  lemma SnapshotNoAborted(txns: seq<Txn>, writer: Writer, order: Order, pi: seq<nat>, from: seq<nat>, i: nat, j: nat,
      k: Key,
      list: seq<Value>)
    requires Explains(txns, writer, order, pi, from) && ReadAt(txns, i, j, k, list)
    ensures NoAborted(txns, writer, k, list)
  {
    hide Unique, Replay, Appended, Longest;
    ReadShows(txns, pi, from, i, j, k, list);
    forall v | v in list ensures (k, v) in writer && writer[(k, v)] < |txns| && !txns[writer[(k, v)]].status.Aborted? {
      assert v in Replay(txns, pi, k);
      TakeAll(pi);
      ReplayIn(txns, pi, k, |pi|, v);
      var r :| 0 <= r < |pi| && Writes(txns, pi[r], k, v);
      OneWriter(txns, pi[r], writer[(k, v)], k, v);
    }
  }

  lemma SnapshotShowsOwn(txns: seq<Txn>, pi: seq<nat>, from: seq<nat>, i: nat, j: nat, k: Key, list: seq<Value>)
    requires IsSnapshot(txns, pi, from) && ReadAt(txns, i, j, k, list)
    ensures ShowsOwn(txns, i, j, k, list)
  {
    ReadShows(txns, pi, from, i, j, k, list);
  }

  lemma SnapshotNoReadAhead(txns: seq<Txn>, pi: seq<nat>, from: seq<nat>)
    requires Unique(txns) && IsSnapshot(txns, pi, from)
    ensures NoReadAhead(txns)
  {
    hide Unique, Replay, Appended;
    forall i, j, v | 0 <= i < |txns| && txns[i].status.Committed? && 0 <= j < |txns[i].mops| &&
      txns[i].mops[j].Read? && v in txns[i].mops[j].list &&
      v in Appended(txns[i].mops, txns[i].mops[j].key)
      ensures v in Appended(txns[i].mops[..j], txns[i].mops[j].key)
    {
      var m := txns[i].mops[j];
      ReadShows(txns, pi, from, i, j, m.key, m.list);
      InWhenWritten(txns, pi, m.key, Start(pi, from, i), v, i);
    }
  }

  // ----- Nor is there anything else to report

  lemma SnapshotRepeatable(txns: seq<Txn>, pi: seq<nat>, from: seq<nat>)
    requires IsSnapshot(txns, pi, from)
    ensures Repeatable(txns)
  {
    hide IsSnapshot, Replay, Appended, Rest, ShowsOwn;
    forall i: nat, a: nat, b: nat, k, r, s | ReadAt(txns, i, a, k, r) && ReadAt(txns, i, b, k, s)
      ensures Rest(Appended(txns[i].mops[..a], k), r) == Rest(Appended(txns[i].mops[..b], k), s)
    {
      RestShows(txns, pi, from, i, a, k, r);
      RestShows(txns, pi, from, i, b, k, s);
    }
  }

  lemma RestShows(txns: seq<Txn>, pi: seq<nat>, from: seq<nat>, i: nat, j: nat, k: Key, list: seq<Value>)
    requires IsSnapshot(txns, pi, from) && ReadAt(txns, i, j, k, list)
    ensures i in pi && Rest(Appended(txns[i].mops[..j], k), list) == Replay(txns, pi[..Start(pi, from, i)], k)
  {
    ReadShows(txns, pi, from, i, j, k, list);
  }

  lemma {:induction false} OthersDrop(writer: Writer, k: Key, rest: seq<Value>, mine: seq<Value>, i: nat)
    requires forall a :: 0 <= a < |mine| ==> WriterIs(writer, k, mine[a], i)
    requires rest != [] ==> !WriterIs(writer, k, rest[|rest| - 1], i)
    ensures Others(writer, k, rest + mine, i) == rest
  {
    if mine == [] {
      assert rest + mine == rest;
    } else {
      var n := |mine| - 1;
      assert (rest + mine)[..|rest + mine| - 1] == rest + mine[..n];
      OthersDrop(writer, k, rest, mine[..n], i);
    }
  }

  lemma {:induction false} ReplayLast(txns: seq<Txn>, pi: seq<nat>, k: Key, q: nat) returns (r: nat)
    requires InRange(|txns|, pi) && q <= |pi| && Replay(txns, pi[..q], k) != []
    ensures r < q && var made := Appended(txns[pi[r]].mops, k);
      made != [] && made[|made| - 1] == Replay(txns, pi[..q], k)[|Replay(txns, pi[..q], k)| - 1]
  {
    if q > 0 {
      ReplayNext(txns, pi, k, q - 1);
      if Appended(txns[pi[q - 1]].mops, k) != [] {
        r := q - 1;
      } else {
        r := ReplayLast(txns, pi, k, q - 1);
      }
    }
  }

  lemma SnapshotNotIntermediate(txns: seq<Txn>, writer: Writer, order: Order, pi: seq<nat>, from: seq<nat>, i: nat,
      j: nat, k: Key,
      list: seq<Value>)
    requires Explains(txns, writer, order, pi, from) && ReadAt(txns, i, j, k, list)
    ensures NotIntermediate(txns, writer, i, k, list)
  {
    hide Unique, IsSnapshot, Replay, Appended, Longest, Others;
    RunParts(txns, pi, from);
    ReadShows(txns, pi, from, i, j, k, list);
    var p, mine := Start(pi, from, i), Appended(txns[i].mops[..j], k);
    var rest := Replay(txns, pi[..p], k);
    OwnAll(txns, i, j, k);
    forall a | 0 <= a < |mine| ensures WriterIs(writer, k, mine[a], i) {
      OneWriter(txns, i, writer[(k, mine[a])], k, mine[a]);
    }
    if rest != [] {
      var last := rest[|rest| - 1];
      var r := ReplayLast(txns, pi, k, p);
      assert Writes(txns, pi[r], k, last);
      OneWriter(txns, pi[r], writer[(k, last)], k, last);
      PosAt(pi, r);
    }
    OthersDrop(writer, k, rest, mine, i);
  }

  /** A serial run in real time misses nothing committed before. */
  lemma SerialNoneLost(txns: seq<Txn>, writer: Writer, order: Order, pi: seq<nat>, i: nat, j: nat, k: Key,
      list: seq<Value>)
    requires Explains(txns, writer, order, pi, Upto(|pi|)) && InRange(|txns|, pi) && KeepsRealTime(txns, pi) &&
      ReadAt(txns, i, j, k, list)
    ensures NoneLost(txns, writer, i, k, list)
  {
    hide Unique, IsSnapshot, Replay, Appended, Longest;
    RunParts(txns, pi, Upto(|pi|));
    SeesAll(pi, i);
    ReadShows(txns, pi, Upto(|pi|), i, j, k, list);
    forall v | (k, v) in writer && (var w := writer[(k, v)];
      w < |txns| && txns[w].status.Committed? && txns[w].ret < txns[i].call && w != i)
      ensures v in list
    {
      var w := writer[(k, v)];
      CommittedIn(txns, pi, w);
      CommittedIn(txns, pi, i);
      PosDistinct(pi, w, i);
      InWhenWritten(txns, pi, k, Pos(pi, i), v, w);
    }
  }

  lemma SnapshotNoLostUpdate(txns: seq<Txn>, writer: Writer, order: Order, pi: seq<nat>, from: seq<nat>, i: nat, j: nat,
      k: Key)
    requires Explains(txns, writer, order, pi, from)
    ensures !LostUpdate(txns, writer, order, i, j, k)
  {
    hide Unique, IsSnapshot, Replay, Appended, Longest, Unread, Reader;
    if LostUpdate(txns, writer, order, i, j, k) {
      UnreadNotAfter(txns, writer, order, pi, from, i, j, k);
      UnreadNotAfter(txns, writer, order, pi, from, j, i, k);
      if Pos(pi, i) <= Pos(pi, j) {
        SecondSees(txns, pi, from, k, i, j);
      } else {
        SecondSees(txns, pi, from, k, j, i);
      }
      assert false;
    }
  }

  lemma UnreadNotAfter(txns: seq<Txn>, writer: Writer, order: Order, pi: seq<nat>, from: seq<nat>, i: nat, j: nat,
      k: Key)
    requires Explains(txns, writer, order, pi, from) && Unread(txns, writer, order, i, k) && Reader(txns, order, j, k)
    ensures i in pi && j in pi && AppendsTo(txns, i, k) && Start(pi, from, j) <= Pos(pi, i)
  {
    hide Unique, IsSnapshot, Replay, Appended, Longest, External;
    RunParts(txns, pi, from);
    TookIn(txns, writer, order, pi, from, i);
    var list :| External(txns, j, k, list) && list <= OrderOf(order, k);
    ExternalShows(txns, pi, from, j, k, list);
    var x :| Writes(txns, i, k, x) && x !in OrderOf(order, k);
    InWhenWritten(txns, pi, k, Start(pi, from, j), x, i);
  }
}
