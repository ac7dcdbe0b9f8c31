/**
 The edges of the appends no read saw, the lost updates among them, and the edges that carry
 real time (listappend/listappend.go, edges).
 */
module UnreadPass {
  import opened Seqs
  import opened Maps
  import opened History
  import opened Graphs
  import opened Classify
  import opened Txns
  import opened Inference
  import opened Strict
  import opened EdgePass

  // ----- Appends no read saw

  predicate UnreadMop(order: Order, m: Mop, k: Key) {
    m.Append? && m.key == k && m.value !in OrderOf(order, k)
  }

  ghost predicate UnreadIn(order: Order, mops: seq<Mop>, n: nat, k: Key)
    requires n <= |mops|
  {
    exists j :: 0 <= j < n && UnreadMop(order, mops[j], k)
  }

  lemma UnreadMeans(txns: seq<Txn>, writer: Writer, order: Order, i: nat, k: Key)
    requires i < |txns|
    ensures Unread(txns, writer, order, i, k) <==>
      Took(txns, writer, order, i) && UnreadIn(order, txns[i].mops, |txns[i].mops|, k)
  {
    hide Took, Appended;
    var mops := txns[i].mops;
    if v :| Writes(txns, i, k, v) && v !in OrderOf(order, k) {
      AppendedAt(mops, k, v);
      var a :| 0 <= a < |mops| && mops[a] == Append(k, v);
      assert UnreadMop(order, mops[a], k);
    }
    if j :| 0 <= j < |mops| && UnreadMop(order, mops[j], k) {
      AppendedAt(mops, k, mops[j].value);
      assert Writes(txns, i, k, mops[j].value);
    }
  }

  method EdgesFrom(latest: set<(Key, nat)>, k: Key, i: nat, adj0: Adj) returns (adj: Adj)
    ensures |adj| == |adj0|
    ensures forall u: nat, v: nat, kind :: HasEdge(adj, u, v, kind) <==>
      HasEdge(adj0, u, v, kind) || (kind == RW && u < |adj0| && v == i && u != v && (k, u) in latest)
  {
    hide HasEdge;
    adj := adj0;
    for r := 0 to |adj0|
      invariant |adj| == |adj0|
      invariant forall u: nat, v: nat, kind :: HasEdge(adj, u, v, kind) <==>
        HasEdge(adj0, u, v, kind) || (kind == RW && u < r && v == i && u != v && (k, u) in latest)
    {
      if (k, r) in latest {
        adj := Add(adj, r, i, RW);
      }
    }
  }

  ghost predicate LastThenUnread(writer: Writer, order: Order, mops: seq<Mop>, n: nat, u: nat)
    requires n <= |mops|
  {
    exists k :: WroteLast(writer, order, k, u) && UnreadIn(order, mops, n, k)
  }

  ghost predicate LatestThenUnread(order: Order, latest: set<(Key, nat)>, mops: seq<Mop>, n: nat, u: nat)
    requires n <= |mops|
  {
    exists k :: (k, u) in latest && UnreadIn(order, mops, n, k)
  }

  lemma UnreadNext(writer: Writer, order: Order, latest: set<(Key, nat)>, mops: seq<Mop>, n: nat)
    requires n < |mops|
    ensures forall k :: UnreadIn(order, mops, n + 1, k) <==> UnreadIn(order, mops, n, k) || UnreadMop(order, mops[n], k)
    ensures forall u: nat :: LastThenUnread(writer, order, mops, n + 1, u) <==>
      LastThenUnread(writer, order, mops, n, u) ||
        (UnreadMop(order, mops[n], mops[n].key) && WroteLast(writer, order, mops[n].key, u))
    ensures forall u: nat :: LatestThenUnread(order, latest, mops, n + 1, u) <==>
      LatestThenUnread(order, latest, mops, n, u) ||
        (UnreadMop(order, mops[n], mops[n].key) && (mops[n].key, u) in latest)
  {
    forall k ensures UnreadIn(order, mops, n + 1, k) <==> UnreadIn(order, mops, n, k) || UnreadMop(order, mops[n], k) {
    }
  }

  ghost predicate OfUnread(writer: Writer, order: Order, latest: set<(Key, nat)>, mops: seq<Mop>, n: nat, i: nat,
      u: nat, v: nat, kind: Kind)
    requires n <= |mops|
  {
    v == i && ((kind == WW && LastThenUnread(writer, order, mops, n, u)) ||
      (kind == RW && LatestThenUnread(order, latest, mops, n, u)))
  }

  /**
   The list of a key is as it was, with `i` at its end if the transaction is one whose appends to
   the key no read saw.
   */
  ghost predicate Grown(order: Order, mops: seq<Mop>, n: nat, i: nat, unread0: map<Key, seq<nat>>,
      unread: map<Key, seq<nat>>)
    requires n <= |mops|
  {
    forall k :: Lookup(unread, k) == Lookup(unread0, k) + if UnreadIn(order, mops, n, k) then [i] else []
  }

  ghost predicate AllBelow(unread: map<Key, seq<nat>>, i: nat) {
    forall k :: Below(Lookup(unread, k), i)
  }

  ghost predicate Below(s: seq<nat>, i: nat) {
    forall j :: 0 <= j < |s| ==> s[j] < i
  }

  /**
   The edges of one transaction's appends that no read saw: from the writer of the last version
   read, and from whoever read it.
   */
  method EdgesOfUnread(writer: Writer, order: Order, latest: set<(Key, nat)>, mops: seq<Mop>, i: nat, adj0: Adj,
      unread0: map<Key, seq<nat>>)
    returns (adj: Adj, unread: map<Key, seq<nat>>)
    requires AllBelow(unread0, i) && (forall kv :: kv in writer ==> writer[kv] < |adj0|) && forall k, u ::
      (k, u) in latest ==> u < |adj0|
    ensures |adj| == |adj0|
    ensures forall u, v, kind :: HasEdge(adj, u, v, kind) <==>
      HasEdge(adj0, u, v, kind) || (u != v && OfUnread(writer, order, latest, mops, |mops|, i, u, v, kind))
    ensures Grown(order, mops, |mops|, i, unread0, unread)
  {
    hide HasEdge, LastThenUnread, LatestThenUnread, UnreadIn, AllBelow, Grown;
    adj, unread := adj0, unread0;
    NoneUnread(writer, order, latest, mops, i, unread0);
    for n := 0 to |mops|
      invariant |adj| == |adj0|
      invariant forall u, v, kind :: HasEdge(adj, u, v, kind) <==>
        HasEdge(adj0, u, v, kind) || (u != v && OfUnread(writer, order, latest, mops, n, i, u, v, kind))
      invariant Grown(order, mops, n, i, unread0, unread)
    {
      var m := mops[n];
      UnreadNext(writer, order, latest, mops, n);
      GrownNext(order, mops, n, i, unread0, unread);
      if UnreadMop(order, m, m.key) {
        var o := OrderOf(order, m.key);
        if |o| > 0 && (m.key, o[|o| - 1]) in writer {
          adj := Add(adj, writer[(m.key, o[|o| - 1])], i, WW);
        }
        adj := EdgesFrom(latest, m.key, i, adj);
        var u := Lookup(unread, m.key);
        if |u| == 0 || u[|u| - 1] != i {
          unread := unread[m.key := u + [i]];
        }
      }
    }
  }

  lemma NoneUnread(writer: Writer, order: Order, latest: set<(Key, nat)>, mops: seq<Mop>, i: nat,
      unread0: map<Key, seq<nat>>)
    ensures forall u: nat :: !LastThenUnread(writer, order, mops, 0, u) && !LatestThenUnread(order, latest, mops, 0, u)
    ensures Grown(order, mops, 0, i, unread0, unread0)
  {
  }

  lemma UnreadInNext(order: Order, mops: seq<Mop>, n: nat, k: Key)
    requires n < |mops|
    ensures UnreadIn(order, mops, n + 1, k) <==> UnreadIn(order, mops, n, k) || UnreadMop(order, mops[n], k)
  {
  }

  lemma GrowOne(was: seq<nat>, now: seq<nat>, i: nat, before: bool, hit: bool)
    requires Below(was, i) && now == was + if before then [i] else []
    ensures (if hit && (|now| == 0 || now[|now| - 1] != i) then now + [i] else now) == was + if before || hit then
      [i] else []
  {
    assert was + [] == was;
  }

  function Noted(order: Order, m: Mop, i: nat, unread: map<Key, seq<nat>>): map<Key, seq<nat>> {
    var u := Lookup(unread, m.key);
    if UnreadMop(order, m, m.key) && (|u| == 0 || u[|u| - 1] != i) then unread[m.key := u + [i]] else unread
  }

  lemma GrownKey(order: Order, m: Mop, i: nat, unread: map<Key, seq<nat>>, was: seq<nat>, before: bool, k: Key)
    requires Below(was, i) && Lookup(unread, k) == was + if before then [i] else []
    ensures Lookup(Noted(order, m, i, unread), k) == was + if before || UnreadMop(order, m, k) then [i] else []
  {
    hide Lookup;
    GrowOne(was, Lookup(unread, k), i, before, UnreadMop(order, m, k));
    LookupPut(unread, m.key, Lookup(unread, m.key) + [i], k);
  }

  lemma GrownNext(order: Order, mops: seq<Mop>, n: nat, i: nat, unread0: map<Key, seq<nat>>, unread: map<Key, seq<nat>>)
    requires n < |mops| && AllBelow(unread0, i) && Grown(order, mops, n, i, unread0, unread)
    ensures Grown(order, mops, n + 1, i, unread0, Noted(order, mops[n], i, unread))
  {
    hide UnreadIn, Lookup, Below, UnreadMop, Noted;
    forall k
      ensures Lookup(Noted(order, mops[n], i, unread), k) ==
        Lookup(unread0, k) + if UnreadIn(order, mops, n + 1, k) then [i] else []
    {
      UnreadInNext(order, mops, n, k);
      GrownKey(order, mops[n], i, unread, Lookup(unread0, k), UnreadIn(order, mops, n, k), k);
    }
  }

  ghost predicate AnyLast(txns: seq<Txn>, writer: Writer, order: Order, u: nat, v: nat) {
    exists k :: WroteLast(writer, order, k, u) && Unread(txns, writer, order, v, k)
  }

  ghost predicate AnyLatest(txns: seq<Txn>, writer: Writer, order: Order, u: nat, v: nat) {
    exists k :: External(txns, u, k, OrderOf(order, k)) && Unread(txns, writer, order, v, k)
  }

  ghost predicate OfUnreadUpTo(txns: seq<Txn>, writer: Writer, order: Order, n: nat, u: nat, v: nat, kind: Kind) {
    v < n && ((kind == WW && AnyLast(txns, writer, order, u, v)) ||
      (kind == RW && AnyLatest(txns, writer, order, u, v)))
  }

  /** The transactions below `n` whose appends to each key no read saw, in order. */
  ghost predicate Listed(txns: seq<Txn>, writer: Writer, order: Order, n: nat, unread: map<Key, seq<nat>>) {
    forall k :: Increasing(Lookup(unread, k)) && forall i: nat :: i in Lookup(unread, k) <==>
      i < n && Unread(txns, writer, order, i, k)
  }

  lemma ListedBelow(txns: seq<Txn>, writer: Writer, order: Order, n: nat, unread: map<Key, seq<nat>>)
    requires Listed(txns, writer, order, n, unread)
    ensures AllBelow(unread, n)
  {
    hide Unread;
    forall k ensures Below(Lookup(unread, k), n) {
      var s := Lookup(unread, k);
      forall j | 0 <= j < |s| ensures s[j] < n {
        assert s[j] in s;
      }
    }
  }

  lemma IncreasingMore(s: seq<nat>, i: nat)
    requires Increasing(s) && Below(s, i)
    ensures Increasing(s + [i])
  {
  }

  lemma ListedNext(txns: seq<Txn>, writer: Writer, order: Order, n: nat, unread0: map<Key, seq<nat>>,
      unread: map<Key, seq<nat>>)
    requires n < |txns| && Listed(txns, writer, order, n, unread0)
    requires forall k :: Lookup(unread, k) == Lookup(unread0, k) + if Unread(txns, writer, order, n, k) then [n] else []
    ensures Listed(txns, writer, order, n + 1, unread)
  {
    hide Unread, Increasing, Below, Lookup;
    ListedBelow(txns, writer, order, n, unread0);
    forall k
      ensures Increasing(Lookup(unread, k)) && forall i: nat :: i in Lookup(unread, k) <==>
        i < n + 1 && Unread(txns, writer, order, i, k)
    {
      var s := Lookup(unread0, k);
      IncreasingMore(s, n);
      assert s + [] == s;
    }
  }

  lemma UnreadEdges(txns: seq<Txn>, writer: Writer, order: Order, latest: set<(Key, nat)>, i: nat)
    requires i < |txns| && Took(txns, writer, order, i) && forall k, w: nat :: (k, w) in latest <==>
      External(txns, w, k, OrderOf(order, k))
    ensures forall u: nat :: LastThenUnread(writer, order, txns[i].mops, |txns[i].mops|, u) <==>
      AnyLast(txns, writer, order, u, i)
    ensures forall u: nat :: LatestThenUnread(order, latest, txns[i].mops, |txns[i].mops|, u) <==>
      AnyLatest(txns, writer, order, u, i)
    ensures forall k :: UnreadIn(order, txns[i].mops, |txns[i].mops|, k) <==> Unread(txns, writer, order, i, k)
  {
    hide Unread, UnreadIn, External, Took, WroteLast;
    forall k ensures UnreadIn(order, txns[i].mops, |txns[i].mops|, k) <==> Unread(txns, writer, order, i, k) {
      UnreadMeans(txns, writer, order, i, k);
    }
  }

  lemma UntakenEdges(txns: seq<Txn>, writer: Writer, order: Order, i: nat)
    requires !Took(txns, writer, order, i)
    ensures forall u: nat :: !AnyLast(txns, writer, order, u, i) && !AnyLatest(txns, writer, order, u, i)
    ensures forall k :: !Unread(txns, writer, order, i, k)
  {
  }

  /** The edges of all unread appends. */
  method AllEdgesOfUnread(txns: seq<Txn>, writer: Writer, order: Order, took: seq<bool>, latest: set<(Key, nat)>,
      adj0: Adj)
    returns (adj: Adj, unread: map<Key, seq<nat>>)
    requires TookRight(txns, writer, order, took) && |adj0| == |txns| && forall kv :: kv in writer ==>
      writer[kv] < |adj0|
    requires forall k, w: nat :: (k, w) in latest <==> External(txns, w, k, OrderOf(order, k))
    ensures |adj| == |adj0|
    ensures forall u, v, kind :: HasEdge(adj, u, v, kind) <==>
      HasEdge(adj0, u, v, kind) || (u != v && OfUnreadUpTo(txns, writer, order, |txns|, u, v, kind))
    ensures Listed(txns, writer, order, |txns|, unread)
  {
    hide HasEdge, AnyLast, AnyLatest, LastThenUnread, LatestThenUnread, External, Took, Unread, UnreadIn, Listed,
      AllBelow, Lookup;
    adj, unread := adj0, map[];
    LatestExist(txns, order, latest);
    ListedNone(txns, writer, order);
    for i := 0 to |txns|
      invariant |adj| == |adj0|
      invariant forall u, v, kind :: HasEdge(adj, u, v, kind) <==>
        HasEdge(adj0, u, v, kind) || (u != v && OfUnreadUpTo(txns, writer, order, i, u, v, kind))
      invariant Listed(txns, writer, order, i, unread)
    {
      ghost var was := unread;
      ListedBelow(txns, writer, order, i, unread);
      if took[i] {
        UnreadEdges(txns, writer, order, latest, i);
        adj, unread := EdgesOfUnread(writer, order, latest, txns[i].mops, i, adj, unread);
        ListedNext(txns, writer, order, i, was, unread);
      } else {
        UntakenEdges(txns, writer, order, i);
        ListedSame(txns, writer, order, i, unread);
      }
    }
  }

  lemma LatestExist(txns: seq<Txn>, order: Order, latest: set<(Key, nat)>)
    requires forall k, w: nat :: (k, w) in latest <==> External(txns, w, k, OrderOf(order, k))
    ensures forall k, u :: (k, u) in latest ==> u < |txns|
  {
  }

  lemma ListedNone(txns: seq<Txn>, writer: Writer, order: Order)
    ensures Listed(txns, writer, order, 0, map[])
  {
  }

  lemma ListedSame(txns: seq<Txn>, writer: Writer, order: Order, n: nat, unread: map<Key, seq<nat>>)
    requires Listed(txns, writer, order, n, unread) && forall k :: !Unread(txns, writer, order, n, k)
    ensures Listed(txns, writer, order, n + 1, unread)
  {
    hide Unread, Increasing, Lookup;
  }

  // ----- Lost updates among them

  /** The members of a list that read the key as well, in order. */
  method ReadersAmong(list: seq<nat>, k: Key, readers: set<(Key, nat)>) returns (both: seq<nat>)
    requires Increasing(list)
    ensures Increasing(both)
    ensures forall i: nat :: i in both <==> i in list && (k, i) in readers
  {
    both := [];
    for n := 0 to |list|
      invariant Increasing(both) && forall i: nat :: i in both <==> i in list[..n] && (k, i) in readers
    {
      TakeNext(list, n);
      if (k, list[n]) in readers {
        forall a | 0 <= a < |both| ensures both[a] < list[n] {
          assert both[a] in list[..n];
        }
        both := both + [list[n]];
      }
    }
    TakeAll(list);
  }

  /** Every pair of a list, once, the one ahead in the list first. */
  method PairsOf(both: seq<nat>, k: Key) returns (pairs: seq<Pair>)
    requires Increasing(both)
    ensures forall i: nat, j: nat, c :: Pair(i, j, c) in pairs <==> c == k && i < j && i in both && j in both
    ensures Distinct(pairs)
  {
    hide Increasing, Distinct;
    pairs := [];
    NoneTwice<Pair>();
    for x := 0 to |both|
      invariant forall i: nat, j: nat, c :: Pair(i, j, c) in pairs <==> c == k && i < j && i in both[..x] && j in both
      invariant Distinct(pairs)
    {
      ghost var was := pairs;
      NotAhead(both, x, x);
      LaterAreGreater(both, x);
      pairs := PairsFrom(both, x, k, pairs);
      forall i: nat, j: nat, c
        ensures Pair(i, j, c) in pairs <==> c == k && i < j && i in both[..x + 1] && j in both
      {
        TakeNext(both, x);
        assert Pair(i, j, c) in was <==> c == k && i < j && i in both[..x] && j in both;
        assert j in both[x + 1..] <==> j in both && both[x] < j;
      }
    }
    TakeAll(both);
  }

  /** Adds the pairs of one member with those after it. */
  method PairsFrom(both: seq<nat>, x: nat, k: Key, was: seq<Pair>) returns (pairs: seq<Pair>)
    requires Increasing(both) && x < |both| && Distinct(was) && forall j: nat :: Pair(both[x], j, k) !in was
    ensures forall i: nat, j: nat, c :: Pair(i, j, c) in pairs <==>
      Pair(i, j, c) in was || (c == k && i == both[x] && j in both[x + 1..])
    ensures Distinct(pairs)
  {
    hide Increasing, Distinct;
    pairs := was;
    for y := x + 1 to |both|
      invariant forall i: nat, j: nat, c :: Pair(i, j, c) in pairs <==>
        Pair(i, j, c) in was || (c == k && i == both[x] && j in both[x + 1..y])
      invariant Distinct(pairs)
    {
      NotAhead(both, x + 1, y);
      DistinctNext(pairs, Pair(both[x], both[y], k));
      pairs := pairs + [Pair(both[x], both[y], k)];
      assert both[x + 1..y + 1] == both[x + 1..y] + [both[y]];
    }
  }

  lemma NoneTwice<T>()
    ensures Distinct<T>([])
  {
  }

  lemma NotAhead(both: seq<nat>, x: nat, y: nat)
    requires Increasing(both) && x <= y < |both|
    ensures both[y] !in both[x..y] && both[y] !in both[..x]
  {
  }

  lemma LaterAreGreater(both: seq<nat>, x: nat)
    requires Increasing(both) && x < |both|
    ensures forall j: nat :: j in both[x + 1..] <==> j in both && both[x] < j
  {
    forall j: nat | j in both && both[x] < j ensures j in both[x + 1..] {
      var n :| 0 <= n < |both| && both[n] == j;
      assert both[x + 1..][n - x - 1] == j;
    }
  }

  ghost predicate BothReadAndUnread(unread: map<Key, seq<nat>>, readers: set<(Key, nat)>, keys: set<Key>, i: nat,
      j: nat, k: Key)
  {
    k in keys && i < j && i in Lookup(unread, k) && j in Lookup(unread, k) && (k, i) in readers && (k, j) in readers
  }

  method FindPairs(unread: map<Key, seq<nat>>, readers: set<(Key, nat)>) returns (pairs: seq<Pair>)
    requires forall k :: Increasing(Lookup(unread, k))
    ensures forall i: nat, j: nat, k :: Pair(i, j, k) in pairs <==>
      BothReadAndUnread(unread, readers, unread.Keys, i, j, k)
    ensures Distinct(pairs)
  {
    hide Increasing, Distinct;
    pairs := [];
    NoneTwice<Pair>();
    var todo, done: set<Key> := unread.Keys, {};
    while todo != {}
      invariant todo + done == unread.Keys
      invariant forall i: nat, j: nat, k :: Pair(i, j, k) in pairs <==>
        BothReadAndUnread(unread, readers, done, i, j, k)
      invariant todo !! done && Distinct(pairs)
      decreases |todo|
    {
      var k :| k in todo;
      assert unread[k] == Lookup(unread, k);
      var both := ReadersAmong(unread[k], k, readers);
      var more := PairsOf(both, k);
      forall p | p in pairs ensures p !in more {
        assert p == Pair(p.a, p.b, p.key);
      }
      DistinctJoin(pairs, more);
      pairs := pairs + more;
      todo, done := todo - {k}, done + {k};
    }
  }

  // ----- Real time

  /** The edges that carry real time. */
  method AllRealtimeEdges(txns: seq<Txn>, took: seq<bool>, adj0: Adj) returns (adj: Adj)
    requires |adj0| == |txns| == |took|
    ensures |adj| == |adj0|
    ensures forall u: nat, v: nat, kind :: HasEdge(adj, u, v, kind) <==>
      HasEdge(adj0, u, v, kind) || (kind == Realtime && u != v && RealtimeDep(txns, took, u, v))
  {
    hide HasEdge, RealtimeDep;
    adj := adj0;
    for i := 0 to |txns|
      invariant |adj| == |adj0|
      invariant forall u: nat, v: nat, kind :: HasEdge(adj, u, v, kind) <==>
        HasEdge(adj0, u, v, kind) || (kind == Realtime && u < i && u != v && RealtimeDep(txns, took, u, v))
    {
      if txns[i].status.Committed? {
        adj := RealtimeEdgesFrom(txns, took, i, adj);
      } else {
        NoneInDoubt(txns, took, i);
      }
    }
    NoneBeyond(txns, took);
  }

  lemma NoneInDoubt(txns: seq<Txn>, took: seq<bool>, i: nat)
    requires i < |txns| && !txns[i].status.Committed?
    ensures forall v: nat :: !RealtimeDep(txns, took, i, v)
  {
  }

  lemma NoneBeyond(txns: seq<Txn>, took: seq<bool>)
    ensures forall u: nat, v: nat :: RealtimeDep(txns, took, u, v) ==> u < |txns|
  {
  }

  /** Links a committed transaction to its successors, but for those that succeed another of them. */
  method RealtimeEdgesFrom(txns: seq<Txn>, took: seq<bool>, i: nat, adj0: Adj) returns (adj: Adj)
    requires i < |txns| && |adj0| == |txns| == |took| && txns[i].status.Committed?
    ensures |adj| == |adj0|
    ensures forall u: nat, v: nat, kind :: HasEdge(adj, u, v, kind) <==>
      HasEdge(adj0, u, v, kind) || (kind == Realtime && u == i && u != v && RealtimeDep(txns, took, i, v))
  {
    hide HasEdge;
    adj := adj0;
    var next: seq<nat>, first: int64 := [], -1;
    for j := 0 to |txns|
      invariant first == FirstReturn(txns, took, i, j)
      invariant forall x: nat :: x in next <==> x < j && Succeeds(txns, took, i, x)
    {
      if txns[j].call > txns[i].ret && took[j] {
        if txns[j].status.Committed? && (first < 0 || txns[j].ret < first) {
          first := txns[j].ret;
        }
        next := next + [j];
      }
    }
    for n := 0 to |next|
      invariant |adj| == |adj0|
      invariant forall u: nat, v: nat, kind :: HasEdge(adj, u, v, kind) <==>
        HasEdge(adj0, u, v, kind) || (kind == Realtime && u == i && u != v && v in next[..n] &&
        RealtimeDep(txns, took, i, v))
    {
      TakeNext(next, n);
      assert next[n] in next;
      if first < 0 || txns[next[n]].call <= first {
        adj := Add(adj, i, next[n], Realtime);
      }
    }
    TakeAll(next);
  }
}
