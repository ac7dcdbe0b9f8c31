/**
 The dependency graph, edge by edge (listappend/listappend.go, external and edges).
 */
module EdgePass {
  import opened Seqs
  import opened Graphs
  import opened Txns
  import opened Inference

  ghost predicate HasEdge(adj: Adj, u: nat, v: nat, kind: Kind) {
    u < |adj| && Edge(v, kind) in adj[u]
  }

  /** Adds an edge, unless it is there already or joins a transaction to itself. */
  function Add(adj: Adj, from: nat, to: nat, kind: Kind): (r: Adj)
    requires from < |adj|
    ensures |r| == |adj|
    ensures forall u, v, k :: HasEdge(r, u, v, k) <==>
      HasEdge(adj, u, v, k) || (u == from && v == to && k == kind && from != to)
  {
    if from == to || Edge(to, kind) in adj[from] then adj else adj[from := adj[from] + [Edge(to, kind)]]
  }

  // ----- One version to the next

  ghost predicate NextIn(writer: Writer, k: Key, o: seq<Value>, n: nat, u: nat, v: nat) {
    0 < n < |o| && WriterIs(writer, k, o[n - 1], u) && WriterIs(writer, k, o[n], v)
  }

  ghost predicate NextUpTo(writer: Writer, k: Key, o: seq<Value>, to: nat, u: nat, v: nat) {
    exists n: nat :: n < to && NextIn(writer, k, o, n, u, v)
  }

  method VersionEdges(writer: Writer, k: Key, o: seq<Value>, adj0: Adj) returns (adj: Adj)
    requires forall kv :: kv in writer ==> writer[kv] < |adj0|
    ensures |adj| == |adj0|
    ensures forall u, v, kind :: HasEdge(adj, u, v, kind) <==>
      HasEdge(adj0, u, v, kind) || (kind == WW && u != v && NextUpTo(writer, k, o, |o|, u, v))
  {
    hide HasEdge;
    adj := adj0;
    var n := 1;
    while n < |o|
      invariant 1 <= n && (n <= |o| || |o| == 0) && |adj| == |adj0|
      invariant forall u, v, kind :: HasEdge(adj, u, v, kind) <==>
        HasEdge(adj0, u, v, kind) || (kind == WW && u != v && NextUpTo(writer, k, o, n, u, v))
    {
      forall u: nat, v: nat
        ensures NextUpTo(writer, k, o, n + 1, u, v) <==>
          NextUpTo(writer, k, o, n, u, v) || NextIn(writer, k, o, n, u, v)
      {
      }
      if (k, o[n - 1]) in writer && (k, o[n]) in writer {
        adj := Add(adj, writer[(k, o[n - 1])], writer[(k, o[n])], WW);
      }
      n := n + 1;
    }
  }

  ghost predicate NextOf(writer: Writer, order: Order, keys: set<Key>, u: nat, v: nat) {
    exists k, n :: k in keys && WroteNext(writer, order, k, n, u, v)
  }

  method AllVersionEdges(writer: Writer, order: Order, adj0: Adj) returns (adj: Adj)
    requires forall kv :: kv in writer ==> writer[kv] < |adj0|
    ensures |adj| == |adj0|
    ensures forall u, v, kind :: HasEdge(adj, u, v, kind) <==>
      HasEdge(adj0, u, v, kind) || (kind == WW && u != v && exists k, n :: WroteNext(writer, order, k, n, u, v))
  {
    hide HasEdge;
    adj := adj0;
    var todo, done: set<Key> := order.Keys, {};
    while todo != {}
      invariant todo + done == order.Keys && |adj| == |adj0|
      invariant forall u, v, kind :: HasEdge(adj, u, v, kind) <==>
        HasEdge(adj0, u, v, kind) || (kind == WW && u != v && NextOf(writer, order, done, u, v))
      decreases |todo|
    {
      var k :| k in todo;
      adj := VersionEdges(writer, k, order[k], adj);
      forall u: nat, v: nat
        ensures NextOf(writer, order, done + {k}, u, v) <==>
          NextOf(writer, order, done, u, v) || NextUpTo(writer, k, order[k], |order[k]|, u, v)
      {
        NextOfMore(writer, order, done, k, u, v);
      }
      todo, done := todo - {k}, done + {k};
    }
    forall u: nat, v: nat
      ensures NextOf(writer, order, done, u, v) <==> exists k, n :: WroteNext(writer, order, k, n, u, v)
    {
      if k, n :| WroteNext(writer, order, k, n, u, v) {
        assert k in done;
      }
    }
  }

  lemma NextOfMore(writer: Writer, order: Order, done: set<Key>, k: Key, u: nat, v: nat)
    requires k in order
    ensures NextOf(writer, order, done + {k}, u, v) <==>
      NextOf(writer, order, done, u, v) || NextUpTo(writer, k, order[k], |order[k]|, u, v)
  {
    if NextOf(writer, order, done + {k}, u, v) {
      var c, n: nat :| c in done + {k} && WroteNext(writer, order, c, n, u, v);
      if c == k { assert NextIn(writer, k, order[k], n, u, v); }
    }
    if NextUpTo(writer, k, order[k], |order[k]|, u, v) {
      var n: nat :| n < |order[k]| && NextIn(writer, k, order[k], n, u, v);
      assert WroteNext(writer, order, k, n, u, v);
    }
  }

  // ----- External reads

  ghost predicate ExternalIn(mops: seq<Mop>, n: nat, m: Mop) {
    m.Read? && exists j: nat :: j < n <= |mops| && mops[j] == m && Appended(mops[..j], m.key) == []
  }

  /** The reads of a transaction that come ahead of all its appends to the key read. */
  method ExternalReads(mops: seq<Mop>) returns (out: seq<Mop>)
    ensures forall m :: m in out <==> ExternalIn(mops, |mops|, m)
  {
    hide Appended, ExternalIn;
    out := [];
    var appended: set<Key> := {};
    ExternalNone(mops);
    for j := 0 to |mops|
      invariant forall k :: k in appended <==> Appended(mops[..j], k) != []
      invariant forall m :: m in out <==> ExternalIn(mops, j, m)
    {
      var m := mops[j];
      ExternalNext(mops, j);
      if m.Append? {
        appended := appended + {m.key};
      } else if m.key !in appended {
        out := out + [m];
      }
    }
  }

  lemma ExternalNone(mops: seq<Mop>)
    ensures forall m :: !ExternalIn(mops, 0, m)
    ensures forall k :: Appended(mops[..0], k) == []
  {
  }

  lemma ExternalNext(mops: seq<Mop>, j: nat)
    requires j < |mops|
    ensures forall m :: ExternalIn(mops, j + 1, m) <==>
      ExternalIn(mops, j, m) || (m == mops[j] && m.Read? && Appended(mops[..j], m.key) == [])
    ensures forall k :: Appended(mops[..j + 1], k) != [] <==>
      Appended(mops[..j], k) != [] || (mops[j].Append? && mops[j].key == k)
  {
    hide Appended;
    forall k
      ensures Appended(mops[..j + 1], k) != [] <==>
        Appended(mops[..j], k) != [] || (mops[j].Append? && mops[j].key == k)
    {
      AppendedPrefix(mops, k, j);
    }
  }

  lemma ExternalMeans(txns: seq<Txn>, i: nat, k: Key, list: seq<Value>)
    requires i < |txns| && txns[i].status.Committed?
    ensures External(txns, i, k, list) <==> ExternalIn(txns[i].mops, |txns[i].mops|, Read(k, list))
  {
    hide Appended;
    if External(txns, i, k, list) {
      var j: nat :| ReadAt(txns, i, j, k, list) && Appended(txns[i].mops[..j], k) == [];
      assert txns[i].mops[j] == Read(k, list);
    }
    if ExternalIn(txns[i].mops, |txns[i].mops|, Read(k, list)) {
      var j: nat :| j < |txns[i].mops| && txns[i].mops[j] == Read(k, list) && Appended(txns[i].mops[..j], k) == [];
      assert ReadAt(txns, i, j, k, list);
    }
  }

  ghost predicate WroteIt(writer: Writer, m: Mop, u: nat) {
    m.Read? && |m.list| > 0 && WriterIs(writer, m.key, m.list[|m.list| - 1], u)
  }

  ghost predicate WroteAfter(writer: Writer, order: Order, m: Mop, v: nat) {
    m.Read? && m.list < OrderOf(order, m.key) && WriterIs(writer, m.key, OrderOf(order, m.key)[|m.list|], v)
  }

  ghost predicate AnyWroteIt(writer: Writer, ms: seq<Mop>, u: nat) {
    exists m :: m in ms && WroteIt(writer, m, u)
  }

  ghost predicate AnyWroteAfter(writer: Writer, order: Order, ms: seq<Mop>, v: nat) {
    exists m :: m in ms && WroteAfter(writer, order, m, v)
  }

  ghost predicate ReadsPart(order: Order, ms: seq<Mop>, k: Key) {
    exists m :: m in ms && m.Read? && m.key == k && m.list <= OrderOf(order, k)
  }

  lemma AnyNext(writer: Writer, order: Order, ms: seq<Mop>, m: Mop)
    requires m.Read?
    ensures forall u: nat :: AnyWroteIt(writer, ms + [m], u) <==> AnyWroteIt(writer, ms, u) || WroteIt(writer, m, u)
    ensures forall v: nat :: AnyWroteAfter(writer, order, ms + [m], v) <==>
      AnyWroteAfter(writer, order, ms, v) || WroteAfter(writer, order, m, v)
    ensures forall k :: ReadsPart(order, ms + [m], k) <==>
      ReadsPart(order, ms, k) || (k == m.key && m.list <= OrderOf(order, k))
  {
    forall x ensures x in ms + [m] <==> x in ms || x == m {
    }
  }

  ghost predicate OfReads(writer: Writer, order: Order, ms: seq<Mop>, i: nat, u: nat, v: nat, kind: Kind) {
    (kind == WR && v == i && AnyWroteIt(writer, ms, u)) || (kind == RW && u == i && AnyWroteAfter(writer, order, ms, v))
  }

  /**
   The edges of one transaction's external reads, from the writer of each and to the writer of what
   came next; and what it read the whole of, and a part of.
   */
  method EdgesOfReads(writer: Writer, order: Order, ms: seq<Mop>, i: nat, adj0: Adj, latest0: set<(Key, nat)>,
      readers0: set<(Key, nat)>)
    returns (adj: Adj, latest: set<(Key, nat)>, readers: set<(Key, nat)>)
    requires i < |adj0| && (forall kv :: kv in writer ==> writer[kv] < |adj0|) && forall m :: m in ms ==> m.Read?
    ensures |adj| == |adj0|
    ensures forall u, v, kind :: HasEdge(adj, u, v, kind) <==>
      HasEdge(adj0, u, v, kind) || (u != v && OfReads(writer, order, ms, i, u, v, kind))
    ensures forall k, w :: (k, w) in latest <==> (k, w) in latest0 || (w == i && Read(k, OrderOf(order, k)) in ms)
    ensures forall k, w :: (k, w) in readers <==> (k, w) in readers0 || (w == i && ReadsPart(order, ms, k))
  {
    hide HasEdge, AnyWroteIt, AnyWroteAfter, ReadsPart;
    adj, latest, readers := adj0, latest0, readers0;
    NoReads(writer, order);
    for n := 0 to |ms|
      invariant |adj| == |adj0|
      invariant forall u, v, kind :: HasEdge(adj, u, v, kind) <==>
        HasEdge(adj0, u, v, kind) || (u != v && OfReads(writer, order, ms[..n], i, u, v, kind))
      invariant forall k, w :: (k, w) in latest <==>
        (k, w) in latest0 || (w == i && Read(k, OrderOf(order, k)) in ms[..n])
      invariant forall k, w :: (k, w) in readers <==> (k, w) in readers0 || (w == i && ReadsPart(order, ms[..n], k))
    {
      var m := ms[n];
      assert m in ms;
      TakeNext(ms, n);
      AnyNext(writer, order, ms[..n], m);
      if |m.list| > 0 && (m.key, m.list[|m.list| - 1]) in writer {
        adj := Add(adj, writer[(m.key, m.list[|m.list| - 1])], i, WR);
      }
      var o := OrderOf(order, m.key);
      if |m.list| <= |o| && o[..|m.list|] == m.list {
        readers := readers + {(m.key, i)};
      }
      if |m.list| < |o| && o[..|m.list|] == m.list && (m.key, o[|m.list|]) in writer {
        adj := Add(adj, i, writer[(m.key, o[|m.list|])], RW);
      }
      if o == m.list {
        latest := latest + {(m.key, i)};
      }
    }
    TakeAll(ms);
  }

  lemma NoReads(writer: Writer, order: Order)
    ensures forall u: nat :: !AnyWroteIt(writer, [], u)
    ensures forall v: nat :: !AnyWroteAfter(writer, order, [], v)
    ensures forall k :: !ReadsPart(order, [], k)
  {
  }

  ghost predicate AnyReadBefore(txns: seq<Txn>, writer: Writer, order: Order, u: nat, v: nat) {
    exists k, list :: ReadBefore(txns, writer, order, k, list, u, v)
  }

  lemma ReadsMean(txns: seq<Txn>, writer: Writer, order: Order, ms: seq<Mop>, i: nat)
    requires i < |txns| && txns[i].status.Committed? && forall m :: m in ms <==>
      ExternalIn(txns[i].mops, |txns[i].mops|, m)
    ensures forall u: nat :: AnyWroteIt(writer, ms, u) <==> ReadDep(txns, writer, u, i)
    ensures forall v: nat :: AnyWroteAfter(writer, order, ms, v) <==> AnyReadBefore(txns, writer, order, i, v)
    ensures forall k :: Read(k, OrderOf(order, k)) in ms <==> External(txns, i, k, OrderOf(order, k))
    ensures forall k :: ReadsPart(order, ms, k) <==> Reader(txns, order, i, k)
  {
    hide External, ExternalIn;
    forall k, list ensures External(txns, i, k, list) <==> Read(k, list) in ms {
      ExternalMeans(txns, i, k, list);
    }
    forall m | m in ms ensures m.Read? {
      ExternalIsRead(txns[i].mops, m);
    }
    forall u: nat ensures AnyWroteIt(writer, ms, u) <==> ReadDep(txns, writer, u, i) {
      WroteItMeans(txns, writer, ms, i, u);
    }
    forall v: nat ensures AnyWroteAfter(writer, order, ms, v) <==> AnyReadBefore(txns, writer, order, i, v) {
      WroteAfterMeans(txns, writer, order, ms, i, v);
    }
    forall k ensures ReadsPart(order, ms, k) <==> Reader(txns, order, i, k) {
      PartMeans(txns, order, ms, i, k);
    }
  }

  lemma ExternalIsRead(mops: seq<Mop>, m: Mop)
    requires ExternalIn(mops, |mops|, m)
    ensures m.Read?
  {
  }

  ghost predicate AreExternal(txns: seq<Txn>, ms: seq<Mop>, i: nat) {
    && (forall k, list :: External(txns, i, k, list) <==> Read(k, list) in ms)
    && forall m :: m in ms ==> m.Read?
  }

  lemma WroteItMeans(txns: seq<Txn>, writer: Writer, ms: seq<Mop>, i: nat, u: nat)
    requires AreExternal(txns, ms, i)
    ensures AnyWroteIt(writer, ms, u) <==> ReadDep(txns, writer, u, i)
  {
    hide External;
    if k, list :| External(txns, i, k, list) && |list| > 0 && WriterIs(writer, k, list[|list| - 1], u) {
      assert WroteIt(writer, Read(k, list), u);
    }
    if m :| m in ms && WroteIt(writer, m, u) {
      assert m == Read(m.key, m.list) && External(txns, i, m.key, m.list);
    }
  }

  lemma WroteAfterMeans(txns: seq<Txn>, writer: Writer, order: Order, ms: seq<Mop>, i: nat, v: nat)
    requires AreExternal(txns, ms, i)
    ensures AnyWroteAfter(writer, order, ms, v) <==> AnyReadBefore(txns, writer, order, i, v)
  {
    hide External;
    if k, list :| ReadBefore(txns, writer, order, k, list, i, v) {
      assert WroteAfter(writer, order, Read(k, list), v);
    }
    if m :| m in ms && WroteAfter(writer, order, m, v) {
      assert m == Read(m.key, m.list) && ReadBefore(txns, writer, order, m.key, m.list, i, v);
    }
  }

  lemma PartMeans(txns: seq<Txn>, order: Order, ms: seq<Mop>, i: nat, k: Key)
    requires AreExternal(txns, ms, i)
    ensures ReadsPart(order, ms, k) <==> Reader(txns, order, i, k)
  {
    hide External;
    if list :| External(txns, i, k, list) && list <= OrderOf(order, k) {
      assert Read(k, list) in ms && Read(k, list).key == k;
    }
    if m :| m in ms && m.Read? && m.key == k && m.list <= OrderOf(order, k) {
      assert m == Read(k, m.list) && External(txns, i, k, m.list);
    }
  }

  ghost predicate OfReadsUpTo(txns: seq<Txn>, writer: Writer, order: Order, n: nat, u: nat, v: nat, kind: Kind) {
    (kind == WR && v < n && ReadDep(txns, writer, u, v)) ||
      (kind == RW && u < n && AnyReadBefore(txns, writer, order, u, v))
  }

  /** The edges of every committed transaction's external reads. */
  method AllEdgesOfReads(txns: seq<Txn>, writer: Writer, order: Order, adj0: Adj)
      returns (adj: Adj, latest: set<(Key, nat)>, readers: set<(Key, nat)>)
    requires |adj0| == |txns| && forall kv :: kv in writer ==> writer[kv] < |adj0|
    ensures |adj| == |adj0|
    ensures forall u, v, kind :: HasEdge(adj, u, v, kind) <==>
      HasEdge(adj0, u, v, kind) || (u != v && OfReadsUpTo(txns, writer, order, |txns|, u, v, kind))
    ensures forall k, w: nat :: (k, w) in latest <==> External(txns, w, k, OrderOf(order, k))
    ensures forall k, w: nat :: (k, w) in readers <==> Reader(txns, order, w, k)
  {
    hide HasEdge, ReadDep, AnyReadBefore, External, Reader, AnyWroteIt, AnyWroteAfter, ReadsPart, ExternalIn;
    adj, latest, readers := adj0, {}, {};
    for i := 0 to |txns|
      invariant |adj| == |adj0|
      invariant forall u, v, kind :: HasEdge(adj, u, v, kind) <==>
        HasEdge(adj0, u, v, kind) || (u != v && OfReadsUpTo(txns, writer, order, i, u, v, kind))
      invariant forall k, w: nat :: (k, w) in latest <==> w < i && External(txns, w, k, OrderOf(order, k))
      invariant forall k, w: nat :: (k, w) in readers <==> w < i && Reader(txns, order, w, k)
    {
      if txns[i].status.Committed? {
        var ms := ExternalReads(txns[i].mops);
        ExternalsAreReads(txns[i].mops, ms);
        ReadsMean(txns, writer, order, ms, i);
        adj, latest, readers := EdgesOfReads(writer, order, ms, i, adj, latest, readers);
      } else {
        NotCommitted(txns, writer, order, i);
      }
    }
    BeyondTxns(txns, writer, order);
  }

  lemma ExternalsAreReads(mops: seq<Mop>, ms: seq<Mop>)
    requires forall m :: m in ms <==> ExternalIn(mops, |mops|, m)
    ensures forall m :: m in ms ==> m.Read?
  {
  }

  lemma NotCommitted(txns: seq<Txn>, writer: Writer, order: Order, i: nat)
    requires i >= |txns| || !txns[i].status.Committed?
    ensures forall k, list :: !External(txns, i, k, list)
    ensures forall u: nat :: !ReadDep(txns, writer, u, i) && !AnyReadBefore(txns, writer, order, i, u)
    ensures forall k :: !Reader(txns, order, i, k)
  {
  }

  lemma BeyondTxns(txns: seq<Txn>, writer: Writer, order: Order)
    ensures forall i: nat, k, list :: External(txns, i, k, list) ==> i < |txns|
    ensures forall i: nat, u: nat :: ReadDep(txns, writer, u, i) || AnyReadBefore(txns, writer, order, i, u) ==>
      i < |txns|
    ensures forall i: nat, k :: Reader(txns, order, i, k) ==> i < |txns|
  {
  }
}
