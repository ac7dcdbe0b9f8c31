/**
 A history that has nothing snapshot isolation forbids reported against it, and does not run on
 snapshots: two transactions that each miss what the other appended, and both append to one key
 that no read looks at.
 */
module UnreadRace {
  import opened Seqs
  import opened Graphs
  import opened Cycles
  import opened Classify
  import opened Txns
  import opened Inference
  import opened NoFalseAlarm
  import opened Serializability
  import opened SnapshotOrder
  import opened SnapshotIsolation

  function Race(): seq<Txn> {
    [Txn(1, 0, 1, Committed, [Read("x", []), Append("y", "a"), Append("k", "b")]),
     Txn(2, 0, 1, Committed, [Read("y", []), Append("x", "c"), Append("k", "d")])]
  }

  /** The key a transaction reads. */
  function ReadKey(i: nat): Key { if i == 0 then "x" else "y" }

  /** The appends it makes. */
  function Writings(i: nat): seq<Mop> {
    if i == 0 then [Append("y", "a"), Append("k", "b")] else [Append("x", "c"), Append("k", "d")]
  }

  lemma RaceReads(i: nat, j: nat, k: Key, list: seq<Value>)
    ensures ReadAt(Race(), i, j, k, list) <==> i < 2 && j == 0 && k == ReadKey(i) && list == []
  {
  }

  lemma RaceWrites(i: nat, k: Key, v: Value)
    ensures Writes(Race(), i, k, v) <==> i < 2 && Append(k, v) in Writings(i)
  {
    if i < 2 {
      AppendedAt(Race()[i].mops, k, v);
      assert Race()[0].mops[1] == Append("y", "a") && Race()[0].mops[2] == Append("k", "b");
      assert Race()[1].mops[1] == Append("x", "c") && Race()[1].mops[2] == Append("k", "d");
    }
  }

  lemma RaceUnique()
    ensures Unique(Race())
  {
  }

  lemma RaceOrder(f: Findings, k: Key)
    requires Longest(Race(), f.order)
    ensures OrderOf(f.order, k) == []
  {
    if k in f.order {
      var i, j :| ReadAt(Race(), i, j, k, f.order[k]);
      RaceReads(i, j, k, f.order[k]);
    }
  }

  lemma RaceOrdered(f: Findings)
    requires Longest(Race(), f.order)
    ensures Ordered(Race(), f.order)
  {
    hide ReadAt;
    forall i, j, k, list | ReadAt(Race(), i, j, k, list) ensures list <= OrderOf(f.order, k) && Distinct(list) {
      RaceReads(i, j, k, list);
    }
  }

  /** Every dependency is rw. */
  lemma RaceOnlyRW(f: Findings, u: nat, e: Edge)
    requires Built(Race(), f, false) && u < |f.adj| && e in f.adj[u]
    ensures e.kind.RW?
  {
    hide PairsRight, TookRight, Attributed, AntiDep, Longest, ReadAt;
    assert e == Edge(e.to, e.kind);
    assert DepOf(Race(), f, false, u, e.to, e.kind);
    if e.kind.WW? {
      RaceNoWW(f, u, e.to);
    } else if e.kind.WR? {
      RaceNoWR(f, u, e.to);
    }
  }

  lemma RaceNoWW(f: Findings, u: nat, v: nat)
    requires Longest(Race(), f.order)
    ensures !WriteDep(Race(), f.writer, f.order, u, v)
  {
    hide Longest;
    forall k ensures OrderOf(f.order, k) == [] {
      RaceOrder(f, k);
    }
  }

  lemma RaceNoWR(f: Findings, u: nat, v: nat)
    ensures !ReadDep(Race(), f.writer, u, v)
  {
    forall k, list | External(Race(), v, k, list) ensures list == [] {
      var j: nat :| ReadAt(Race(), v, j, k, list) && Appended(Race()[v].mops[..j], k) == [];
      RaceReads(v, j, k, list);
    }
  }

  lemma RaceAdjacent(f: Findings)
    requires Built(Race(), f, false)
    ensures AllAdjacentRW(f.adj, All(f.adj))
  {
    hide Built;
    forall c | IsCycle(f.adj, All(f.adj), c) ensures AdjacentRW(c.ks) {
      forall i | 0 <= i < |c.ks| ensures c.ks[i].RW? {
        RaceOnlyRW(f, c.vs[i], Edge(After(c.vs, i), c.ks[i]));
      }
      assert c.ks[0].RW?;
    }
  }

  lemma RaceReader(f: Findings, i: nat, k: Key)
    requires Reader(Race(), f.order, i, k)
    ensures i < 2 && k == ReadKey(i)
  {
    var list :| External(Race(), i, k, list) && list <= OrderOf(f.order, k);
    var j: nat :| ReadAt(Race(), i, j, k, list) && Appended(Race()[i].mops[..j], k) == [];
    RaceReads(i, j, k, list);
  }

  lemma RaceNoPairs(f: Findings)
    requires Built(Race(), f, false)
    ensures f.pairs == []
  {
    hide EdgesRight, Longest, TookRight, PairsRight, Attributed, Reader, Unread;
    forall i: nat, j: nat, k ensures !LostUpdate(Race(), f.writer, f.order, i, j, k) {
      if LostUpdate(Race(), f.writer, f.order, i, j, k) {
        RaceReader(f, i, k);
        RaceReader(f, j, k);
        assert false;
      }
    }
    NoneLostNoPairs(Race(), f);
  }

  lemma RaceReadOk(f: Findings, i: nat, k: Key)
    requires i < 2
    ensures ReadOk(Race(), f.writer, false, i, k, [])
  {
    hide Appended, ReadAt;
    assert forall w: nat :: Written(f.writer, k, [], w) == [];
    assert Others(f.writer, k, [], i) == [];
  }

  lemma RaceFaultless(f: Findings)
    requires Built(Race(), f, false)
    ensures Faultless(Race(), f, false) && NoReadAhead(Race())
  {
    hide EdgesRight, TookRight, PairsRight, Attributed, ReadOk, Writes, ShowsOwn, Race;
    RaceOrdered(f);
    forall i: nat, j: nat, k, v | Writes(Race(), i, k, v) && Writes(Race(), j, k, v) ensures i == j {
      RaceWrites(i, k, v);
      RaceWrites(j, k, v);
    }
    forall i, j, k, list | ReadAt(Race(), i, j, k, list)
      ensures ShowsOwn(Race(), i, j, k, list) && ReadOk(Race(), f.writer, false, i, k, list)
    {
      RaceShowsOwn(i, j, k, list);
      RaceReadOk(f, i, k);
    }
    RaceRepeatable();
    RaceNoReadAhead();
  }

  lemma RaceShowsOwn(i: nat, j: nat, k: Key, list: seq<Value>)
    requires ReadAt(Race(), i, j, k, list)
    ensures ShowsOwn(Race(), i, j, k, list) && i < 2 && list == []
  {
    RaceReads(i, j, k, list);
    assert Race()[i].mops[..0] == [];
  }

  lemma RaceRepeatable()
    ensures Repeatable(Race())
  {
    hide ReadAt, Appended;
    forall i: nat, a: nat, b: nat, k, r, s | ReadAt(Race(), i, a, k, r) && ReadAt(Race(), i, b, k, s)
      ensures a == b && r == s
    {
      RaceReads(i, a, k, r);
      RaceReads(i, b, k, s);
    }
  }

  lemma RaceNoReadAhead()
    ensures NoReadAhead(Race())
  {
    hide Appended;
  }

  /** The second to append to the key would have seen the first, and did not. */
  lemma RaceNotSeen(pi: seq<nat>, from: seq<nat>, u: nat, v: nat, x: Value)
    requires IsSnapshot(Race(), pi, from) && u < 2 && v < 2 && u != v && Writes(Race(), u, ReadKey(v), x)
    requires u in pi && v in pi
    ensures Pos(pi, u) > Pos(pi, v)
  {
    hide IsSnapshot, Appended, Replay, Unique;
    RunParts(Race(), pi, from);
    RaceUnique();
    RaceReads(v, 0, ReadKey(v), []);
    ReadShows(Race(), pi, from, v, 0, ReadKey(v), []);
    InWhenWritten(Race(), pi, ReadKey(v), Start(pi, from, v), x, u);
    if Pos(pi, u) <= Pos(pi, v) {
      RaceAppends(u);
      RaceAppends(v);
      SecondSees(Race(), pi, from, "k", u, v);
      assert false;
    }
  }

  lemma RaceAppends(i: nat)
    requires i < 2
    ensures AppendsTo(Race(), i, "k")
  {
    RaceWrites(i, "k", if i == 0 then "b" else "d");
  }

  lemma RaceNotIsolated()
    ensures !SnapshotIsolated(Race())
  {
    hide IsSnapshot;
    if pi, from :| IsSnapshot(Race(), pi, from) {
      RunParts(Race(), pi, from);
      RaceWrites(0, "y", "a");
      RaceWrites(1, "x", "c");
      RaceNotSeen(pi, from, 0, 1, "a");
      RaceNotSeen(pi, from, 1, 0, "c");
      assert false;
    }
  }

  /** Nothing that snapshot isolation forbids is reported of it, yet it does not run on snapshots. */
  lemma UnreadAppendsSlip(f: Findings)
    requires Built(Race(), f, false)
    ensures Unique(Race()) && NoReadAhead(Race()) && SnapshotSilent(Race(), f) && !SnapshotIsolated(Race())
  {
    hide Built, Faultless, Unique, NoReadAhead, AllAdjacentRW, SnapshotIsolated;
    RaceUnique();
    RaceFaultless(f);
    RaceNoPairs(f);
    RaceAdjacent(f);
    RaceNotIsolated();
  }
}
