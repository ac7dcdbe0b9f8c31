/**
 A history the checker is silent about and no serial order explains: one transaction that reads
 its own append before making it.
 */
module ReadAhead {
  import opened Seqs
  import opened Graphs
  import opened Cycles
  import opened Classify
  import opened Txns
  import opened Inference
  import opened NoFalseAlarm
  import opened Topological
  import opened Serializability

  function Ahead(): seq<Txn> {
    [Txn(1, 0, 1, Committed, [Read("x", ["a"]), Append("x", "a")])]
  }

  lemma AheadWrites(i: nat, k: Key, v: Value)
    ensures Writes(Ahead(), i, k, v) <==> i == 0 && k == "x" && v == "a"
  {
    if i == 0 { AppendedAt(Ahead()[0].mops, k, v); }
  }

  lemma AheadReads(i: nat, j: nat, k: Key, list: seq<Value>)
    ensures ReadAt(Ahead(), i, j, k, list) <==> i == 0 && j == 0 && k == "x" && list == ["a"]
  {
  }

  lemma AheadAppended()
    ensures Appended(Ahead()[0].mops[..0], "x") == [] && Appended(Ahead()[0].mops, "x") == ["a"]
  {
    AppendedPrefix(Ahead()[0].mops, "x", 0);
    AppendedPrefix(Ahead()[0].mops, "x", 1);
    TakeAll(Ahead()[0].mops);
  }

  lemma AheadWriter(f: Findings)
    requires Built(Ahead(), f, false)
    ensures WriterIs(f.writer, "x", "a", 0)
    ensures Ordered(Ahead(), f.order)
  {
    AheadWrites(0, "x", "a");
    assert Writes(Ahead(), f.writer[("x", "a")], "x", "a");
    forall i, j, k, list | ReadAt(Ahead(), i, j, k, list) ensures k in f.order && list <= f.order[k] && Distinct(list) {
      var a, b :| ReadAt(Ahead(), a, b, k, f.order[k]);
    }
  }

  lemma AheadNoEdge(f: Findings, e: Edge)
    requires Built(Ahead(), f, false)
    ensures e !in f.adj[0]
  {
    hide PairsRight, Longest, TookRight;
    assert e == Edge(e.to, e.kind);
  }

  lemma AheadAcyclic(f: Findings)
    requires Built(Ahead(), f, false)
    ensures Acyclic(f.adj)
  {
    hide PairsRight, Longest, TookRight, DepOf;
    forall u: nat, v: nat ensures !Arc(Graph(f.adj, AnyKind), u, v) {
      if Arc(Graph(f.adj, AnyKind), u, v) {
        var j: nat :| Via(Graph(f.adj, AnyKind), u, j, v);
        AheadNoEdge(f, f.adj[0][j]);
        assert false;
      }
    }
    ForwardAcyclic(f.adj, []);
  }

  lemma AheadNoPairs(f: Findings)
    requires Built(Ahead(), f, false)
    ensures f.pairs == []
  {
    hide EdgesRight, Longest, TookRight, Took, PairsRight;
    NoneLostNoPairs(Ahead(), f);
  }

  lemma AheadSilentRead(f: Findings)
    requires Built(Ahead(), f, false) && ReadAt(Ahead(), 0, 0, "x", ["a"])
    ensures ReadOk(Ahead(), f.writer, false, 0, "x", ["a"]) && ShowsOwn(Ahead(), 0, 0, "x", ["a"])
  {
    hide EdgesRight, Longest, TookRight, PairsRight, Attributed;
    AheadWriter(f);
    AheadAppended();
    assert ["a"][..0] == [];
    assert Others(f.writer, "x", ["a"], 0) == [];
  }

  lemma AheadReadsSilent(f: Findings)
    requires Built(Ahead(), f, false)
    ensures ReadsSilent(Ahead(), f.writer, false) && OwnShown(Ahead()) && Repeatable(Ahead()) && NoneShared(Ahead())
  {
    hide Built, ReadOk, ShowsOwn, ReadAt, Writes;
    AheadReads(0, 0, "x", ["a"]);
    AheadSilentRead(f);
    forall i, j, k, list | ReadAt(Ahead(), i, j, k, list) ensures i == 0 && j == 0 && k == "x" && list == ["a"] {
      AheadReads(i, j, k, list);
    }
    forall i: nat, j: nat, k, v | Writes(Ahead(), i, k, v) && Writes(Ahead(), j, k, v) ensures i == j {
      AheadWrites(i, k, v);
      AheadWrites(j, k, v);
    }
  }

  lemma AheadUnique()
    ensures Unique(Ahead())
  {
  }

  lemma AheadUnexplained()
    ensures Unique(Ahead()) && !NoReadAhead(Ahead()) && !Serializable(Ahead(), false)
  {
    hide IsSerial, Unique;
    AheadUnique();
    AheadAppended();
    assert "a" in Ahead()[0].mops[0].list;
    assert !NoReadAhead(Ahead());
    if Serializable(Ahead(), false) {
      var pi :| IsSerial(Ahead(), pi);
      SerialIsSnapshot(Ahead(), pi);
      SnapshotNoReadAhead(Ahead(), pi, Upto(|pi|));
      assert false;
    }
  }

  /** Nothing is reported of it, yet no serial order explains it. */
  lemma ReadingAheadSlips(f: Findings)
    requires Built(Ahead(), f, false)
    ensures Unique(Ahead()) && Silent(Ahead(), f, false) && !NoReadAhead(Ahead()) && !Serializable(Ahead(), false)
  {
    hide *;
    AheadUnexplained();
    AheadWriter(f);
    AheadReadsSilent(f);
    AheadAcyclic(f);
    AheadNoPairs(f);
    AllSilent(Ahead(), f, false);
  }

  lemma AllSilent(txns: seq<Txn>, f: Findings, realtime: bool)
    requires NoneShared(txns) && OwnShown(txns) && Repeatable(txns) && Ordered(txns, f.order) &&
      ReadsSilent(txns, f.writer, realtime)
    requires Acyclic(f.adj) && f.pairs == []
    ensures Silent(txns, f, realtime)
  {
  }
}
