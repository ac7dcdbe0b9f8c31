/**
 What is to be reported of reads of other transactions' appends (listappend/listappend.go, reads).
 */
module ReadPass {
  import opened Seqs
  import opened Maps
  import opened Reports
  import opened Txns
  import opened Inference
  import opened Passes

  /** The appends of a transaction to a key, in order. */
  type Made = map<(Key, nat), seq<Value>>

  function MadeBy(appended: Made, k: Key, w: nat): seq<Value> {
    Lookup(appended, (k, w))
  }

  ghost predicate Recorded(txns: seq<Txn>, appended: Made) {
    forall k, w: nat :: MadeBy(appended, k, w) == if w < |txns| then Appended(txns[w].mops, k) else []
  }

  ghost predicate InTxns(txns: seq<Txn>, writer: Writer) {
    forall kv :: kv in writer ==> writer[kv] < |txns|
  }

  lemma WritersExist(txns: seq<Txn>, writer: Writer)
    requires Attributed(txns, writer)
    ensures InTxns(txns, writer)
  {
    forall kv | kv in writer ensures writer[kv] < |txns| {
      assert kv == (kv.0, kv.1) && Writes(txns, writer[(kv.0, kv.1)], kv.0, kv.1);
    }
  }

  predicate Known(txns: seq<Txn>, writer: Writer, k: Key, v: Value) {
    (k, v) in writer && writer[(k, v)] < |txns| && !txns[writer[(k, v)]].status.Aborted?
  }

  /** Reports the values of a list that nobody appended, or an aborted transaction did, once each. */
  method CheckAborted(txns: seq<Txn>, writer: Writer, i: nat, k: Key, list: seq<Value>, checked0: set<(Key, Value)>)
    returns (reports: seq<Anomaly<About>>, checked: set<(Key, Value)>)
    requires i < |txns| && InTxns(txns, writer)
    ensures reports == [] <==> forall v :: v in list ==> (k, v) in checked0 || Known(txns, writer, k, v)
    ensures KindsOf(reports) == When(reports != [], "G1a")
    ensures forall kv :: kv in checked <==> kv in checked0 || (kv.0 == k && kv.1 in list)
  {
    hide KindsOf;
    KindsNone<About>([]);
    reports, checked := [], checked0;
    for a := 0 to |list|
      invariant KindsOf(reports) == When(reports != [], "G1a")
      invariant forall kv :: kv in checked <==> kv in checked0 || (kv.0 == k && kv.1 in list[..a])
      invariant reports == [] <==> forall v :: v in list[..a] ==> (k, v) in checked0 || Known(txns, writer, k, v)
    {
      var v := list[a];
      TakeNext(list, a);
      if (k, v) !in checked {
        checked := checked + {(k, v)};
        if (k, v) !in writer {
          KindsMore(reports, Anomaly("G1a", About([txns[i].id], [], k)));
          reports := reports + [Anomaly("G1a", About([txns[i].id], [], k))];
        } else if txns[writer[(k, v)]].status.Aborted? {
          KindsMore(reports, Anomaly("G1a", About([txns[writer[(k, v)]].id, txns[i].id], [], k)));
          reports := reports + [Anomaly("G1a", About([txns[writer[(k, v)]].id, txns[i].id], [], k))];
        }
      }
    }
    TakeAll(list);
  }

  /** What a list shows of each other transaction's appends, where there are several. */
  ghost predicate Gathered(writer: Writer, appended: Made, i: nat, k: Key, list: seq<Value>,
      theirs: map<nat, seq<Value>>)
  {
    forall w: nat ::
      Lookup(theirs, w) == if w != i && |MadeBy(appended, k, w)| > 1 then Written(writer, k, list, w) else []
  }

  method Gather(writer: Writer, appended: Made, i: nat, k: Key, list: seq<Value>) returns (theirs: map<nat, seq<Value>>)
    ensures Gathered(writer, appended, i, k, list, theirs)
  {
    theirs := map[];
    for a := 0 to |list|
      invariant Gathered(writer, appended, i, k, list[..a], theirs)
    {
      var v := list[a];
      assert list[..a + 1][..a] == list[..a];
      if (k, v) in writer && writer[(k, v)] != i && |MadeBy(appended, k, writer[(k, v)])| > 1 {
        var w := writer[(k, v)];
        theirs := theirs[w := Lookup(theirs, w) + [v]];
      }
    }
    TakeAll(list);
  }

  /** The list shows another transaction's appends out of order, or some without those before them. */
  ghost predicate Disordered(txns: seq<Txn>, writer: Writer, i: nat, k: Key, list: seq<Value>, w: nat) {
    && w < |txns| && w != i && |Appended(txns[w].mops, k)| > 1
    && !Agree(Written(writer, k, list, w), Appended(txns[w].mops, k))
  }

  /**
   Reports each other transaction whose appends a list shows out of order, or without those before
   them, unless it has been.
   */
  method CheckMade(txns: seq<Txn>, writer: Writer, appended: Made, i: nat, k: Key, list: seq<Value>,
      disordered0: set<(Key, nat)>)
    returns (reports: seq<Anomaly<About>>, disordered: set<(Key, nat)>)
    requires i < |txns| && Recorded(txns, appended)
    ensures forall kw :: kw in disordered <==>
      kw in disordered0 || (kw.0 == k && Disordered(txns, writer, i, k, list, kw.1))
    ensures |reports| + |disordered0| == |disordered|
    ensures KindsOf(reports) == When(reports != [], "incompatible-order")
  {
    hide Written, Appended, Recorded, Agree, KindsOf;
    KindsNone<About>([]);
    reports, disordered := [], disordered0;
    var theirs := Gather(writer, appended, i, k, list);
    for w := 0 to |txns|
      invariant KindsOf(reports) == When(reports != [], "incompatible-order")
      invariant forall kw :: kw in disordered <==>
        kw in disordered0 || (kw.0 == k && kw.1 < w && Disordered(txns, writer, i, k, list, kw.1))
      invariant |reports| + |disordered0| == |disordered|
    {
      MadeIs(txns, appended, k, w);
      AgreeNothing(MadeBy(appended, k, w));
      if w in theirs {
        var got, made := theirs[w], MadeBy(appended, k, w);
        assert got == Lookup(theirs, w);
        if !Agree(got, made) && (k, w) !in disordered {
          disordered := disordered + {(k, w)};
          KindsMore(reports, Anomaly("incompatible-order", About([txns[w].id, txns[i].id], [], k)));
          reports := reports + [Anomaly("incompatible-order", About([txns[w].id, txns[i].id], [], k))];
        }
      }
    }
  }

  lemma AgreeNothing(made: seq<Value>)
    ensures Agree([], made)
  {
  }

  lemma MadeIs(txns: seq<Txn>, appended: Made, k: Key, w: nat)
    requires Recorded(txns, appended) && w < |txns|
    ensures MadeBy(appended, k, w) == Appended(txns[w].mops, k)
  {
  }

  lemma MadeMeans(txns: seq<Txn>, writer: Writer, i: nat, k: Key, list: seq<Value>)
    ensures InMadeOrder(txns, writer, i, k, list) <==> forall w :: !Disordered(txns, writer, i, k, list, w)
  {
    hide Agree, Written, Appended;
    if !InMadeOrder(txns, writer, i, k, list) {
      var w: nat :| w < |txns| && w != i && |Appended(txns[w].mops, k)| > 1 &&
        !Agree(Written(writer, k, list, w), Appended(txns[w].mops, k));
      assert Disordered(txns, writer, i, k, list, w);
    }
  }

  /** The list ends, but for the reader's own appends, in one that its transaction went on from. */
  ghost predicate Intermediate(txns: seq<Txn>, writer: Writer, i: nat, k: Key, list: seq<Value>, w: nat) {
    var others := Others(writer, k, list, i);
    && |others| > 0 && (k, others[|others| - 1]) in writer && w == writer[(k, others[|others| - 1])]
    && w < |txns| && var made := Appended(txns[w].mops, k);
      |made| > 0 && made[|made| - 1] != others[|others| - 1]
  }

  /**
   Reports a list that ends, but for the reader's own appends, in an intermediate append of another
   transaction, unless it has been.
   */
  method CheckIntermediate(txns: seq<Txn>, writer: Writer, appended: Made, i: nat, k: Key, list: seq<Value>,
      intermediate0: set<(Key, nat)>)
    returns (reports: seq<Anomaly<About>>, intermediate: set<(Key, nat)>)
    requires i < |txns| && Recorded(txns, appended) && Attributed(txns, writer)
    ensures forall kw :: kw in intermediate <==>
      kw in intermediate0 || (kw.0 == k && Intermediate(txns, writer, i, k, list, kw.1))
    ensures |reports| + |intermediate0| == |intermediate|
    ensures KindsOf(reports) == When(reports != [], "G1b")
  {
    hide Appended, KindsOf;
    KindsNone<About>([]);
    reports, intermediate := [], intermediate0;
    var others := list;
    while |others| > 0 && (k, others[|others| - 1]) in writer && writer[(k, others[|others| - 1])] == i
      invariant Others(writer, k, others, i) == Others(writer, k, list, i)
    {
      others := others[..|others| - 1];
    }
    assert others == Others(writer, k, list, i);
    if |others| > 0 && (k, others[|others| - 1]) in writer {
      var last := others[|others| - 1];
      var w := writer[(k, last)];
      assert Writes(txns, w, k, last);
      assert MadeBy(appended, k, w) == Appended(txns[w].mops, k);
      if (k, w) !in intermediate {
        var made := MadeBy(appended, k, w);
        if made[|made| - 1] != last {
          intermediate := intermediate + {(k, w)};
          KindsMore<About>([], Anomaly("G1b", About([txns[w].id, txns[i].id], [], k)));
          reports := [] + [Anomaly("G1b", About([txns[w].id, txns[i].id], [], k))];
        }
      }
    }
  }

  lemma IntermediateMeans(txns: seq<Txn>, writer: Writer, i: nat, k: Key, list: seq<Value>)
    requires Attributed(txns, writer)
    ensures NotIntermediate(txns, writer, i, k, list) <==> forall w :: !Intermediate(txns, writer, i, k, list, w)
  {
    hide Appended, Others;
    var others := Others(writer, k, list, i);
    if |others| > 0 && (k, others[|others| - 1]) in writer {
      var last := others[|others| - 1];
      assert Writes(txns, writer[(k, last)], k, last);
      assert !NotIntermediate(txns, writer, i, k, list) ==> Intermediate(txns, writer, i, k, list, writer[(k, last)]);
    }
  }

  /** An append to the key committed before the transaction began and the list does not show it. */
  predicate Lost(txns: seq<Txn>, writer: Writer, i: nat, k: Key, list: seq<Value>, v: Value)
    requires i < |txns| && InTxns(txns, writer)
  {
    (k, v) in writer && var w := writer[(k, v)];
      txns[w].status.Committed? && txns[w].ret < txns[i].call && w != i && v !in list
  }

  /**
   Reports the appends to the key committed before the transaction began that the list does not
   show, unless they have been.
   */
  method CheckLost(txns: seq<Txn>, writer: Writer, i: nat, k: Key, list: seq<Value>, missed0: set<(Key, Value)>)
    returns (reports: seq<Anomaly<About>>, missed: set<(Key, Value)>)
    requires i < |txns| && InTxns(txns, writer)
    ensures forall kv :: kv in missed <==> kv in missed0 || (kv.0 == k && Lost(txns, writer, i, k, list, kv.1))
    ensures |reports| + |missed0| == |missed|
    ensures KindsOf(reports) == When(reports != [], "lost")
  {
    hide KindsOf;
    KindsNone<About>([]);
    reports, missed := [], missed0;
    var todo := set kv | kv in writer && kv.0 == k :: kv.1;
    ghost var all := todo;
    while todo != {}
      invariant KindsOf(reports) == When(reports != [], "lost")
      invariant todo <= all
      invariant forall kv :: kv in missed <==>
        kv in missed0 || (kv.0 == k && kv.1 in all - todo && Lost(txns, writer, i, k, list, kv.1))
      invariant |reports| + |missed0| == |missed|
    {
      var v :| v in todo;
      ghost var done := all - todo;
      todo := todo - {v};
      assert all - todo == done + {v};
      assert exists kv :: kv in writer && kv.0 == k && kv.1 == v;
      var w := writer[(k, v)];
      if txns[w].status.Committed? && txns[w].ret < txns[i].call && v !in list && w != i && (k, v) !in missed {
        missed := missed + {(k, v)};
        KindsMore(reports, Anomaly("lost", About([txns[w].id, txns[i].id], [], k)));
        reports := reports + [Anomaly("lost", About([txns[w].id, txns[i].id], [], k))];
      }
    }
    KeysAll(writer, k, all);
  }

  lemma KeysAll(writer: Writer, k: Key, all: set<Value>)
    requires all == set kv | kv in writer && kv.0 == k :: kv.1
    ensures forall v :: v in all <==> (k, v) in writer
  {
    forall v ensures v in all <==> (k, v) in writer {
      if (k, v) in writer { assert (k, v).0 == k; }
    }
  }

  lemma LostMeans(txns: seq<Txn>, writer: Writer, i: nat, k: Key, list: seq<Value>)
    requires i < |txns| && InTxns(txns, writer)
    ensures NoneLost(txns, writer, i, k, list) <==> forall v :: !Lost(txns, writer, i, k, list, v)
  {
    if !NoneLost(txns, writer, i, k, list) {
      var v :| (k, v) in writer && writer[(k, v)] < |txns| && txns[writer[(k, v)]].status.Committed? &&
        txns[writer[(k, v)]].ret < txns[i].call && writer[(k, v)] != i && v !in list;
      assert Lost(txns, writer, i, k, list, v);
    }
  }

  /** Where nothing was found before, there are reports exactly if something is found now. */
  lemma FoundNow<T>(found: set<T>, n: nat)
    requires n == |found|
    ensures n == 0 <==> forall x :: x !in found
  {
    if found != {} {
      var x :| x in found;
    }
  }

  // ----- All of a transaction's reads

  /**
   What is asked of a read: that it hold nothing unknown or aborted, and no appends out of order;
   that it end in no intermediate one; and that it lack none committed before.
   */
  datatype Asked = NoneAborted | InOrder | NotBetween | NothingLost

  ghost predicate Meets(txns: seq<Txn>, writer: Writer, i: nat, m: Mop, asked: Asked)
    requires i < |txns|
  {
    m.Read? ==> match asked
      case NoneAborted => NoAborted(txns, writer, m.key, m.list)
      case InOrder => InMadeOrder(txns, writer, i, m.key, m.list)
      case NotBetween => NotIntermediate(txns, writer, i, m.key, m.list)
      case NothingLost => NoneLost(txns, writer, i, m.key, m.list)
  }

  /** The first `n` operations of a transaction are what is asked, where they are reads. */
  ghost predicate AllMeet(txns: seq<Txn>, writer: Writer, i: nat, n: nat, asked: Asked)
    requires i < |txns| && n <= |txns[i].mops|
  {
    forall j :: 0 <= j < n ==> Meets(txns, writer, i, txns[i].mops[j], asked)
  }

  ghost function Four(a: bool, b: bool, c: bool, d: bool): set<string> {
    When(a, "G1a") + When(b, "incompatible-order") + When(c, "G1b") + When(d, "lost")
  }

  lemma FourOr(a: bool, b: bool, c: bool, d: bool, a': bool, b': bool, c': bool, d': bool)
    ensures Four(a, b, c, d) + Four(a', b', c', d') == Four(a || a', b || b', c || c', d || d')
  {
  }

  /** The kinds to report of a transaction's reads. */
  ghost function ReadKinds(txns: seq<Txn>, writer: Writer, realtime: bool, i: nat, n: nat): set<string>
    requires i < |txns| && n <= |txns[i].mops|
  {
    Four(!AllMeet(txns, writer, i, n, NoneAborted), !AllMeet(txns, writer, i, n, InOrder),
      !AllMeet(txns, writer, i, n, NotBetween), realtime && !AllMeet(txns, writer, i, n, NothingLost))
  }

  ghost predicate AllKnown(txns: seq<Txn>, writer: Writer, checked: set<(Key, Value)>) {
    forall kv :: kv in checked ==> Known(txns, writer, kv.0, kv.1)
  }

  lemma MeetNext(txns: seq<Txn>, writer: Writer, i: nat, n: nat)
    requires i < |txns| && n < |txns[i].mops|
    ensures !txns[i].mops[n].Read? ==> forall asked :: Meets(txns, writer, i, txns[i].mops[n], asked)
    ensures !txns[i].mops[n].Read? ==> forall realtime ::
      ReadKinds(txns, writer, realtime, i, n + 1) == ReadKinds(txns, writer, realtime, i, n)
    ensures forall asked :: AllMeet(txns, writer, i, n + 1, asked) <==>
      AllMeet(txns, writer, i, n, asked) && Meets(txns, writer, i, txns[i].mops[n], asked)
  {
    assert !txns[i].mops[n].Read? ==> forall asked :: Meets(txns, writer, i, txns[i].mops[n], asked);
    hide Meets;
    assert forall asked :: AllMeet(txns, writer, i, n + 1, asked) <==>
      AllMeet(txns, writer, i, n, asked) && Meets(txns, writer, i, txns[i].mops[n], asked);
  }

  lemma MeetNone(txns: seq<Txn>, writer: Writer, i: nat, realtime: bool)
    requires i < |txns|
    ensures (forall asked :: AllMeet(txns, writer, i, 0, asked)) && ReadKinds(txns, writer, realtime, i, 0) == {} &&
      AllKnown(txns, writer, {})
  {
  }

  lemma MadeFound(txns: seq<Txn>, writer: Writer, i: nat, m: Mop, disordered: set<(Key, nat)>, n: nat)
    requires i < |txns| && m.Read? && n == |disordered|
    requires forall kw :: kw in disordered <==> kw.0 == m.key && Disordered(txns, writer, i, m.key, m.list, kw.1)
    ensures n == 0 <==> Meets(txns, writer, i, m, InOrder)
  {
    hide Disordered, InMadeOrder;
    FoundNow(disordered, n);
    MadeMeans(txns, writer, i, m.key, m.list);
    forall w: nat ensures Disordered(txns, writer, i, m.key, m.list, w) <==> (m.key, w) in disordered {
    }
  }

  lemma IntermediateFound(txns: seq<Txn>, writer: Writer, i: nat, m: Mop, intermediate: set<(Key, nat)>, n: nat)
    requires i < |txns| && Attributed(txns, writer) && m.Read? && n == |intermediate|
    requires forall kw :: kw in intermediate <==> kw.0 == m.key && Intermediate(txns, writer, i, m.key, m.list, kw.1)
    ensures n == 0 <==> Meets(txns, writer, i, m, NotBetween)
  {
    hide Intermediate, NotIntermediate, Attributed;
    FoundNow(intermediate, n);
    IntermediateMeans(txns, writer, i, m.key, m.list);
    forall w: nat ensures Intermediate(txns, writer, i, m.key, m.list, w) <==> (m.key, w) in intermediate {
    }
  }

  lemma LostFound(txns: seq<Txn>, writer: Writer, i: nat, m: Mop, missed: set<(Key, Value)>, n: nat)
    requires i < |txns| && InTxns(txns, writer) && m.Read? && n == |missed|
    requires forall kv :: kv in missed <==> kv.0 == m.key && Lost(txns, writer, i, m.key, m.list, kv.1)
    ensures n == 0 <==> Meets(txns, writer, i, m, NothingLost)
  {
    hide Lost, NoneLost, InTxns;
    FoundNow(missed, n);
    LostMeans(txns, writer, i, m.key, m.list);
    forall v ensures Lost(txns, writer, i, m.key, m.list, v) <==> (m.key, v) in missed {
    }
  }

  /** Checks one read; `a`, `b`, `c` and `d` say which kinds it reports. */
  method CheckRead(txns: seq<Txn>, writer: Writer, appended: Made, realtime: bool, i: nat, m: Mop,
      checked0: set<(Key, Value)>, disordered0: set<(Key, nat)>, intermediate0: set<(Key, nat)>,
      missed0: set<(Key, Value)>)
    returns (reports: seq<Anomaly<About>>, checked: set<(Key, Value)>, disordered: set<(Key, nat)>,
      intermediate: set<(Key, nat)>, missed: set<(Key, Value)>, ghost a: bool, ghost b: bool, ghost c: bool,
      ghost d: bool)
    requires i < |txns| && Recorded(txns, appended) && Attributed(txns, writer) && m.Read?
    ensures KindsOf(reports) == Four(a, b, c, d)
    ensures AllKnown(txns, writer, checked0) ==>
      (a <==> !Meets(txns, writer, i, m, NoneAborted)) && (!a ==> AllKnown(txns, writer, checked))
    ensures disordered0 == {} ==> (b <==> !Meets(txns, writer, i, m, InOrder)) && (!b ==> disordered == {})
    ensures intermediate0 == {} ==> (c <==> !Meets(txns, writer, i, m, NotBetween)) && (!c ==> intermediate == {})
    ensures if realtime then missed0 == {} ==>
      (d <==> !Meets(txns, writer, i, m, NothingLost)) && (!d ==> missed == {}) else !d && missed == missed0
  {
    hide Recorded, Attributed, InTxns, Disordered, Intermediate, Lost, Meets, KindsOf, When;
    WritersExist(txns, writer);
    var r1, r2, r3;
    var r4: seq<Anomaly<About>> := [];
    missed := missed0;
    r1, checked := CheckAborted(txns, writer, i, m.key, m.list, checked0);
    if AllKnown(txns, writer, checked0) {
      AbortedMeans(txns, writer, i, m, checked0, checked);
    }
    r2, disordered := CheckMade(txns, writer, appended, i, m.key, m.list, disordered0);
    if disordered0 == {} { MadeFound(txns, writer, i, m, disordered, |r2|); }
    r3, intermediate := CheckIntermediate(txns, writer, appended, i, m.key, m.list, intermediate0);
    if intermediate0 == {} { IntermediateFound(txns, writer, i, m, intermediate, |r3|); }
    if realtime {
      r4, missed := CheckLost(txns, writer, i, m.key, m.list, missed0);
      if missed0 == {} { LostFound(txns, writer, i, m, missed, |r4|); }
    }
    a, b, c, d := r1 != [], r2 != [], r3 != [], r4 != [];
    KindsFour(r1, r2, r3, r4);
    reports := r1 + r2 + r3 + r4;
  }

  /** Checks each read of a transaction, reporting each thing it finds once. */
  method ReadsOf(txns: seq<Txn>, writer: Writer, appended: Made, realtime: bool, i: nat)
      returns (reports: seq<Anomaly<About>>)
    requires i < |txns| && Recorded(txns, appended) && Attributed(txns, writer)
    ensures KindsOf(reports) == ReadKinds(txns, writer, realtime, i, |txns[i].mops|)
  {
    hide Recorded, Appended, KindsOf, AllMeet, Meets, ReadKinds, When, AllKnown;
    reports := [];
    KindsNone<About>([]);
    MeetNone(txns, writer, i, realtime);
    var checked: set<(Key, Value)>, missed: set<(Key, Value)> := {}, {};
    var disordered: set<(Key, nat)>, intermediate: set<(Key, nat)> := {}, {};
    for j := 0 to |txns[i].mops|
      invariant KindsOf(reports) == ReadKinds(txns, writer, realtime, i, j)
      invariant AllMeet(txns, writer, i, j, NoneAborted) ==> AllKnown(txns, writer, checked)
      invariant AllMeet(txns, writer, i, j, InOrder) ==> disordered == {}
      invariant AllMeet(txns, writer, i, j, NotBetween) ==> intermediate == {}
      invariant realtime && AllMeet(txns, writer, i, j, NothingLost) ==> missed == {}
    {
      var m := txns[i].mops[j];
      MeetNext(txns, writer, i, j);
      if m.Read? {
        var r: seq<Anomaly<About>>;
        ghost var a, b, c, d;
        r, checked, disordered, intermediate, missed, a, b, c, d :=
          CheckRead(txns, writer, appended, realtime, i, m, checked, disordered, intermediate, missed);
        ReadKindsNext(txns, writer, realtime, i, j, a, b, c, d);
        KindsJoin(reports, r);
        reports := reports + r;
      }
    }
  }

  lemma ReadKindsNext(txns: seq<Txn>, writer: Writer, realtime: bool, i: nat, n: nat, a: bool, b: bool, c: bool,
      d: bool)
    requires i < |txns| && n < |txns[i].mops|
    requires AllMeet(txns, writer, i, n + 1, NoneAborted) <==> AllMeet(txns, writer, i, n, NoneAborted) && !a
    requires AllMeet(txns, writer, i, n + 1, InOrder) <==> AllMeet(txns, writer, i, n, InOrder) && !b
    requires AllMeet(txns, writer, i, n + 1, NotBetween) <==> AllMeet(txns, writer, i, n, NotBetween) && !c
    requires if realtime then AllMeet(txns, writer, i, n + 1, NothingLost) <==>
      AllMeet(txns, writer, i, n, NothingLost) && !d else !d
    ensures ReadKinds(txns, writer, realtime, i, n) + Four(a, b, c, d) == ReadKinds(txns, writer, realtime, i, n + 1)
  {
    hide AllMeet, Four;
    FourOr(!AllMeet(txns, writer, i, n, NoneAborted), !AllMeet(txns, writer, i, n, InOrder),
      !AllMeet(txns, writer, i, n, NotBetween), realtime && !AllMeet(txns, writer, i, n, NothingLost), a, b, c, d);
  }

  lemma KindsFour(a: seq<Anomaly<About>>, b: seq<Anomaly<About>>, c: seq<Anomaly<About>>, d: seq<Anomaly<About>>)
    ensures KindsOf(a + b + c + d) == KindsOf(a) + KindsOf(b) + KindsOf(c) + KindsOf(d)
    ensures KindsOf<About>([]) == {} == When(false, "lost")
  {
    hide KindsOf;
    KindsJoin(a, b);
    KindsJoin(a + b, c);
    KindsJoin(a + b + c, d);
    KindsNone<About>([]);
  }

  lemma AbortedMeans(txns: seq<Txn>, writer: Writer, i: nat, m: Mop, before: set<(Key, Value)>,
      checked: set<(Key, Value)>)
    requires i < |txns| && m.Read? && AllKnown(txns, writer, before)
    requires forall kv :: kv in checked <==> kv in before || (kv.0 == m.key && kv.1 in m.list)
    ensures (forall v :: v in m.list ==> (m.key, v) in before || Known(txns, writer, m.key, v)) <==>
      Meets(txns, writer, i, m, NoneAborted)
    ensures Meets(txns, writer, i, m, NoneAborted) ==> AllKnown(txns, writer, checked)
  {
    forall v | v in m.list
      ensures ((m.key, v) in before || Known(txns, writer, m.key, v)) <==> Known(txns, writer, m.key, v)
    {
      assert (m.key, v) in before ==> Known(txns, writer, (m.key, v).0, (m.key, v).1);
    }
  }
}
