/**
 The list-append checker: it records who appended what, checks each read, infers the version
 order of each key and the dependencies between transactions, and looks for cycles of them
 (listappend/listappend.go, Check and checker).
 */
module Checker {
  import opened Seqs
  import opened Maps
  import opened Reports
  import opened Graphs
  import opened Cycles
  import opened Classify
  import opened Txns
  import opened Inference
  import opened Strict
  import opened Passes
  import opened ReadPass
  import opened EdgePass
  import opened UnreadPass
  import opened HistoryPass
  import opened Serializability
  import opened Verdicts

  class Checker {
    const txns: seq<Txn>
    const realtime: bool
    var writer: Writer
    var appended: Made
    var order: Order
    var took: seq<bool>
    var adj: Adj
    var pairs: seq<Pair>
    var out: seq<Anomaly<About>>

    constructor (txns: seq<Txn>, realtime: bool)
      ensures this.txns == txns && this.realtime == realtime
      ensures writer == map[] && appended == map[] && out == []
    {
      this.txns, this.realtime := txns, realtime;
      writer, appended, order, took, adj, pairs, out := map[], map[], map[], [], [], [], [];
    }

    /** What the passes have worked out. */
    ghost function Found(): Findings
      reads this
    {
      Findings(writer, order, took, adj, pairs)
    }

    /** Fills `writer` and `appended`; adds "duplicate" exactly when two transactions append one value to a key. */
    method Appends()
      requires writer == map[] && appended == map[]
      modifies `writer, `appended, `out
      ensures Attributed(txns, writer) && Recorded(txns, appended)
      ensures KindsOf(out) == KindsOf(old(out)) + When(!NoneShared(txns), "duplicate")
    {
      hide NoneShared, Attributed, Recorded, KindsOf;
      NoTxns();
      assert txns[..0] == [];
      for i := 0 to |txns|
        invariant Attributed(txns[..i], writer) && Recorded(txns[..i], appended)
        invariant KindsOf(out) == KindsOf(old(out)) + When(!NoneShared(txns[..i]), "duplicate")
      {
        var w, a, r := AppendsOf(txns, i, writer, appended);
        KindsJoin(out, r);
        writer, appended, out := w, a, out + r;
      }
      TakeAll(txns);
    }

    /** Adds "internal" and "nonrepeatable", each exactly when some committed transaction's reads call for it. */
    method Internal()
      modifies `out
      ensures KindsOf(out) == KindsOf(old(out)) + When(!OwnShown(txns), "internal") + When(!Repeatable(txns),
        "nonrepeatable")
    {
      hide OwnUpTo, RepeatUpTo, OwnShown, Repeatable, KindsOf;
      ghost var own, repeat := true, true;
      for i := 0 to |txns|
        invariant own <==> forall j :: 0 <= j < i && txns[j].status.Committed? ==> OwnUpTo(txns[j].mops, |txns[j].mops|)
        invariant repeat <==>
          forall j :: 0 <= j < i && txns[j].status.Committed? ==> RepeatUpTo(txns[j].mops, |txns[j].mops|)
        invariant KindsOf(out) == KindsOf(old(out)) + When(!own, "internal") + When(!repeat, "nonrepeatable")
      {
        if txns[i].status.Committed? {
          var r := InternalOf(txns[i].id, txns[i].mops);
          KindsJoin(out, r);
          own, repeat := own && OwnUpTo(txns[i].mops, |txns[i].mops|), repeat &&
            RepeatUpTo(txns[i].mops, |txns[i].mops|);
          out := out + r;
        }
      }
      OwnMeans(txns);
      RepeatMeans(txns);
    }

    /** Infers each key's version order. */
    method Orders()
      modifies `order, `out
      ensures Longest(txns, order)
      ensures KindsOf(out) == KindsOf(old(out)) + When(!ReadsDistinct(txns),
        "duplicate") + When(!ReadsBegin(txns, order), "incompatible-order")
    {
      hide Longest, ReadsDistinct, ReadsBegin, KindsOf;
      var o, r := InferOrders(txns);
      KindsJoin(out, r);
      order, out := o, out + r;
    }

    /** Sets `took` of exactly the committed and of those in doubt that were seen. */
    method TakeEffect()
      requires Attributed(txns, writer)
      modifies `took
      ensures TookRight(txns, writer, order, took)
    {
      hide TookRight;
      WritersExist(txns, writer);
      took := Effects(txns, writer, order);
    }

    /**
     Adds "G1a", "incompatible-order", "G1b" and, with Realtime, "lost", each exactly when some
     committed read calls for it.
     */
    method Reads()
      requires Attributed(txns, writer) && Recorded(txns, appended)
      modifies `out
      ensures KindsOf(out) == KindsOf(old(out)) + AllReadKinds(txns, writer, realtime, |txns|)
    {
      hide Attributed, Recorded, KindsOf, ReadKinds;
      for i := 0 to |txns|
        invariant KindsOf(out) == KindsOf(old(out)) + AllReadKinds(txns, writer, realtime, i)
      {
        if txns[i].status.Committed? {
          var r := ReadsOf(txns, writer, appended, realtime, i);
          KindsJoin(out, r);
          out := out + r;
        }
      }
    }

    /** Leaves in `adj` exactly the dependencies between different transactions, and in `pairs` the lost updates. */
    method Edges()
      requires Attributed(txns, writer) && Longest(txns, order) && TookRight(txns, writer, order, took)
      modifies `adj, `pairs
      ensures EdgesRight(txns, Found(), realtime) && PairsRight(txns, Found())
    {
      hide Attributed, Longest, TookRight, EdgesRight, PairsRight, HasEdge, Listed, Reader, External;
      WritersExist(txns, writer);
      TookSize(txns, writer, order, took);
      var none := seq(|txns|, _ => []);
      NoEdges(none);
      var a := AllVersionEdges(writer, order, none);
      var b, latest, readers := AllEdgesOfReads(txns, writer, order, a);
      var c, unread := AllEdgesOfUnread(txns, writer, order, took, latest, b);
      ListedIncreasing(txns, writer, order, unread);
      pairs := FindPairs(unread, readers);
      if realtime {
        adj := AllRealtimeEdges(txns, took, c);
      } else {
        adj := c;
      }
      PairsMean(txns, Found(), unread, readers);
      EdgesMean(txns, Found(), realtime);
    }

    /** Adds what is found in the graph: nothing exactly when it is acyclic and there are no pairs. */
    method FindAll() returns (ghost found: seq<Report>)
      requires Attributed(txns, writer) && TookRight(txns, writer, order, took) &&
        EdgesRight(txns, Found(), realtime) && PairsRight(txns, Found())
      modifies `out
      ensures GraphReported(Found(), found) && (found == [] <==> Acyclic(adj) && pairs == [])
      ensures |out| == |old(out)| + |found| && old(out) <= out && forall i :: 0 <= i < |found| ==>
        out[|old(out)| + i] == Say(txns, found[i])
      ensures forall i :: |old(out)| <= i < |out| ==> Witnessed(txns, Found(), out[i])
    {
      hide Attributed, TookRight, PairsRight, Reported, Flatten, Say, Witnessed;
      GraphFits(txns, Found(), realtime);
      var reports, comps, parts, apart := FindCycles(adj, pairs);
      found := reports;
      ghost var was := out;
      for i := 0 to |reports|
        invariant was <= out && |out| == |was| + i && forall j :: 0 <= j < i ==> out[|was| + j] == Say(txns, found[j])
      {
        out := out + [Say(txns, reports[i])];
      }
      assert GraphReported(Found(), found);
      forall i | |was| <= i < |out| ensures Witnessed(txns, Found(), out[i]) {
        assert out[|was| + (i - |was|)] == Say(txns, found[i - |was|]);
        SaidWitnessed(txns, Found(), found, found[i - |was|]);
      }
    }
  }

  /** The kinds to report of the reads of the first `n` transactions. */
  ghost function AllReadKinds(txns: seq<Txn>, writer: Writer, realtime: bool, n: nat): set<string>
    requires n <= |txns|
  {
    if n == 0 then {}
    else AllReadKinds(txns, writer, realtime, n - 1) + if txns[n - 1].status.Committed? then
      ReadKinds(txns, writer, realtime, n - 1, |txns[n - 1].mops|) else {}
  }

  lemma NoTxns()
    ensures Attributed([], map[]) && Recorded([], map[]) && NoneShared([])
  {
  }

  lemma TookSize(txns: seq<Txn>, writer: Writer, order: Order, took: seq<bool>)
    requires TookRight(txns, writer, order, took)
    ensures |took| == |txns|
  {
  }

  lemma NoEdges(adj: Adj)
    requires forall u :: 0 <= u < |adj| ==> adj[u] == []
    ensures forall u: nat, v: nat, kind :: !HasEdge(adj, u, v, kind)
  {
  }

  lemma ListedIncreasing(txns: seq<Txn>, writer: Writer, order: Order, unread: map<Key, seq<nat>>)
    requires Listed(txns, writer, order, |txns|, unread)
    ensures forall k :: Increasing(Lookup(unread, k))
  {
  }

  /** What is asked of every committed read. */
  ghost predicate ReadsMeet(txns: seq<Txn>, writer: Writer, n: nat, asked: Asked)
    requires n <= |txns|
  {
    forall i :: 0 <= i < n && txns[i].status.Committed? ==> AllMeet(txns, writer, i, |txns[i].mops|, asked)
  }

  ghost function MeetKinds(txns: seq<Txn>, writer: Writer, realtime: bool, n: nat): set<string>
    requires n <= |txns|
  {
    Four(!ReadsMeet(txns, writer, n, NoneAborted), !ReadsMeet(txns, writer, n, InOrder),
      !ReadsMeet(txns, writer, n, NotBetween), realtime && !ReadsMeet(txns, writer, n, NothingLost))
  }

  /** The kinds to report of all reads. */
  lemma {:induction false} ReadKindsAre(txns: seq<Txn>, writer: Writer, realtime: bool, n: nat)
    requires n <= |txns|
    ensures AllReadKinds(txns, writer, realtime, n) == MeetKinds(txns, writer, realtime, n)
  {
    hide AllMeet, Four, ReadsMeet;
    if n > 0 {
      ReadKindsAre(txns, writer, realtime, n - 1);
      ReadsMeetNext(txns, writer, n);
      var i := n - 1;
      if txns[i].status.Committed? {
        FourOr(!ReadsMeet(txns, writer, i, NoneAborted), !ReadsMeet(txns, writer, i, InOrder),
          !ReadsMeet(txns, writer, i, NotBetween), realtime && !ReadsMeet(txns, writer, i, NothingLost),
          !AllMeet(txns, writer, i, |txns[i].mops|, NoneAborted), !AllMeet(txns, writer, i, |txns[i].mops|, InOrder),
            !AllMeet(txns, writer, i, |txns[i].mops|, NotBetween), realtime &&
            !AllMeet(txns, writer, i, |txns[i].mops|, NothingLost));
      }
    } else {
      NoneMeet(txns, writer, realtime);
    }
  }

  lemma ReadsMeetNext(txns: seq<Txn>, writer: Writer, n: nat)
    requires 0 < n <= |txns|
    ensures forall asked :: ReadsMeet(txns, writer, n, asked) <==>
      ReadsMeet(txns, writer, n - 1, asked) &&
        (txns[n - 1].status.Committed? ==> AllMeet(txns, writer, n - 1, |txns[n - 1].mops|, asked))
  {
    hide AllMeet;
  }

  lemma NoneMeet(txns: seq<Txn>, writer: Writer, realtime: bool)
    ensures MeetKinds(txns, writer, realtime, 0) == {}
  {
  }

  lemma ReadsMeetMeans(txns: seq<Txn>, writer: Writer, realtime: bool)
    ensures ReadsSilent(txns, writer, realtime) <==>
      (ReadsMeet(txns, writer, |txns|, NoneAborted) && ReadsMeet(txns, writer, |txns|, InOrder) &&
       ReadsMeet(txns, writer, |txns|, NotBetween) && (realtime ==> ReadsMeet(txns, writer, |txns|, NothingLost)))
  {
    hide NoAborted, InMadeOrder, NotIntermediate, NoneLost;
    if ReadsSilent(txns, writer, realtime) {
      forall i, j: nat | 0 <= i < |txns| && txns[i].status.Committed? && j < |txns[i].mops| && txns[i].mops[j].Read?
        ensures ReadOk(txns, writer, realtime, i, txns[i].mops[j].key, txns[i].mops[j].list)
      {
        assert ReadAt(txns, i, j, txns[i].mops[j].key, txns[i].mops[j].list);
      }
    }
    if ReadsMeet(txns, writer, |txns|, NoneAborted) && ReadsMeet(txns, writer, |txns|, InOrder) &&
        ReadsMeet(txns, writer, |txns|, NotBetween) && (realtime ==> ReadsMeet(txns, writer, |txns|, NothingLost)) {
      forall i, j, k, list | ReadAt(txns, i, j, k, list) ensures ReadOk(txns, writer, realtime, i, k, list) {
        AllMeetAt(txns, writer, i, j, NoneAborted);
        AllMeetAt(txns, writer, i, j, InOrder);
        AllMeetAt(txns, writer, i, j, NotBetween);
        if realtime { AllMeetAt(txns, writer, i, j, NothingLost); }
      }
    }
  }

  lemma AllMeetAt(txns: seq<Txn>, writer: Writer, i: nat, j: nat, asked: Asked)
    requires ReadsMeet(txns, writer, |txns|, asked) && i < |txns| && txns[i].status.Committed? && j < |txns[i].mops|
    ensures Meets(txns, writer, i, txns[i].mops[j], asked)
  {
    hide Meets;
    assert AllMeet(txns, writer, i, |txns[i].mops|, asked);
  }

  /** The edges gathered are the dependencies. */
  lemma EdgesMean(txns: seq<Txn>, f: Findings, realtime: bool)
    requires |f.adj| == |txns|
    requires forall u: nat, v: nat, kind :: HasEdge(f.adj, u, v, kind) <==>
      u != v && Gathered(txns, f, realtime, u, v, kind)
    ensures EdgesRight(txns, f, realtime)
  {
    hide ReadDep, AntiDep, WriteDep, RealtimeDep, AnyReadBefore, AnyLast, AnyLatest;
    forall u: nat, v: nat, kind | u < |txns|
      ensures Edge(v, kind) in f.adj[u] <==> u != v && DepOf(txns, f, realtime, u, v, kind)
    {
      assert HasEdge(f.adj, u, v, kind) <==> Edge(v, kind) in f.adj[u];
      GatheredMeans(txns, f, realtime, u, v, kind);
    }
  }

  ghost predicate Gathered(txns: seq<Txn>, f: Findings, realtime: bool, u: nat, v: nat, kind: Kind) {
    || (kind == WW && exists k, n :: WroteNext(f.writer, f.order, k, n, u, v))
    || OfReadsUpTo(txns, f.writer, f.order, |txns|, u, v, kind)
    || OfUnreadUpTo(txns, f.writer, f.order, |txns|, u, v, kind)
    || (realtime && kind == Realtime && RealtimeDep(txns, f.took, u, v))
  }

  lemma GatheredMeans(txns: seq<Txn>, f: Findings, realtime: bool, u: nat, v: nat, kind: Kind)
    requires u < |txns|
    ensures Gathered(txns, f, realtime, u, v, kind) <==> DepOf(txns, f, realtime, u, v, kind)
  {
    hide RealtimeDep, WroteNext, WroteLast, ReadBefore;
  }

  lemma UnreadListed(txns: seq<Txn>, f: Findings, unread: map<Key, seq<nat>>, i: nat, k: Key)
    requires Listed(txns, f.writer, f.order, |txns|, unread)
    ensures i in Lookup(unread, k) <==> Unread(txns, f.writer, f.order, i, k)
    ensures Unread(txns, f.writer, f.order, i, k) ==> k in unread
  {
  }

  lemma PairsMean(txns: seq<Txn>, f: Findings, unread: map<Key, seq<nat>>, readers: set<(Key, nat)>)
    requires Listed(txns, f.writer, f.order, |txns|, unread) && forall k, w: nat :: (k, w) in readers <==>
      Reader(txns, f.order, w, k)
    requires forall i: nat, j: nat, k :: Pair(i, j, k) in f.pairs <==>
      BothReadAndUnread(unread, readers, unread.Keys, i, j, k)
    requires Distinct(f.pairs)
    ensures PairsRight(txns, f)
  {
    hide Reader, Unread;
    forall i: nat, j: nat, k
      ensures Pair(i, j, k) in f.pairs <==> i < j && LostUpdate(txns, f.writer, f.order, i, j, k)
    {
      UnreadListed(txns, f, unread, i, k);
      UnreadListed(txns, f, unread, j, k);
    }
  }

  lemma GraphFits(txns: seq<Txn>, f: Findings, realtime: bool)
    requires Attributed(txns, f.writer) && EdgesRight(txns, f, realtime) && PairsRight(txns, f)
    ensures Valid(Graph(f.adj, AnyKind)) && NoSelfEdges(f.adj)
    ensures forall p :: p in f.pairs ==> p.a < |f.adj| && p.b < |f.adj|
  {
    hide DepOf, LostUpdate;
    forall u: nat, e | u < |txns| && e in f.adj[u] ensures e.to != u && e.to < |txns| {
      assert e == Edge(e.to, e.kind);
      DepInTxns(txns, f, realtime, u, e.to, e.kind);
    }
    forall v, j | 0 <= v < |f.adj| && 0 <= j < |f.adj[v]| ensures f.adj[v][j].to < |f.adj| {
      assert f.adj[v][j] in f.adj[v];
    }
    forall p | p in f.pairs ensures p.a < |f.adj| && p.b < |f.adj| {
      assert Pair(p.a, p.b, p.key) in f.pairs;
      LostInTxns(txns, f, p.a, p.b, p.key);
    }
  }

  lemma DepInTxns(txns: seq<Txn>, f: Findings, realtime: bool, u: nat, v: nat, kind: Kind)
    requires Attributed(txns, f.writer) && DepOf(txns, f, realtime, u, v, kind)
    ensures v < |txns|
  {
  }

  lemma LostInTxns(txns: seq<Txn>, f: Findings, i: nat, j: nat, k: Key)
    requires LostUpdate(txns, f.writer, f.order, i, j, k)
    ensures i < |txns| && j < |txns|
  {
  }

  /** The kinds to report of a history, but for those of the graph. */
  ghost function PassKinds(txns: seq<Txn>, f: Findings, realtime: bool): set<string> {
    When(!NoneShared(txns), "duplicate") + When(!OwnShown(txns), "internal") + When(!Repeatable(txns),
      "nonrepeatable") +
    When(!ReadsDistinct(txns), "duplicate") + When(!ReadsBegin(txns, f.order),
      "incompatible-order") + MeetKinds(txns, f.writer, realtime, |txns|)
  }

  lemma PassKindsNone(txns: seq<Txn>, f: Findings, realtime: bool)
    requires Longest(txns, f.order)
    ensures PassKinds(txns, f, realtime) == {} <==> Faultless(txns, f, realtime)
  {
    hide NoneShared, ReadsDistinct, OwnShown, Repeatable, ReadsBegin, ReadsMeet, Ordered, ReadsSilent, Longest;
    OrderedMeans(txns, f.order);
    ReadsMeetMeans(txns, f.writer, realtime);
  }

  lemma SaidKinds(txns: seq<Txn>, out: seq<Anomaly<About>>, n: nat, found: seq<Report>)
    requires |out| == n + |found| && forall i :: 0 <= i < |found| ==> out[n + i] == Say(txns, found[i])
    ensures KindsOf(out) == KindsOf(out[..n]) + SayKinds(found)
  {
    KindsJoin(out[..n], out[n..]);
    assert out == out[..n] + out[n..];
    assert KindsOf(out[n..]) == SayKinds(found) by {
      forall x | x in SayKinds(found) ensures x in KindsOf(out[n..]) {
        var i :| 0 <= i < |found| && x == if found[i].OnCycle? then CycleName(found[i].kind) else "G-single";
        assert out[n..][i].kind == x;
      }
      forall x | x in KindsOf(out[n..]) ensures x in SayKinds(found) {
        var i :| 0 <= i < |out[n..]| && out[n..][i].kind == x;
        assert out[n..][i] == Say(txns, found[i]);
      }
    }
  }

  /** The passes before the search for cycles. */
  method RunPasses(c: Checker)
    requires c.writer == map[] && c.appended == map[] && c.out == []
    modifies c
    ensures Built(c.txns, c.Found(), c.realtime) && KindsOf(c.out) == PassKinds(c.txns, c.Found(), c.realtime)
  {
    hide Attributed, Longest, TookRight, EdgesRight, PairsRight, NoneShared, OwnShown, Repeatable, ReadsDistinct,
      ReadsBegin, Recorded, KindsOf, When, AllReadKinds, MeetKinds;
    KindsNone<About>([]);
    c.Appends();
    c.Internal();
    c.Orders();
    c.TakeEffect();
    c.Reads();
    ReadKindsAre(c.txns, c.writer, c.realtime, |c.txns|);
    c.Edges();
  }

  // ----- The kinds by name

  /** Some committed read does not do what is asked of each. */
  ghost predicate SomeRead(txns: seq<Txn>, writer: Writer, asked: Asked) {
    exists i, j, k, list :: ReadAt(txns, i, j, k, list) && !Meets(txns, writer, i, Read(k, list), asked)
  }

  lemma SomeReadMeans(txns: seq<Txn>, writer: Writer, asked: Asked)
    ensures SomeRead(txns, writer, asked) <==> !ReadsMeet(txns, writer, |txns|, asked)
  {
    hide Meets;
    if SomeRead(txns, writer, asked) {
      var i, j, k, list :| ReadAt(txns, i, j, k, list) && !Meets(txns, writer, i, Read(k, list), asked);
      if ReadsMeet(txns, writer, |txns|, asked) {
        AllMeetAt(txns, writer, i, j, asked);
        assert false;
      }
    }
    if !ReadsMeet(txns, writer, |txns|, asked) {
      var i :| 0 <= i < |txns| && txns[i].status.Committed? && !AllMeet(txns, writer, i, |txns[i].mops|, asked);
      var j :| 0 <= j < |txns[i].mops| && !Meets(txns, writer, i, txns[i].mops[j], asked);
      OnlyReadsFail(txns, writer, i, txns[i].mops[j], asked);
      var m := txns[i].mops[j];
      assert ReadAt(txns, i, j, m.key, m.list);
    }
  }

  lemma OnlyReadsFail(txns: seq<Txn>, writer: Writer, i: nat, m: Mop, asked: Asked)
    requires i < |txns| && !Meets(txns, writer, i, m, asked)
    ensures m.Read? && m == Read(m.key, m.list)
  {
  }

  /** The kinds reported of appends and reads, by name. */
  ghost predicate HistoryKinds(txns: seq<Txn>, f: Findings, realtime: bool, kinds: set<string>) {
    && ("duplicate" in kinds <==> !NoneShared(txns) || !ReadsDistinct(txns))
    && ("internal" in kinds <==> !OwnShown(txns))
    && ("nonrepeatable" in kinds <==> !Repeatable(txns))
    && ("incompatible-order" in kinds <==> !ReadsBegin(txns, f.order) || exists i, j, k, list ::
      ReadAt(txns, i, j, k, list) && !InMadeOrder(txns, f.writer, i, k, list))
    && ("G1a" in kinds <==> exists i, j, k, list ::
      ReadAt(txns, i, j, k, list) && !NoAborted(txns, f.writer, k, list))
    && ("G1b" in kinds <==> exists i, j, k, list ::
      ReadAt(txns, i, j, k, list) && !NotIntermediate(txns, f.writer, i, k, list))
    && ("lost" in kinds <==> realtime && exists i, j, k, list ::
      ReadAt(txns, i, j, k, list) && !NoneLost(txns, f.writer, i, k, list))
  }

  lemma PassNamed(txns: seq<Txn>, f: Findings, realtime: bool)
    ensures HistoryKinds(txns, f, realtime, PassKinds(txns, f, realtime))
    ensures forall kind :: kind in PassKinds(txns, f, realtime) ==>
      kind in {"duplicate", "internal", "nonrepeatable", "incompatible-order", "G1a", "G1b", "lost"}
  {
    hide NoneShared, ReadsDistinct, OwnShown, Repeatable, ReadsBegin, SomeRead, PassKinds, NoAborted, InMadeOrder,
      NotIntermediate, NoneLost, ReadAt;
    PassByName(txns, f, realtime);
    ReadsNamed(txns, f);
  }

  /** What is reported of some read. */
  ghost function MetKinds(txns: seq<Txn>, writer: Writer, realtime: bool): set<string> {
    Four(SomeRead(txns, writer, NoneAborted), SomeRead(txns, writer, InOrder), SomeRead(txns, writer, NotBetween),
      realtime && SomeRead(txns, writer, NothingLost))
  }

  lemma MetKindsAre(txns: seq<Txn>, writer: Writer, realtime: bool)
    ensures MeetKinds(txns, writer, realtime, |txns|) == MetKinds(txns, writer, realtime)
  {
    hide SomeRead, ReadsMeet, Four;
    SomeReadMeans(txns, writer, NoneAborted);
    SomeReadMeans(txns, writer, InOrder);
    SomeReadMeans(txns, writer, NotBetween);
    SomeReadMeans(txns, writer, NothingLost);
  }

  lemma PassByName(txns: seq<Txn>, f: Findings, realtime: bool)
    ensures var kinds := PassKinds(txns, f, realtime);
      && ("duplicate" in kinds <==> !NoneShared(txns) || !ReadsDistinct(txns))
      && ("internal" in kinds <==> !OwnShown(txns)) && ("nonrepeatable" in kinds <==> !Repeatable(txns))
      && ("incompatible-order" in kinds <==> !ReadsBegin(txns, f.order) || SomeRead(txns, f.writer, InOrder))
      && ("G1a" in kinds <==> SomeRead(txns, f.writer, NoneAborted))
      && ("G1b" in kinds <==> SomeRead(txns, f.writer, NotBetween))
      && ("lost" in kinds <==> realtime && SomeRead(txns, f.writer, NothingLost))
      && kinds <= {"duplicate", "internal", "nonrepeatable", "incompatible-order", "G1a", "G1b", "lost"}
  {
    hide NoneShared, ReadsDistinct, OwnShown, Repeatable, ReadsBegin, SomeRead, When, MeetKinds, Four;
    MetKindsAre(txns, f.writer, realtime);
    var names := Names(!NoneShared(txns), !OwnShown(txns), !Repeatable(txns), !ReadsDistinct(txns),
      !ReadsBegin(txns, f.order));
    assert PassKinds(txns, f, realtime) == names + MetKinds(txns, f.writer, realtime);
    ByName(!NoneShared(txns), !OwnShown(txns), !Repeatable(txns), !ReadsDistinct(txns), !ReadsBegin(txns, f.order));
    FourByName(SomeRead(txns, f.writer, NoneAborted), SomeRead(txns, f.writer, InOrder),
      SomeRead(txns, f.writer, NotBetween), realtime && SomeRead(txns, f.writer, NothingLost));
    hide Names;
  }

  ghost function Names(a: bool, b: bool, c: bool, d: bool, e: bool): set<string> {
    When(a, "duplicate") + When(b, "internal") + When(c, "nonrepeatable") + When(d, "duplicate") + When(e,
      "incompatible-order")
  }

  lemma ByName(a: bool, b: bool, c: bool, d: bool, e: bool)
    ensures var kinds := Names(a, b, c, d, e);
      && ("duplicate" in kinds <==> a || d) && ("internal" in kinds <==> b) && ("nonrepeatable" in kinds <==> c)
      && ("incompatible-order" in kinds <==> e) && "G1a" !in kinds && "G1b" !in kinds && "lost" !in kinds
      && kinds <= {"duplicate", "internal", "nonrepeatable", "incompatible-order", "G1a", "G1b", "lost"}
  {
  }

  lemma FourByName(a: bool, b: bool, c: bool, d: bool)
    ensures var kinds := Four(a, b, c, d);
      && ("G1a" in kinds <==> a) && ("incompatible-order" in kinds <==> b) && ("G1b" in kinds <==> c)
      && ("lost" in kinds <==> d) && "duplicate" !in kinds && "internal" !in kinds && "nonrepeatable" !in kinds
      && kinds <= {"duplicate", "internal", "nonrepeatable", "incompatible-order", "G1a", "G1b", "lost"}
  {
    assert "G1a"[2] == 'a' && "G1b"[2] == 'b';
  }

  lemma ReadsNamed(txns: seq<Txn>, f: Findings)
    ensures SomeRead(txns, f.writer, NoneAborted) <==> exists i, j, k, list ::
      ReadAt(txns, i, j, k, list) && !NoAborted(txns, f.writer, k, list)
    ensures SomeRead(txns, f.writer, InOrder) <==> exists i, j, k, list ::
      ReadAt(txns, i, j, k, list) && !InMadeOrder(txns, f.writer, i, k, list)
    ensures SomeRead(txns, f.writer, NotBetween) <==> exists i, j, k, list ::
      ReadAt(txns, i, j, k, list) && !NotIntermediate(txns, f.writer, i, k, list)
    ensures SomeRead(txns, f.writer, NothingLost) <==> exists i, j, k, list ::
      ReadAt(txns, i, j, k, list) && !NoneLost(txns, f.writer, i, k, list)
  {
    hide NoAborted, InMadeOrder, NotIntermediate, NoneLost;
  }

  /** The names of the two kinds of reports are apart. */
  lemma NamesApart(txns: seq<Txn>, f: Findings, realtime: bool, a: set<string>, b: set<string>)
    requires HistoryKinds(txns, f, realtime, a) && GraphKinds(f, b)
    requires forall kind :: kind in a ==>
      kind in {"duplicate", "internal", "nonrepeatable", "incompatible-order", "G1a", "G1b", "lost"}
    requires forall kind :: kind in b ==> kind in {"G0", "G1c", "G-single", "G-nonadjacent", "G2"}
    ensures HistoryKinds(txns, f, realtime, a + b) && GraphKinds(f, a + b)
  {
    hide NoneShared, ReadsDistinct, OwnShown, Repeatable, ReadsBegin, NoAborted, InMadeOrder, NotIntermediate, NoneLost,
      NoCycle, OnlyG1c, OnlyApart, OnlyAdjacent, SomeOneRW;
    NamesDisjoint();
  }

  lemma NamesDisjoint()
    ensures {"duplicate", "internal", "nonrepeatable", "incompatible-order", "G1a", "G1b", "lost"} !!
      {"G0", "G1c", "G-single", "G-nonadjacent", "G2"}
  {
    assert "G1a"[2] == 'a' && "G1b"[2] == 'b' && "G1c"[2] == 'c';
  }

  /**
   Checks a history. Each kind is reported exactly when it should be, and each report on the graph shows its
   witness. And nothing is reported, with no transaction reading ahead of its own appends, exactly when some serial
   order of the transactions that took effect gives every committed read; one that keeps real time, if that counts.
   */
  method Check(txns: seq<Txn>, realtime: bool)
      returns (out: seq<Anomaly<About>>, ghost f: Findings, ghost found: seq<Report>)
    ensures Built(txns, f, realtime) && GraphReported(f, found)
    ensures KindsOf(out) == PassKinds(txns, f, realtime) + SayKinds(found)
    ensures HistoryKinds(txns, f, realtime, KindsOf(out)) && GraphKinds(f, KindsOf(out))
    ensures forall x :: x in out && x.kind in {"G0", "G1c", "G-single", "G-nonadjacent", "G2"} ==> Witnessed(txns, f, x)
    ensures out == [] <==> Silent(txns, f, realtime)
    ensures Unique(txns) && (realtime ==> Timed(txns)) ==>
      (out == [] && NoReadAhead(txns) <==> Serializable(txns, realtime))
  {
    hide Attributed, Longest, TookRight, EdgesRight, PairsRight, Acyclic, Unique, NoReadAhead, Timed, Serializable,
      Faultless, PassKinds, KindsOf, SayKinds, GraphReported, Say, HistoryKinds, GraphKinds, Witnessed, NoSelfEdges;
    var c := new Checker(txns, realtime);
    RunPasses(c);
    f := c.Found();
    ghost var was := c.out;
    found := c.FindAll();
    out := c.out;
    assert out[..|was|] == was;
    SaidKinds(txns, out, |was|, found);
    KindsNone(was);
    PassKindsNone(txns, f, realtime);
    PassNamed(txns, f, realtime);
    GraphFits(txns, f, realtime);
    SaidAll(f, found);
    NamesApart(txns, f, realtime, PassKinds(txns, f, realtime), SayKinds(found));
    AllWitnessed(txns, f, realtime, was, out);
    if Unique(txns) && (realtime ==> Timed(txns)) {
      SilenceIsSerializability(txns, f, realtime);
    }
  }

  lemma AllWitnessed(txns: seq<Txn>, f: Findings, realtime: bool, was: seq<Anomaly<About>>, out: seq<Anomaly<About>>)
    requires was <= out && KindsOf(was) == PassKinds(txns, f, realtime)
    requires forall i :: |was| <= i < |out| ==> Witnessed(txns, f, out[i])
    ensures forall x :: x in out && x.kind in {"G0", "G1c", "G-single", "G-nonadjacent", "G2"} ==> Witnessed(txns, f, x)
  {
    hide PassKinds, Witnessed, HistoryKinds;
    PassNamed(txns, f, realtime);
    NamesDisjoint();
    forall x | x in out && x.kind in {"G0", "G1c", "G-single", "G-nonadjacent", "G2"} ensures Witnessed(txns, f, x) {
      var i :| 0 <= i < |out| && out[i] == x;
      assert i < |was| ==> x.kind in KindsOf(was);
    }
  }
}
