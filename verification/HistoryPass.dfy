/**
 What the checker's passes gather over the whole history: who appended what, each key's version
 order, and which transactions took effect (listappend/listappend.go, appends, orders and
 effects).
 */
module HistoryPass {
  import opened Seqs
  import opened Maps
  import opened Reports
  import opened Txns
  import opened Inference
  import opened Passes
  import opened ReadPass
  import opened Serializability

  // ----- appends

  /** The history up to, and not including, operation `j` of transaction `i`. */
  ghost function UpTo(txns: seq<Txn>, i: nat, j: nat): seq<Txn>
    requires i < |txns| && j <= |txns[i].mops|
  {
    txns[..i] + [txns[i].(mops := txns[i].mops[..j])]
  }

  lemma UpToWrites(txns: seq<Txn>, i: nat, j: nat, w: nat, k: Key, v: Value)
    requires i < |txns| && j < |txns[i].mops|
    ensures var m := txns[i].mops[j];
      Writes(UpTo(txns, i, j + 1), w, k, v) <==>
        Writes(UpTo(txns, i, j), w, k, v) || (m.Append? && IsThat(i, m.key, m.value, w, k, v))
  {
    AppendedPrefix(txns[i].mops, k, j);
  }

  lemma UpToStart(txns: seq<Txn>, i: nat, w: nat, k: Key, v: Value)
    requires i < |txns|
    ensures Writes(UpTo(txns, i, 0), w, k, v) <==> Writes(txns[..i], w, k, v)
  {
  }

  lemma UpToEnd(txns: seq<Txn>, i: nat)
    requires i < |txns|
    ensures UpTo(txns, i, |txns[i].mops|) == txns[..i + 1]
  {
    TakeAll(txns[i].mops);
    TakeNext(txns, i);
  }

  /** Two histories of the same appends have the same writers. */
  lemma SameWrites(a: seq<Txn>, b: seq<Txn>, writer: Writer)
    requires NoMore(a, b)
    ensures Attributed(a, writer) <==> Attributed(b, writer)
    ensures NoneShared(a) <==> NoneShared(b)
  {
    hide Writes;
  }

  /** One append more. */
  /** The same transactions append the same values. */
  ghost predicate NoMore(a: seq<Txn>, b: seq<Txn>) {
    forall w: nat, k, v :: Writes(a, w, k, v) <==> Writes(b, w, k, v)
  }

  /** And the `i`-th one value more. */
  ghost predicate OneMore(a: seq<Txn>, b: seq<Txn>, i: nat, key: Key, value: Value) {
    forall w: nat, k, v :: Writes(b, w, k, v) <==> Writes(a, w, k, v) || IsThat(i, key, value, w, k, v)
  }

  ghost predicate IsThat(i: nat, key: Key, value: Value, w: nat, k: Key, v: Value) {
    w == i && k == key && v == value
  }

  lemma MoreWrites(a: seq<Txn>, b: seq<Txn>, writer: Writer, i: nat, key: Key, value: Value)
    requires Attributed(a, writer)
    requires OneMore(a, b, i, key, value)
    ensures Attributed(b, writer[(key, value) := i])
    ensures NoneShared(b) <==> NoneShared(a) && ((key, value) in writer ==> writer[(key, value)] == i)
  {
    hide Writes;
    if NoneShared(b) {
      assert NoneShared(a) by {
        forall x: nat, y: nat, k, v | Writes(a, x, k, v) && Writes(a, y, k, v) ensures x == y {
          assert Writes(b, x, k, v) && Writes(b, y, k, v);
        }
      }
      assert Writes(b, i, key, value);
    }
  }

  ghost predicate MadeUpTo(txns: seq<Txn>, i: nat, j: nat, appended: Made)
    requires i < |txns| && j <= |txns[i].mops|
  {
    forall k, w: nat ::
      MadeBy(appended, k, w) == if w < i then Appended(txns[w].mops, k) else if w == i then
      Appended(txns[i].mops[..j], k) else []
  }

  lemma MadeNext(txns: seq<Txn>, i: nat, j: nat, appended: Made)
    requires i < |txns| && j < |txns[i].mops| && MadeUpTo(txns, i, j, appended)
    ensures var m := txns[i].mops[j];
      MadeUpTo(txns, i, j + 1, if m.Append? then appended[(m.key, i) := MadeBy(appended, m.key, i) + [m.value]]
        else appended)
  {
    hide Appended;
    var m := txns[i].mops[j];
    var now := if m.Append? then appended[(m.key, i) := MadeBy(appended, m.key, i) + [m.value]] else appended;
    forall k, w: nat
      ensures MadeBy(now, k, w) == if w < i then Appended(txns[w].mops, k) else if w == i then
        Appended(txns[i].mops[..j + 1], k) else []
    {
      AppendedPrefix(txns[i].mops, k, j);
      if m.Append? {
        LookupPut(appended, (m.key, i), MadeBy(appended, m.key, i) + [m.value], (k, w));
      }
      assert MadeBy(appended, k, w) == if w < i then Appended(txns[w].mops, k) else if w == i then
        Appended(txns[i].mops[..j], k) else [];
      assert Appended(txns[i].mops[..j], k) + [] == Appended(txns[i].mops[..j], k);
    }
  }

  /** Records one transaction's appends, and reports each value another has appended to the key. */
  method AppendsOf(txns: seq<Txn>, i: nat, writer0: Writer, appended0: Made)
      returns (writer: Writer, appended: Made, reports: seq<Anomaly<About>>)
    requires i < |txns| && Attributed(txns[..i], writer0) && Recorded(txns[..i], appended0)
    ensures Attributed(txns[..i + 1], writer) && Recorded(txns[..i + 1], appended)
    ensures NoneShared(txns[..i + 1]) <==> NoneShared(txns[..i]) && reports == []
    ensures KindsOf(reports) == When(reports != [], "duplicate")
  {
    hide Attributed, NoneShared, MadeUpTo, Recorded, Writes, UpTo, KindsOf;
    KindsNone<About>([]);
    writer, appended, reports := writer0, appended0, [];
    Start(txns, i, writer0, appended0);
    for j := 0 to |txns[i].mops|
      invariant Attributed(UpTo(txns, i, j), writer) && MadeUpTo(txns, i, j, appended)
      invariant NoneShared(UpTo(txns, i, j)) <==> NoneShared(txns[..i]) && reports == []
      invariant KindsOf(reports) == When(reports != [], "duplicate")
    {
      var m := txns[i].mops[j];
      MadeNext(txns, i, j, appended);
      Step(txns, i, j, writer);
      if m.Append? {
        appended := appended[(m.key, i) := MadeBy(appended, m.key, i) + [m.value]];
        if (m.key, m.value) in writer && writer[(m.key, m.value)] != i {
          var other := writer[(m.key, m.value)];
          KindsMore(reports, Anomaly("duplicate", About([IdOf(txns, other), txns[i].id], [], m.key)));
          reports := reports + [Anomaly("duplicate", About([IdOf(txns, other), txns[i].id], [], m.key))];
        }
        writer := writer[(m.key, m.value) := i];
      }
    }
    UpToEnd(txns, i);
    End(txns, i, appended);
  }

  function IdOf(txns: seq<Txn>, i: nat): int {
    if i < |txns| then txns[i].id else 0
  }

  lemma Start(txns: seq<Txn>, i: nat, writer: Writer, appended: Made)
    requires i < |txns| && Attributed(txns[..i], writer) && Recorded(txns[..i], appended)
    ensures Attributed(UpTo(txns, i, 0), writer) && MadeUpTo(txns, i, 0, appended)
    ensures NoneShared(UpTo(txns, i, 0)) <==> NoneShared(txns[..i])
  {
    hide Attributed, NoneShared, Writes;
    forall w: nat, k, v ensures Writes(UpTo(txns, i, 0), w, k, v) <==> Writes(txns[..i], w, k, v) {
      UpToStart(txns, i, w, k, v);
    }
    SameWrites(UpTo(txns, i, 0), txns[..i], writer);
  }

  lemma Step(txns: seq<Txn>, i: nat, j: nat, writer: Writer)
    requires i < |txns| && j < |txns[i].mops| && Attributed(UpTo(txns, i, j), writer)
    ensures var m := txns[i].mops[j];
      if m.Append? then
        && Attributed(UpTo(txns, i, j + 1), writer[(m.key, m.value) := i])
        && (NoneShared(UpTo(txns, i, j + 1)) <==>
              NoneShared(UpTo(txns, i, j)) && ((m.key, m.value) in writer ==> writer[(m.key, m.value)] == i))
      else
        && Attributed(UpTo(txns, i, j + 1), writer)
        && (NoneShared(UpTo(txns, i, j + 1)) <==> NoneShared(UpTo(txns, i, j)))
  {
    hide Attributed, NoneShared, UpTo, OneMore, NoMore;
    var m := txns[i].mops[j];
    if m.Append? {
      UpToOneMore(txns, i, j);
      MoreWrites(UpTo(txns, i, j), UpTo(txns, i, j + 1), writer, i, m.key, m.value);
    } else {
      UpToNoMore(txns, i, j);
      SameWrites(UpTo(txns, i, j + 1), UpTo(txns, i, j), writer);
    }
  }

  lemma UpToOneMore(txns: seq<Txn>, i: nat, j: nat)
    requires i < |txns| && j < |txns[i].mops| && txns[i].mops[j].Append?
    ensures OneMore(UpTo(txns, i, j), UpTo(txns, i, j + 1), i, txns[i].mops[j].key, txns[i].mops[j].value)
  {
    hide Writes, UpTo, IsThat;
    var m := txns[i].mops[j];
    forall w: nat, k, v
      ensures Writes(UpTo(txns, i, j + 1), w, k, v) <==>
        Writes(UpTo(txns, i, j), w, k, v) || IsThat(i, m.key, m.value, w, k, v)
    {
      UpToWrites(txns, i, j, w, k, v);
    }
  }

  lemma UpToNoMore(txns: seq<Txn>, i: nat, j: nat)
    requires i < |txns| && j < |txns[i].mops| && !txns[i].mops[j].Append?
    ensures NoMore(UpTo(txns, i, j + 1), UpTo(txns, i, j))
  {
    hide Writes, UpTo;
    forall w: nat, k, v ensures Writes(UpTo(txns, i, j + 1), w, k, v) <==> Writes(UpTo(txns, i, j), w, k, v) {
      UpToWrites(txns, i, j, w, k, v);
    }
  }

  lemma End(txns: seq<Txn>, i: nat, appended: Made)
    requires i < |txns| && MadeUpTo(txns, i, |txns[i].mops|, appended)
    ensures Recorded(txns[..i + 1], appended)
  {
    TakeAll(txns[i].mops);
  }

  // ----- internal

  lemma OwnMeans(txns: seq<Txn>)
    ensures OwnShown(txns) <==>
      forall i :: 0 <= i < |txns| && txns[i].status.Committed? ==> OwnUpTo(txns[i].mops, |txns[i].mops|)
  {
    hide Appended;
    if OwnShown(txns) {
      forall i, a: nat | 0 <= i < |txns| && txns[i].status.Committed? && a < |txns[i].mops| && txns[i].mops[a].Read?
        ensures OwnAt(txns[i].mops, a)
      {
        var m := txns[i].mops[a];
        assert ReadAt(txns, i, a, m.key, m.list);
      }
    }
    if forall i :: 0 <= i < |txns| && txns[i].status.Committed? ==> OwnUpTo(txns[i].mops, |txns[i].mops|) {
      forall i: nat, j: nat, k, list | ReadAt(txns, i, j, k, list) ensures ShowsOwn(txns, i, j, k, list) {
        assert OwnAt(txns[i].mops, j);
      }
    }
  }

  lemma OwnAtMeans(txns: seq<Txn>, i: nat, a: nat, k: Key, list: seq<Value>)
    requires ReadAt(txns, i, a, k, list)
    ensures OwnAt(txns[i].mops, a) <==> ShowsOwn(txns, i, a, k, list)
    ensures RestAt(txns[i].mops, a) == Rest(Appended(txns[i].mops[..a], k), list)
  {
  }

  lemma RepeatMeans(txns: seq<Txn>)
    ensures Repeatable(txns) <==>
      forall i :: 0 <= i < |txns| && txns[i].status.Committed? ==> RepeatUpTo(txns[i].mops, |txns[i].mops|)
  {
    hide Appended, Rest, OwnAt, ShowsOwn, RestAt;
    if Repeatable(txns) {
      forall i, a: nat, b: nat | 0 <= i < |txns| && txns[i].status.Committed? && a < |txns[i].mops| &&
        b < |txns[i].mops| &&
        SameKeyReads(txns[i].mops, a, b) && OwnAt(txns[i].mops, a) && OwnAt(txns[i].mops, b)
        ensures RestAt(txns[i].mops, a) == RestAt(txns[i].mops, b)
      {
        var m, n := txns[i].mops[a], txns[i].mops[b];
        assert ReadAt(txns, i, a, m.key, m.list) && ReadAt(txns, i, b, m.key, n.list);
        OwnAtMeans(txns, i, a, m.key, m.list);
        OwnAtMeans(txns, i, b, m.key, n.list);
      }
    }
    if forall i :: 0 <= i < |txns| && txns[i].status.Committed? ==> RepeatUpTo(txns[i].mops, |txns[i].mops|) {
      forall i: nat, a: nat, b: nat, k, r, s | ReadAt(txns, i, a, k, r) && ReadAt(txns, i, b, k, s) &&
        ShowsOwn(txns, i, a, k, r) && ShowsOwn(txns, i, b, k, s)
        ensures Rest(Appended(txns[i].mops[..a], k), r) == Rest(Appended(txns[i].mops[..b], k), s)
      {
        OwnAtMeans(txns, i, a, k, r);
        OwnAtMeans(txns, i, b, k, s);
        assert SameKeyReads(txns[i].mops, a, b);
      }
    }
  }

  // ----- orders

  ghost predicate ReadBy(txns: seq<Txn>, n: nat, m: nat, k: Key, list: seq<Value>) {
    exists i: nat, j: nat :: (i < n || (i == n && j < m)) && ReadAt(txns, i, j, k, list)
  }

  /** The reads of each key by committed transactions. */
  ghost predicate Collected(txns: seq<Txn>, n: nat, m: nat, lists: map<Key, seq<seq<Value>>>) {
    forall k, list :: list in Lookup(lists, k) <==> ReadBy(txns, n, m, k, list)
  }

  ghost predicate Paired(lists: map<Key, seq<seq<Value>>>, who: map<Key, seq<int>>) {
    lists.Keys == who.Keys && forall k :: k in lists ==> |lists[k]| == |who[k]| > 0
  }

  ghost predicate ListsReads(txns: seq<Txn>, lists: map<Key, seq<seq<Value>>>) {
    && (forall i: nat, j: nat, k, list :: ReadAt(txns, i, j, k, list) ==> k in lists && list in lists[k])
    && (forall k, r :: k in lists && r in lists[k] ==> exists i, j :: ReadAt(txns, i, j, k, r))
  }

  lemma CollectedNext(txns: seq<Txn>, n: nat, m: nat, lists: map<Key, seq<seq<Value>>>)
    requires n < |txns| && m < |txns[n].mops| && txns[n].status.Committed? && Collected(txns, n, m, lists)
    ensures var op := txns[n].mops[m];
      Collected(txns, n, m + 1, if op.Read? then lists[op.key := Lookup(lists, op.key) + [op.list]] else lists)
  {
    hide ReadBy, Lookup;
    var op := txns[n].mops[m];
    var now := if op.Read? then lists[op.key := Lookup(lists, op.key) + [op.list]] else lists;
    forall k, list ensures list in Lookup(now, k) <==> ReadBy(txns, n, m + 1, k, list) {
      ReadByNext(txns, n, m, k, list);
      if op.Read? {
        LookupPut(lists, op.key, Lookup(lists, op.key) + [op.list], k);
      }
    }
  }

  lemma ReadByNext(txns: seq<Txn>, n: nat, m: nat, k: Key, list: seq<Value>)
    requires n < |txns| && m < |txns[n].mops| && txns[n].status.Committed?
    ensures ReadBy(txns, n, m + 1, k, list) <==> ReadBy(txns, n, m, k, list) || txns[n].mops[m] == Read(k, list)
  {
    if txns[n].mops[m] == Read(k, list) { assert ReadAt(txns, n, m, k, list); }
  }

  lemma CollectedSame(txns: seq<Txn>, n: nat, m: nat, lists: map<Key, seq<seq<Value>>>)
    requires n < |txns| && Collected(txns, n, m, lists) && (txns[n].status.Committed? ==> m == |txns[n].mops|)
    ensures Collected(txns, n + 1, 0, lists)
  {
    forall k, list ensures ReadBy(txns, n + 1, 0, k, list) <==> ReadBy(txns, n, m, k, list) {
    }
  }

  method CollectReads(txns: seq<Txn>) returns (lists: map<Key, seq<seq<Value>>>, who: map<Key, seq<int>>)
    ensures Paired(lists, who)
    ensures ListsReads(txns, lists)
  {
    hide Collected, ListsReads;
    lists, who := map[], map[];
    CollectedNone(txns);
    for n := 0 to |txns|
      invariant Collected(txns, n, 0, lists) && Paired(lists, who)
    {
      if txns[n].status.Committed? {
        for m := 0 to |txns[n].mops|
          invariant Collected(txns, n, m, lists) && Paired(lists, who)
        {
          var op := txns[n].mops[m];
          CollectedNext(txns, n, m, lists);
          if op.Read? {
            lists := lists[op.key := Lookup(lists, op.key) + [op.list]];
            who := who[op.key := Lookup(who, op.key) + [txns[n].id]];
          }
        }
        CollectedSame(txns, n, |txns[n].mops|, lists);
      } else {
        CollectedSame(txns, n, 0, lists);
      }
    }
    CollectedAll(txns, lists);
  }

  lemma CollectedNone(txns: seq<Txn>)
    ensures Collected(txns, 0, 0, map[])
  {
  }

  lemma CollectedAll(txns: seq<Txn>, lists: map<Key, seq<seq<Value>>>)
    requires Collected(txns, |txns|, 0, lists)
    ensures ListsReads(txns, lists)
  {
    hide ReadAt;
    forall i: nat, j: nat, k, list | ReadAt(txns, i, j, k, list) ensures k in lists && list in lists[k] {
      ReadInTxns(txns, i, j, k, list);
      assert ReadBy(txns, |txns|, 0, k, list);
      assert list in Lookup(lists, k);
    }
    forall k, r | k in lists && r in lists[k] ensures exists i, j :: ReadAt(txns, i, j, k, r) {
      assert r in Lookup(lists, k);
    }
  }

  lemma ReadInTxns(txns: seq<Txn>, i: nat, j: nat, k: Key, list: seq<Value>)
    requires ReadAt(txns, i, j, k, list)
    ensures i < |txns|
  {
  }

  ghost predicate LongestIn(rs: seq<seq<Value>>, o: seq<Value>) {
    o in rs && forall r :: r in rs ==> |r| <= |o|
  }

  ghost predicate AllLongest(lists: map<Key, seq<seq<Value>>>, order: Order) {
    forall k :: k in order ==> k in lists && LongestIn(lists[k], order[k])
  }

  /** The lists of the keys ordered so far show no value twice. */
  ghost predicate NoRepeats(lists: map<Key, seq<seq<Value>>>, order: Order) {
    forall k :: k in order && k in lists ==> AllDistinct(lists[k], |lists[k]|)
  }

  ghost predicate AllBeginnings(lists: map<Key, seq<seq<Value>>>, order: Order) {
    forall k :: k in order && k in lists ==> AllBegin(lists[k], |lists[k]|, order[k])
  }

  lemma OrdersNone(lists: map<Key, seq<seq<Value>>>)
    ensures AllLongest(lists, map[]) && NoRepeats(lists, map[]) && AllBeginnings(lists, map[])
  {
  }

  lemma OrdersNext(lists: map<Key, seq<seq<Value>>>, order: Order, k: Key, o: seq<Value>)
    requires k in lists && k !in order
    ensures AllLongest(lists, order) && LongestIn(lists[k], o) ==> AllLongest(lists, order[k := o])
    ensures NoRepeats(lists, order[k := o]) <==> NoRepeats(lists, order) && AllDistinct(lists[k], |lists[k]|)
    ensures AllBeginnings(lists, order[k := o]) <==> AllBeginnings(lists, order) && AllBegin(lists[k], |lists[k]|, o)
    ensures order[k := o].Keys == order.Keys + {k}
  {
    hide LongestIn, AllDistinct, AllBegin;
    var now := order[k := o];
    assert k in now && now[k] == o;
    assert forall c :: c in order ==> c in now && now[c] == order[c];
  }

  /** Each key's version order, and the reports on its reads. */
  method InferOrders(txns: seq<Txn>) returns (order: Order, reports: seq<Anomaly<About>>)
    ensures Longest(txns, order)
    ensures KindsOf(reports) == When(!ReadsDistinct(txns), "duplicate") + When(!ReadsBegin(txns, order),
      "incompatible-order")
  {
    hide ListsReads, Longest, ReadsDistinct, ReadsBegin, AllLongest, NoRepeats, AllBeginnings, KindsOf, When, Paired;
    var lists, who := CollectReads(txns);
    order, reports := OrderAll(lists, who);
    LongestMeans(txns, lists, order);
    BeginningsMean(txns, lists, order);
  }

  /** The version order of each key, in any order of the keys. */
  method OrderAll(lists: map<Key, seq<seq<Value>>>, who: map<Key, seq<int>>)
      returns (order: Order, reports: seq<Anomaly<About>>)
    requires Paired(lists, who)
    ensures order.Keys == lists.Keys && AllLongest(lists, order)
    ensures KindsOf(reports) == When(!NoRepeats(lists, order), "duplicate") + When(!AllBeginnings(lists, order),
      "incompatible-order")
  {
    hide LongestIn, AllLongest, NoRepeats, AllBeginnings, AllDistinct, AllBegin, KindsOf, When;
    order, reports := map[], [];
    OrdersNone(lists);
    KindsNone<About>([]);
    NoKinds();
    var todo := lists.Keys;
    while todo != {}
      invariant todo == lists.Keys - order.Keys && order.Keys <= lists.Keys && AllLongest(lists, order)
      invariant KindsOf(reports) == When(!NoRepeats(lists, order), "duplicate") + When(!AllBeginnings(lists, order),
        "incompatible-order")
      decreases |todo|
    {
      var k :| k in todo;
      var o, more := OrderForKey(k, lists[k], who[k]);
      OrdersNext(lists, order, k, o);
      KindsJoin(reports, more);
      TwoKinds(!NoRepeats(lists, order), !AllDistinct(lists[k], |lists[k]|), !AllBeginnings(lists, order),
        !AllBegin(lists[k], |lists[k]|, o));
      KeysLeft(lists.Keys, order.Keys, k);
      order := order[k := o];
      reports := reports + more;
      todo := todo - {k};
    }
  }

  lemma KeysLeft(all: set<Key>, done: set<Key>, k: Key)
    ensures all - (done + {k}) == all - done - {k}
  {
  }

  lemma NoKinds()
    ensures When(false, "duplicate") + When(false, "incompatible-order") == {}
  {
  }

  lemma TwoKinds(a: bool, b: bool, c: bool, d: bool)
    ensures (When(a, "duplicate") + When(c, "incompatible-order")) +
            (When(b, "duplicate") + When(d, "incompatible-order")) ==
            When(a || b, "duplicate") + When(c || d, "incompatible-order")
  {
  }

  method OrderForKey(k: Key, rs: seq<seq<Value>>, who: seq<int>) returns (o: seq<Value>, reports: seq<Anomaly<About>>)
    requires |rs| == |who| > 0
    ensures LongestIn(rs, o)
    ensures KindsOf(reports) ==
      When(!AllDistinct(rs, |rs|), "duplicate") + When(!AllBegin(rs, |rs|, o), "incompatible-order")
  {
    o, reports := OrderOfKey(k, rs, who);
  }

  lemma LongestMeans(txns: seq<Txn>, lists: map<Key, seq<seq<Value>>>, order: Order)
    requires order.Keys == lists.Keys && ListsReads(txns, lists) && AllLongest(lists, order)
    ensures Longest(txns, order)
  {
    hide ReadAt;
  }

  lemma BeginningsMean(txns: seq<Txn>, lists: map<Key, seq<seq<Value>>>, order: Order)
    requires order.Keys == lists.Keys && ListsReads(txns, lists)
    ensures NoRepeats(lists, order) <==> ReadsDistinct(txns)
    ensures AllBeginnings(lists, order) <==> ReadsBegin(txns, order)
  {
    hide ReadAt, Distinct;
    forall k, n: nat | k in lists && n < |lists[k]| ensures exists i, j :: ReadAt(txns, i, j, k, lists[k][n]) {
      assert lists[k][n] in lists[k];
    }
    forall i: nat, j: nat, k, list | ReadAt(txns, i, j, k, list)
      ensures k in lists && exists n :: 0 <= n < |lists[k]| && lists[k][n] == list
    {
      assert list in lists[k];
    }
    if NoRepeats(lists, order) {
      forall i: nat, j: nat, k, list | ReadAt(txns, i, j, k, list) ensures Distinct(list) {
        assert AllDistinct(lists[k], |lists[k]|);
      }
    }
    if AllBeginnings(lists, order) {
      forall i: nat, j: nat, k, list | ReadAt(txns, i, j, k, list) ensures list <= OrderOf(order, k) {
        assert AllBegin(lists[k], |lists[k]|, order[k]);
      }
    }
  }

  lemma OrderedMeans(txns: seq<Txn>, order: Order)
    requires Longest(txns, order)
    ensures Ordered(txns, order) <==> ReadsDistinct(txns) && ReadsBegin(txns, order)
  {
    hide ReadAt;
  }

  // ----- effects

  ghost predicate SeenIn(writer: Writer, order: Order, keys: set<Key>, i: nat) {
    exists k, v :: k in keys && k in order && v in order[k] && WriterIs(writer, k, v, i)
  }

  /** Which transactions took effect. */
  method Effects(txns: seq<Txn>, writer: Writer, order: Order) returns (took: seq<bool>)
    requires InTxns(txns, writer)
    ensures TookRight(txns, writer, order, took)
  {
    took := seq(|txns|, i requires 0 <= i < |txns| => txns[i].status.Committed?);
    var todo, done: set<Key> := order.Keys, {};
    while todo != {}
      invariant todo + done == order.Keys && |took| == |txns|
      invariant forall i :: 0 <= i < |txns| ==>
        (took[i] <==> txns[i].status.Committed? || (txns[i].status.Unknown? && SeenIn(writer, order, done, i)))
      decreases |todo|
    {
      var k :| k in todo;
      ghost var was := took;
      took := EffectsOfKey(txns, writer, k, order[k], took);
      forall i: nat
        ensures SeenIn(writer, order, done + {k}, i) <==>
          SeenIn(writer, order, done, i) || WroteSome(writer, k, order[k], i)
      {
        SeenMore(writer, order, done, k, i);
      }
      todo, done := todo - {k}, done + {k};
    }
    assert done == order.Keys;
  }

  ghost predicate WroteSome(writer: Writer, k: Key, o: seq<Value>, i: nat) {
    exists v :: v in o && WriterIs(writer, k, v, i)
  }

  lemma SeenMore(writer: Writer, order: Order, done: set<Key>, k: Key, i: nat)
    requires k in order
    ensures SeenIn(writer, order, done + {k}, i) <==>
      SeenIn(writer, order, done, i) || WroteSome(writer, k, order[k], i)
  {
    if WroteSome(writer, k, order[k], i) {
      var v :| v in order[k] && WriterIs(writer, k, v, i);
      assert k in done + {k};
    }
  }

  method EffectsOfKey(txns: seq<Txn>, writer: Writer, k: Key, o: seq<Value>, took0: seq<bool>) returns (took: seq<bool>)
    requires InTxns(txns, writer) && |took0| == |txns|
    ensures |took| == |txns|
    ensures forall i :: 0 <= i < |txns| ==>
      (took[i] <==> took0[i] || (txns[i].status.Unknown? && WroteSome(writer, k, o, i)))
  {
    took := took0;
    for n := 0 to |o|
      invariant |took| == |txns|
      invariant forall i :: 0 <= i < |txns| ==>
        (took[i] <==> took0[i] || (txns[i].status.Unknown? && WroteSome(writer, k, o[..n], i)))
    {
      TakeNext(o, n);
      forall i: nat
        ensures WroteSome(writer, k, o[..n + 1], i) <==>
          WroteSome(writer, k, o[..n], i) || WriterIs(writer, k, o[n], i)
      {
      }
      if (k, o[n]) in writer && txns[writer[(k, o[n])]].status.Unknown? {
        took := took[writer[(k, o[n])] := true];
      }
    }
    TakeAll(o);
  }
}
