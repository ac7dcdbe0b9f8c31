/**
 A history with nothing to report against its reads, whose dependencies an order keeps, runs in
 that order: every committed read is what the transactions it sees appended. It is serial if each
 sees all those before it.
 */
module Serial {
  import opened Seqs
  import opened History
  import opened Txns
  import opened Inference

  /** What no report says of a history's reads. */
  ghost predicate Clean(txns: seq<Txn>, writer: Writer, order: Order) {
    && Attributed(txns, writer)
    && Ordered(txns, order)
    && (forall i, j, k, list :: ReadAt(txns, i, j, k, list) ==>
      ShowsOwn(txns, i, j, k, list) && NoAborted(txns, writer, k, list) && InMadeOrder(txns, writer, i, k, list))
  }

  /** One wrote the next version after the other's, or read a version the other wrote. */
  ghost predicate MustSee(txns: seq<Txn>, writer: Writer, order: Order, u: nat, v: nat) {
    WriteDep(txns, writer, order, u, v) || ReadDep(txns, writer, u, v)
  }

  /**
   `pi` orders the transactions that took effect, each seeing those whose writes it read or wrote
   after, and not those that wrote after what it read.
   */
  ghost predicate Orders(txns: seq<Txn>, writer: Writer, order: Order, pi: seq<nat>, from: seq<nat>) {
    && InRange(|txns|, pi)
    && Distinct(pi)
    && Starts(pi, from)
    && (forall i: nat :: i in pi <==> Took(txns, writer, order, i))
    && (forall u: nat, v: nat :: u in pi && v in pi && u != v && MustSee(txns, writer, order, u, v) ==>
      Pos(pi, u) < Start(pi, from, v))
    && (forall u: nat, v: nat :: u in pi && v in pi && u != v && AntiDep(txns, writer, order, u, v) ==>
      Start(pi, from, u) <= Pos(pi, v))
  }

  // ----- The writers of a version order come in its order

  lemma SeenTook(txns: seq<Txn>, writer: Writer, order: Order, k: Key, n: nat)
    requires Clean(txns, writer, order) && n < |OrderOf(order, k)|
    ensures (k, OrderOf(order, k)[n]) in writer &&
      Writes(txns, writer[(k, OrderOf(order, k)[n])], k, OrderOf(order, k)[n])
    ensures Took(txns, writer, order, writer[(k, OrderOf(order, k)[n])])
  {
    var v := order[k][n];
    var i, j :| ReadAt(txns, i, j, k, order[k]);
    assert v in order[k];
    var w := writer[(k, v)];
    assert WriterIs(writer, k, v, w);
  }

  ghost function Author(writer: Writer, order: Order, k: Key, n: nat): nat {
    if n < |OrderOf(order, k)| && (k, OrderOf(order, k)[n]) in writer then writer[(k, OrderOf(order, k)[n])] else 0
  }

  lemma AuthorIs(txns: seq<Txn>, writer: Writer, order: Order, k: Key, n: nat)
    requires Clean(txns, writer, order) && n < |OrderOf(order, k)|
    ensures WriterIs(writer, k, OrderOf(order, k)[n], Author(writer, order, k, n))
    ensures Took(txns, writer, order, Author(writer, order, k, n))
    ensures Writes(txns, Author(writer, order, k, n), k, OrderOf(order, k)[n])
  {
    SeenTook(txns, writer, order, k, n);
  }

  lemma {:induction false} AuthorsInOrder(txns: seq<Txn>, writer: Writer, order: Order, pi: seq<nat>,
      from: seq<nat>, k: Key, a: nat, b: nat)
    requires Clean(txns, writer, order) && Orders(txns, writer, order, pi, from) && a <= b < |OrderOf(order, k)|
    ensures Pos(pi, Author(writer, order, k, a)) <= Pos(pi, Author(writer, order, k, b)) < |pi|
    decreases b - a
  {
    hide Clean, Took;
    AuthorIs(txns, writer, order, k, b);
    if a < b {
      AuthorsInOrder(txns, writer, order, pi, from, k, a, b - 1);
      AuthorIs(txns, writer, order, k, b - 1);
      var u, v := Author(writer, order, k, b - 1), Author(writer, order, k, b);
      assert WroteNext(writer, order, k, b, u, v);
      assert WriteDep(txns, writer, order, u, v);
      assert u != v ==> MustSee(txns, writer, order, u, v);
      StartOf(pi, from, v);
    }
  }

  /** Whoever appended what no read saw comes no earlier than the writer of any version read. */
  lemma UnreadLast(txns: seq<Txn>, writer: Writer, order: Order, pi: seq<nat>, from: seq<nat>, k: Key, a: nat, w: nat)
    requires Clean(txns, writer, order) && Orders(txns, writer, order, pi, from) && a < |OrderOf(order, k)| &&
      Unread(txns, writer, order, w, k)
    ensures Pos(pi, Author(writer, order, k, a)) <= Pos(pi, w)
  {
    hide Clean, Took;
    var n := |OrderOf(order, k)| - 1;
    AuthorsInOrder(txns, writer, order, pi, from, k, a, n);
    AuthorIs(txns, writer, order, k, n);
    var u := Author(writer, order, k, n);
    assert WroteLast(writer, order, k, u);
    assert WriteDep(txns, writer, order, u, w);
    assert u != w ==> MustSee(txns, writer, order, u, w);
    StartOf(pi, from, w);
  }

  // ----- One read

  /** A read of `k` by transaction `i`, at its operation `j`, as what others appended and what it had itself. */
  ghost predicate Splits(txns: seq<Txn>, order: Order, i: nat, j: nat, k: Key, rest: seq<Value>) {
    && i < |txns| && j < |txns[i].mops|
    && ReadAt(txns, i, j, k, rest + Appended(txns[i].mops[..j], k))
    && rest + Appended(txns[i].mops[..j], k) <= OrderOf(order, k)
    && Distinct(rest + Appended(txns[i].mops[..j], k))
  }

  lemma SplitRead(txns: seq<Txn>, writer: Writer, order: Order, i: nat, j: nat, k: Key, list: seq<Value>)
      returns (rest: seq<Value>)
    requires Clean(txns, writer, order) && ReadAt(txns, i, j, k, list)
    ensures Splits(txns, order, i, j, k, rest) && list == rest + Appended(txns[i].mops[..j], k)
  {
    var mine := Appended(txns[i].mops[..j], k);
    assert ShowsOwn(txns, i, j, k, list);
    rest := list[..|list| - |mine|];
    assert list == rest + mine;
  }

  lemma OwnWrites(txns: seq<Txn>, i: nat, j: nat, k: Key, v: Value)
    requires i < |txns| && j <= |txns[i].mops| && v in Appended(txns[i].mops[..j], k)
    ensures Writes(txns, i, k, v)
  {
    AppendedGrows(txns[i].mops, k, j);
  }

  /** What comes after the others' part of a read, in the version order, comes no earlier than the reader. */
  lemma ReaderFirst(txns: seq<Txn>, writer: Writer, order: Order, pi: seq<nat>, from: seq<nat>, i: nat, j: nat, k: Key,
      rest: seq<Value>)
    requires Clean(txns, writer, order) && Orders(txns, writer, order, pi, from) &&
      Splits(txns, order, i, j, k, rest) &&
      Unique(txns)
    requires |rest| < |OrderOf(order, k)|
    ensures i in pi && Start(pi, from, i) <= Pos(pi, Author(writer, order, k, |rest|))
  {
    hide Clean, Unique;
    var mine := Appended(txns[i].mops[..j], k);
    AuthorIs(txns, writer, order, k, |rest|);
    var w := Author(writer, order, k, |rest|);
    assert Took(txns, writer, order, i);
    StartOf(pi, from, i);
    if mine == [] {
      assert rest + mine == rest;
      assert External(txns, i, k, rest);
      assert ReadBefore(txns, writer, order, k, rest, i, w);
      assert AntiDep(txns, writer, order, i, w);
    } else {
      assert OrderOf(order, k)[|rest|] == (rest + mine)[|rest|] == mine[0];
      OwnWrites(txns, i, j, k, mine[0]);
      OneWriter(txns, i, w, k, mine[0]);
    }
  }

  /** Whoever has appended to the key what a read does not show comes after the reader. */
  lemma NotShownAfter(txns: seq<Txn>, writer: Writer, order: Order, pi: seq<nat>, from: seq<nat>, i: nat, j: nat,
      k: Key,
      rest: seq<Value>, w: nat, x: Value)
    requires Clean(txns, writer, order) && Orders(txns, writer, order, pi, from) &&
      Splits(txns, order, i, j, k, rest) &&
      Unique(txns)
    requires w in pi && w != i && Writes(txns, w, k, x) && x !in rest
    ensures Start(pi, from, i) <= Pos(pi, w)
  {
    hide Clean, Unique, Took;
    var o := OrderOf(order, k);
    if x in o {
      var m: nat :| m < |o| && o[m] == x;
      assert m >= |rest|;
      AuthorIs(txns, writer, order, k, m);
      OneWriter(txns, w, Author(writer, order, k, m), k, x);
      ReaderFirst(txns, writer, order, pi, from, i, j, k, rest);
      AuthorsInOrder(txns, writer, order, pi, from, k, |rest|, m);
    } else {
      assert Unread(txns, writer, order, w, k);
      if |rest| < |o| {
        ReaderFirst(txns, writer, order, pi, from, i, j, k, rest);
        UnreadLast(txns, writer, order, pi, from, k, |rest|, w);
      } else {
        ReadAll(txns, writer, order, pi, from, i, j, k, rest, w);
      }
    }
  }

  lemma ReadAll(txns: seq<Txn>, writer: Writer, order: Order, pi: seq<nat>, from: seq<nat>, i: nat, j: nat, k: Key,
      rest: seq<Value>,
      w: nat)
    requires Orders(txns, writer, order, pi, from) && Splits(txns, order, i, j, k, rest) &&
      |rest| >= |OrderOf(order, k)|
    requires w != i && Unread(txns, writer, order, w, k)
    ensures Start(pi, from, i) <= Pos(pi, w)
  {
    var mine := Appended(txns[i].mops[..j], k);
    assert mine == [] && rest + mine == rest == OrderOf(order, k);
    assert External(txns, i, k, OrderOf(order, k));
    assert Took(txns, writer, order, i);
    assert AntiDep(txns, writer, order, i, w);
  }

  /** What a read shows before its transaction's own appends, it did not append. */
  lemma NotOwn(txns: seq<Txn>, order: Order, i: nat, j: nat, k: Key, rest: seq<Value>, n: nat)
    requires Splits(txns, order, i, j, k, rest) && NoReadAhead(txns) && n < |rest|
    ensures !Writes(txns, i, k, rest[n])
  {
    var mine := Appended(txns[i].mops[..j], k);
    var list := rest + mine;
    assert list[n] == rest[n] && list[n] in list;
    forall m | 0 <= m < |mine| ensures mine[m] != rest[n] {
      assert list[|rest| + m] == mine[m];
    }
  }

  /** What a read shows of others', others before it appended. */
  lemma ShownBefore(txns: seq<Txn>, writer: Writer, order: Order, pi: seq<nat>, from: seq<nat>, i: nat, j: nat, k: Key,
      rest: seq<Value>, a: nat)
    requires Clean(txns, writer, order) && Orders(txns, writer, order, pi, from) &&
      Splits(txns, order, i, j, k, rest) &&
      Unique(txns) && NoReadAhead(txns)
    requires a < |rest|
    ensures i in pi && Pos(pi, Author(writer, order, k, a)) < Start(pi, from, i)
  {
    hide Clean, Unique, MustSee, Appended, Distinct, NoReadAhead;
    var n := |rest| - 1;
    AuthorsInOrder(txns, writer, order, pi, from, k, a, n);
    AuthorIs(txns, writer, order, k, n);
    assert Took(txns, writer, order, i);
    LastShownDep(txns, writer, order, i, j, k, rest);
  }

  /** Whoever appended the last that a read shows of others' is one its transaction depends on. */
  lemma LastShownDep(txns: seq<Txn>, writer: Writer, order: Order, i: nat, j: nat, k: Key, rest: seq<Value>)
    requires Clean(txns, writer, order) && Splits(txns, order, i, j, k, rest) && Unique(txns) && NoReadAhead(txns)
    requires |rest| > 0
    ensures var u := Author(writer, order, k, |rest| - 1); u != i && MustSee(txns, writer, order, u, i)
  {
    hide Clean, Unique, AntiDep, ReadDep, WriteDep;
    var mine, n := Appended(txns[i].mops[..j], k), |rest| - 1;
    var list := rest + mine;
    AuthorIs(txns, writer, order, k, n);
    var u := Author(writer, order, k, n);
    assert list[n] == rest[n] == OrderOf(order, k)[n];
    NotOwn(txns, order, i, j, k, rest, n);
    if mine == [] {
      assert list == rest;
      ShownIsRead(txns, writer, order, i, j, k, rest);
    } else {
      OwnIsNext(txns, writer, order, i, j, k, rest);
    }
  }

  lemma ShownIsRead(txns: seq<Txn>, writer: Writer, order: Order, i: nat, j: nat, k: Key, rest: seq<Value>)
    requires Clean(txns, writer, order) && ReadAt(txns, i, j, k, rest) && rest <= OrderOf(order, k)
    requires Appended(txns[i].mops[..j], k) == [] && |rest| > 0
    ensures ReadDep(txns, writer, Author(writer, order, k, |rest| - 1), i)
  {
    hide Clean, AntiDep, WriteDep;
    AuthorIs(txns, writer, order, k, |rest| - 1);
    assert External(txns, i, k, rest);
  }

  lemma OwnIsNext(txns: seq<Txn>, writer: Writer, order: Order, i: nat, j: nat, k: Key, rest: seq<Value>)
    requires Clean(txns, writer, order) && Splits(txns, order, i, j, k, rest) && Unique(txns)
    requires Appended(txns[i].mops[..j], k) != [] && |rest| > 0
    ensures WriteDep(txns, writer, order, Author(writer, order, k, |rest| - 1), i)
  {
    hide Clean, Unique, AntiDep, ReadDep, Distinct;
    var mine := Appended(txns[i].mops[..j], k);
    assert OrderOf(order, k)[|rest|] == (rest + mine)[|rest|] == mine[0];
    AuthorIs(txns, writer, order, k, |rest| - 1);
    AuthorIs(txns, writer, order, k, |rest|);
    OwnWrites(txns, i, j, k, mine[0]);
    OneWriter(txns, i, Author(writer, order, k, |rest|), k, mine[0]);
    assert WroteNext(writer, order, k, |rest|, Author(writer, order, k, |rest| - 1), i);
  }

  // ----- What a read shows is what those before it appended

  lemma {:induction false} WrittenIn(writer: Writer, k: Key, list: seq<Value>, w: nat, v: Value)
    ensures v in Written(writer, k, list, w) <==> v in list && WriterIs(writer, k, v, w)
  {
    if list != [] {
      var n := |list| - 1;
      WrittenIn(writer, k, list[..n], w, v);
      assert list == list[..n] + [list[n]];
    }
  }

  lemma {:induction false} WrittenDistinct(writer: Writer, k: Key, list: seq<Value>, w: nat)
    requires Distinct(list)
    ensures Distinct(Written(writer, k, list, w))
  {
    if list != [] {
      var n := |list| - 1;
      WrittenDistinct(writer, k, list[..n], w);
      WrittenIn(writer, k, list[..n], w, list[n]);
    }
  }

  lemma {:induction false} WrittenNone(writer: Writer, k: Key, list: seq<Value>, w: nat)
    requires forall a :: 0 <= a < |list| ==> !WriterIs(writer, k, list[a], w)
    ensures Written(writer, k, list, w) == []
  {
    if list != [] {
      WrittenNone(writer, k, list[..|list| - 1], w);
    }
  }

  lemma {:induction false} WrittenAll(writer: Writer, k: Key, list: seq<Value>, w: nat)
    requires forall a :: 0 <= a < |list| ==> WriterIs(writer, k, list[a], w)
    ensures Written(writer, k, list, w) == list
  {
    if list != [] {
      var n := |list| - 1;
      WrittenAll(writer, k, list[..n], w);
      assert WriterIs(writer, k, list[n], w);
      assert list == list[..n] + [list[n]];
    }
  }

  lemma {:induction false} WrittenJoin(writer: Writer, k: Key, a: seq<Value>, b: seq<Value>, w: nat)
    ensures Written(writer, k, a + b, w) == Written(writer, k, a, w) + Written(writer, k, b, w)
  {
    if b == [] {
      assert a + b == a;
    } else {
      var n := |b| - 1;
      assert (a + b)[..|a + b| - 1] == a + b[..n];
      WrittenJoin(writer, k, a, b[..n], w);
    }
  }

  lemma SameSize<T>(s: seq<T>, t: seq<T>)
    requires Distinct(s) && Distinct(t) && forall x :: x in s <==> x in t
    ensures |s| == |t|
  {
    DistinctSize(s);
    DistinctSize(t);
    assert Elements(s) == Elements(t);
  }

  /** A read shows just what each transaction before it appended to the key, in order. */
  lemma ShowsWhole(txns: seq<Txn>, writer: Writer, order: Order, pi: seq<nat>, from: seq<nat>, i: nat, j: nat, k: Key,
      rest: seq<Value>, w: nat)
    requires Clean(txns, writer, order) && Orders(txns, writer, order, pi, from) &&
      Splits(txns, order, i, j, k, rest) &&
      Unique(txns)
    requires i in pi && w in pi && Pos(pi, w) < Start(pi, from, i)
    ensures Written(writer, k, rest, w) == Appended(txns[w].mops, k)
  {
    hide *;
    InPi(txns, writer, order, pi, from, w);
    var made, got := Appended(txns[w].mops, k), Written(writer, k, rest, w);
    GotIsMade(txns, writer, order, pi, from, i, j, k, rest, w);
    if |made| > 1 {
      GotAgrees(txns, writer, order, i, j, k, rest, w);
    }
    AppendedDistinct(txns, w, k, |txns[w].mops|);
    TakeAll(txns[w].mops);
    RestDistinct(txns, order, i, j, k, rest);
    WrittenDistinct(writer, k, rest, w);
    AgreeIsEqual(got, made);
  }

  lemma RestDistinct(txns: seq<Txn>, order: Order, i: nat, j: nat, k: Key, rest: seq<Value>)
    requires Splits(txns, order, i, j, k, rest)
    ensures Distinct(rest)
  {
    var list := rest + Appended(txns[i].mops[..j], k);
    forall a, b | 0 <= a < b < |rest| ensures rest[a] != rest[b] {
      assert list[a] == rest[a] && list[b] == rest[b];
    }
  }

  lemma AgreeIsEqual(got: seq<Value>, made: seq<Value>)
    requires Distinct(got) && Distinct(made) && (forall x :: x in got <==> x in made) &&
      (|made| > 1 ==> Agree(got, made))
    ensures got == made
  {
    SameSize(got, made);
    if |made| > 1 {
      TakeAll(got);
      TakeAll(made);
    } else if |made| == 1 {
      assert got[0] in got;
    }
  }

  lemma GotIsMade(txns: seq<Txn>, writer: Writer, order: Order, pi: seq<nat>, from: seq<nat>, i: nat, j: nat, k: Key,
      rest: seq<Value>, w: nat)
    requires Clean(txns, writer, order) && Orders(txns, writer, order, pi, from) &&
      Splits(txns, order, i, j, k, rest) &&
      Unique(txns)
    requires i in pi && w in pi && Pos(pi, w) < Start(pi, from, i)
    ensures forall x :: x in Written(writer, k, rest, w) <==> x in Appended(txns[w].mops, k)
  {
    hide Orders, Splits, Unique, Ordered, NoAborted, ShowsOwn, InMadeOrder, Written, Appended;
    InPi(txns, writer, order, pi, from, w);
    forall x ensures x in Written(writer, k, rest, w) <==> x in Appended(txns[w].mops, k) {
      WrittenIn(writer, k, rest, w, x);
      if Writes(txns, w, k, x) {
        OneWriter(txns, w, writer[(k, x)], k, x);
        if x !in rest {
          NotShownAfter(txns, writer, order, pi, from, i, j, k, rest, w, x);
          assert false;
        }
      }
    }
  }

  lemma InPi(txns: seq<Txn>, writer: Writer, order: Order, pi: seq<nat>, from: seq<nat>, w: nat)
    requires Orders(txns, writer, order, pi, from) && w in pi
    ensures w < |txns| && Start(pi, from, w) <= Pos(pi, w)
  {
    hide MustSee, AntiDep, Took;
    StartOf(pi, from, w);
  }

  lemma GotAgrees(txns: seq<Txn>, writer: Writer, order: Order, i: nat, j: nat, k: Key, rest: seq<Value>, w: nat)
    requires Clean(txns, writer, order) && Splits(txns, order, i, j, k, rest) && Unique(txns)
    requires w < |txns| && w != i && |Appended(txns[w].mops, k)| > 1
    ensures Agree(Written(writer, k, rest, w), Appended(txns[w].mops, k))
  {
    hide Unique, Agree, Appended, Written;
    var mine := Appended(txns[i].mops[..j], k);
    assert InMadeOrder(txns, writer, i, k, rest + mine);
    WrittenJoin(writer, k, rest, mine, w);
    forall a | 0 <= a < |mine| ensures !WriterIs(writer, k, mine[a], w) {
      OwnWrites(txns, i, j, k, mine[a]);
      if WriterIs(writer, k, mine[a], w) {
        OneWriter(txns, i, w, k, mine[a]);
      }
    }
    WrittenNone(writer, k, mine, w);
    assert Written(writer, k, rest, w) + [] == Written(writer, k, rest, w);
  }

  // ----- Putting the blocks together

  /** `at[a]` is the place in `pi` of the writer of `list[a]`. */
  ghost predicate Placed(writer: Writer, k: Key, list: seq<Value>, pi: seq<nat>, at: seq<nat>, p: nat) {
    && |at| == |list| && p <= |pi| && Distinct(pi)
    && (forall a :: 0 <= a < |at| ==> at[a] < p && WriterIs(writer, k, list[a], pi[at[a]]))
    && (forall a, b :: 0 <= a < b < |at| ==> at[a] <= at[b])
  }

  lemma {:induction false} BlocksJoin(txns: seq<Txn>, writer: Writer, k: Key, list: seq<Value>, pi: seq<nat>,
      at: seq<nat>, p: nat)
    requires Placed(writer, k, list, pi, at, p) && InRange(|txns|, pi) && p <= |pi|
    requires forall q :: 0 <= q < p ==> Written(writer, k, list, pi[q]) == Appended(txns[pi[q]].mops, k)
    ensures Replay(txns, pi[..p], k) == list
    decreases p
  {
    hide Written, Appended, Placed;
    if p > 0 {
      var c := CutPlaced(writer, k, list, pi, at, p);
      var a := list[..c];
      forall q | 0 <= q < p - 1 ensures Written(writer, k, a, pi[q]) == Appended(txns[pi[q]].mops, k) {
        assert Written(writer, k, list, pi[q]) == Appended(txns[pi[q]].mops, k);
      }
      BlocksJoin(txns, writer, k, a, pi, at[..c], p - 1);
      assert pi[..p][..p - 1] == pi[..p - 1];
      assert list == a + list[c..];
    } else {
      NonePlaced(writer, k, list, pi, at, p);
    }
  }

  lemma NonePlaced(writer: Writer, k: Key, list: seq<Value>, pi: seq<nat>, at: seq<nat>, p: nat)
    requires Placed(writer, k, list, pi, at, p)
    ensures p == 0 ==> list == []
  {
    assert |at| > 0 ==> at[0] < p;
  }

  lemma CutPlaced(writer: Writer, k: Key, list: seq<Value>, pi: seq<nat>, at: seq<nat>, p: nat) returns (c: nat)
    requires Placed(writer, k, list, pi, at, p) && p > 0
    ensures c <= |list| == |at| && p <= |pi|
    ensures Placed(writer, k, list[..c], pi, at[..c], p - 1)
    ensures forall q :: 0 <= q < p - 1 ==> Written(writer, k, list[..c], pi[q]) == Written(writer, k, list, pi[q])
    ensures Written(writer, k, list, pi[p - 1]) == list[c..]
  {
    hide Written, WriterIs;
    c := Cut(at, p - 1);
    CutParts(writer, k, list, pi, at, p, c);
  }

  /** The last block is the end of the list, and the others are where they were without it. */
  lemma CutParts(writer: Writer, k: Key, list: seq<Value>, pi: seq<nat>, at: seq<nat>, p: nat, c: nat)
    requires Placed(writer, k, list, pi, at, p) && p > 0 && c <= |list|
    requires (forall a :: 0 <= a < c ==> at[a] < p - 1) && (forall a :: c <= a < |at| ==> p - 1 <= at[a])
    ensures Placed(writer, k, list[..c], pi, at[..c], p - 1)
    ensures forall q :: 0 <= q < p - 1 ==> Written(writer, k, list[..c], pi[q]) == Written(writer, k, list, pi[q])
    ensures Written(writer, k, list, pi[p - 1]) == list[c..]
  {
    hide Written;
    var a, b := list[..c], list[c..];
    assert list == a + b;
    forall q | 0 <= q < p - 1 ensures Written(writer, k, a, pi[q]) == Written(writer, k, list, pi[q]) {
      WrittenJoin(writer, k, a, b, pi[q]);
      WrittenNone(writer, k, b, pi[q]);
    }
    WrittenJoin(writer, k, a, b, pi[p - 1]);
    WrittenNone(writer, k, a, pi[p - 1]);
    WrittenAll(writer, k, b, pi[p - 1]);
  }

  lemma Cut(at: seq<nat>, p: nat) returns (c: nat)
    requires (forall a, b :: 0 <= a < b < |at| ==> at[a] <= at[b])
    ensures c <= |at| && (forall a :: 0 <= a < c ==> at[a] < p) && (forall a :: c <= a < |at| ==> p <= at[a])
  {
    c := 0;
    while c < |at| && at[c] < p
      invariant c <= |at| && forall a :: 0 <= a < c ==> at[a] < p
    {
      c := c + 1;
    }
  }

  lemma ReadIsReplay(txns: seq<Txn>, writer: Writer, order: Order, pi: seq<nat>, from: seq<nat>, p: nat, j: nat, k: Key,
      rest: seq<Value>)
    requires Clean(txns, writer, order) && Orders(txns, writer, order, pi, from) && Unique(txns) && NoReadAhead(txns)
    requires p < |pi| && Splits(txns, order, pi[p], j, k, rest)
    ensures Replay(txns, pi[..from[p]], k) == rest
  {
    hide Clean, Splits, Unique, NoReadAhead, Took, Written, Appended, MustSee, AntiDep;
    PosAt(pi, p);
    var n := from[p];
    var at := seq(|rest|, a requires 0 <= a < |rest| => Pos(pi, Author(writer, order, k, a)));
    forall a | 0 <= a < |rest| ensures at[a] < n && WriterIs(writer, k, rest[a], pi[at[a]]) {
      ShownBefore(txns, writer, order, pi, from, pi[p], j, k, rest, a);
      RestInOrder(txns, order, pi[p], j, k, rest);
      AuthorIs(txns, writer, order, k, a);
    }
    forall a, b | 0 <= a < b < |at| ensures at[a] <= at[b] {
      RestInOrder(txns, order, pi[p], j, k, rest);
      AuthorsInOrder(txns, writer, order, pi, from, k, a, b);
    }
    forall q | 0 <= q < n ensures Written(writer, k, rest, pi[q]) == Appended(txns[pi[q]].mops, k) {
      PosAt(pi, q);
      ShowsWhole(txns, writer, order, pi, from, pi[p], j, k, rest, pi[q]);
    }
    BlocksJoin(txns, writer, k, rest, pi, at, n);
  }

  lemma RestInOrder(txns: seq<Txn>, order: Order, i: nat, j: nat, k: Key, rest: seq<Value>)
    requires Splits(txns, order, i, j, k, rest)
    ensures |rest| <= |OrderOf(order, k)| && forall a :: 0 <= a < |rest| ==> rest[a] == OrderOf(order, k)[a]
  {
  }

  /**
   In a clean history run in an order that keeps its dependencies, every committed read is what
   the transactions it sees appended, unless a transaction reads ahead.
   */
  lemma CleanReads(txns: seq<Txn>, writer: Writer, order: Order, pi: seq<nat>, from: seq<nat>, p: nat)
    requires Clean(txns, writer, order) && Orders(txns, writer, order, pi, from) && Unique(txns) && NoReadAhead(txns)
    requires p < |pi|
    ensures ReadsRight(txns, pi, p, from[p])
  {
    hide Clean, Orders, Unique, NoReadAhead, Replay, Appended;
    OrdersEffect(txns, writer, order, pi, from);
    if txns[pi[p]].status.Committed? {
      forall j | 0 <= j < |txns[pi[p]].mops| ensures ReadRight(txns, pi, p, from[p], j) {
        var m := txns[pi[p]].mops[j];
        if m.Read? {
          var rest := SplitRead(txns, writer, order, pi[p], j, m.key, m.list);
          ReadIsReplay(txns, writer, order, pi, from, p, j, m.key, rest);
        }
      }
    }
  }

  lemma OrdersEffect(txns: seq<Txn>, writer: Writer, order: Order, pi: seq<nat>, from: seq<nat>)
    requires Orders(txns, writer, order, pi, from)
    ensures OfEffect(txns, pi) && Starts(pi, from)
  {
    hide MustSee, AntiDep;
    forall i | 0 <= i < |pi| ensures !txns[pi[i]].status.Aborted? {
      assert pi[i] in pi;
    }
  }

  /** Keeping the dependencies in a serial order. */
  lemma SerialOrders(txns: seq<Txn>, writer: Writer, order: Order, pi: seq<nat>)
    requires InRange(|txns|, pi) && Distinct(pi) && forall i: nat :: i in pi <==> Took(txns, writer, order, i)
    requires forall u: nat, v: nat :: u in pi && v in pi && u != v && Dep(txns, writer, order, u, v) ==>
      Pos(pi, u) < Pos(pi, v)
    ensures Orders(txns, writer, order, pi, Upto(|pi|))
  {
    hide WriteDep, ReadDep, AntiDep, Took, Distinct, Upto, Pos, Start, Starts, InRange;
    SeesAll(pi, 0);
    forall u: nat, v: nat | u in pi && v in pi && u != v
      ensures MustSee(txns, writer, order, u, v) ==> Pos(pi, u) < Start(pi, Upto(|pi|), v)
      ensures AntiDep(txns, writer, order, u, v) ==> Start(pi, Upto(|pi|), u) <= Pos(pi, v)
    {
      SeesAll(pi, u);
      SeesAll(pi, v);
    }
  }

  /** A clean history is serial in any order that keeps its dependencies, unless a transaction reads ahead. */
  lemma CleanIsSerial(txns: seq<Txn>, writer: Writer, order: Order, pi: seq<nat>)
    requires Clean(txns, writer, order) && Orders(txns, writer, order, pi, Upto(|pi|))
    requires Unique(txns) && NoReadAhead(txns)
    ensures IsSerial(txns, pi)
  {
    hide Clean, Orders, Unique, NoReadAhead, ReadsRight;
    OrdersEffect(txns, writer, order, pi, Upto(|pi|));
    forall p | 0 <= p < |pi| ensures ReadsRight(txns, pi, p, p) {
      CleanReads(txns, writer, order, pi, Upto(|pi|), p);
    }
  }

  // ----- Writers of one key

  /** Of two that appended to a key what no read saw, one sees the other. */
  ghost predicate UnreadApart(txns: seq<Txn>, writer: Writer, order: Order, pi: seq<nat>, from: seq<nat>) {
    forall u: nat, v: nat, k :: u != v && Unread(txns, writer, order, u, k) && Unread(txns, writer, order, v, k) ==>
      Pos(pi, u) < Start(pi, from, v) || Pos(pi, v) < Start(pi, from, u)
  }

  /** A writer of a key wrote one of its versions, or an append no read saw. */
  lemma WriterKind(txns: seq<Txn>, writer: Writer, order: Order, u: nat, k: Key) returns (a: nat)
    requires Clean(txns, writer, order) && Unique(txns) && Took(txns, writer, order, u) && AppendsTo(txns, u, k)
    ensures Unread(txns, writer, order, u, k) || (a < |OrderOf(order, k)| && Author(writer, order, k, a) == u)
  {
    hide Clean, Took;
    var x, o := Appended(txns[u].mops, k)[0], OrderOf(order, k);
    assert Writes(txns, u, k, x);
    a := 0;
    if x in o {
      a :| 0 <= a < |o| && o[a] == x;
      AuthorIs(txns, writer, order, k, a);
      OneWriter(txns, u, Author(writer, order, k, a), k, x);
    }
  }

  /** Writers of two versions of a key: the later sees the earlier. */
  lemma {:induction false} AuthorsSee(txns: seq<Txn>, writer: Writer, order: Order, pi: seq<nat>, from: seq<nat>,
      k: Key, a: nat, b: nat)
    requires Clean(txns, writer, order) && Orders(txns, writer, order, pi, from) && a <= b < |OrderOf(order, k)|
    requires Author(writer, order, k, a) != Author(writer, order, k, b)
    ensures Pos(pi, Author(writer, order, k, a)) < Start(pi, from, Author(writer, order, k, b))
    decreases b
  {
    hide Clean, Took;
    AuthorIs(txns, writer, order, k, b);
    AuthorIs(txns, writer, order, k, b - 1);
    var u, v := Author(writer, order, k, b - 1), Author(writer, order, k, b);
    if u == v {
      AuthorsSee(txns, writer, order, pi, from, k, a, b - 1);
    } else {
      AuthorsInOrder(txns, writer, order, pi, from, k, a, b - 1);
      assert WroteNext(writer, order, k, b, u, v);
      assert MustSee(txns, writer, order, u, v);
    }
  }

  lemma UnreadSees(txns: seq<Txn>, writer: Writer, order: Order, pi: seq<nat>, from: seq<nat>, k: Key, a: nat, w: nat)
    requires Clean(txns, writer, order) && Orders(txns, writer, order, pi, from) && a < |OrderOf(order, k)|
    requires Unread(txns, writer, order, w, k) && w != Author(writer, order, k, a)
    ensures Pos(pi, Author(writer, order, k, a)) < Start(pi, from, w)
  {
    hide Clean, Took;
    var n := |OrderOf(order, k)| - 1;
    AuthorIs(txns, writer, order, k, n);
    var u := Author(writer, order, k, n);
    if u == w {
      AuthorsSee(txns, writer, order, pi, from, k, a, n);
    } else {
      AuthorsInOrder(txns, writer, order, pi, from, k, a, n);
      assert WroteLast(writer, order, k, u);
      assert MustSee(txns, writer, order, u, w);
    }
  }

  /** Of two writers of a key, one sees the other. */
  lemma WritersApart(txns: seq<Txn>, writer: Writer, order: Order, pi: seq<nat>, from: seq<nat>, k: Key, u: nat, v: nat)
    requires Clean(txns, writer, order) && Orders(txns, writer, order, pi, from) && Unique(txns)
    requires UnreadApart(txns, writer, order, pi, from)
    requires u in pi && v in pi && u != v && AppendsTo(txns, u, k) && AppendsTo(txns, v, k)
    ensures Pos(pi, u) < Start(pi, from, v) || Pos(pi, v) < Start(pi, from, u)
  {
    hide Clean, Unique, Took, MustSee, AntiDep, AppendsTo, Unread;
    var a := WriterKind(txns, writer, order, u, k);
    var b := WriterKind(txns, writer, order, v, k);
    if !Unread(txns, writer, order, u, k) {
      if !Unread(txns, writer, order, v, k) {
        if a <= b {
          AuthorsSee(txns, writer, order, pi, from, k, a, b);
        } else {
          AuthorsSee(txns, writer, order, pi, from, k, b, a);
        }
      } else {
        UnreadSees(txns, writer, order, pi, from, k, a, v);
      }
    } else if !Unread(txns, writer, order, v, k) {
      UnreadSees(txns, writer, order, pi, from, k, b, u);
    }
  }

  /**
   A clean history runs on snapshots in any order that keeps its dependencies and in which of two
   writers of what no read saw one sees the other, unless a transaction reads ahead.
   */
  lemma CleanIsSnapshot(txns: seq<Txn>, writer: Writer, order: Order, pi: seq<nat>, from: seq<nat>)
    requires Clean(txns, writer, order) && Orders(txns, writer, order, pi, from)
    requires UnreadApart(txns, writer, order, pi, from) && Unique(txns) && NoReadAhead(txns)
    ensures IsSnapshot(txns, pi, from)
  {
    hide Clean, Orders, Unique, NoReadAhead, ReadsRight, UnreadApart, AppendsTo;
    OrdersEffect(txns, writer, order, pi, from);
    forall p | 0 <= p < |pi| ensures ReadsRight(txns, pi, p, from[p]) {
      CleanReads(txns, writer, order, pi, from, p);
    }
    forall p, q, k | 0 <= q < p < |pi| && AppendsTo(txns, pi[p], k) && AppendsTo(txns, pi[q], k)
      ensures q < from[p]
    {
      PosAt(pi, p);
      PosAt(pi, q);
      WritersApart(txns, writer, order, pi, from, k, pi[q], pi[p]);
    }
  }
}
