/**
 What the checker infers from a history, stated of the history itself: who appended what, each
 key's version order, which transactions took effect, and what depends on what
 (listappend/listappend.go).
 */
module Inference {
  import opened Seqs
  import opened Txns

  /** Who appended each value to each key. */
  type Writer = map<(Key, Value), nat>

  /** Each key's version order. */
  type Order = map<Key, seq<Value>>

  function OrderOf(order: Order, k: Key): seq<Value> {
    if k in order then order[k] else []
  }

  predicate WriterIs(writer: Writer, k: Key, v: Value, i: nat) {
    (k, v) in writer && writer[(k, v)] == i
  }

  ghost predicate Attributed(txns: seq<Txn>, writer: Writer) {
    && (forall k, v :: (k, v) in writer ==> Writes(txns, writer[(k, v)], k, v))
    && (forall i: nat, k, v :: Writes(txns, i, k, v) ==> (k, v) in writer)
  }

  // ----- Reads

  ghost predicate ReadAt(txns: seq<Txn>, i: nat, j: nat, k: Key, list: seq<Value>) {
    i < |txns| && txns[i].status.Committed? && j < |txns[i].mops| && txns[i].mops[j] == Read(k, list)
  }

  /** A read before any append of the transaction's own to the key. */
  ghost predicate External(txns: seq<Txn>, i: nat, k: Key, list: seq<Value>) {
    exists j: nat :: ReadAt(txns, i, j, k, list) && Appended(txns[i].mops[..j], k) == []
  }

  /** The values of `list` that transaction `w` appended to `k`. */
  function Written(writer: Writer, k: Key, list: seq<Value>, w: nat): seq<Value> {
    if list == [] then []
    else
      var v := list[|list| - 1];
      Written(writer, k, list[..|list| - 1], w) + if WriterIs(writer, k, v, w) then [v] else []
  }

  /** A read's list ends in the values its transaction appended ahead of it. */
  ghost predicate ShowsOwn(txns: seq<Txn>, i: nat, j: nat, k: Key, list: seq<Value>)
    requires ReadAt(txns, i, j, k, list)
  {
    var mine := Appended(txns[i].mops[..j], k);
    |mine| <= |list| && list[|list| - |mine|..] == mine
  }

  /** No value of a read is unknown, or from an aborted transaction. */
  ghost predicate NoAborted(txns: seq<Txn>, writer: Writer, k: Key, list: seq<Value>) {
    forall v :: v in list ==> (k, v) in writer && writer[(k, v)] < |txns| && !txns[writer[(k, v)]].status.Aborted?
  }

  /** What a list shows of one transaction's appends and what it appended agree as far as both go. */
  predicate Agree(got: seq<Value>, made: seq<Value>) {
    var n := if |got| <= |made| then |got| else |made|;
    got[..n] == made[..n]
  }

  ghost predicate InMadeOrder(txns: seq<Txn>, writer: Writer, i: nat, k: Key, list: seq<Value>) {
    forall w: nat :: w < |txns| && w != i && |Appended(txns[w].mops, k)| > 1 ==>
      Agree(Written(writer, k, list, w), Appended(txns[w].mops, k))
  }

  /** Each read is a beginning of its key's version order, which is itself a read, and shows no value twice. */
  ghost predicate Ordered(txns: seq<Txn>, order: Order) {
    && (forall i, j, k, list :: ReadAt(txns, i, j, k, list) ==> k in order && list <= order[k] && Distinct(list))
    && (forall k :: k in order ==> exists i, j :: ReadAt(txns, i, j, k, order[k]))
  }

  /** No read shows a value twice. */
  ghost predicate ReadsDistinct(txns: seq<Txn>) {
    forall i, j, k, list :: ReadAt(txns, i, j, k, list) ==> Distinct(list)
  }

  /** Each read is a beginning of its key's version order. */
  ghost predicate ReadsBegin(txns: seq<Txn>, order: Order) {
    forall i, j, k, list :: ReadAt(txns, i, j, k, list) ==> list <= OrderOf(order, k)
  }

  /** A transaction took effect if it committed, or is in doubt and wrote a version of some key. */
  ghost predicate Took(txns: seq<Txn>, writer: Writer, order: Order, i: nat) {
    i < |txns| && (txns[i].status.Committed? ||
      (txns[i].status.Unknown? && exists k, v :: k in order && v in order[k] && WriterIs(writer, k, v, i)))
  }

  ghost predicate TookRight(txns: seq<Txn>, writer: Writer, order: Order, took: seq<bool>) {
    |took| == |txns| && forall i :: 0 <= i < |txns| ==> (took[i] <==> Took(txns, writer, order, i))
  }

  // ----- Dependencies

  /** The transaction appended to `k`, to effect, something no read saw. */
  ghost predicate Unread(txns: seq<Txn>, writer: Writer, order: Order, i: nat, k: Key) {
    Took(txns, writer, order, i) && exists v :: Writes(txns, i, k, v) && v !in OrderOf(order, k)
  }

  ghost predicate WroteNext(writer: Writer, order: Order, k: Key, n: nat, u: nat, v: nat) {
    0 < n < |OrderOf(order, k)| && WriterIs(writer, k, OrderOf(order, k)[n - 1], u) &&
      WriterIs(writer, k, OrderOf(order, k)[n], v)
  }

  ghost predicate WroteLast(writer: Writer, order: Order, k: Key, u: nat) {
    |OrderOf(order, k)| > 0 && WriterIs(writer, k, OrderOf(order, k)[|OrderOf(order, k)| - 1], u)
  }

  /**
   One wrote a version of a key and the other the next, or the one wrote the last version read and
   the other an append no read saw.
   */
  ghost predicate WriteDep(txns: seq<Txn>, writer: Writer, order: Order, u: nat, v: nat) {
    || (exists k, n :: WroteNext(writer, order, k, n, u, v))
    || (exists k :: WroteLast(writer, order, k, u) && Unread(txns, writer, order, v, k))
  }

  /** One wrote the version the other read. */
  ghost predicate ReadDep(txns: seq<Txn>, writer: Writer, u: nat, v: nat) {
    exists k, list :: External(txns, v, k, list) && |list| > 0 && WriterIs(writer, k, list[|list| - 1], u)
  }

  ghost predicate ReadBefore(txns: seq<Txn>, writer: Writer, order: Order, k: Key, list: seq<Value>, u: nat, v: nat) {
    External(txns, u, k, list) && list < OrderOf(order, k) && WriterIs(writer, k, OrderOf(order, k)[|list|], v)
  }

  /**
   One read a version and the other wrote the next, or the one read the last version and the other
   appended what no read saw.
   */
  ghost predicate AntiDep(txns: seq<Txn>, writer: Writer, order: Order, u: nat, v: nat) {
    || (exists k, list :: ReadBefore(txns, writer, order, k, list, u, v))
    || (exists k :: External(txns, u, k, OrderOf(order, k)) && Unread(txns, writer, order, v, k))
  }

  ghost predicate Dep(txns: seq<Txn>, writer: Writer, order: Order, u: nat, v: nat) {
    WriteDep(txns, writer, order, u, v) || ReadDep(txns, writer, u, v) || AntiDep(txns, writer, order, u, v)
  }

  // ----- The other reports

  /** The order of each key read is one of its longest reads. */
  ghost predicate Longest(txns: seq<Txn>, order: Order) {
    && (forall i, j, k, list :: ReadAt(txns, i, j, k, list) ==> k in order && |list| <= |order[k]|)
    && (forall k :: k in order ==> exists i, j :: ReadAt(txns, i, j, k, order[k]))
  }

  /** What a read shows before its transaction's own appends. */
  function Rest(mine: seq<Value>, list: seq<Value>): seq<Value> {
    if |mine| <= |list| then list[..|list| - |mine|] else []
  }

  /** What two reads of a key by one transaction, each with its own appends at the end, show of others' is the same. */
  ghost predicate Repeatable(txns: seq<Txn>) {
    forall i: nat, a: nat, b: nat, k, r, s ::
      ReadAt(txns, i, a, k, r) && ReadAt(txns, i, b, k, s) && ShowsOwn(txns, i, a, k, r) &&
      ShowsOwn(txns, i, b, k, s) ==>
      Rest(Appended(txns[i].mops[..a], k), r) == Rest(Appended(txns[i].mops[..b], k), s)
  }

  /** A read without the reader's own appends at its end. */
  function Others(writer: Writer, k: Key, list: seq<Value>, i: nat): (r: seq<Value>)
    ensures |r| <= |list|
  {
    if list == [] || !WriterIs(writer, k, list[|list| - 1], i) then list else Others(writer, k, list[..|list| - 1], i)
  }

  /** What a read shows of others' ends with the last append of one of them. */
  ghost predicate NotIntermediate(txns: seq<Txn>, writer: Writer, i: nat, k: Key, list: seq<Value>) {
    var others := Others(writer, k, list, i);
    others != [] && (k, others[|others| - 1]) in writer ==>
      var w := writer[(k, others[|others| - 1])];
      w < |txns| ==> (var made := Appended(txns[w].mops, k); |made| > 0 ==> made[|made| - 1] == others[|others| - 1])
  }

  /** A read shows every append committed before its transaction began. */
  ghost predicate NoneLost(txns: seq<Txn>, writer: Writer, i: nat, k: Key, list: seq<Value>)
    requires i < |txns|
  {
    forall v :: (k, v) in writer ==> var w := writer[(k, v)];
      w < |txns| && txns[w].status.Committed? && txns[w].ret < txns[i].call && w != i ==> v in list
  }

  /** There is nothing to report of what a read shows. */
  ghost predicate ReadOk(txns: seq<Txn>, writer: Writer, realtime: bool, i: nat, k: Key, list: seq<Value>)
    requires i < |txns|
  {
    && NoAborted(txns, writer, k, list)
    && InMadeOrder(txns, writer, i, k, list)
    && NotIntermediate(txns, writer, i, k, list)
    && (realtime ==> NoneLost(txns, writer, i, k, list))
  }

  /** The transaction read a version of the key before it appended to it. */
  ghost predicate Reader(txns: seq<Txn>, order: Order, i: nat, k: Key) {
    exists list :: External(txns, i, k, list) && list <= OrderOf(order, k)
  }

  /** Two readers of a key whose appends to it are both unread. */
  ghost predicate LostUpdate(txns: seq<Txn>, writer: Writer, order: Order, i: nat, j: nat, k: Key) {
    && i != j && Reader(txns, order, i, k) && Reader(txns, order, j, k)
    && Unread(txns, writer, order, i, k) && Unread(txns, writer, order, j, k)
  }
}
