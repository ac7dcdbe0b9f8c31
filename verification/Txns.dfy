/**
 Transactions over lists, and what it is for a history of them to be serializable
 (listappend/listappend.go, the package comment and Txn).
 */
module Txns {
  import opened Seqs
  import opened History

  type Key = string
  type Value = string

  datatype Status = Committed | Aborted | Unknown

  /** A read of a key's whole list, or an append to it. */
  datatype Mop = Append(key: Key, value: Value) | Read(key: Key, list: seq<Value>)

  datatype Txn = Txn(id: int, call: int64, ret: int64, status: Status, mops: seq<Mop>)

  /** What `mops` appends to `k`, in order. */
  function Appended(mops: seq<Mop>, k: Key): seq<Value> {
    if mops == [] then []
    else
      var m := mops[|mops| - 1];
      Appended(mops[..|mops| - 1], k) + if m.Append? && m.key == k then [m.value] else []
  }

  /** Each value appended to a key is unique to its append. */
  ghost predicate Unique(txns: seq<Txn>) {
    forall i, a, j, b :: 0 <= i < |txns| && 0 <= a < |txns[i].mops| && 0 <= j < |txns| && 0 <= b < |txns[j].mops| ==>
      txns[i].mops[a].Append? && txns[i].mops[a] == txns[j].mops[b] ==> i == j && a == b
  }

  // ----- Serial runs

  /** The list of `k` once the transactions of `order` have run, one at a time. */
  ghost function Replay(txns: seq<Txn>, order: seq<nat>, k: Key): seq<Value>
    requires InRange(|txns|, order)
  {
    if order == [] then []
    else
      Replay(txns, order[..|order| - 1], k) + Appended(txns[order[|order| - 1]].mops, k)
  }

  /** The read at `j` of the transaction at `p` shows what the first `from` appended, and its own appends so far. */
  ghost predicate ReadRight(txns: seq<Txn>, order: seq<nat>, p: nat, from: nat, j: nat)
    requires InRange(|txns|, order) && p < |order| && from <= |order| && j < |txns[order[p]].mops|
  {
    var m := txns[order[p]].mops[j];
    m.Read? ==> m.list == Replay(txns, order[..from], m.key) + Appended(txns[order[p]].mops[..j], m.key)
  }

  /** If the transaction at `p` committed, all its reads are right. */
  ghost predicate ReadsRight(txns: seq<Txn>, order: seq<nat>, p: nat, from: nat)
    requires InRange(|txns|, order) && p < |order| && from <= |order|
  {
    txns[order[p]].status.Committed? ==> forall j :: 0 <= j < |txns[order[p]].mops| ==>
      ReadRight(txns, order, p, from, j)
  }

  /** An order of every committed transaction and some of those in doubt. */
  ghost predicate OfEffect(txns: seq<Txn>, order: seq<nat>) {
    && InRange(|txns|, order)
    && Distinct(order)
    && (forall i: nat :: i < |txns| && txns[i].status.Committed? ==> i in order)
    && (forall i :: 0 <= i < |order| ==> !txns[order[i]].status.Aborted?)
  }

  /** A serial order, in which each committed read is what it was. */
  ghost predicate IsSerial(txns: seq<Txn>, order: seq<nat>) {
    && OfEffect(txns, order)
    && (forall p :: 0 <= p < |order| ==> ReadsRight(txns, order, p, p))
  }

  // ----- Runs on snapshots

  /** The transaction at each place sees what those at the first `from[p]` places appended. */
  ghost predicate Starts(order: seq<nat>, from: seq<nat>) {
    |from| == |order| && forall p :: 0 <= p < |from| ==> from[p] <= p
  }

  ghost predicate AppendsTo(txns: seq<Txn>, i: nat, k: Key) {
    i < |txns| && Appended(txns[i].mops, k) != []
  }

  /** Of two that append to a key, the second to commit has seen the first. */
  ghost predicate FirstCommitterWins(txns: seq<Txn>, order: seq<nat>, from: seq<nat>)
    requires Starts(order, from)
  {
    forall p, q, k :: 0 <= q < p < |order| && AppendsTo(txns, order[p], k) && AppendsTo(txns, order[q], k) ==>
      q < from[p]
  }

  /** An order of commits, in which each committed read is what it was, on a snapshot; the first committer wins. */
  ghost predicate IsSnapshot(txns: seq<Txn>, order: seq<nat>, from: seq<nat>) {
    && OfEffect(txns, order) && Starts(order, from) && FirstCommitterWins(txns, order, from)
    && (forall p :: 0 <= p < |order| ==> ReadsRight(txns, order, p, from[p]))
  }

  /** A serial order is one in which each sees all that went before. */
  lemma SerialIsSnapshot(txns: seq<Txn>, order: seq<nat>)
    ensures IsSerial(txns, order) <==> IsSnapshot(txns, order, Upto(|order|))
  {
    hide IsSerial, IsSnapshot;
    SeesAllBefore(txns, order, Upto(|order|));
  }

  lemma SeesAllBefore(txns: seq<Txn>, order: seq<nat>, from: seq<nat>)
    requires |from| == |order| && forall p :: 0 <= p < |order| ==> from[p] == p
    ensures IsSerial(txns, order) <==> IsSnapshot(txns, order, from)
  {
    hide ReadsRight, OfEffect, AppendsTo;
    OfEffectInRange(txns, order);
    if IsSerial(txns, order) {
      forall p | 0 <= p < |order| ensures ReadsRight(txns, order, p, from[p]) {
        assert ReadsRight(txns, order, p, p);
      }
    }
    if IsSnapshot(txns, order, from) {
      forall p | 0 <= p < |order| ensures ReadsRight(txns, order, p, p) {
        assert ReadsRight(txns, order, p, from[p]);
      }
    }
  }

  lemma OfEffectInRange(txns: seq<Txn>, order: seq<nat>)
    ensures OfEffect(txns, order) ==> InRange(|txns|, order)
  {
  }

  /** A committed transaction comes before every one that began after it returned. */
  ghost predicate KeepsRealTime(txns: seq<Txn>, order: seq<nat>)
    requires InRange(|txns|, order)
  {
    forall p, q :: 0 <= p < q < |order| && txns[order[q]].status.Committed? ==>
      !(txns[order[q]].ret < txns[order[p]].call)
  }

  /** No committed transaction reads what it appends only later. */
  ghost predicate NoReadAhead(txns: seq<Txn>) {
    forall i, j, v ::
      0 <= i < |txns| && txns[i].status.Committed? && 0 <= j < |txns[i].mops| && txns[i].mops[j].Read? &&
      v in txns[i].mops[j].list ==>
      v in Appended(txns[i].mops, txns[i].mops[j].key) ==> v in Appended(txns[i].mops[..j], txns[i].mops[j].key)
  }

  // ----- Facts about appends

  lemma {:induction false} AppendedAt(mops: seq<Mop>, k: Key, v: Value)
    ensures v in Appended(mops, k) <==> exists a :: 0 <= a < |mops| && mops[a] == Append(k, v)
  {
    if mops != [] {
      var n := |mops| - 1;
      AppendedAt(mops[..n], k, v);
      if exists a :: 0 <= a < |mops| && mops[a] == Append(k, v) {
        var a :| 0 <= a < |mops| && mops[a] == Append(k, v);
        if a < n { assert mops[..n][a] == Append(k, v); }
      }
      if a :| 0 <= a < n && mops[..n][a] == Append(k, v) {
        assert mops[a] == Append(k, v);
      }
    }
  }

  lemma AppendedPrefix(mops: seq<Mop>, k: Key, j: nat)
    requires j < |mops|
    ensures Appended(mops[..j + 1], k) == Appended(mops[..j], k) + if mops[j].Append? && mops[j].key == k then
      [mops[j].value] else []
  {
    assert mops[..j + 1][..j] == mops[..j];
  }

  /** What has been appended so far is a beginning of what is in the end. */
  lemma {:induction false} AppendedGrows(mops: seq<Mop>, k: Key, j: nat)
    requires j <= |mops|
    ensures Appended(mops[..j], k) <= Appended(mops, k)
    decreases |mops| - j
  {
    if j < |mops| {
      AppendedPrefix(mops, k, j);
      AppendedGrows(mops, k, j + 1);
    } else {
      TakeAll(mops);
    }
  }

  /** One value is appended to a key by one transaction at most, and once. */
  ghost predicate Writes(txns: seq<Txn>, i: nat, k: Key, v: Value) {
    i < |txns| && v in Appended(txns[i].mops, k)
  }

  lemma OneWriter(txns: seq<Txn>, i: nat, j: nat, k: Key, v: Value)
    requires Unique(txns) && Writes(txns, i, k, v) && Writes(txns, j, k, v)
    ensures i == j
  {
    AppendedAt(txns[i].mops, k, v);
    AppendedAt(txns[j].mops, k, v);
    var a :| 0 <= a < |txns[i].mops| && txns[i].mops[a] == Append(k, v);
    var b :| 0 <= b < |txns[j].mops| && txns[j].mops[b] == Append(k, v);
  }

  lemma {:induction false} AppendedDistinct(txns: seq<Txn>, i: nat, k: Key, j: nat)
    requires Unique(txns) && i < |txns| && j <= |txns[i].mops|
    ensures Distinct(Appended(txns[i].mops[..j], k))
  {
    var mops := txns[i].mops;
    if j > 0 {
      AppendedDistinct(txns, i, k, j - 1);
      AppendedPrefix(mops, k, j - 1);
      var m := mops[j - 1];
      if m.Append? && m.key == k {
        AppendedAt(mops[..j - 1], k, m.value);
        var before := mops[..j - 1];
        forall a | 0 <= a < |before| ensures before[a] != Append(k, m.value) {
          assert mops[a] == before[a];
        }
      }
    }
  }

  // ----- Places in an order

  /** Where `i` is in `pi`. */
  ghost function Pos(pi: seq<nat>, i: nat): (p: nat)
    ensures p <= |pi|
    ensures p < |pi| ==> pi[p] == i
    ensures i in pi ==> p < |pi|
  {
    if pi == [] then 0
    else if pi[0] == i then 0
    else 1 + Pos(pi[1..], i)
  }

  lemma PosAt(pi: seq<nat>, p: nat)
    requires Distinct(pi) && p < |pi|
    ensures Pos(pi, pi[p]) == p
  {
    assert pi[p] in pi;
  }

  /** How many of `pi` transaction `i` sees. */
  ghost function Start(pi: seq<nat>, from: seq<nat>, i: nat): nat {
    if Pos(pi, i) < |from| then from[Pos(pi, i)] else |from|
  }

  lemma StartOf(pi: seq<nat>, from: seq<nat>, i: nat)
    requires Starts(pi, from)
    ensures Start(pi, from, i) <= Pos(pi, i) <= |pi|
  {
  }

  lemma SeesAll(pi: seq<nat>, i: nat)
    ensures Starts(pi, Upto(|pi|)) && Start(pi, Upto(|pi|), i) == Pos(pi, i)
  {
  }
}
