/**
 A history split by key (linearize/linearize.go, Partition): each part is a subsequence, and
 together they are the whole.
 */
module Partition {
  import opened Seqs
  import opened History

  /** The positions of the operations on key `k`, in order. */
  ghost function Indices<K, I, O>(ops: seq<Op<I, O>>, key: I -> K, k: K): seq<nat> {
    if ops == [] then []
    else
      var n := |ops| - 1;
      Indices(ops[..n], key, k) + if key(ops[n].input) == k then [n] else []
  }

  lemma {:induction false} IndicesOf<K, I, O>(ops: seq<Op<I, O>>, key: I -> K, k: K)
    ensures InRange(|ops|, Indices(ops, key, k)) && Distinct(Indices(ops, key, k))
    ensures forall i: nat :: i in Indices(ops, key, k) <==> i < |ops| && key(ops[i].input) == k
  {
    if ops != [] {
      IndicesOf(ops[..|ops| - 1], key, k);
    }
  }

  lemma IndicesNext<K, I, O>(ops: seq<Op<I, O>>, key: I -> K, k: K, n: nat)
    requires n < |ops|
    ensures Indices(ops[..n + 1], key, k) == Indices(ops[..n], key, k) + if key(ops[n].input) == k then [n] else []
  {
    assert ops[..n + 1][..n] == ops[..n];
  }

  ghost predicate PartsOf<K, I, O>(ops: seq<Op<I, O>>, key: I -> K, parts: map<K, seq<Op<I, O>>>) {
    && (forall i :: 0 <= i < |ops| ==> key(ops[i].input) in parts)
    && (forall k :: k in parts ==>
          |parts[k]| > 0 && |parts[k]| == |Indices(ops, key, k)| && IsPart(ops, key, k, parts[k]))
  }

  /** `part` is the operations on key `k`, in order. */
  ghost predicate IsPart<K, I, O>(ops: seq<Op<I, O>>, key: I -> K, k: K, part: seq<Op<I, O>>)
    requires |part| == |Indices(ops, key, k)|
  {
    forall j :: 0 <= j < |part| ==> Indices(ops, key, k)[j] < |ops| && part[j] == ops[Indices(ops, key, k)[j]]
  }

  method Partition<K(==), I, O>(ops: seq<Op<I, O>>, key: I -> K) returns (parts: map<K, seq<Op<I, O>>>)
    ensures PartsOf(ops, key, parts)
  {
    parts := map[];
    for n := 0 to |ops|
      invariant PartsOf(ops[..n], key, parts)
    {
      var k := key(ops[n].input);
      PartsNext(ops, key, parts, n);
      parts := parts[k := (if k in parts then parts[k] else []) + [ops[n]]];
    }
    TakeAll(ops);
  }

  lemma PartsNext<K, I, O>(ops: seq<Op<I, O>>, key: I -> K, parts: map<K, seq<Op<I, O>>>, n: nat)
    requires n < |ops| && PartsOf(ops[..n], key, parts)
    ensures PartsOf(ops[..n + 1], key,
              parts[key(ops[n].input) := (if key(ops[n].input) in parts then parts[key(ops[n].input)]
                else []) + [ops[n]]])
  {
    var k := key(ops[n].input);
    var parts' := parts[k := (if k in parts then parts[k] else []) + [ops[n]]];
    var more := ops[..n + 1];
    forall i | 0 <= i < |more| ensures key(more[i].input) in parts' {
      assert i < n ==> ops[..n][i] == more[i];
    }
    forall j | j in parts'
      ensures |parts'[j]| > 0 && |parts'[j]| == |Indices(ops[..n + 1], key, j)| &&
        IsPart(ops[..n + 1], key, j, parts'[j])
    {
      if j !in parts { NoneYet(ops[..n], key, parts, j); }
      PartNext(ops, key, j, n, if j in parts then parts[j] else [], parts'[j]);
    }
  }

  lemma PartNext<K, I, O>(ops: seq<Op<I, O>>, key: I -> K, k: K, n: nat, part: seq<Op<I, O>>, part': seq<Op<I, O>>)
    requires n < |ops| && |part| == |Indices(ops[..n], key, k)| && IsPart(ops[..n], key, k, part)
    requires part' == if key(ops[n].input) == k then part + [ops[n]] else part
    ensures |part'| == |Indices(ops[..n + 1], key, k)| && IsPart(ops[..n + 1], key, k, part')
  {
    IndicesNext(ops, key, k, n);
    var before, after := ops[..n], ops[..n + 1];
    forall j | 0 <= j < |part'|
      ensures Indices(after, key, k)[j] < |after| && part'[j] == after[Indices(after, key, k)[j]]
    {
      if j < |part| {
        assert Indices(before, key, k)[j] < |before| && part[j] == before[Indices(before, key, k)[j]];
      }
    }
  }

  lemma NoneYet<K, I, O>(ops: seq<Op<I, O>>, key: I -> K, parts: map<K, seq<Op<I, O>>>, k: K)
    requires PartsOf(ops, key, parts) && k !in parts
    ensures Indices(ops, key, k) == []
  {
    IndicesOf(ops, key, k);
    forall i: nat ensures i !in Indices(ops, key, k) {}
    assert |Indices(ops, key, k)| == 0 || Indices(ops, key, k)[0] in Indices(ops, key, k);
  }
}
