/**
 Locality: a history over a product of independent objects, with each group within one object, is
 linearizable exactly when the part of each object is (linearize/linearize.go, Partition).
 */
module Locality {
  import opened Seqs
  import opened History
  import opened Partition
  import opened Squeeze

  /** `m` is a product of one model per key: `proj` gives each key's share of a state. */
  ghost predicate Product<S(!new), T(!new), K(!new), I(!new), O(!new)>(m: Model<S, I, O>, key: I -> K,
      of: K -> Model<T, I, O>, proj: (S, K) -> T)
  {
    && (forall k :: proj(m.init, k) == of(k).init)
    && (forall s, i, o :: m.step(s, i, o).0 == of(key(i)).step(proj(s, key(i)), i, o).0)
    && (forall s, i, o, k :: m.step(s, i, o).0 ==>
          proj(m.step(s, i, o).1, k) == if k == key(i) then of(k).step(proj(s, k), i, o).1 else proj(s, k))
  }

  /** The operations of `order` on key `k`. */
  ghost function OfKey<K, I, O>(ops: seq<Op<I, O>>, key: I -> K, k: K, order: seq<nat>): seq<nat>
    requires InRange(|ops|, order)
  {
    if order == [] then []
    else
      (if key(ops[order[0]].input) == k then [order[0]] else []) + OfKey(ops, key, k, order[1..])
  }

  lemma {:induction false} OfKeyElements<K, I, O>(ops: seq<Op<I, O>>, key: I -> K, k: K, order: seq<nat>)
    requires InRange(|ops|, order)
    ensures InRange(|ops|, OfKey(ops, key, k, order))
    ensures forall x :: x in OfKey(ops, key, k, order) <==> x in order && key(ops[x].input) == k
  {
    if order != [] {
      OfKeyElements(ops, key, k, order[1..]);
      assert order == [order[0]] + order[1..];
    }
  }

  lemma {:induction false} OfKeyDistinct<K, I, O>(ops: seq<Op<I, O>>, key: I -> K, k: K, order: seq<nat>)
    requires InRange(|ops|, order) && Distinct(order)
    ensures Distinct(OfKey(ops, key, k, order))
  {
    if order != [] {
      OfKeyElements(ops, key, k, order[1..]);
      OfKeyDistinct(ops, key, k, order[1..]);
      assert order[0] !in order[1..];
    }
  }

  /** `x` may come ahead of everything in `later`. */
  ghost predicate Ahead<I, O>(ops: seq<Op<I, O>>, x: nat, later: seq<nat>)
    requires x < |ops| && InRange(|ops|, later)
  {
    forall y :: y in later ==> !(ops[y].ret < ops[x].call)
  }

  lemma RealTimeCons<I, O>(ops: seq<Op<I, O>>, x: nat, later: seq<nat>)
    requires x < |ops| && InRange(|ops|, later)
    ensures RealTime(ops, [x] + later) <==> Ahead(ops, x, later) && RealTime(ops, later)
  {
    var all := [x] + later;
    if RealTime(ops, all) {
      forall y | y in later ensures !(ops[y].ret < ops[x].call) {
        var q :| 0 <= q < |later| && later[q] == y;
        assert all[q + 1] == y && all[0] == x;
      }
      forall p, q | 0 <= p < q < |later| ensures !(ops[later[q]].ret < ops[later[p]].call) {
        assert all[p + 1] == later[p] && all[q + 1] == later[q];
      }
    }
  }

  lemma {:induction false} OfKeyRealTime<K, I, O>(ops: seq<Op<I, O>>, key: I -> K, k: K, order: seq<nat>)
    requires InRange(|ops|, order) && RealTime(ops, order)
    ensures InRange(|ops|, OfKey(ops, key, k, order)) && RealTime(ops, OfKey(ops, key, k, order))
  {
    OfKeyElements(ops, key, k, order);
    if order != [] {
      var x, rest := order[0], order[1..];
      assert order == [x] + rest;
      RealTimeCons(ops, x, rest);
      OfKeyElements(ops, key, k, rest);
      OfKeyRealTime(ops, key, k, rest);
      RealTimeCons(ops, x, OfKey(ops, key, k, rest));
    }
  }

  // ----- Groups stay together

  /** What of `rest` is in the group comes first. */
  ghost predicate Leads<I, O>(ops: seq<Op<I, O>>, g: int64, rest: seq<nat>)
    requires InRange(|ops|, rest)
  {
    g != 0 ==> forall r, q :: 0 <= r < q < |rest| && ops[rest[q]].Group() == g ==> ops[rest[r]].Group() == g
  }

  lemma ContiguousCons<I, O>(ops: seq<Op<I, O>>, x: nat, rest: seq<nat>)
    requires x < |ops| && InRange(|ops|, rest)
    ensures Contiguous(ops, [x] + rest) <==> Contiguous(ops, rest) && Leads(ops, ops[x].Group(), rest)
  {
    hide Contiguous, Leads;
    if Contiguous(ops, [x] + rest) {
      ContiguousTail(ops, x, rest);
    }
    if Contiguous(ops, rest) && Leads(ops, ops[x].Group(), rest) {
      ContiguousHead(ops, x, rest);
    }
  }

  lemma ContiguousTail<I, O>(ops: seq<Op<I, O>>, x: nat, rest: seq<nat>)
    requires x < |ops| && InRange(|ops|, rest) && Contiguous(ops, [x] + rest)
    ensures Contiguous(ops, rest) && Leads(ops, ops[x].Group(), rest)
  {
    var all, g := [x] + rest, ops[x].Group();
    forall r, q | g != 0 && 0 <= r < q < |rest| && ops[rest[q]].Group() == g ensures ops[rest[r]].Group() == g {
      assert Grouped(ops, all[0], all[q + 1]) && all[r + 1] == rest[r];
    }
    forall p, q, r | 0 <= p < r < q < |rest| && Grouped(ops, rest[p], rest[q])
      ensures ops[rest[r]].Group() == ops[rest[p]].Group()
    {
      assert Grouped(ops, all[p + 1], all[q + 1]) && all[r + 1] == rest[r];
    }
  }

  lemma ContiguousHead<I, O>(ops: seq<Op<I, O>>, x: nat, rest: seq<nat>)
    requires x < |ops| && InRange(|ops|, rest) && Contiguous(ops, rest) && Leads(ops, ops[x].Group(), rest)
    ensures Contiguous(ops, [x] + rest)
  {
    var all := [x] + rest;
    forall p, q, r | 0 <= p < r < q < |all| && Grouped(ops, all[p], all[q])
      ensures ops[all[r]].Group() == ops[all[p]].Group()
    {
      assert all[r] == rest[r - 1] && all[q] == rest[q - 1];
      if p > 0 {
        assert Grouped(ops, rest[p - 1], rest[q - 1]);
      }
    }
  }

  lemma LeadsOn<I, O>(ops: seq<Op<I, O>>, g: int64, x: nat, rest: seq<nat>)
    requires x < |ops| && InRange(|ops|, rest)
    ensures Leads(ops, g, [x] + rest) <==>
      Leads(ops, g, rest) && (ops[x].Group() == g || g == 0 || forall q :: 0 <= q < |rest| ==>
        ops[rest[q]].Group() != g)
  {
    var all := [x] + rest;
    if Leads(ops, g, all) && g != 0 {
      forall r, q | 0 <= r < q < |rest| && ops[rest[q]].Group() == g ensures ops[rest[r]].Group() == g {
        assert all[r + 1] == rest[r] && all[q + 1] == rest[q];
      }
      forall q | 0 <= q < |rest| && ops[rest[q]].Group() == g ensures ops[x].Group() == g {
        assert all[q + 1] == rest[q] && all[0] == x;
      }
    }
  }

  lemma {:induction false} OfKeyLeads<K, I, O>(ops: seq<Op<I, O>>, key: I -> K, k: K, g: int64, order: seq<nat>)
    requires InRange(|ops|, order) && Leads(ops, g, order)
    ensures InRange(|ops|, OfKey(ops, key, k, order)) && Leads(ops, g, OfKey(ops, key, k, order))
  {
    OfKeyElements(ops, key, k, order);
    if order != [] {
      var x, rest := order[0], order[1..];
      assert order == [x] + rest;
      LeadsOn(ops, g, x, rest);
      OfKeyElements(ops, key, k, rest);
      OfKeyLeads(ops, key, k, g, rest);
      var some := OfKey(ops, key, k, rest);
      forall q | 0 <= q < |some| ensures some[q] in rest {
        assert some[q] in some;
      }
      LeadsOn(ops, g, x, some);
    }
  }

  lemma {:induction false} OfKeyContiguous<K, I, O>(ops: seq<Op<I, O>>, key: I -> K, k: K, order: seq<nat>)
    requires InRange(|ops|, order) && Contiguous(ops, order)
    ensures InRange(|ops|, OfKey(ops, key, k, order)) && Contiguous(ops, OfKey(ops, key, k, order))
  {
    hide Contiguous, Leads;
    OfKeyElements(ops, key, k, order);
    if order == [] {
      NothingApart(ops);
    } else {
      var x, rest := order[0], order[1..];
      assert order == [x] + rest;
      ContiguousCons(ops, x, rest);
      OfKeyElements(ops, key, k, rest);
      OfKeyContiguous(ops, key, k, rest);
      OfKeyLeads(ops, key, k, ops[x].Group(), rest);
      ContiguousCons(ops, x, OfKey(ops, key, k, rest));
      assert [] + OfKey(ops, key, k, rest) == OfKey(ops, key, k, rest);
    }
  }

  lemma NothingApart<I, O>(ops: seq<Op<I, O>>)
    ensures Contiguous(ops, [])
  {
  }

  // ----- A product is legal key by key

  ghost predicate LegalFor<S, T, K, I, O>(key: I -> K, of: K -> Model<T, I, O>, proj: (S, K) -> T,
      ops: seq<Op<I, O>>, s: S, order: seq<nat>, k: K)
    requires InRange(|ops|, order)
  {
    InRange(|ops|, OfKey(ops, key, k, order)) && Legal(of(k), ops, proj(s, k), OfKey(ops, key, k, order))
  }

  lemma {:induction false} LegalByKey<S(!new), T(!new), K(!new), I(!new), O(!new)>(m: Model<S, I, O>, key: I -> K,
      of: K -> Model<T, I, O>, proj: (S, K) -> T,
      ops: seq<Op<I, O>>, s: S, order: seq<nat>)
    requires Product(m, key, of, proj) && InRange(|ops|, order)
    ensures Legal(m, ops, s, order) <==> forall k :: LegalFor(key, of, proj, ops, s, order, k)
  {
    if order != [] {
      LegalByKey(m, key, of, proj, ops, Step(m, ops, s, order[0]).1, order[1..]);
      LegalStep(m, key, of, proj, ops, s, order);
    } else {
      forall k ensures LegalFor(key, of, proj, ops, s, order, k) {}
    }
  }

  lemma LegalStep<S(!new), T(!new), K(!new), I(!new), O(!new)>(m: Model<S, I, O>, key: I -> K,
      of: K -> Model<T, I, O>, proj: (S, K) -> T,
      ops: seq<Op<I, O>>, s: S, order: seq<nat>)
    requires Product(m, key, of, proj) && InRange(|ops|, order) && order != []
    ensures (forall k :: LegalFor(key, of, proj, ops, s, order, k)) <==>
      Step(m, ops, s, order[0]).0 && forall k ::
        LegalFor(key, of, proj, ops, Step(m, ops, s, order[0]).1, order[1..], k)
  {
    hide LegalFor, Product;
    var next, rest := Step(m, ops, s, order[0]).1, order[1..];
    LegalHere(m, key, of, proj, ops, s, order, key(ops[order[0]].input));
    if Step(m, ops, s, order[0]).0 {
      forall k ensures LegalFor(key, of, proj, ops, s, order, k) <==> LegalFor(key, of, proj, ops, next, rest, k) {
        LegalHere(m, key, of, proj, ops, s, order, k);
      }
    }
  }

  lemma LegalHere<S(!new), T(!new), K(!new), I(!new), O(!new)>(m: Model<S, I, O>, key: I -> K,
      of: K -> Model<T, I, O>, proj: (S, K) -> T,
      ops: seq<Op<I, O>>, s: S, order: seq<nat>, k: K)
    requires Product(m, key, of, proj) && InRange(|ops|, order) && order != []
    ensures Step(m, ops, s, order[0]).0 ==>
      (LegalFor(key, of, proj, ops, s, order, k) <==>
        LegalFor(key, of, proj, ops, Step(m, ops, s, order[0]).1, order[1..], k))
    ensures key(ops[order[0]].input) == k ==>
      (LegalFor(key, of, proj, ops, s, order, k) ==> Step(m, ops, s, order[0]).0)
  {
    var x, rest := order[0], order[1..];
    OfKeyElements(ops, key, k, order);
    OfKeyElements(ops, key, k, rest);
    if key(ops[x].input) == k {
      assert OfKey(ops, key, k, order) == [x] + OfKey(ops, key, k, rest);
      assert ([x] + OfKey(ops, key, k, rest))[1..] == OfKey(ops, key, k, rest);
    } else {
      assert OfKey(ops, key, k, order) == OfKey(ops, key, k, rest);
    }
  }

  // ----- Orders of one part, by its own positions and by the history's

  ghost function Global(at: seq<nat>, order: seq<nat>): (r: seq<nat>)
    requires InRange(|at|, order)
    ensures |r| == |order|
  {
    seq(|order|, j requires 0 <= j < |order| => at[order[j]])
  }

  ghost function Locate(at: seq<nat>, x: nat): (j: nat)
    requires x in at
    ensures j < |at| && at[j] == x
  {
    var j :| 0 <= j < |at| && at[j] == x; j
  }

  ghost predicate Positions<I, O>(ops: seq<Op<I, O>>, part: seq<Op<I, O>>, at: seq<nat>) {
    && |at| == |part| && InRange(|ops|, at) && Distinct(at)
    && forall j :: 0 <= j < |part| ==> part[j] == ops[at[j]]
  }

  lemma {:induction false} LegalGlobal<T, I, O>(m: Model<T, I, O>, ops: seq<Op<I, O>>, part: seq<Op<I, O>>,
      at: seq<nat>, s: T, order: seq<nat>)
    requires Positions(ops, part, at) && InRange(|part|, order)
    ensures InRange(|ops|, Global(at, order))
    ensures Legal(m, part, s, order) <==> Legal(m, ops, s, Global(at, order))
  {
    if order != [] {
      LegalGlobal(m, ops, part, at, Step(m, part, s, order[0]).1, order[1..]);
      assert Global(at, order)[1..] == Global(at, order[1..]);
    }
  }

  lemma RealTimeGlobal<I, O>(ops: seq<Op<I, O>>, part: seq<Op<I, O>>, at: seq<nat>, order: seq<nat>)
    requires Positions(ops, part, at) && InRange(|part|, order)
    ensures InRange(|ops|, Global(at, order))
    ensures RealTime(part, order) <==> RealTime(ops, Global(at, order))
  {
    var g := Global(at, order);
    forall j | 0 <= j < |order| ensures ops[g[j]] == part[order[j]] {}
  }

  lemma ContiguousGlobal<I, O>(ops: seq<Op<I, O>>, part: seq<Op<I, O>>, at: seq<nat>, order: seq<nat>)
    requires Positions(ops, part, at) && InRange(|part|, order)
    ensures InRange(|ops|, Global(at, order))
    ensures Contiguous(part, order) <==> Contiguous(ops, Global(at, order))
  {
    var g := Global(at, order);
    forall j | 0 <= j < |order| ensures ops[g[j]] == part[order[j]] {}
  }

  lemma PositionsOf<K, I, O>(ops: seq<Op<I, O>>, key: I -> K, parts: map<K, seq<Op<I, O>>>, k: K)
    requires PartsOf(ops, key, parts) && k in parts
    ensures Positions(ops, parts[k], Indices(ops, key, k))
  {
    IndicesOf(ops, key, k);
  }

  // ----- The whole is linearizable only if each part is

  ghost function Local(at: seq<nat>, g: seq<nat>): (r: seq<nat>)
    requires forall x :: x in g ==> x in at
    ensures |r| == |g| && InRange(|at|, r) && Global(at, r) == g
  {
    seq(|g|, j requires 0 <= j < |g| => Locate(at, g[j]))
  }

  lemma LocalAnswered<I, O>(ops: seq<Op<I, O>>, part: seq<Op<I, O>>, at: seq<nat>, g: seq<nat>)
    requires Positions(ops, part, at) && (forall x :: x in g ==> x in at)
    requires forall x: nat :: x in at && !ops[x].Pending() ==> x in g
    ensures Answered(part, Local(at, g))
  {
    forall i: nat | i < |part| && !part[i].Pending() ensures i in Local(at, g) {
      assert at[i] in at && at[i] in g;
      var j :| 0 <= j < |g| && g[j] == at[i];
      assert Local(at, g)[j] == i;
    }
  }

  /** Each part of a linearizable history is linearizable, whatever the groups. */
  lemma WholeToPart<S(!new), T(!new), K(!new), I(!new), O(!new)>(m: Model<S, I, O>, key: I -> K,
      of: K -> Model<T, I, O>, proj: (S, K) -> T,
      ops: seq<Op<I, O>>, parts: map<K, seq<Op<I, O>>>, k: K, order: seq<nat>)
    requires Product(m, key, of, proj) && PartsOf(ops, key, parts) && k in parts
    requires IsLinearization(m, ops, order)
    ensures Linearizable(of(k), parts[k])
  {
    hide Product, RealTime, Contiguous, Distinct, Legal, LegalFor;
    var g := OfKey(ops, key, k, order);
    OfKeyElements(ops, key, k, order);
    OfKeyDistinct(ops, key, k, order);
    OfKeyRealTime(ops, key, k, order);
    OfKeyContiguous(ops, key, k, order);
    LegalByKey(m, key, of, proj, ops, m.init, order);
    assert LegalFor(key, of, proj, ops, m.init, order, k);
    KeyStart(m, key, of, proj, ops, order, k);
    OrderToPart(ops, key, of, parts, k, g);
  }

  lemma KeyStart<S(!new), T(!new), K(!new), I(!new), O(!new)>(m: Model<S, I, O>, key: I -> K,
      of: K -> Model<T, I, O>, proj: (S, K) -> T, ops: seq<Op<I, O>>, order: seq<nat>, k: K)
    requires Product(m, key, of, proj) && InRange(|ops|, order) && LegalFor(key, of, proj, ops, m.init, order, k)
    requires InRange(|ops|, OfKey(ops, key, k, order))
    ensures Legal(of(k), ops, of(k).init, OfKey(ops, key, k, order))
  {
  }

  /** An order of the operations on a key is, by their positions, a linearization of the part. */
  lemma OrderToPart<T(!new), K(!new), I(!new), O(!new)>(ops: seq<Op<I, O>>, key: I -> K, of: K -> Model<T, I, O>,
      parts: map<K, seq<Op<I, O>>>, k: K, g: seq<nat>)
    requires PartsOf(ops, key, parts) && k in parts && OrderOf(ops, key, of, k, g)
    ensures Linearizable(of(k), parts[k])
  {
    hide RealTime, Contiguous, Distinct, Legal;
    var at, part := Indices(ops, key, k), parts[k];
    IndicesOf(ops, key, k);
    PositionsOf(ops, key, parts, k);
    var l := Local(at, g);
    LegalGlobal(of(k), ops, part, at, of(k).init, l);
    RealTimeGlobal(ops, part, at, l);
    LocalAnswered(ops, part, at, g);
    LocalDistinct(at, g);
    ContiguousGlobal(ops, part, at, l);
    assert IsLinearization(of(k), part, l);
  }

  lemma LocalDistinct(at: seq<nat>, g: seq<nat>)
    requires Distinct(g) && (forall x :: x in g ==> x in at)
    ensures Distinct(Local(at, g))
  {
    var l := Local(at, g);
    forall i, j | 0 <= i < j < |l| ensures l[i] != l[j] {
      assert at[l[i]] == g[i] && at[l[j]] == g[j];
    }
  }

  // ----- The whole is linearizable if each part is

  /** Interleaves two orders, taking from the first whatever nothing in the second must precede. */
  ghost function Merge<I, O>(ops: seq<Op<I, O>>, a: seq<nat>, b: seq<nat>): seq<nat>
    requires InRange(|ops|, a) && InRange(|ops|, b)
    decreases |a| + |b|
  {
    if a == [] then b
    else if b == [] then a
    else if Ahead(ops, a[0], b) then [a[0]] + Merge(ops, a[1..], b)
    else [b[0]] + Merge(ops, a, b[1..])
  }

  /** Of the two heads, one may come first: each order keeps real time, and an operation returns after its call. */
  lemma OneAhead<I, O>(ops: seq<Op<I, O>>, a: seq<nat>, b: seq<nat>)
    requires WellTimed(ops) && InRange(|ops|, a) && InRange(|ops|, b) && a != [] && b != []
    requires RealTime(ops, a) && RealTime(ops, b)
    ensures Ahead(ops, a[0], b) || Ahead(ops, b[0], a)
  {
    if !Ahead(ops, a[0], b) && !Ahead(ops, b[0], a) {
      var y :| y in b && ops[y].ret < ops[a[0]].call;
      var z :| z in a && ops[z].ret < ops[b[0]].call;
      FirstAhead(ops, a, z);
      FirstAhead(ops, b, y);
      assert false;
    }
  }

  lemma FirstAhead<I, O>(ops: seq<Op<I, O>>, a: seq<nat>, z: nat)
    requires WellTimed(ops) && InRange(|ops|, a) && RealTime(ops, a) && z in a
    ensures ops[a[0]].call <= ops[z].ret
  {
    var q :| 0 <= q < |a| && a[q] == z;
  }

  lemma {:induction false} MergeElements<I, O>(ops: seq<Op<I, O>>, a: seq<nat>, b: seq<nat>)
    requires InRange(|ops|, a) && InRange(|ops|, b)
    ensures InRange(|ops|, Merge(ops, a, b))
    ensures multiset(Merge(ops, a, b)) == multiset(a) + multiset(b)
    decreases |a| + |b|
  {
    hide Ahead;
    if a != [] && b != [] {
      if Ahead(ops, a[0], b) {
        MergeElements(ops, a[1..], b);
        FirstCounted(a);
      } else {
        MergeElements(ops, a, b[1..]);
        FirstCounted(b);
      }
    }
  }

  lemma FirstCounted(s: seq<nat>)
    requires s != []
    ensures multiset(s) == multiset{s[0]} + multiset(s[1..])
  {
    assert s == [s[0]] + s[1..];
  }

  lemma InMerge<I, O>(ops: seq<Op<I, O>>, a: seq<nat>, b: seq<nat>, x: nat)
    requires InRange(|ops|, a) && InRange(|ops|, b)
    ensures x in Merge(ops, a, b) <==> x in a || x in b
  {
    MergeElements(ops, a, b);
    assert x in Merge(ops, a, b) <==> x in multiset(Merge(ops, a, b));
    assert x in a <==> x in multiset(a);
    assert x in b <==> x in multiset(b);
  }

  lemma AheadOfMerge<I, O>(ops: seq<Op<I, O>>, x: nat, a: seq<nat>, b: seq<nat>)
    requires x < |ops| && InRange(|ops|, a) && InRange(|ops|, b) && Ahead(ops, x, a) && Ahead(ops, x, b)
    ensures InRange(|ops|, Merge(ops, a, b)) && Ahead(ops, x, Merge(ops, a, b))
  {
    MergeElements(ops, a, b);
    forall y | y in Merge(ops, a, b) ensures !(ops[y].ret < ops[x].call) {
      InMerge(ops, a, b, y);
    }
  }

  lemma {:induction false} MergeRealTime<I, O>(ops: seq<Op<I, O>>, a: seq<nat>, b: seq<nat>)
    requires WellTimed(ops) && InRange(|ops|, a) && InRange(|ops|, b)
    requires RealTime(ops, a) && RealTime(ops, b)
    ensures InRange(|ops|, Merge(ops, a, b)) && RealTime(ops, Merge(ops, a, b))
    decreases |a| + |b|
  {
    if a != [] && b != [] {
      assert a == [a[0]] + a[1..] && b == [b[0]] + b[1..];
      RealTimeCons(ops, a[0], a[1..]);
      RealTimeCons(ops, b[0], b[1..]);
      OneAhead(ops, a, b);
      if Ahead(ops, a[0], b) {
        MergeRealTime(ops, a[1..], b);
        AheadOfMerge(ops, a[0], a[1..], b);
        RealTimeCons(ops, a[0], Merge(ops, a[1..], b));
      } else {
        MergeRealTime(ops, a, b[1..]);
        AheadOfMerge(ops, b[0], a, b[1..]);
        RealTimeCons(ops, b[0], Merge(ops, a, b[1..]));
      }
    }
  }

  /** No operation of one order is in a group of the other's. */
  ghost predicate Unmixed<I, O>(ops: seq<Op<I, O>>, a: seq<nat>, b: seq<nat>)
    requires InRange(|ops|, a) && InRange(|ops|, b)
  {
    forall i, j :: 0 <= i < |a| && 0 <= j < |b| ==> !Grouped(ops, a[i], b[j])
  }

  ghost predicate NoneOf<I, O>(ops: seq<Op<I, O>>, g: int64, a: seq<nat>)
    requires InRange(|ops|, a)
  {
    forall i :: 0 <= i < |a| ==> ops[a[i]].Group() != g
  }

  /** If the group does not begin an order in which it leads, it is not in it. */
  lemma LeadsOrNone<I, O>(ops: seq<Op<I, O>>, g: int64, a: seq<nat>)
    requires InRange(|ops|, a) && g != 0 && Leads(ops, g, a)
    ensures (a != [] && ops[a[0]].Group() == g) || NoneOf(ops, g, a)
  {
  }

  lemma NoneMerged<I, O>(ops: seq<Op<I, O>>, g: int64, a: seq<nat>, b: seq<nat>)
    requires InRange(|ops|, a) && InRange(|ops|, b) && NoneOf(ops, g, a) && NoneOf(ops, g, b)
    ensures InRange(|ops|, Merge(ops, a, b)) && Leads(ops, g, Merge(ops, a, b))
  {
    MergeElements(ops, a, b);
    var m := Merge(ops, a, b);
    forall i | 0 <= i < |m| ensures ops[m[i]].Group() != g {
      InMerge(ops, a, b, m[i]);
    }
  }

  lemma LeadsTail<I, O>(ops: seq<Op<I, O>>, g: int64, a: seq<nat>)
    requires InRange(|ops|, a) && a != [] && Leads(ops, g, a)
    ensures Leads(ops, g, a[1..])
  {
  }

  /** A group that leads the first order and may come ahead of the second leads them merged. */
  lemma {:induction false} FirstLeads<I, O>(ops: seq<Op<I, O>>, x: nat, a: seq<nat>, b: seq<nat>)
    requires Level(ops) && x < |ops| && ops[x].Group() != 0 && InRange(|ops|, a) && InRange(|ops|, b)
    requires Leads(ops, ops[x].Group(), a) && NoneOf(ops, ops[x].Group(), b) && Ahead(ops, x, b)
    ensures InRange(|ops|, Merge(ops, a, b)) && Leads(ops, ops[x].Group(), Merge(ops, a, b))
    decreases |a|
  {
    hide Leads, NoneOf;
    var g := ops[x].Group();
    MergeElements(ops, a, b);
    LeadsOrNone(ops, g, a);
    if NoneOf(ops, g, a) {
      NoneMerged(ops, g, a, b);
    } else if b != [] {
      assert Grouped(ops, x, a[0]);
      LeadsTail(ops, g, a);
      FirstLeads(ops, x, a[1..], b);
      LeadsOn(ops, g, a[0], Merge(ops, a[1..], b));
    }
  }

  /** A group that leads the second order, which must come first, leads them merged. */
  lemma {:induction false} SecondLeads<I, O>(ops: seq<Op<I, O>>, y: nat, a: seq<nat>, b: seq<nat>)
    requires Level(ops) && y < |ops| && ops[y].Group() != 0 && InRange(|ops|, a) && InRange(|ops|, b) && a != []
    requires Leads(ops, ops[y].Group(), b) && NoneOf(ops, ops[y].Group(), a) && !Ahead(ops, a[0], [y] + b)
    ensures InRange(|ops|, Merge(ops, a, b)) && Leads(ops, ops[y].Group(), Merge(ops, a, b))
    decreases |b|
  {
    hide Leads, NoneOf;
    var g := ops[y].Group();
    MergeElements(ops, a, b);
    LeadsOrNone(ops, g, b);
    if NoneOf(ops, g, b) {
      NoneMerged(ops, g, a, b);
    } else {
      assert Grouped(ops, y, b[0]);
      StillBehind(ops, y, a[0], b);
      LeadsTail(ops, g, b);
      assert b == [b[0]] + b[1..];
      SecondLeads(ops, b[0], a, b[1..]);
      LeadsOn(ops, g, b[0], Merge(ops, a, b[1..]));
    }
  }

  lemma StillBehind<I, O>(ops: seq<Op<I, O>>, y: nat, x: nat, b: seq<nat>)
    requires Level(ops) && y < |ops| && x < |ops| && InRange(|ops|, b) && b != [] && Grouped(ops, y, b[0])
    requires !Ahead(ops, x, [y] + b)
    ensures !Ahead(ops, x, b)
  {
    var z :| z in [y] + b && ops[z].ret < ops[x].call;
    assert z == y || z in b;
    assert b[0] in b;
  }

  lemma UnmixedLess<I, O>(ops: seq<Op<I, O>>, a: seq<nat>, b: seq<nat>)
    requires InRange(|ops|, a) && InRange(|ops|, b) && Unmixed(ops, a, b)
    ensures a != [] ==> Unmixed(ops, a[1..], b) && (ops[a[0]].Group() != 0 ==> NoneOf(ops, ops[a[0]].Group(), b))
    ensures b != [] ==> Unmixed(ops, a, b[1..]) && (ops[b[0]].Group() != 0 ==> NoneOf(ops, ops[b[0]].Group(), a))
  {
    if a != [] && ops[a[0]].Group() != 0 {
      forall j | 0 <= j < |b| ensures ops[b[j]].Group() != ops[a[0]].Group() {
        assert !Grouped(ops, a[0], b[j]);
      }
    }
    if b != [] && ops[b[0]].Group() != 0 {
      forall i | 0 <= i < |a| ensures ops[a[i]].Group() != ops[b[0]].Group() {
        assert !Grouped(ops, a[i], b[0]);
      }
    }
  }

  /** Merging keeps groups together, since the operations of a group have one interval. */
  lemma {:induction false} MergeContiguous<I, O>(ops: seq<Op<I, O>>, a: seq<nat>, b: seq<nat>)
    requires Level(ops) && InRange(|ops|, a) && InRange(|ops|, b) && Unmixed(ops, a, b)
    requires Contiguous(ops, a) && Contiguous(ops, b)
    ensures InRange(|ops|, Merge(ops, a, b)) && Contiguous(ops, Merge(ops, a, b))
    decreases |a| + |b|
  {
    hide Level, Contiguous, Unmixed, Leads, NoneOf;
    if a != [] && b != [] {
      UnmixedLess(ops, a, b);
      assert a == [a[0]] + a[1..] && b == [b[0]] + b[1..];
      ContiguousCons(ops, a[0], a[1..]);
      ContiguousCons(ops, b[0], b[1..]);
      if Ahead(ops, a[0], b) {
        MergeContiguous(ops, a[1..], b);
        if ops[a[0]].Group() == 0 {
          NoGroupLeads(ops, Merge(ops, a[1..], b));
        } else {
          FirstLeads(ops, a[0], a[1..], b);
        }
        ContiguousCons(ops, a[0], Merge(ops, a[1..], b));
      } else {
        MergeContiguous(ops, a, b[1..]);
        if ops[b[0]].Group() == 0 {
          NoGroupLeads(ops, Merge(ops, a, b[1..]));
        } else {
          SecondLeads(ops, b[0], a, b[1..]);
        }
        ContiguousCons(ops, b[0], Merge(ops, a, b[1..]));
      }
    }
  }

  lemma NoGroupLeads<I, O>(ops: seq<Op<I, O>>, a: seq<nat>)
    requires InRange(|ops|, a)
    ensures Leads(ops, 0, a)
  {
  }

  /** Merging with an order of other keys leaves a key's own order as it was. */
  lemma {:induction false} MergeOfFirst<K, I, O>(ops: seq<Op<I, O>>, key: I -> K, k: K, a: seq<nat>, b: seq<nat>)
    requires InRange(|ops|, a) && InRange(|ops|, b)
    requires forall x :: x in b ==> key(ops[x].input) != k
    ensures InRange(|ops|, Merge(ops, a, b))
    ensures OfKey(ops, key, k, Merge(ops, a, b)) == OfKey(ops, key, k, a)
    decreases |a| + |b|
  {
    MergeElements(ops, a, b);
    if a == [] || b == [] {
      OfKeyNone(ops, key, k, b);
    } else if Ahead(ops, a[0], b) {
      MergeOfFirst(ops, key, k, a[1..], b);
      OfKeyCons(ops, key, k, a[0], Merge(ops, a[1..], b));
    } else {
      MergeOfFirst(ops, key, k, a, b[1..]);
      OfKeyCons(ops, key, k, b[0], Merge(ops, a, b[1..]));
    }
  }

  lemma {:induction false} MergeOfSecond<K, I, O>(ops: seq<Op<I, O>>, key: I -> K, k: K, a: seq<nat>, b: seq<nat>)
    requires InRange(|ops|, a) && InRange(|ops|, b)
    requires forall x :: x in a ==> key(ops[x].input) != k
    ensures InRange(|ops|, Merge(ops, a, b))
    ensures OfKey(ops, key, k, Merge(ops, a, b)) == OfKey(ops, key, k, b)
    decreases |a| + |b|
  {
    MergeElements(ops, a, b);
    if a == [] || b == [] {
      OfKeyNone(ops, key, k, a);
    } else if Ahead(ops, a[0], b) {
      MergeOfSecond(ops, key, k, a[1..], b);
      OfKeyCons(ops, key, k, a[0], Merge(ops, a[1..], b));
    } else {
      MergeOfSecond(ops, key, k, a, b[1..]);
      OfKeyCons(ops, key, k, b[0], Merge(ops, a, b[1..]));
    }
  }

  lemma OfKeyCons<K, I, O>(ops: seq<Op<I, O>>, key: I -> K, k: K, x: nat, rest: seq<nat>)
    requires x < |ops| && InRange(|ops|, rest)
    ensures OfKey(ops, key, k, [x] + rest) == (if key(ops[x].input) == k then [x] else []) + OfKey(ops, key, k, rest)
  {
    assert ([x] + rest)[1..] == rest;
  }

  lemma {:induction false} OfKeyNone<K, I, O>(ops: seq<Op<I, O>>, key: I -> K, k: K, a: seq<nat>)
    requires InRange(|ops|, a)
    ensures (forall x :: x in a ==> key(ops[x].input) != k) ==> OfKey(ops, key, k, a) == []
  {
    OfKeyElements(ops, key, k, a);
    if (forall x :: x in a ==> key(ops[x].input) != k) && OfKey(ops, key, k, a) != [] {
      assert OfKey(ops, key, k, a)[0] in OfKey(ops, key, k, a);
    }
  }

  /** An order of the operations on key `k` alone: legal, in real time, groups together, and with every answered one. */
  ghost predicate OrderOf<T, K, I, O>(ops: seq<Op<I, O>>, key: I -> K, of: K -> Model<T, I, O>, k: K, order: seq<nat>) {
    && InRange(|ops|, order) && Distinct(order) && RealTime(ops, order) && Contiguous(ops, order)
    && Legal(of(k), ops, of(k).init, order)
    && (forall x :: x in order ==> key(ops[x].input) == k)
    && (forall x: nat :: x < |ops| && key(ops[x].input) == k && !ops[x].Pending() ==> x in order)
  }

  /** Each group lies within one key, and its operations are concurrent. */
  ghost predicate GroupsLocal<K, I, O>(ops: seq<Op<I, O>>, key: I -> K) {
    Concurrent(ops) && SameKeyed(ops, key)
  }

  lemma PartOrder<T(!new), K(!new), I(!new), O(!new)>(ops: seq<Op<I, O>>, key: I -> K, of: K -> Model<T, I, O>,
      parts: map<K, seq<Op<I, O>>>, k: K)
      returns (order: seq<nat>)
    requires WellTimed(ops) && GroupsLocal(ops, key)
    requires PartsOf(ops, key, parts) && k in parts && Linearizable(of(k), parts[k])
    ensures OrderOf(Squeezed(ops), key, of, k, order)
  {
    hide Legal, RealTime, Contiguous;
    var l :| IsLinearization(of(k), parts[k], l);
    var at, part := Indices(ops, key, k), parts[k];
    IndicesOf(ops, key, k);
    PositionsOf(ops, key, parts, k);
    LegalGlobal(of(k), ops, part, at, of(k).init, l);
    RealTimeGlobal(ops, part, at, l);
    ContiguousGlobal(ops, part, at, l);
    order := Global(at, l);
    GlobalAnswered(ops, part, at, l);
    SqueezedOrder(ops, key, of, k, order);
  }

  /** An order of a key is one of the history with its groups squeezed. */
  lemma SqueezedOrder<T, K, I, O>(ops: seq<Op<I, O>>, key: I -> K, of: K -> Model<T, I, O>, k: K, order: seq<nat>)
    requires WellTimed(ops) && GroupsLocal(ops, key) && OrderOf(ops, key, of, k, order)
    ensures OrderOf(Squeezed(ops), key, of, k, order)
  {
    hide Legal, RealTime, Contiguous, Squeezed, Distinct;
    SqueezedLegal(of(k), ops, of(k).init, order);
    SqueezedContiguous(ops, order);
    KeyWhole(ops, key, of, k, order);
    SqueezedRealTime(ops, order);
    forall x: nat | x < |ops|
      ensures Squeezed(ops)[x].input == ops[x].input && Squeezed(ops)[x].Pending() == ops[x].Pending()
    {
      SqueezedAt(ops, x);
    }
  }

  lemma KeyWhole<T, K, I, O>(ops: seq<Op<I, O>>, key: I -> K, of: K -> Model<T, I, O>, k: K, order: seq<nat>)
    requires GroupsLocal(ops, key) && OrderOf(ops, key, of, k, order)
    ensures Whole(ops, order)
  {
    hide Legal, RealTime, Contiguous, Concurrent, Distinct;
    forall n, j: nat | 0 <= n < |order| && j < |ops| && Together(ops, order[n], j) ensures j in order {
      assert order[n] in order;
    }
  }

  lemma GlobalAnswered<I, O>(ops: seq<Op<I, O>>, part: seq<Op<I, O>>, at: seq<nat>, l: seq<nat>)
    requires Positions(ops, part, at) && InRange(|part|, l) && Distinct(l) && Answered(part, l)
    ensures Distinct(Global(at, l))
    ensures forall x :: x in Global(at, l) ==> x in at
    ensures forall x: nat :: x in at && !ops[x].Pending() ==> x in Global(at, l)
  {
    var g := Global(at, l);
    forall x: nat | x in at && !ops[x].Pending() ensures x in g {
      var i :| 0 <= i < |at| && at[i] == x;
      var j :| 0 <= j < |l| && l[j] == i;
      assert g[j] == x;
    }
  }

  lemma {:induction false} ChooseOrders<T(!new), K(!new), I(!new), O(!new)>(ops: seq<Op<I, O>>, key: I -> K,
      of: K -> Model<T, I, O>, parts: map<K, seq<Op<I, O>>>, ks: set<K>)
      returns (orders: map<K, seq<nat>>)
    requires WellTimed(ops) && GroupsLocal(ops, key) && PartsOf(ops, key, parts) && ks <= parts.Keys
    requires forall k :: k in parts ==> Linearizable(of(k), parts[k])
    ensures orders.Keys == ks
    ensures forall k :: k in orders ==> OrderOf(Squeezed(ops), key, of, k, orders[k])
  {
    hide OrderOf, GroupsLocal, PartsOf, Linearizable;
    orders := map[];
    if ks != {} {
      var k :| k in ks;
      orders := ChooseOrders(ops, key, of, parts, ks - {k});
      var order := PartOrder(ops, key, of, parts, k);
      orders := orders[k := order];
    }
  }

  /** An order of the operations on the keys `ks`, which is each key's own order on that key. */
  ghost predicate Joins<K(!new), I, O>(ops: seq<Op<I, O>>, key: I -> K, orders: map<K, seq<nat>>, ks: set<K>,
      all: seq<nat>)
  {
    && InRange(|ops|, all) && Distinct(all) && RealTime(ops, all) && Contiguous(ops, all)
    && (forall x :: x in all ==> key(ops[x].input) in ks)
    && (forall k :: k in ks && k in orders ==> OfKey(ops, key, k, all) == orders[k])
  }

  lemma JoinOne<T, K(!new), I, O>(ops: seq<Op<I, O>>, key: I -> K, of: K -> Model<T, I, O>, orders: map<K, seq<nat>>,
      ks: set<K>, all: seq<nat>, k: K)
    requires WellTimed(ops) && Level(ops) && SameKeyed(ops, key) && Joins(ops, key, orders, ks, all) && k !in ks
    requires k in orders && OrderOf(ops, key, of, k, orders[k])
    ensures Joins(ops, key, orders, ks + {k}, Merge(ops, all, orders[k]))
  {
    hide RealTime, Contiguous, Legal, Level, Distinct, Unmixed;
    var b := orders[k];
    MergeElements(ops, all, b);
    MergeRealTime(ops, all, b);
    KeysUnmixed(ops, key, ks, k, all, b);
    MergeContiguous(ops, all, b);
    forall x | x in Merge(ops, all, b) ensures key(ops[x].input) in ks + {k} {
      InMerge(ops, all, b, x);
    }
    MergeDistinct(ops, all, b);
    forall j | j in ks + {k} && j in orders ensures OfKey(ops, key, j, Merge(ops, all, b)) == orders[j] {
      if j == k {
        MergeOfSecond(ops, key, j, all, b);
        OfKeyAll(ops, key, k, b);
      } else {
        MergeOfFirst(ops, key, j, all, b);
      }
    }
  }

  /** Operations of a group have the same key. */
  ghost predicate SameKeyed<K, I, O>(ops: seq<Op<I, O>>, key: I -> K) {
    forall i: nat, j: nat :: i < |ops| && j < |ops| && Grouped(ops, i, j) ==> key(ops[i].input) == key(ops[j].input)
  }

  lemma KeysUnmixed<K, I, O>(ops: seq<Op<I, O>>, key: I -> K, ks: set<K>, k: K, a: seq<nat>, b: seq<nat>)
    requires SameKeyed(ops, key) && InRange(|ops|, a) && InRange(|ops|, b) && k !in ks
    requires (forall x :: x in a ==> key(ops[x].input) in ks) && (forall x :: x in b ==> key(ops[x].input) == k)
    ensures Unmixed(ops, a, b)
  {
    forall i, j | 0 <= i < |a| && 0 <= j < |b| ensures !Grouped(ops, a[i], b[j]) {
      assert a[i] in a && b[j] in b;
    }
  }

  lemma {:induction false} OfKeyAll<K, I, O>(ops: seq<Op<I, O>>, key: I -> K, k: K, a: seq<nat>)
    requires InRange(|ops|, a) && forall x :: x in a ==> key(ops[x].input) == k
    ensures OfKey(ops, key, k, a) == a
  {
    if a != [] {
      OfKeyAll(ops, key, k, a[1..]);
      assert a == [a[0]] + a[1..];
    }
  }

  lemma {:induction false} MergeDistinct<I, O>(ops: seq<Op<I, O>>, a: seq<nat>, b: seq<nat>)
    requires InRange(|ops|, a) && InRange(|ops|, b) && Distinct(a) && Distinct(b)
    requires forall x :: x in a ==> x !in b
    ensures Distinct(Merge(ops, a, b))
    decreases |a| + |b|
  {
    if a != [] && b != [] {
      if Ahead(ops, a[0], b) {
        MergeDistinct(ops, a[1..], b);
        InMerge(ops, a[1..], b, a[0]);
      } else {
        MergeDistinct(ops, a, b[1..]);
        InMerge(ops, a, b[1..], b[0]);
      }
    }
  }

  lemma {:induction false} JoinAll<T, K(!new), I, O>(ops: seq<Op<I, O>>, key: I -> K, of: K -> Model<T, I, O>,
      orders: map<K, seq<nat>>, ks: set<K>)
      returns (all: seq<nat>)
    requires WellTimed(ops) && Level(ops) && SameKeyed(ops, key) && ks <= orders.Keys
    requires forall k :: k in orders ==> OrderOf(ops, key, of, k, orders[k])
    ensures Joins(ops, key, orders, ks, all)
  {
    hide OrderOf, Joins, WellTimed, Level, SameKeyed;
    all := [];
    if ks == {} {
      JoinNone(ops, key, orders);
    } else {
      var k :| k in ks;
      all := JoinAll(ops, key, of, orders, ks - {k});
      JoinOne(ops, key, of, orders, ks - {k}, all, k);
      assert ks - {k} + {k} == ks;
      JoinRange(ops, key, of, orders, ks - {k}, all, k);
      all := Merge(ops, all, orders[k]);
    }
  }

  lemma JoinRange<T, K(!new), I, O>(ops: seq<Op<I, O>>, key: I -> K, of: K -> Model<T, I, O>,
      orders: map<K, seq<nat>>, ks: set<K>, all: seq<nat>, k: K)
    requires Joins(ops, key, orders, ks, all) && k in orders && OrderOf(ops, key, of, k, orders[k])
    ensures InRange(|ops|, all) && InRange(|ops|, orders[k])
  {
  }

  lemma JoinNone<K(!new), I, O>(ops: seq<Op<I, O>>, key: I -> K, orders: map<K, seq<nat>>)
    ensures Joins(ops, key, orders, {}, [])
  {
  }

  /** A history of a product is linearizable if its parts are, where each group lies within one. */
  lemma PartsToWhole<S(!new), T(!new), K(!new), I(!new), O(!new)>(m: Model<S, I, O>, key: I -> K,
      of: K -> Model<T, I, O>, proj: (S, K) -> T,
      ops: seq<Op<I, O>>, parts: map<K, seq<Op<I, O>>>)
    requires WellTimed(ops) && Product(m, key, of, proj) && PartsOf(ops, key, parts) && GroupsLocal(ops, key)
    requires forall k :: k in parts ==> Linearizable(of(k), parts[k])
    ensures Linearizable(m, ops)
  {
    hide Product, GroupsLocal, Linearizable, WellTimed, Squeezed, Joins, OrderOf;
    var sq := Squeezed(ops);
    SqueezedHistory(ops, key, parts);
    var orders := ChooseOrders(ops, key, of, parts, parts.Keys);
    var all := JoinAll(sq, key, of, orders, parts.Keys);
    JoinedLegal(m, key, of, proj, sq, orders, parts.Keys, all);
    Unsqueezed(m, ops, key, all);
  }

  lemma SqueezedHistory<K, I, O>(ops: seq<Op<I, O>>, key: I -> K, parts: map<K, seq<Op<I, O>>>)
    requires WellTimed(ops) && GroupsLocal(ops, key) && PartsOf(ops, key, parts)
    ensures WellTimed(Squeezed(ops)) && Level(Squeezed(ops)) && SameKeyed(Squeezed(ops), key)
    ensures forall i :: 0 <= i < |ops| ==> key(Squeezed(ops)[i].input) in parts
  {
    hide Squeezed, WellTimed, Level, Concurrent;
    var sq := Squeezed(ops);
    SqueezedLevel(ops);
    forall i: nat | i < |ops| ensures sq[i].input == ops[i].input {
      SqueezedAt(ops, i);
    }
    forall i: nat, j: nat | i < |sq| && j < |sq| && Grouped(sq, i, j) ensures key(sq[i].input) == key(sq[j].input) {
      SameGroup(ops, i, j);
    }
  }

  /** The orders of all keys joined are a linearization. */
  lemma JoinedLegal<S(!new), T(!new), K(!new), I(!new), O(!new)>(m: Model<S, I, O>, key: I -> K,
      of: K -> Model<T, I, O>, proj: (S, K) -> T, ops: seq<Op<I, O>>, orders: map<K, seq<nat>>, ks: set<K>,
      all: seq<nat>)
    requires Product(m, key, of, proj) && orders.Keys == ks && Joins(ops, key, orders, ks, all)
    requires forall k :: k in orders ==> OrderOf(ops, key, of, k, orders[k])
    requires forall i :: 0 <= i < |ops| ==> key(ops[i].input) in ks
    ensures IsLinearization(m, ops, all)
  {
    hide RealTime, Contiguous, Distinct, Legal;
    forall k ensures LegalFor(key, of, proj, ops, m.init, all, k) {
      KeyLegal(m, key, of, proj, ops, orders, ks, all, k);
    }
    LegalByKey(m, key, of, proj, ops, m.init, all);
    forall i: nat | i < |ops| && !ops[i].Pending() ensures i in all {
      var k := key(ops[i].input);
      assert OrderOf(ops, key, of, k, orders[k]);
      OfKeyElements(ops, key, k, all);
    }
  }

  lemma KeyLegal<S(!new), T(!new), K(!new), I(!new), O(!new)>(m: Model<S, I, O>, key: I -> K,
      of: K -> Model<T, I, O>, proj: (S, K) -> T, ops: seq<Op<I, O>>, orders: map<K, seq<nat>>, ks: set<K>,
      all: seq<nat>, k: K)
    requires Product(m, key, of, proj) && orders.Keys == ks && Joins(ops, key, orders, ks, all)
    requires forall k :: k in orders ==> OrderOf(ops, key, of, k, orders[k])
    ensures LegalFor(key, of, proj, ops, m.init, all, k)
  {
    hide RealTime, Contiguous, Distinct;
    OfKeyElements(ops, key, k, all);
    if k in ks {
      assert OrderOf(ops, key, of, k, orders[k]);
    } else {
      OfKeyNone(ops, key, k, all);
    }
  }

  lemma Unsqueezed<S, K, I, O>(m: Model<S, I, O>, ops: seq<Op<I, O>>, key: I -> K, all: seq<nat>)
    requires WellTimed(ops) && GroupsLocal(ops, key) && IsLinearization(m, Squeezed(ops), all)
    ensures Linearizable(m, ops)
  {
    hide Squeezed, WellTimed, SameKeyed, Legal, Contiguous, Distinct, Concurrent;
    SqueezedLegal(m, ops, m.init, all);
    SqueezedContiguous(ops, all);
    forall i: nat | i < |ops| ensures Squeezed(ops)[i].Pending() == ops[i].Pending() {
      SqueezedAt(ops, i);
    }
    forall p, q | 0 <= p < q < |all| ensures !(ops[all[q]].ret < ops[all[p]].call) {
      SqueezedAt(ops, all[p]);
      SqueezedAt(ops, all[q]);
    }
    assert IsLinearization(m, ops, all);
  }

  /** Locality. */
  lemma LinearizableByPart<S(!new), T(!new), K(!new), I(!new), O(!new)>(m: Model<S, I, O>, key: I -> K,
      of: K -> Model<T, I, O>, proj: (S, K) -> T,
      ops: seq<Op<I, O>>, parts: map<K, seq<Op<I, O>>>)
    requires WellTimed(ops) && Product(m, key, of, proj) && PartsOf(ops, key, parts) && GroupsLocal(ops, key)
    ensures Linearizable(m, ops) <==> forall k :: k in parts ==> Linearizable(of(k), parts[k])
  {
    if Linearizable(m, ops) {
      var order :| IsLinearization(m, ops, order);
      forall k | k in parts ensures Linearizable(of(k), parts[k]) {
        WholeToPart(m, key, of, proj, ops, parts, k, order);
      }
    }
    if forall k :: k in parts ==> Linearizable(of(k), parts[k]) {
      PartsToWhole(m, key, of, proj, ops, parts);
    }
  }
}
