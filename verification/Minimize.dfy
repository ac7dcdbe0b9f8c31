/**
 Cores of illegal histories, by delta debugging (linearize/linearize.go, Minimize and ddmin).
 */
module Minimize {
  import opened Seqs
  import opened History
  import opened Sorting
  import opened Search
  import opened Bitset

  datatype Weakening = Keep | Drop | Replace

  /** A history and how each of its operations may be weakened. */
  datatype Case<!S, !I, !O> = Case(m: Model<S, I, O>, ops: seq<Op<I, O>>, weak: seq<Op<I, O>>, how: seq<Weakening>) {
    predicate Valid() {
      |weak| == |how| == |ops|
    }
  }

  /** The first `n` operations, each weakened but those in `keep`. */
  ghost function Weakened<S, I, O>(c: Case<S, I, O>, keep: set<nat>, n: nat): seq<Op<I, O>>
    requires c.Valid() && n <= |c.ops|
  {
    if n == 0 then []
    else
      var i := n - 1;
      Weakened(c, keep, i) +
      if c.how[i].Keep? || i in keep then [c.ops[i]]
      else if c.how[i].Replace? then [c.weak[i]]
      else []
  }

  /** The history, with everything outside `keep` weakened, is illegal. */
  ghost predicate Bad<S, I, O>(c: Case<S, I, O>, keep: set<nat>)
    requires c.Valid()
  {
    var sub := Weakened(c, keep, |c.ops|);
    WellTimed(sub) && !Linearizable(c.m, sub)
  }

  /** Weakening more never makes a legal history illegal. */
  ghost predicate Monotone<S, I, O>(c: Case<S, I, O>)
    requires c.Valid()
  {
    forall a: set<nat>, b: set<nat> :: a <= b && Bad(c, a) ==> Bad(c, b)
  }

  // ----- Checking a weakened history

  /**
   What a check runs under: the hash, the context of the n-th check, with its share of the time
   left, and whether the caller's own context has ended when it is asked for the q-th time.
   */
  datatype Env = Env(hash: Words -> int, ctx: (nat, nat) -> bool, ended: nat -> bool)

  /**
   How many checks have run and how often the caller's context was asked, and whether any check was
   cut short or the context had ended.
   */
  datatype Spent = Spent(checks: nat, asks: nat, cut: bool)

  /** How many configurations a check may visit, when the whole history has `n`. */
  function LimitFor(n: nat): nat { if 100 * n > 0x10_0000 then 100 * n else 0x10_0000 }

  /** Some weakened history has more configurations than that. */
  ghost predicate SomeLarger<S(!new), I(!new), O(!new)>(c: Case<S, I, O>, limit: nat)
    requires c.Valid()
  {
    exists keep: set<nat> :: MoreThan(c.m, Weakened(c, keep, |c.ops|), limit)
  }

  /** Whatever was cut short, a context ended or a weakened history has more configurations than are to be visited. */
  ghost predicate ForCause<S(!new), I(!new), O(!new)>(c: Case<S, I, O>, env: Env, limit: nat, spent: Spent)
    requires c.Valid()
  {
    spent.cut ==> (exists n, k :: env.ctx(n, k)) || (exists q :: env.ended(q)) || SomeLarger(c, limit)
  }

  /** A check that is cut short says the history is not illegal; one that is not says so exactly when it is not. */
  ghost predicate Told<S, I, O>(c: Case<S, I, O>, keep: set<nat>, bad: bool, before: Spent, after: Spent)
    requires c.Valid()
  {
    (bad ==> Bad(c, keep)) && (before.cut ==> after.cut) && (!after.cut ==> (bad <==> Bad(c, keep)))
  }

  method IllegalKeeping<S(==, !new), I(!new), O(!new)>(c: Case<S, I, O>, keep: seq<nat>, env: Env, limit: nat,
      spent0: Spent)
      returns (bad: bool, explored: nat, spent: Spent)
    requires c.Valid() && SameSound(c.m) && Increasing(keep)
    requires ForCause(c, env, limit, spent0)
    ensures Told(c, Elements(keep), bad, spent0, spent) && ForCause(c, env, limit, spent)
    ensures limit == 0 && spent.cut && !spent0.cut ==> exists n, k :: env.ctx(n, k)
    ensures bad ==> JustSoMany(c.m, Weakened(c, Elements(keep), |c.ops|), explored)
  {
    var sub: seq<Op<I, O>> := [];
    var k := 0;
    for i := 0 to |c.ops|
      invariant 0 <= k <= |keep|
      invariant forall j :: 0 <= j < k ==> keep[j] < i
      invariant forall j :: k <= j < |keep| ==> i <= keep[j]
      invariant sub == Weakened(c, Elements(keep), i)
    {
      NextKept(keep, k, i);
      if c.how[i].Keep? {
        sub := sub + [c.ops[i]];
      } else if k < |keep| && keep[k] == i {
        sub := sub + [c.ops[i]];
        k := k + 1;
      } else if c.how[i].Replace? {
        sub := sub + [c.weak[i]];
      }
      while k < |keep| && keep[k] <= i
        invariant 0 <= k <= |keep|
        invariant forall j :: 0 <= j < k ==> keep[j] < i + 1
        invariant forall j :: k <= j < |keep| ==> i <= keep[j]
      {
        k := k + 1;
      }
    }
    var n := spent0.checks;
    var res, err := CheckWithin(c.m, sub, env.hash, limit, (k: nat) => env.ctx(n, k));
    bad, explored := res.outcome == Illegal, res.explored;
    spent := Spent(n + 1, spent0.asks, spent0.cut || err == ErrLimit || err == ErrContext);
    if err == ErrContext {
      ghost var k :| env.ctx(n, k);
    } else if err != ErrBadOp {
      CountsMean(c.m, sub, res, limit);
    }
  }

  lemma NextKept(keep: seq<nat>, k: nat, i: nat)
    requires Increasing(keep) && k <= |keep|
    requires forall j :: 0 <= j < k ==> keep[j] < i
    requires forall j :: k <= j < |keep| ==> i <= keep[j]
    ensures i in Elements(keep) <==> k < |keep| && keep[k] == i
    ensures forall j :: k < j < |keep| ==> i < keep[j]
  {
    forall j | k < j < |keep| ensures i < keep[j] {
      assert keep[k] < keep[j];
    }
  }

  // ----- Merging sorted sets

  function Merge(a: seq<nat>, b: seq<nat>): seq<nat> {
    Sort(a + b, NatLe)
  }

  lemma MergeElements(a: seq<nat>, b: seq<nat>)
    ensures Elements(Merge(a, b)) == Elements(a) + Elements(b)
  {
    SameElements(a + b, Merge(a, b));
    forall x ensures x in Merge(a, b) <==> x in a || x in b {
      assert x in a + b <==> x in a || x in b;
    }
  }

  lemma MergeIncreasing(a: seq<nat>, b: seq<nat>)
    requires Increasing(a) && Increasing(b) && Elements(a) !! Elements(b)
    ensures Increasing(Merge(a, b))
    ensures Elements(Merge(a, b)) == Elements(a) + Elements(b)
  {
    var m := Merge(a, b);
    forall x | x in b ensures x !in a {
      assert x in Elements(b);
    }
    DistinctJoin(a, b);
    MergeElements(a, b);
    SameDistinct(a + b, m);
    SortSorted(a + b, NatLe);
    forall i, j | 0 <= i < j < |m| ensures m[i] < m[j] {
      assert NatLe(m[i], m[j]) && m[i] != m[j];
    }
  }

  // ----- Delta debugging

  /** `set` with the elements from `from` to `to` taken out. */
  function Cut(set': seq<nat>, from: nat, to: nat): seq<nat>
    requires from <= to <= |set'|
  {
    set'[..from] + set'[to..]
  }

  ghost predicate Within(a: seq<nat>, b: seq<nat>) {
    Increasing(a) && Elements(a) <= Elements(b)
  }

  lemma CutWithin(set': seq<nat>, from: nat, to: nat)
    requires Increasing(set') && from <= to <= |set'|
    ensures Within(Cut(set', from, to), set')
  {
    var r := Cut(set', from, to);
    forall x | x in r ensures x in set' {
    }
  }

  lemma CutOne(set': seq<nat>, k: nat)
    requires Increasing(set') && k < |set'|
    ensures Elements(Cut(set', k, k + 1)) == Elements(set') - {set'[k]}
  {
    var r := Cut(set', k, k + 1);
    assert set' == set'[..k] + [set'[k]] + set'[k + 1..];
    forall i | 0 <= i < |r| ensures r[i] != set'[k] {
    }
  }

  /** No element of `set` can be weakened as well, with `other` kept. */
  ghost predicate Minimal<S, I, O>(c: Case<S, I, O>, set': seq<nat>, other: seq<nat>)
    requires c.Valid()
  {
    forall x :: x in set' ==> !Bad(c, Elements(set') - {x} + Elements(other))
  }

  method IllegalCut<S(==, !new), I(!new), O(!new)>(c: Case<S, I, O>, rest: seq<nat>, other: seq<nat>, env: Env,
      limit: nat, spent0: Spent)
      returns (bad: bool, spent: Spent)
    requires c.Valid() && SameSound(c.m)
    requires Increasing(rest) && Increasing(other) && Elements(rest) !! Elements(other)
    requires ForCause(c, env, limit, spent0)
    ensures Told(c, Elements(rest) + Elements(other), bad, spent0, spent) && ForCause(c, env, limit, spent)
  {
    MergeIncreasing(rest, other);
    var explored;
    bad, explored, spent := IllegalKeeping(c, Merge(rest, other), env, limit, spent0);
  }

  /** Asks whether the caller's context has ended. */
  method Ask<S(!new), I(!new), O(!new)>(ghost c: Case<S, I, O>, env: Env, ghost limit: nat, spent0: Spent)
      returns (ended: bool, spent: Spent)
    requires c.Valid() && ForCause(c, env, limit, spent0)
    ensures ForCause(c, env, limit, spent)
    ensures spent.cut <==> spent0.cut || ended
    ensures ended ==> env.ended(spent0.asks)
  {
    hide SomeLarger;
    ended := env.ended(spent0.asks);
    spent := spent0.(asks := spent0.asks + 1, cut := spent0.cut || ended);
  }

  /** One pass over `set` in chunks, taking out each chunk that can be weakened, until the context ends. */
  method Pass<S(==, !new), I(!new), O(!new)>(c: Case<S, I, O>, set0: seq<nat>, other: seq<nat>, chunk: nat, env: Env,
      limit: nat, spent0: Spent)
      returns (set': seq<nat>, removed: bool, spent: Spent)
    requires c.Valid() && SameSound(c.m) && chunk > 0
    requires Increasing(set0) && Increasing(other) && Elements(set0) !! Elements(other)
    requires Bad(c, Elements(set0) + Elements(other)) && ForCause(c, env, limit, spent0)
    ensures Within(set', set0) && Bad(c, Elements(set') + Elements(other)) && ForCause(c, env, limit, spent)
    ensures if removed then |set'| < |set0| else set' == set0
    ensures spent0.cut ==> spent.cut
    ensures !removed && chunk == 1 && !spent.cut ==> Minimal(c, set', other)
  {
    hide Bad, ForCause;
    set', removed, spent := set0, false, spent0;
    var start, ended := 0, false;
    while start < |set'|
      invariant 0 <= start <= |set'|
      invariant Within(set', set0) && Bad(c, Elements(set') + Elements(other)) && ForCause(c, env, limit, spent)
      invariant if removed then |set'| < |set0| else set' == set0
      invariant spent0.cut ==> spent.cut
      invariant !removed && chunk == 1 && !spent.cut ==> forall k :: 0 <= k < start ==>
        !Bad(c, Elements(set0) - {set0[k]} + Elements(other))
      decreases |set'| - start
    {
      ended, spent := Ask(c, env, limit, spent);
      if ended {
        break;
      }
      var end := if start + chunk < |set'| then start + chunk else |set'|;
      var rest := Cut(set', start, end);
      CutWithin(set', start, end);
      var bad;
      bad, spent := IllegalCut(c, rest, other, env, limit, spent);
      if chunk == 1 { CutOne(set', start); }
      if bad {
        set', removed := rest, true;
      } else {
        start := end;
      }
    }
  }

  /** A subset of `set` that is still illegal with `other` kept; and, if nothing was cut short, minimal so. */
  method Ddmin<S(==, !new), I(!new), O(!new)>(c: Case<S, I, O>, set0: seq<nat>, other: seq<nat>, env: Env,
      limit: nat, spent0: Spent)
      returns (set': seq<nat>, spent: Spent)
    requires c.Valid() && SameSound(c.m)
    requires Increasing(set0) && Increasing(other) && Elements(set0) !! Elements(other)
    requires Bad(c, Elements(set0) + Elements(other)) && ForCause(c, env, limit, spent0)
    ensures Within(set', set0) && Bad(c, Elements(set') + Elements(other)) && ForCause(c, env, limit, spent)
    ensures spent0.cut ==> spent.cut
    ensures !spent.cut ==> Minimal(c, set', other)
  {
    hide Bad, ForCause;
    set', spent := set0, spent0;
    var chunk := if |set'| / 2 > 1 then |set'| / 2 else 1;
    while |set'| > 0
      invariant chunk >= 1
      invariant Within(set', set0) && Bad(c, Elements(set') + Elements(other)) && ForCause(c, env, limit, spent)
      invariant spent0.cut ==> spent.cut
      decreases |set'|, chunk
    {
      var removed, ended;
      set', removed, spent := Pass(c, set', other, chunk, env, limit, spent);
      ended, spent := Ask(c, env, limit, spent);
      if ended || (chunk == 1 && !removed) {
        break;
      }
      if chunk > 1 {
        chunk := chunk / 2;
      }
    }
  }

  // ----- Minimizing

  /** Asks of each operation how it weakens, and sorts out those to drop and those to replace. */
  method Plan<S, I, O>(m: Model<S, I, O>, ops: seq<Op<I, O>>, weaken: Op<I, O> -> (Op<I, O>, Weakening))
      returns (c: Case<S, I, O>, dropping: seq<nat>, replacing: seq<nat>, all: seq<nat>)
    ensures c.m == m && c.ops == ops && c.Valid()
    ensures forall i :: 0 <= i < |ops| ==> (c.weak[i], c.how[i]) == weaken(ops[i])
    ensures Increasing(dropping) && Elements(dropping) == set i: nat | i < |ops| && c.how[i].Drop?
    ensures Increasing(replacing) && Elements(replacing) == set i: nat | i < |ops| && c.how[i].Replace?
    ensures Increasing(all) && forall i: nat :: i in all <==> i < |ops|
  {
    var weak, how := [], [];
    dropping, replacing, all := [], [], [];
    for i := 0 to |ops|
      invariant |weak| == |how| == i
      invariant forall j :: 0 <= j < i ==> (weak[j], how[j]) == weaken(ops[j])
      invariant Increasing(dropping) && (forall k :: 0 <= k < |dropping| ==> dropping[k] < i)
      invariant forall x: nat :: x in dropping <==> x < i && how[x].Drop?
      invariant Increasing(replacing) && (forall k :: 0 <= k < |replacing| ==> replacing[k] < i)
      invariant forall x: nat :: x in replacing <==> x < i && how[x].Replace?
      invariant |all| == i && (forall k :: 0 <= k < i ==> all[k] == k)
    {
      var (w, h) := weaken(ops[i]);
      weak, how := weak + [w], how + [h];
      match h {
        case Drop => dropping := dropping + [i];
        case Replace => replacing := replacing + [i];
        case Keep =>
      }
      all := all + [i];
    }
    c := Case(m, ops, weak, how);
    forall i: nat ensures i in all <==> i < |ops| {
      assert i < |ops| ==> all[i] == i;
    }
  }

  /** Keeping an operation that cannot be weakened changes nothing. */
  lemma {:induction false} KeepIsIdle<S, I, O>(c: Case<S, I, O>, a: set<nat>, b: set<nat>, n: nat)
    requires c.Valid() && n <= |c.ops|
    requires forall i :: 0 <= i < |c.ops| && !c.how[i].Keep? ==> (i in a <==> i in b)
    ensures Weakened(c, a, n) == Weakened(c, b, n)
  {
    if n != 0 {
      KeepIsIdle(c, a, b, n - 1);
    }
  }

  /** A core: illegal with everything else weakened, and legal with any one more operation weakened. */
  ghost predicate IsCore<S, I, O>(c: Case<S, I, O>, core: seq<nat>)
    requires c.Valid()
  {
    && Increasing(core)
    && (forall x :: x in core ==> x < |c.ops| && !c.how[x].Keep?)
    && Bad(c, Elements(core))
    && forall x :: x in core ==> !Bad(c, Elements(core) - {x})
  }

  /** Why there is no core: the caller's context ended, or the history is not illegal. */
  datatype Failure = NoFailure | Ended | NotIllegal

  /**
   The core of an illegal history. What can be dropped is shrunk first, with every replacing
   operation whole; that weakening the replacing ones later leaves the dropped part minimal is what
   a monotone weakening is needed for. A check cut short by its limit, its share of the time or the
   context counts as legal: the core is illegal all the same, and need not be minimal.
   */
  method Minimize<S(==, !new), I(!new), O(!new)>(m: Model<S, I, O>, ops: seq<Op<I, O>>,
      weaken: Op<I, O> -> (Op<I, O>, Weakening), env: Env)
      returns (c: Case<S, I, O>, core: seq<nat>, failure: Failure, spent: Spent)
    requires SameSound(m)
    ensures c.m == m && c.ops == ops && c.Valid()
    ensures forall i :: 0 <= i < |ops| ==> (c.weak[i], c.how[i]) == weaken(ops[i])
    ensures failure.NoFailure? ==> WellTimed(ops) && !Linearizable(m, ops)
    ensures failure == NotIllegal && !spent.cut ==> !(WellTimed(ops) && !Linearizable(m, ops))
    ensures failure == Ended ==> exists q :: env.ended(q)
    ensures !failure.NoFailure? ==> Increasing(core) && forall i: nat :: i in core <==> i < |ops|
    ensures !failure.NoFailure? && spent.cut ==> (exists n, k :: env.ctx(n, k)) || exists q :: env.ended(q)
    ensures failure.NoFailure? ==> exists n: nat ::
      JustSoMany(m, ops, n) && ForCause(c, env, if 100 * n > 0x10_0000 then 100 * n else 0x10_0000, spent)
    ensures failure.NoFailure? ==> Bad(c, Elements(core)) && (!spent.cut && Monotone(c) ==> IsCore(c, core))
  {
    hide Bad, IsCore, Monotone, SameSound, JustSoMany, SomeLarger;
    var dropping, replacing, all, bad, explored;
    c, dropping, replacing, all := Plan(m, ops, weaken);
    WholeIsBad(c, Elements(all));
    AllKept(c, Elements(all), |ops|);
    bad, explored, spent := IllegalKeeping(c, all, env, 0, Spent(0, 0, false));
    if !bad {
      var ended;
      ended, spent := Ask(c, env, 0, spent);
      return c, all, if ended then Ended else NotIllegal, spent;
    }
    var limit := LimitFor(explored);
    SameKept(c, Elements(all), Elements(dropping) + Elements(replacing));
    core, spent := Shrink(c, dropping, replacing, env, limit, spent);
    failure := NoFailure;
  }

  /** Shrinks what can be dropped, and then what can be replaced. */
  method Shrink<S(==, !new), I(!new), O(!new)>(c: Case<S, I, O>, dropping: seq<nat>, replacing: seq<nat>, env: Env,
      limit: nat, spent0: Spent)
      returns (core: seq<nat>, spent: Spent)
    requires c.Valid() && SameSound(c.m) && ForCause(c, env, limit, spent0)
    requires Increasing(dropping) && Elements(dropping) == set i: nat | i < |c.ops| && c.how[i].Drop?
    requires Increasing(replacing) && Elements(replacing) == set i: nat | i < |c.ops| && c.how[i].Replace?
    requires Bad(c, Elements(dropping) + Elements(replacing))
    ensures ForCause(c, env, limit, spent) && (spent0.cut ==> spent.cut)
    ensures Bad(c, Elements(core)) && (!spent.cut && Monotone(c) ==> IsCore(c, core))
  {
    hide Bad, Minimal, ForCause, Monotone;
    var d, r;
    d, spent := Ddmin(c, dropping, replacing, env, limit, spent0);
    assert Elements(replacing) + Elements(d) == Elements(d) + Elements(replacing);
    r, spent := Ddmin(c, replacing, d, env, limit, spent);
    MergeIncreasing(d, r);
    assert Elements(r) + Elements(d) == Elements(d) + Elements(r);
    if !spent.cut && Monotone(c) {
      CoreMinimal(c, replacing, d, r);
    }
    core := Merge(d, r);
    forall x | x in core ensures x < |c.ops| && !c.how[x].Keep? {
      assert x in Elements(core);
    }
  }

  lemma WholeIsBad<S, I, O>(c: Case<S, I, O>, all: set<nat>)
    requires c.Valid() && forall i: nat :: i < |c.ops| ==> i in all
    ensures Bad(c, all) <==> WellTimed(c.ops) && !Linearizable(c.m, c.ops)
  {
    AllKept(c, all, |c.ops|);
  }

  lemma SameKept<S, I, O>(c: Case<S, I, O>, a: set<nat>, b: set<nat>)
    requires c.Valid() && forall i :: 0 <= i < |c.ops| && !c.how[i].Keep? ==> (i in a <==> i in b)
    ensures Bad(c, a) <==> Bad(c, b)
  {
    KeepIsIdle(c, a, b, |c.ops|);
  }

  lemma {:induction false} AllKept<S, I, O>(c: Case<S, I, O>, keep: set<nat>, n: nat)
    requires c.Valid() && n <= |c.ops| && forall i: nat :: i < |c.ops| ==> i in keep
    ensures Weakened(c, keep, n) == c.ops[..n]
    ensures n == |c.ops| ==> Weakened(c, keep, n) == c.ops
  {
    if n != 0 {
      AllKept(c, keep, n - 1);
      TakeNext(c.ops, n - 1);
    }
    TakeAll(c.ops);
  }

  /** The dropped part stays minimal as the replacing part shrinks. */
  lemma CoreMinimal<S, I, O>(c: Case<S, I, O>, replacing: seq<nat>, d: seq<nat>, r: seq<nat>)
    requires c.Valid() && Monotone(c)
    requires Minimal(c, d, replacing) && Minimal(c, r, d)
    requires Elements(r) <= Elements(replacing) && Elements(d) !! Elements(replacing)
    ensures forall x :: x in Elements(d) + Elements(r) ==> !Bad(c, Elements(d) + Elements(r) - {x})
  {
    forall x | x in Elements(d) + Elements(r) ensures !Bad(c, Elements(d) + Elements(r) - {x}) {
      if x in Elements(d) {
        assert Elements(d) + Elements(r) - {x} <= Elements(d) - {x} + Elements(replacing);
      } else {
        assert Elements(d) + Elements(r) - {x} == Elements(r) - {x} + Elements(d);
      }
    }
  }
}
