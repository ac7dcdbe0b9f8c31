/**
 A pool of nodes: who has which, and who could have (pool.go).
 */
module Pools {
  import opened Options
  import opened Seqs
  import opened Matching

  /** Distinct nodes of a set that satisfy the specs, each the spec at its place. */
  ghost predicate Serves<S, N(!new)>(fits: (S, N) -> bool, specs: seq<S>, nodes: set<N>, given: seq<N>) {
    && |given| == |specs|
    && Distinct(given)
    && (forall i :: 0 <= i < |given| ==> given[i] in nodes && fits(specs[i], given[i]))
  }

  /** Some nodes of the set serve the specs. */
  ghost predicate Servable<S, N(!new)>(fits: (S, N) -> bool, specs: seq<S>, nodes: set<N>) {
    exists given :: Serves(fits, specs, nodes, given)
  }

  lemma MoreServe<S, N(!new)>(fits: (S, N) -> bool, specs: seq<S>, nodes: set<N>, more: set<N>)
    requires nodes <= more && Servable(fits, specs, nodes)
    ensures Servable(fits, specs, more)
  {
    var given :| Serves(fits, specs, nodes, given);
    assert Serves(fits, specs, more, given);
  }

  /** Whether the specs can be served depends on which nodes there are, not on their order. */
  lemma FeasibleMeans<S, N(!new)>(fits: (S, N) -> bool, specs: seq<S>, candidates: seq<N>)
    requires Distinct(candidates)
    ensures Feasible(Demand(specs, candidates, fits)) <==> Servable(fits, specs, Elements(candidates))
  {
    var d := Demand(specs, candidates, fits);
    if Feasible(d) {
      var f :| IsAssignment(d, f);
      PickedServe(d, f);
    }
    if Servable(fits, specs, Elements(candidates)) {
      var given :| Serves(fits, specs, Elements(candidates), given);
      var f := seq(|given|, i requires 0 <= i < |given| => Place(candidates, given[i]));
      assert IsAssignment(d, f);
    }
  }

  ghost function Place<N>(s: seq<N>, x: N): (p: nat)
    ensures x in s ==> p < |s| && s[p] == x
  {
    if s == [] then 0 else if s[|s| - 1] == x then |s| - 1 else Place(s[..|s| - 1], x)
  }

  ghost function Picked<S, N(!new)>(d: Demand<S, N>, f: seq<nat>): (given: seq<N>)
    requires forall i :: 0 <= i < |f| ==> f[i] < |d.candidates|
    ensures |given| == |f| && forall i :: 0 <= i < |f| ==> given[i] == d.candidates[f[i]]
  {
    if f == [] then [] else Picked(d, f[..|f| - 1]) + [d.candidates[f[|f| - 1]]]
  }

  lemma PickedServe<S, N(!new)>(d: Demand<S, N>, f: seq<nat>)
    requires IsAssignment(d, f) && Distinct(d.candidates)
    ensures Serves(d.fits, d.specs, Elements(d.candidates), Picked(d, f))
  {
  }

  /** Every node is free, in use or evicted, and no two of these. */
  ghost predicate Parted<N>(nodes: set<N>, free: seq<N>, inUse: set<N>, evicted: set<N>) {
    && Distinct(free)
    && nodes == Elements(free) + inUse + evicted
    && Elements(free) !! inUse && Elements(free) !! evicted && inUse !! evicted
  }

  lemma Parts<N>(nodes: set<N>, free: seq<N>, inUse: set<N>, evicted: set<N>)
    requires Parted(nodes, free, inUse, evicted)
    ensures Distinct(free) && Elements(free) !! inUse && nodes - evicted == Elements(free) + inUse
  {
  }

  lemma ServesMeans<S, N(!new)>(fits: (S, N) -> bool, specs: seq<S>, nodes: set<N>, given: seq<N>)
    requires Serves(fits, specs, nodes, given)
    ensures Elements(given) <= nodes && Servable(fits, specs, nodes)
  {
  }

  /** Distinct nodes of a list that satisfy the specs, whenever some do. */
  method Choose<S, N(!new)>(candidates: seq<N>, specs: seq<S>, fits: (S, N) -> bool, score: S -> int)
      returns (chosen: Option<seq<N>>)
    requires Distinct(candidates)
    ensures chosen.Some? <==> Servable(fits, specs, Elements(candidates))
    ensures chosen.Some? ==> Serves(fits, specs, Elements(candidates), chosen.value)
  {
    hide Servable, Serves, Feasible;
    ghost var f, short, near;
    chosen, f, short, near := MatchSpecs(candidates, specs, fits, score);
    FeasibleMeans(fits, specs, candidates);
    if chosen.Some? {
      ghost var d := Demand(specs, candidates, fits);
      PickedServe(d, f);
      assert chosen.value == Picked(d, f);
    }
  }

  /** A list of nodes, and those of a set after them. */
  method Join<N(==)>(free: seq<N>, inUse: set<N>) returns (all: seq<N>)
    requires Distinct(free) && Elements(free) !! inUse
    ensures Distinct(all) && Elements(all) == Elements(free) + inUse
  {
    hide Elements, Distinct;
    all := free;
    var todo := inUse;
    while todo != {}
      invariant todo <= inUse && Distinct(all) && Elements(all) == Elements(free) + (inUse - todo)
      decreases |todo|
    {
      var n :| n in todo;
      JoinSets(Elements(free), inUse, todo, n);
      JoinOne(all, n);
      all, todo := all + [n], todo - {n};
    }
  }

  lemma JoinSets<N>(free: set<N>, inUse: set<N>, todo: set<N>, n: N)
    requires todo <= inUse && n in todo
    ensures free + (inUse - todo) + {n} == free + (inUse - (todo - {n}))
    ensures free !! inUse ==> n !in free + (inUse - todo)
  {
  }

  lemma JoinOne<N>(all: seq<N>, n: N)
    requires Distinct(all) && n !in Elements(all)
    ensures Distinct(all + [n]) && Elements(all + [n]) == Elements(all) + {n}
  {
  }

  /** The nodes allocated to one job. */
  class SubPool<N> {
    const nodes: seq<N>
    var freed: bool

    constructor (nodes: seq<N>)
      ensures this.nodes == nodes && !freed
    {
      this.nodes, freed := nodes, false;
    }
  }

  class Pool<S, N(==, !new)> {
    const fits: (S, N) -> bool
    const score: S -> int
    const total: nat
    ghost const nodes: set<N>
    var free: seq<N>
    var inUse: set<N>
    var maxUsed: nat
    ghost var evicted: set<N>

    ghost predicate Valid()
      reads this
    {
      Parted(nodes, free, inUse, evicted) && total == |nodes| && |inUse| <= maxUsed <= total
    }

    constructor (nodes: seq<N>, fits: (S, N) -> bool, score: S -> int)
      requires Distinct(nodes)
      ensures Valid() && free == nodes && inUse == {} && evicted == {} && maxUsed == 0
      ensures this.nodes == Elements(nodes) && total == |nodes| && this.fits == fits && this.score == score
    {
      DistinctSize(nodes);
      this.fits, this.score, this.nodes, total := fits, score, Elements(nodes), |nodes|;
      free, inUse, maxUsed, evicted := nodes, {}, 0, {};
    }

    /** Moves free nodes that serve the specs to a subpool whenever some do, and otherwise changes nothing. */
    method Allocate(specs: seq<S>) returns (sub: SubPool?<N>)
      requires Valid()
      modifies this
      ensures Valid() && evicted == old(evicted)
      ensures sub != null <==> Servable(fits, specs, Elements(old(free)))
      ensures sub == null ==> free == old(free) && inUse == old(inUse) && maxUsed == old(maxUsed)
      ensures sub != null ==> fresh(sub) && !sub.freed && Serves(fits, specs, Elements(old(free)), sub.nodes)
      ensures sub != null ==>
        Elements(free) == Elements(old(free)) - Elements(sub.nodes) && inUse == old(inUse) + Elements(sub.nodes)
      ensures sub != null ==> maxUsed == if |inUse| > old(maxUsed) then |inUse| else old(maxUsed)
    {
      hide Serves, Servable, Parted, Elements, Distinct, Without;
      Parts(nodes, free, inUse, evicted);
      var chosen := Choose(free, specs, fits, score);
      if chosen.None? {
        return null;
      }
      ServesMeans(fits, specs, Elements(free), chosen.value);
      var claimed := Elements(chosen.value);
      var kept := Without(free, claimed);
      Carve(nodes, free, inUse, evicted, claimed);
      inUse, free := inUse + claimed, kept;
      if |inUse| > maxUsed {
        maxUsed := |inUse|;
      }
      sub := new SubPool(chosen.value);
    }

    /** Whether the free nodes could satisfy the specs. */
    method CanAllocate(specs: seq<S>) returns (can: bool)
      requires Valid()
      ensures can <==> Servable(fits, specs, Elements(free))
    {
      Parts(nodes, free, inUse, evicted);
      var chosen := Choose(free, specs, fits, score);
      can := chosen.Some?;
    }

    /** Whether the nodes not evicted could satisfy the specs if all were free. */
    method CanEverFit(specs: seq<S>) returns (can: bool)
      requires Valid()
      ensures can <==> Servable(fits, specs, nodes - evicted)
    {
      hide Servable, Elements;
      Parts(nodes, free, inUse, evicted);
      var all := Join(free, inUse);
      var chosen := Choose(all, specs, fits, score);
      can := chosen.Some?;
    }

    /** A job's nodes that have not been given back are in use. */
    ghost predicate Lent(sub: SubPool<N>)
      reads this, sub
    {
      !sub.freed ==> Distinct(sub.nodes) && Elements(sub.nodes) <= inUse
    }

    /** Gives a job's nodes back, once. */
    method Free(sub: SubPool?<N>)
      requires Valid() && (sub != null ==> Lent(sub))
      modifies this`free, this`inUse, sub
      ensures Valid()
      ensures sub == null || old(sub.freed) ==> free == old(free) && inUse == old(inUse)
      ensures sub != null && !old(sub.freed) ==>
        free == old(free) + sub.nodes && inUse == old(inUse) - Elements(sub.nodes)
      ensures sub != null ==> sub.freed
    {
      if sub == null || sub.freed {
        return;
      }
      sub.freed := true;
      GivenBack(nodes, free, inUse, evicted, sub.nodes);
      inUse, free := inUse - Elements(sub.nodes), free + sub.nodes;
    }

    /** Takes a job's nodes out of circulation, once. */
    method Evict(sub: SubPool?<N>)
      requires Valid() && (sub != null ==> Lent(sub))
      modifies this`inUse, this`evicted, sub
      ensures Valid()
      ensures sub == null || old(sub.freed) ==> inUse == old(inUse) && evicted == old(evicted)
      ensures sub != null && !old(sub.freed) ==>
        evicted == old(evicted) + Elements(sub.nodes) && inUse == old(inUse) - Elements(sub.nodes)
      ensures sub != null ==> sub.freed
    {
      if sub == null || sub.freed {
        return;
      }
      sub.freed := true;
      var gone := Elements(sub.nodes);
      Removed(nodes, free, inUse, evicted, gone);
      inUse, evicted := inUse - gone, evicted + gone;
    }
  }

  function Without<N(==)>(s: seq<N>, gone: set<N>): seq<N> {
    if s == [] then [] else Without(s[..|s| - 1], gone) + if s[|s| - 1] in gone then [] else [s[|s| - 1]]
  }

  lemma {:induction false} WithoutMeans<N>(s: seq<N>, gone: set<N>)
    ensures forall x :: x in Without(s, gone) <==> x in s && x !in gone
    ensures Distinct(s) ==> Distinct(Without(s, gone))
  {
    if s != [] {
      var n := |s| - 1;
      WithoutMeans(s[..n], gone);
      assert s == s[..n] + [s[n]];
    }
  }

  lemma UsedLess<N>(inUse: set<N>, gone: set<N>)
    ensures |inUse - gone| <= |inUse|
  {
    SubsetSize(inUse - gone, inUse);
  }

  lemma GivenBack<N>(nodes: set<N>, free: seq<N>, inUse: set<N>, evicted: set<N>, back: seq<N>)
    requires Parted(nodes, free, inUse, evicted) && Distinct(back) && Elements(back) <= inUse
    ensures Parted(nodes, free + back, inUse - Elements(back), evicted)
    ensures |inUse - Elements(back)| <= |inUse|
  {
    UsedLess(inUse, Elements(back));
    assert Elements(free + back) == Elements(free) + Elements(back);
    forall i, j | 0 <= i < j < |free + back| ensures (free + back)[i] != (free + back)[j] {
      if i < |free| <= j {
        assert free[i] in Elements(free) && back[j - |free|] in Elements(back);
      }
    }
  }

  lemma Removed<N>(nodes: set<N>, free: seq<N>, inUse: set<N>, evicted: set<N>, gone: set<N>)
    requires Parted(nodes, free, inUse, evicted) && gone <= inUse
    ensures Parted(nodes, free, inUse - gone, evicted + gone)
    ensures |inUse - gone| <= |inUse|
  {
    UsedLess(inUse, gone);
  }

  lemma Carve<N>(nodes: set<N>, free: seq<N>, inUse: set<N>, evicted: set<N>, claimed: set<N>)
    requires Parted(nodes, free, inUse, evicted) && claimed <= Elements(free)
    ensures Parted(nodes, Without(free, claimed), inUse + claimed, evicted)
    ensures Elements(Without(free, claimed)) == Elements(free) - claimed
    ensures |inUse + claimed| <= |nodes|
  {
    KeptElements(free, claimed);
    CarveSets(nodes, Elements(free), inUse, evicted, claimed);
    SubsetSize(inUse + claimed, nodes);
  }

  lemma KeptElements<N>(free: seq<N>, claimed: set<N>)
    requires Distinct(free)
    ensures Elements(Without(free, claimed)) == Elements(free) - claimed && Distinct(Without(free, claimed))
  {
    hide Without;
    WithoutMeans(free, claimed);
    var kept := Without(free, claimed);
    forall x ensures x in Elements(kept) <==> x in Elements(free) - claimed {
      assert x in kept <==> x in free && x !in claimed;
    }
    assert Elements(kept) == Elements(free) - claimed;
  }

  lemma CarveSets<N>(nodes: set<N>, free: set<N>, inUse: set<N>, evicted: set<N>, claimed: set<N>)
    requires nodes == free + inUse + evicted && free !! inUse && free !! evicted && inUse !! evicted && claimed <= free
    ensures nodes == (free - claimed) + (inUse + claimed) + evicted
    ensures (free - claimed) !! (inUse + claimed) && (free - claimed) !! evicted && (inUse + claimed) !! evicted
    ensures inUse + claimed <= nodes
  {
  }
}
