/**
 Assigning distinct nodes to node specs, by augmenting paths (pool.go, matchSpecs, augmentSpec
 and constraintOrder).
 */
module Matching {
  import opened Options
  import opened Seqs
  import opened History
  import opened Sorting

  /** Which candidates satisfy which specs, by index. */
  datatype Demand<!S, !N> = Demand(specs: seq<S>, candidates: seq<N>, fits: (S, N) -> bool) {
    predicate Fits(i: nat, j: nat)
      requires i < |specs| && j < |candidates|
    {
      fits(specs[i], candidates[j])
    }
  }

  /** An assignment of distinct satisfying candidates to all specs. */
  ghost predicate IsAssignment<S, N>(d: Demand<S, N>, f: seq<nat>) {
    && |f| == |d.specs|
    && (forall i :: 0 <= i < |f| ==> f[i] < |d.candidates| && d.Fits(i, f[i]))
    && Distinct(f)
  }

  ghost predicate Feasible<S, N>(d: Demand<S, N>) {
    exists f :: IsAssignment(d, f)
  }

  /** Each candidate held is held by the spec that has it, and satisfies it; but for the candidate `hole`. */
  ghost predicate ValidBut<S, N>(d: Demand<S, N>, held: seq<int>, has: seq<int>, hole: int) {
    && |held| == |d.candidates| && |has| == |d.specs|
    && (forall j :: 0 <= j < |held| && j != hole && held[j] != -1 ==>
      0 <= held[j] < |has| && has[held[j]] == j && d.Fits(held[j], j))
    && (forall i :: 0 <= i < |has| && has[i] != -1 ==> 0 <= has[i] < |held| && has[i] != hole && held[has[i]] == i)
  }

  ghost predicate AllSeen<S, N>(d: Demand<S, N>, i: nat, seen: seq<bool>)
    requires i < |d.specs| && |seen| == |d.candidates|
  {
    forall j :: 0 <= j < |seen| && d.Fits(i, j) ==> seen[j]
  }

  /** Each candidate seen since is held by a spec all of whose candidates have been seen. */
  ghost predicate DeadEnds<S, N>(d: Demand<S, N>, held: seq<int>, was: seq<bool>, seen: seq<bool>) {
    && |held| == |was| == |seen| == |d.candidates|
    && (forall j :: 0 <= j < |seen| && was[j] ==> seen[j])
    && (forall j :: 0 <= j < |seen| && seen[j] && !was[j] ==> 0 <= held[j] < |d.specs| && AllSeen(d, held[j], seen))
  }

  ghost function Unseen(seen: seq<bool>): set<nat> {
    set j: nat | j < |seen| && !seen[j]
  }

  lemma FewerUnseen(was: seq<bool>, seen: seq<bool>, j: nat)
    requires |was| == |seen| && j < |was| && !was[j] && seen[j] && forall k :: 0 <= k < |was| && was[k] ==> seen[k]
    ensures |Unseen(seen)| < |Unseen(was)|
  {
    assert Unseen(seen) <= Unseen(was) - {j};
    SubsetSize(Unseen(seen), Unseen(was) - {j});
  }

  /** What a spec's matching moves and what it keeps. */
  ghost predicate Moved(held0: seq<int>, has0: seq<int>, was: seq<bool>, held: seq<int>, has: seq<int>, si: nat)
    requires |held0| == |held| == |was| && |has0| == |has|
  {
    && (forall j :: 0 <= j < |held| && was[j] ==> held[j] == held0[j])
    && (forall i :: 0 <= i < |has| && i != si ==> (has[i] == -1 <==> has0[i] == -1))
  }

  /** The spec takes the candidate, which its holder has left. */
  lemma Take<S, N>(d: Demand<S, N>, held0: seq<int>, has0: seq<int>, held: seq<int>, has: seq<int>, was: seq<bool>,
      si: nat, j: nat)
    requires ValidBut(d, held0, has0, -1) && si < |d.specs| && j < |d.candidates| == |was| && d.Fits(si, j)
    requires ValidBut(d, held, has, j) && !was[j] && (has0[si] != -1 ==> was[has0[si]])
    requires has[si] == has0[si]
    requires forall k :: 0 <= k < |held| && was[k] ==> held[k] == held0[k]
    ensures ValidBut(d, held[j := si], has[si := j], has0[si])
  {
  }

  /**
   Tries to match spec `si`, rerouting earlier matches when the candidates it can use are taken. If it
   cannot, nothing has moved, and neither it nor any spec holding a candidate seen can reach a
   candidate that was not seen.
   */
  method AugmentSpec<S, N>(si: nat, d: Demand<S, N>, specOfCand: array<int>, candOfSpec: array<int>,
      seen: array<bool>) returns (r: bool)
    requires si < |d.specs| && specOfCand != candOfSpec && seen.Length == |d.candidates|
    requires ValidBut(d, specOfCand[..], candOfSpec[..], -1)
    requires candOfSpec[si] != -1 ==> seen[candOfSpec[si]]
    modifies specOfCand, candOfSpec, seen
    ensures r ==> ValidBut(d, specOfCand[..], candOfSpec[..], old(candOfSpec[si])) && candOfSpec[si] != -1
    ensures r ==> Moved(old(specOfCand[..]), old(candOfSpec[..]), old(seen[..]), specOfCand[..], candOfSpec[..], si)
    ensures !r ==> specOfCand[..] == old(specOfCand[..]) && candOfSpec[..] == old(candOfSpec[..])
    ensures !r ==> AllSeen(d, si, seen[..]) && DeadEnds(d, specOfCand[..], old(seen[..]), seen[..])
    decreases |Unseen(seen[..])|
  {
    hide AllSeen, Unseen;
    ghost var held0, has0, was := specOfCand[..], candOfSpec[..], seen[..];
    for j := 0 to |d.candidates|
      invariant specOfCand[..] == held0 && candOfSpec[..] == has0
      invariant DeadEnds(d, held0, was, seen[..])
      invariant forall k :: 0 <= k < j && d.Fits(si, k) ==> seen[k]
    {
      if !seen[j] && d.Fits(si, j) {
        ghost var before := seen[..];
        seen[j] := true;
        FewerUnseen(was, seen[..], j);
        if specOfCand[j] == -1 {
          TakeFree(d, held0, has0, was, si, j);
          specOfCand[j] := si;
          candOfSpec[si] := j;
          assert specOfCand[..] == held0[j := si] && candOfSpec[..] == has0[si := j];
          return true;
        }
        ghost var marked := seen[..];
        var moved := AugmentSpec(specOfCand[j], d, specOfCand, candOfSpec, seen);
        if moved {
          ghost var held, has := specOfCand[..], candOfSpec[..];
          TakeLeft(d, held0, has0, held, has, was, marked, si, j);
          specOfCand[j] := si;
          candOfSpec[si] := j;
          assert specOfCand[..] == held[j := si] && candOfSpec[..] == has[si := j];
          return true;
        }
        DeadEndsMore(d, held0, was, before, marked, seen[..], j);
      }
    }
    AllTried(d, si, seen[..]);
    r := false;
  }

  lemma AllTried<S, N>(d: Demand<S, N>, si: nat, seen: seq<bool>)
    requires si < |d.specs| && |seen| == |d.candidates|
    requires forall k :: 0 <= k < |d.candidates| && d.Fits(si, k) ==> seen[k]
    ensures AllSeen(d, si, seen)
  {
  }

  /** Taking a candidate that is free. */
  lemma TakeFree<S, N>(d: Demand<S, N>, held0: seq<int>, has0: seq<int>, was: seq<bool>, si: nat, j: nat)
    requires ValidBut(d, held0, has0, -1) && si < |d.specs| && j < |d.candidates| == |was| && d.Fits(si, j)
    requires held0[j] == -1 && !was[j] && (has0[si] != -1 ==> was[has0[si]])
    ensures ValidBut(d, held0[j := si], has0[si := j], has0[si])
    ensures Moved(held0, has0, was, held0[j := si], has0[si := j], si)
  {
    Take(d, held0, has0, held0, has0, was, si, j);
  }

  /** Taking a candidate whose holder has been rerouted. */
  lemma TakeLeft<S, N>(d: Demand<S, N>, held0: seq<int>, has0: seq<int>, held: seq<int>, has: seq<int>,
      was: seq<bool>, marked: seq<bool>, si: nat, j: nat)
    requires ValidBut(d, held0, has0, -1) && si < |d.specs| && j < |d.candidates| == |was| == |marked| && d.Fits(si, j)
    requires !was[j] && marked[j] && (forall k :: 0 <= k < |was| && was[k] ==> marked[k])
    requires (has0[si] != -1 ==> was[has0[si]]) && held0[j] != -1
    requires |held| == |held0| && |has| == |has0| && ValidBut(d, held, has, has0[held0[j]])
    requires Moved(held0, has0, marked, held, has, held0[j]) && has[held0[j]] != -1
    ensures ValidBut(d, held[j := si], has[si := j], has0[si])
    ensures Moved(held0, has0, was, held[j := si], has[si := j], si)
  {
    KeepsOwn(d, held0, has0, held, has, marked, si, j);
    Take(d, held0, has0, held, has, was, si, j);
    MovedOn(d, held0, has0, held, has, was, marked, si, j);
  }

  lemma MovedOn<S, N>(d: Demand<S, N>, held0: seq<int>, has0: seq<int>, held: seq<int>, has: seq<int>,
      was: seq<bool>, marked: seq<bool>, si: nat, j: nat)
    requires ValidBut(d, held0, has0, -1) && si < |d.specs| && j < |d.candidates| == |was| == |marked|
    requires !was[j] && (forall k :: 0 <= k < |was| && was[k] ==> marked[k]) && held0[j] != -1
    requires |held| == |held0| && |has| == |has0| && Moved(held0, has0, marked, held, has, held0[j])
    requires has[held0[j]] != -1
    ensures Moved(held0, has0, was, held[j := si], has[si := j], si)
  {
  }

  /** Rerouting the holder of `j` leaves the spec that asks for it where it was. */
  lemma KeepsOwn<S, N>(d: Demand<S, N>, held0: seq<int>, has0: seq<int>, held: seq<int>, has: seq<int>,
      marked: seq<bool>, si: nat, j: nat)
    requires ValidBut(d, held0, has0, -1) && si < |d.specs| && j < |held0| == |marked| && held0[j] != -1
    requires |held| == |held0| && |has| == |has0| && ValidBut(d, held, has, has0[held0[j]])
    requires Moved(held0, has0, marked, held, has, held0[j]) && held0[j] != si &&
      (has0[si] != -1 ==> marked[has0[si]] && has0[si] != j)
    ensures has[si] == has0[si]
  {
  }

  lemma DeadEndsMore<S, N>(d: Demand<S, N>, held: seq<int>, was: seq<bool>, before: seq<bool>, marked: seq<bool>,
      seen: seq<bool>, j: nat)
    requires DeadEnds(d, held, was, before) && j < |before| && marked == before[j := true]
    requires DeadEnds(d, held, marked, seen) && 0 <= held[j] < |d.specs| && AllSeen(d, held[j], seen)
    ensures DeadEnds(d, held, was, seen)
  {
  }

  // ----- Too few candidates for some specs

  /** The candidates that satisfy some spec of a set. */
  ghost predicate Reaches<S, N>(d: Demand<S, N>, short: set<nat>, j: nat) {
    exists i :: i in short && i < |d.specs| && j < |d.candidates| && d.Fits(i, j)
  }

  /** A set of specs with fewer satisfying candidates than specs. */
  ghost predicate TooFew<S, N>(d: Demand<S, N>, short: set<nat>, near: set<nat>) {
    && (forall i :: i in short ==> i < |d.specs|)
    && (forall j :: Reaches(d, short, j) ==> j in near)
    && |near| < |short|
  }

  ghost function Image(f: seq<nat>, s: set<nat>): set<nat>
    requires forall i :: i in s ==> i < |f|
  {
    set i | i in s :: f[i]
  }

  lemma {:induction false} ImageSize(f: seq<nat>, s: set<nat>)
    requires Distinct(f) && forall i :: i in s ==> i < |f|
    ensures |Image(f, s)| == |s|
  {
    if s != {} {
      var x :| x in s;
      ImageSize(f, s - {x});
      assert Image(f, s) == Image(f, s - {x}) + {f[x]};
      assert f[x] !in Image(f, s - {x});
    }
  }

  /** With too few candidates for some specs, no assignment exists. */
  lemma NoneFeasible<S, N>(d: Demand<S, N>, short: set<nat>, near: set<nat>)
    requires TooFew(d, short, near)
    ensures !Feasible(d)
  {
    if Feasible(d) {
      var f :| IsAssignment(d, f);
      ImageSize(f, short);
      forall j | j in Image(f, short) ensures j in near {
        var i :| i in short && f[i] == j;
        assert Reaches(d, short, j);
      }
      SubsetSize(Image(f, short), near);
      assert false;
    }
  }

  ghost function Seen(seen: seq<bool>): set<nat> {
    set j: nat | j < |seen| && seen[j]
  }

  ghost function HolderOf(held: seq<int>, j: nat): nat {
    if j < |held| && held[j] >= 0 then held[j] else 0
  }

  ghost function Holders(held: seq<int>, near: set<nat>): set<nat> {
    set j | j in near :: HolderOf(held, j)
  }

  lemma {:induction false} HoldersSize<S, N>(d: Demand<S, N>, held: seq<int>, has: seq<int>, near: set<nat>)
    requires ValidBut(d, held, has, -1) && forall j :: j in near ==> j < |held| && held[j] != -1
    ensures |Holders(held, near)| == |near|
  {
    if near != {} {
      var x :| x in near;
      HoldersSize(d, held, has, near - {x});
      assert Holders(held, near) == Holders(held, near - {x}) + {HolderOf(held, x)};
    }
  }

  /** A spec that could not be matched, and the specs holding the candidates seen, are too many for those candidates. */
  lemma Stuck<S, N>(d: Demand<S, N>, held: seq<int>, has: seq<int>, si: nat, none: seq<bool>, seen: seq<bool>)
      returns (short: set<nat>, near: set<nat>)
    requires ValidBut(d, held, has, -1) && si < |d.specs| && has[si] == -1 && (forall j :: 0 <= j < |none| ==> !none[j])
    requires DeadEnds(d, held, none, seen) && AllSeen(d, si, seen)
    ensures TooFew(d, short, near)
  {
    hide AllSeen, Holders, Seen, DeadEnds, ValidBut, Reaches;
    near := Seen(seen);
    SeenHeld(d, held, none, seen);
    HeldSize(d, held, has);
    HoldersSize(d, held, has, near);
    NotHolding(d, held, has, si, near);
    short := Holders(held, near) + {si};
    forall j: nat | Reaches(d, short, j) ensures j in near {
      ReachSeen(d, held, si, none, seen, j);
    }
  }

  lemma HeldSize<S, N>(d: Demand<S, N>, held: seq<int>, has: seq<int>)
    requires ValidBut(d, held, has, -1)
    ensures |held| == |d.candidates| && |has| == |d.specs|
  {
  }

  lemma SeenHeld<S, N>(d: Demand<S, N>, held: seq<int>, none: seq<bool>, seen: seq<bool>)
    requires DeadEnds(d, held, none, seen) && forall j :: 0 <= j < |none| ==> !none[j]
    ensures forall j :: j in Seen(seen) ==> j < |held| && held[j] != -1
  {
    hide AllSeen;
  }

  /** What the stuck spec, or a spec holding a candidate seen, can use has been seen. */
  lemma ReachSeen<S, N>(d: Demand<S, N>, held: seq<int>, si: nat, none: seq<bool>, seen: seq<bool>, j: nat)
    requires DeadEnds(d, held, none, seen) && (forall j :: 0 <= j < |none| ==> !none[j]) && si < |d.specs| &&
      AllSeen(d, si, seen)
    requires Reaches(d, Holders(held, Seen(seen)) + {si}, j)
    ensures j in Seen(seen)
  {
    hide AllSeen;
    var i :| i in Holders(held, Seen(seen)) + {si} && i < |d.specs| && j < |d.candidates| && d.Fits(i, j);
    if i != si {
      var k :| k in Seen(seen) && HolderOf(held, k) == i;
    }
    SeenBy(d, i, j, seen);
  }

  lemma NotHolding<S, N>(d: Demand<S, N>, held: seq<int>, has: seq<int>, si: nat, near: set<nat>)
    requires ValidBut(d, held, has, -1) && si < |d.specs| && has[si] == -1 && forall j :: j in near ==>
      j < |held| && held[j] != -1
    ensures si !in Holders(held, near) && forall i :: i in Holders(held, near) ==> i < |d.specs|
  {
  }

  lemma SeenBy<S, N>(d: Demand<S, N>, i: nat, j: nat, seen: seq<bool>)
    requires i < |d.specs| && j < |d.candidates| == |seen| && d.Fits(i, j) && AllSeen(d, i, seen)
    ensures j in Seen(seen)
  {
  }

  // ----- All specs

  /** Spec indices by decreasing constraint. */
  function ConstraintOrder<S>(specs: seq<S>, score: S -> int): seq<nat> {
    Sort<nat>(Upto(|specs|), (a: nat, b: nat) => ScoreAt(specs, score, b) <= ScoreAt(specs, score, a))
  }

  function ScoreAt<S>(specs: seq<S>, score: S -> int, i: nat): int { if i < |specs| then score(specs[i]) else 0 }

  /** Specs come by falling score, and those of one score in the order given. */
  lemma OrderByScore<S>(specs: seq<S>, score: S -> int, i: nat, j: nat)
    requires i < j < |ConstraintOrder(specs, score)|
    ensures var a, b := ConstraintOrder(specs, score)[i], ConstraintOrder(specs, score)[j];
      a < |specs| && b < |specs| && (score(specs[a]) > score(specs[b]) || (score(specs[a]) == score(specs[b]) && a < b))
  {
    hide ScoreAt;
    SortedByScore(specs, score, (a: nat, b: nat) => ScoreAt(specs, score, b) <= ScoreAt(specs, score, a), NatLess, i,
      j);
    OrderIsAll(specs, score);
    ScoresAre(specs, score);
  }

  lemma ScoresAre<S>(specs: seq<S>, score: S -> int)
    ensures forall i: nat :: i < |specs| ==> ScoreAt(specs, score, i) == score(specs[i])
  {
  }

  lemma SortedByScore<S>(specs: seq<S>, score: S -> int, le: (nat, nat) -> bool, before: (nat, nat) -> bool, i: nat,
      j: nat)
    requires forall a, b :: le(a, b) <==> ScoreAt(specs, score, b) <= ScoreAt(specs, score, a)
    requires (forall a, b :: before(a, b) <==> a < b) && i < j < |Sort(Upto(|specs|), le)|
    ensures var a, b := Sort(Upto(|specs|), le)[i], Sort(Upto(|specs|), le)[j];
      ScoreAt(specs, score, b) <= ScoreAt(specs, score, a) &&
      (ScoreAt(specs, score, a) <= ScoreAt(specs, score, b) ==> a < b)
  {
    hide ScoreAt;
    SortStable(Upto(|specs|), le, before);
    var r := Sort(Upto(|specs|), le);
    assert Ahead(le, before, r[i], r[j]);
  }

  lemma OrderIsAll<S>(specs: seq<S>, score: S -> int)
    ensures InRange(|specs|, ConstraintOrder(specs, score)) && Distinct(ConstraintOrder(specs, score)) &&
      |ConstraintOrder(specs, score)| == |specs|
  {
    var all, order := Upto(|specs|), ConstraintOrder(specs, score);
    SameElements(all, order);
    SameDistinct(all, order);
    forall k | 0 <= k < |order| ensures order[k] < |specs| {
      assert order[k] in order;
    }
  }

  ghost predicate MatchedAll(order: seq<nat>, n: nat, has: seq<int>)
    requires InRange(|has|, order) && n <= |order|
  {
    forall k :: 0 <= k < n ==> has[order[k]] != -1
  }

  /** The specs still to come are not matched. */
  ghost predicate UnmatchedYet(order: seq<nat>, n: nat, has: seq<int>)
    requires InRange(|has|, order)
  {
    forall k :: n <= k < |order| ==> has[order[k]] == -1
  }

  /** Matches the specs in turn, counting those that could be. */
  method MatchAll<S, N>(d: Demand<S, N>, order: seq<nat>, specOfCand: array<int>, candOfSpec: array<int>)
    returns (matched: nat, ghost short: set<nat>, ghost near: set<nat>)
    requires InRange(|d.specs|, order) && Distinct(order) && specOfCand != candOfSpec
    requires ValidBut(d, specOfCand[..], candOfSpec[..], -1) && UnmatchedYet(order, 0, candOfSpec[..])
    modifies specOfCand, candOfSpec
    ensures ValidBut(d, specOfCand[..], candOfSpec[..], -1) && matched <= |order|
    ensures matched == |order| ==> MatchedAll(order, |order|, candOfSpec[..])
    ensures matched < |order| ==> TooFew(d, short, near)
  {
    hide TooFew, MatchedAll, UnmatchedYet, AllSeen, DeadEnds, Distinct, Moved, Unseen;
    matched, short, near := 0, {}, {};
    MatchedNone(order, candOfSpec[..]);
    for n := 0 to |order|
      invariant ValidBut(d, specOfCand[..], candOfSpec[..], -1) && UnmatchedYet(order, n, candOfSpec[..])
      invariant matched <= n && (matched == n ==> MatchedAll(order, n, candOfSpec[..]))
      invariant matched < n ==> TooFew(d, short, near)
    {
      var seen := new bool[|d.candidates|](_ => false);
      ghost var none, held0, has0 := seen[..], specOfCand[..], candOfSpec[..];
      NextUnmatched(order, n, has0);
      var r := AugmentSpec(order[n], d, specOfCand, candOfSpec, seen);
      if r {
        matched := matched + 1;
        StillRight(order, n, held0, has0, none, specOfCand[..], candOfSpec[..]);
      } else {
        short, near := Stuck(d, specOfCand[..], candOfSpec[..], order[n], none, seen[..]);
      }
    }
  }

  lemma MatchedNone(order: seq<nat>, has: seq<int>)
    requires InRange(|has|, order)
    ensures MatchedAll(order, 0, has)
  {
  }

  lemma NextUnmatched(order: seq<nat>, n: nat, has: seq<int>)
    requires InRange(|has|, order) && n < |order| && UnmatchedYet(order, n, has)
    ensures has[order[n]] == -1 && UnmatchedYet(order, n + 1, has)
  {
  }

  /**
   Assigns a distinct satisfying candidate to every spec, in spec order, whenever any assignment
   exists; and if none does, there are specs with too few candidates between them.
   */
  method MatchSpecs<S, N>(candidates: seq<N>, specs: seq<S>, fits: (S, N) -> bool, score: S -> int)
    returns (chosen: Option<seq<N>>, ghost f: seq<nat>, ghost short: set<nat>, ghost near: set<nat>)
    ensures chosen.Some? <==> Feasible(Demand(specs, candidates, fits))
    ensures chosen.Some? ==>
      IsAssignment(Demand(specs, candidates, fits), f) && |chosen.value| == |specs| && forall i ::
      0 <= i < |specs| ==> chosen.value[i] == candidates[f[i]]
    ensures chosen.None? ==> TooFew(Demand(specs, candidates, fits), short, near)
  {
    hide TooFew, MatchedAll, Feasible;
    var d := Demand(specs, candidates, fits);
    f, short, near := [], {}, {};
    var specOfCand := new int[|candidates|](_ => -1);
    var candOfSpec := new int[|specs|](_ => -1);
    var order := ConstraintOrder(specs, score);
    OrderIsAll(specs, score);
    var matched;
    matched, short, near := MatchAll(d, order, specOfCand, candOfSpec);
    if matched != |specs| {
      NoneFeasible(d, short, near);
      chosen := None;
    } else {
      AllMatched(specs, order, candOfSpec[..]);
      Assigned(d, specOfCand[..], candOfSpec[..]);
      f := Chosen(candOfSpec[..]);
      var out := Collect(candidates, candOfSpec, f);
      chosen := Some(out);
    }
  }

  ghost function Chosen(has: seq<int>): (f: seq<nat>)
    ensures |f| == |has| && forall i :: 0 <= i < |has| && has[i] >= 0 ==> f[i] == has[i]
  {
    if has == [] then [] else Chosen(has[..|has| - 1]) + [if has[|has| - 1] >= 0 then has[|has| - 1] else 0]
  }

  method Collect<N>(candidates: seq<N>, candOfSpec: array<int>, ghost f: seq<nat>) returns (out: seq<N>)
    requires |f| == candOfSpec.Length && forall i :: 0 <= i < |f| ==> f[i] == candOfSpec[i] && f[i] < |candidates|
    ensures |out| == |f| && forall i :: 0 <= i < |f| ==> out[i] == candidates[f[i]]
  {
    out := [];
    for i := 0 to candOfSpec.Length
      invariant |out| == i && forall k :: 0 <= k < i ==> out[k] == candidates[f[k]]
    {
      out := out + [candidates[candOfSpec[i]]];
    }
  }

  lemma StillRight(order: seq<nat>, n: nat, held0: seq<int>, has0: seq<int>, was: seq<bool>, held: seq<int>,
      has: seq<int>)
    requires |held| == |held0| == |was| && |has| == |has0| && InRange(|has|, order) && Distinct(order)
    requires n < |order| && has[order[n]] != -1 && Moved(held0, has0, was, held, has, order[n])
    requires UnmatchedYet(order, n, has0)
    ensures UnmatchedYet(order, n + 1, has)
    ensures MatchedAll(order, n, has0) ==> MatchedAll(order, n + 1, has)
  {
    forall k | 0 <= k < n + 1 && MatchedAll(order, n, has0) ensures has[order[k]] != -1 {
      assert k < n ==> order[k] != order[n];
    }
  }

  lemma AllMatched<S>(specs: seq<S>, order: seq<nat>, has: seq<int>)
    requires |has| == |specs| == |order| && InRange(|specs|, order) && Distinct(order) &&
      MatchedAll(order, |order|, has)
    ensures forall i :: 0 <= i < |specs| ==> has[i] != -1
  {
    forall i: nat | i < |specs| ensures has[i] != -1 {
      Onto(order, i);
      var k :| 0 <= k < |order| && order[k] == i;
    }
  }

  /** Distinct numbers below `n`, `n` of them, are all there are. */
  lemma Onto(order: seq<nat>, i: nat)
    requires InRange(|order|, order) && Distinct(order) && i < |order|
    ensures i in order
  {
    var all := Below(|order|);
    ImageSize(order, all);
    if i !in order {
      SubsetSize(Image(order, all), all - {i});
    }
  }

  lemma Assigned<S, N>(d: Demand<S, N>, held: seq<int>, has: seq<int>)
    requires ValidBut(d, held, has, -1) && forall i :: 0 <= i < |has| ==> has[i] != -1
    ensures forall i :: 0 <= i < |has| ==> 0 <= has[i] < |d.candidates|
    ensures IsAssignment(d, Chosen(has)) && Feasible(d)
  {
    assert IsAssignment(d, Chosen(has));
  }
}
