/**
 Why locality asks that each group lie within one object: two reads of one group, of two registers,
 that are each explained on their own and not together (linearize/linearize.go, Partition).
 */
module CrossGroups {
  import opened Options
  import opened Seqs
  import opened History
  import opened Partition
  import opened Locality

  /** Sets one of two flags, or reads it. */
  datatype Request = Request(second: bool, write: bool)

  datatype Pair = Pair(first: bool, second: bool)

  function Flag(): Model<bool, Request, bool> {
    Model(false, (s: bool, i: Request, o: bool) => if i.write then (true, true) else (o == s, s), None)
  }

  function Each(second: bool): Model<bool, Request, bool> { Flag() }

  function Flags(): Model<Pair, Request, bool> {
    Model(Pair(false, false), FlagsStep, None)
  }

  function FlagsStep(s: Pair, i: Request, o: bool): (bool, Pair) {
    if !i.write then (o == Part(s, i.second), s)
    else if i.second then (true, Pair(s.first, true))
    else (true, Pair(true, s.second))
  }

  function Part(s: Pair, second: bool): bool { if second then s.second else s.first }

  function Which(i: Request): bool { i.second }

  lemma FlagsAreProduct()
    ensures Product(Flags(), Which, Each, Part)
  {
    ProductOf(Flags(), Which, Each, Part);
  }

  lemma ProductOf(m: Model<Pair, Request, bool>, key: Request -> bool, of: bool -> Model<bool, Request, bool>,
      proj: (Pair, bool) -> bool)
    requires m.init == Pair(false, false) && forall k :: of(k).init == false
    requires forall s, i, o :: m.step(s, i, o) == FlagsStep(s, i, o)
    requires forall k, s, i: Request, o :: of(k).step(s, i, o) == if i.write then (true, true) else (o == s, s)
    requires (forall i: Request :: key(i) == i.second) && forall s, k :: proj(s, k) == Part(s, k)
    ensures Product(m, key, of, proj)
  {
  }

  /** The second flag is set, and after that the first; one group reads the first set and the second not. */
  function Ops(): seq<Op<Request, bool>> {
    [Op(0, 0, 1, 0, Request(true, true), false), Op(0, 2, 3, 0, Request(false, true), false),
     Op(1, 0, 10, 1, Request(false, false), true), Op(2, 0, 10, 1, Request(true, false), false)]
  }

  lemma {:induction false} FlagsAfter(order: seq<nat>, n: nat)
    requires InRange(4, order) && n <= |order|
    ensures var s := StateAfter(Flags(), Ops(), order, n);
      (s.first <==> 1 in order[..n]) && (s.second <==> 0 in order[..n])
  {
    if n > 0 {
      FlagsAfter(order, n - 1);
      TakeNext(order, n - 1);
    }
  }

  lemma PlaceIn(order: seq<nat>, i: nat) returns (p: nat)
    requires i in order
    ensures p < |order| && order[p] == i
  {
    p :| 0 <= p < |order| && order[p] == i;
  }

  lemma BeforeIs(order: seq<nat>, p: nat, n: nat)
    requires Distinct(order) && p < |order| && n <= |order|
    ensures order[p] in order[..n] <==> p < n
  {
    if p < n {
      assert order[..n][p] == order[p];
    }
  }

  lemma NotTogether(order: seq<nat>)
    ensures !IsLinearization(Flags(), Ops(), order)
  {
    hide Legal, StateAfter;
    if IsLinearization(Flags(), Ops(), order) {
      var a := PlaceIn(order, 0);
      var b := PlaceIn(order, 1);
      var c := PlaceIn(order, 2);
      var d := PlaceIn(order, 3);
      LegalStepwise(Flags(), Ops(), order);
      assert LegalAt(Flags(), Ops(), order, c) && LegalAt(Flags(), Ops(), order, d);
      FlagsAfter(order, c);
      FlagsAfter(order, d);
      BeforeIs(order, b, c);
      BeforeIs(order, a, d);
      assert false;
    }
  }

  lemma SecondLinearizable()
    ensures Linearizable(Flag(), [Ops()[0], Ops()[3]])
  {
    var y := [Ops()[0], Ops()[3]];
    LegalStepwise(Flag(), y, [1, 0]);
    assert LegalAt(Flag(), y, [1, 0], 0) && LegalAt(Flag(), y, [1, 0], 1);
    assert 0 in [1, 0] && 1 in [1, 0];
    assert IsLinearization(Flag(), y, [1, 0]);
  }

  lemma FirstLinearizable()
    ensures Linearizable(Flag(), [Ops()[1], Ops()[2]])
  {
    var x := [Ops()[1], Ops()[2]];
    LegalStepwise(Flag(), x, [0, 1]);
    assert LegalAt(Flag(), x, [0, 1], 0) && LegalAt(Flag(), x, [0, 1], 1);
    assert 0 in [0, 1] && 1 in [0, 1];
    assert IsLinearization(Flag(), x, [0, 1]);
  }

  lemma IndicesAre(k: bool)
    ensures Indices(Ops(), Which, k) == if k then [0, 3] else [1, 2]
  {
    hide Indices;
    var o := Ops();
    IndicesNext(o, Which, k, 3);
    IndicesNext(o, Which, k, 2);
    IndicesNext(o, Which, k, 1);
    IndicesNext(o, Which, k, 0);
    assert o[..4] == o && o[..0] == [];
    NoIndices(k);
  }

  lemma NoIndices(k: bool)
    ensures Indices<bool, Request, bool>([], Which, k) == []
  {
  }

  lemma Parts() returns (parts: map<bool, seq<Op<Request, bool>>>)
    ensures PartsOf(Ops(), Which, parts)
    ensures parts == map[true := [Ops()[0], Ops()[3]], false := [Ops()[1], Ops()[2]]]
  {
    hide Indices;
    parts := map[true := [Ops()[0], Ops()[3]], false := [Ops()[1], Ops()[2]]];
    IndicesAre(true);
    IndicesAre(false);
  }

  /** A group across objects: every part is linearizable, and the history is not. */
  lemma PartsDoNotDecide() returns (parts: map<bool, seq<Op<Request, bool>>>)
    ensures WellTimed(Ops()) && Product(Flags(), Which, Each, Part) && PartsOf(Ops(), Which, parts)
    ensures (forall k :: k in parts ==> Linearizable(Flag(), parts[k])) && !Linearizable(Flags(), Ops())
  {
    hide Linearizable, IsLinearization, PartsOf, Product;
    FlagsAreProduct();
    parts := Parts();
    FirstLinearizable();
    SecondLinearizable();
    NeverTogether();
  }

  lemma NeverTogether()
    ensures !Linearizable(Flags(), Ops())
  {
    hide IsLinearization;
    forall order ensures !IsLinearization(Flags(), Ops(), order) {
      NotTogether(order);
    }
  }
}
