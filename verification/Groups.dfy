/**
 The group the search has begun and not finished, kept as operations are linearized and
 un-linearized (linearize/linearize.go, enter and leave).
 */
module Groups {
  import opened Seqs
  import opened History
  import opened Completion

  /** The group that has been entered and not left, or 0, with the number of its operations still to come. */
  datatype Opened = Opened(open: int64, left: int)

  ghost function GroupOps<I, O>(ops: seq<Op<I, O>>, g: int64): set<nat> {
    set i: nat | i < |ops| && ops[i].Group() == g
  }

  ghost function LeftOf<I, O>(ops: seq<Op<I, O>>, done: set<nat>, g: int64): set<nat> {
    set i: nat | i < |ops| && i !in done && ops[i].Group() == g
  }

  /** `o` is what `done` leaves open: it names the one open group, if any, and counts what is left of it. */
  ghost predicate Tracks<I, O>(ops: seq<Op<I, O>>, done: set<nat>, o: Opened) {
    && (forall g: int64 :: Open(ops, done, g) ==> g == o.open)
    && (o.open != 0 ==> Open(ops, done, o.open) && o.left == |LeftOf(ops, done, o.open)|)
  }

  function SizeOf(size: map<int64, int>, g: int64): int {
    if g in size then size[g] else 0
  }

  ghost predicate Sizes<I, O>(ops: seq<Op<I, O>>, size: map<int64, int>) {
    forall g: int64 :: g != 0 ==> SizeOf(size, g) == |GroupOps(ops, g)|
  }

  method GroupSizes<I, O>(ops: seq<Op<I, O>>) returns (size: map<int64, int>)
    ensures Sizes(ops, size)
  {
    size := map[];
    for i := 0 to |ops|
      invariant Sizes(ops[..i], size)
    {
      var g := ops[i].Group();
      OneMore(ops, i, size);
      if g != 0 {
        size := size[g := SizeOf(size, g) + 1];
      }
    }
    TakeAll(ops);
  }

  lemma OneMore<I, O>(ops: seq<Op<I, O>>, k: nat, size: map<int64, int>)
    requires k < |ops| && Sizes(ops[..k], size)
    ensures var g := ops[k].Group(); Sizes(ops[..k + 1], if g == 0 then size else size[g := SizeOf(size, g) + 1])
  {
    var g := ops[k].Group();
    var size' := if g == 0 then size else size[g := SizeOf(size, g) + 1];
    forall h: int64 | h != 0 ensures SizeOf(size', h) == |GroupOps(ops[..k + 1], h)| {
      OneMoreOf(ops, k, h);
    }
  }

  lemma OneMoreOf<I, O>(ops: seq<Op<I, O>>, k: nat, h: int64)
    requires k < |ops|
    ensures |GroupOps(ops[..k + 1], h)| == |GroupOps(ops[..k], h)| + if ops[k].Group() == h then 1 else 0
  {
    var more := if ops[k].Group() == h then {k} else {};
    assert GroupOps(ops[..k + 1], h) == GroupOps(ops[..k], h) + more;
    assert k !in GroupOps(ops[..k], h);
  }

  function Enter(size: map<int64, int>, o: Opened, g: int64): Opened {
    if g == 0 then o
    else
      var begun := if o.open == 0 then Opened(g, SizeOf(size, g)) else o;
      Opened(if begun.left - 1 == 0 then 0 else begun.open, begun.left - 1)
  }

  function Leave(size: map<int64, int>, o: Opened, g: int64): Opened {
    if g == 0 then o
    else
      var back := if o.open == 0 then Opened(g, 0) else o;
      Opened(if back.left + 1 == SizeOf(size, g) then 0 else back.open, back.left + 1)
  }

  lemma OpenOther<I, O>(ops: seq<Op<I, O>>, done: set<nat>, i: nat, h: int64)
    requires i < |ops| && ops[i].Group() != h
    ensures Open(ops, done + {i}, h) <==> Open(ops, done, h)
  {
  }

  /** A group with operations left is open, unless none of them is done. */
  lemma OpenByCount<I, O>(ops: seq<Op<I, O>>, done: set<nat>, g: int64)
    requires g != 0
    ensures LeftOf(ops, done, g) <= GroupOps(ops, g)
    ensures Open(ops, done, g) <==> {} < LeftOf(ops, done, g) < GroupOps(ops, g)
  {
    if Open(ops, done, g) {
      var a: nat :| a < |ops| && a in done && ops[a].Group() == g;
      var b: nat :| b < |ops| && b !in done && ops[b].Group() == g;
      assert a in GroupOps(ops, g) && a !in LeftOf(ops, done, g) && b in LeftOf(ops, done, g);
    }
    if {} < LeftOf(ops, done, g) < GroupOps(ops, g) {
      var b :| b in LeftOf(ops, done, g);
      var a :| a in GroupOps(ops, g) && a !in LeftOf(ops, done, g);
    }
  }

  lemma CountLess(a: set<nat>, b: set<nat>)
    requires a <= b
    ensures |a| <= |b|
    ensures a < b <==> |a| < |b|
  {
    var d := b - a;
    assert b == a + d;
    assert |b| == |a| + |d|;
  }

  lemma OpenBySize<I, O>(ops: seq<Op<I, O>>, size: map<int64, int>, done: set<nat>, g: int64)
    requires g != 0 && Sizes(ops, size)
    ensures 0 <= |LeftOf(ops, done, g)| <= SizeOf(size, g)
    ensures Open(ops, done, g) <==> 0 < |LeftOf(ops, done, g)| < SizeOf(size, g)
  {
    OpenByCount(ops, done, g);
    CountLess(LeftOf(ops, done, g), GroupOps(ops, g));
    CountLess({}, LeftOf(ops, done, g));
  }

  lemma LeftAfter<I, O>(ops: seq<Op<I, O>>, done: set<nat>, i: nat)
    requires i < |ops| && i !in done
    ensures |LeftOf(ops, done + {i}, ops[i].Group())| == |LeftOf(ops, done, ops[i].Group())| - 1
  {
    assert LeftOf(ops, done + {i}, ops[i].Group()) == LeftOf(ops, done, ops[i].Group()) - {i};
  }

  lemma EnterTracks<I, O>(ops: seq<Op<I, O>>, size: map<int64, int>, done: set<nat>, o: Opened, i: nat)
    requires Sizes(ops, size) && Tracks(ops, done, o)
    requires i < |ops| && i !in done && (o.open == 0 || ops[i].Group() == o.open)
    ensures Tracks(ops, done + {i}, Enter(size, o, ops[i].Group()))
  {
    var g := ops[i].Group();
    forall h: int64 | h != g ensures Open(ops, done + {i}, h) <==> Open(ops, done, h) {
      OpenOther(ops, done, i, h);
    }
    if g != 0 {
      LeftAfter(ops, done, i);
      OpenBySize(ops, size, done, g);
      OpenBySize(ops, size, done + {i}, g);
    }
  }

  /** Leaving undoes entering: what was tracked before is tracked again. */
  lemma LeaveTracks<I, O>(ops: seq<Op<I, O>>, size: map<int64, int>, done: set<nat>, o: Opened, i: nat)
    requires Sizes(ops, size) && Tracks(ops, done + {i}, o)
    requires i < |ops| && i !in done && (forall g: int64 :: Open(ops, done, g) ==> ops[i].Group() == g)
    ensures Tracks(ops, done, Leave(size, o, ops[i].Group()))
  {
    var g := ops[i].Group();
    forall h: int64 | h != g ensures !Open(ops, done, h) && !Open(ops, done + {i}, h) {
      OpenOther(ops, done, i, h);
    }
    if g != 0 {
      LeftAfter(ops, done, i);
      OpenBySize(ops, size, done, g);
      OpenBySize(ops, size, done + {i}, g);
    }
  }
}
