/**
 Windows of time in which the entries of the log landed (logcheck/logcheck.go, windows).
 */
module LogWindows {
  import opened Options
  import opened Seqs
  import opened Maps
  import opened History
  import opened Logs
  import opened Sends

  /** From `lo` to `hi`, both included. */
  datatype Window = Window(lo: int64, hi: int64)

  function Least(x: int64, y: int64): int64 { if y < x then y else x }

  function Greatest(x: int64, y: int64): int64 { if y > x then y else x }

  /** The first return of an ack that named the offset. */
  function FirstAck(a: Append, off: nat, n: nat): int64
    requires n <= |a.attempts|
  {
    if n == 0 then PENDING
    else
      var t, hi := a.attempts[n - 1], FirstAck(a, off, n - 1);
      if t.outcome.OK? && t.offset == off then Least(hi, t.ret) else hi
  }

  /** The bounds an append gives its copy by itself. */
  ghost predicate OwnBounds(l: Index, a: Append, off: nat, w: Window) {
    var offs := Lookup(l.byValue, a.value);
    |a.attempts| > 0 && w.hi == FirstAck(a, off, |a.attempts|) && exists i ::
      0 <= i < |offs| && offs[i] == off && SentAt(a, offs, i, w.lo)
  }

  ghost predicate OwnRight(appends: seq<Append>, l: Index, n: nat, own: map<nat, Window>)
    requires n <= |appends|
  {
    && (forall x, o :: 0 <= x < n && |appends[x].attempts| > 0 && o in Lookup(l.byValue, appends[x].value) ==> o in own)
    && (forall o :: o in own ==> exists x :: 0 <= x < n && OwnBounds(l, appends[x], o, own[o]))
  }

  /** The bounds of one append's copies. */
  method OwnOf(l: Index, a: Append) returns (own: map<nat, Window>)
    requires |a.attempts| > 0 && Increasing(Lookup(l.byValue, a.value))
    ensures forall o :: o in own <==> o in Lookup(l.byValue, a.value)
    ensures forall o :: o in own ==> OwnBounds(l, a, o, own[o])
  {
    hide SentAt;
    own := map[];
    var offs := Lookup(l.byValue, a.value);
    var calls := Calls(a, offs);
    for i := 0 to |offs|
      invariant forall o :: o in own <==> o in offs[..i]
      invariant forall o :: o in own ==> OwnBounds(l, a, o, own[o])
    {
      var hi := PENDING;
      for n := 0 to |a.attempts|
        invariant hi == FirstAck(a, offs[i], n)
      {
        var t := a.attempts[n];
        if t.outcome.OK? && t.offset == offs[i] { hi := Least(hi, t.ret); }
      }
      own := own[offs[i] := Window(calls[i], hi)];
      TakeNext(offs, i);
    }
    TakeAll(offs);
  }

  method AllOwn(appends: seq<Append>, l: Index) returns (own: map<nat, Window>)
    requires forall v :: Increasing(Lookup(l.byValue, v))
    ensures OwnRight(appends, l, |appends|, own)
  {
    hide OwnBounds;
    own := map[];
    for x := 0 to |appends|
      invariant OwnRight(appends, l, x, own)
    {
      if |appends[x].attempts| > 0 {
        var more := OwnOf(l, appends[x]);
        own := own + more;
      }
    }
  }

  // ----- Floors: calls at or below an offset

  function Floor(offsets: seq<nat>, own: map<nat, Window>, n: nat): int64
    requires n <= |offsets|
  {
    if n == 0 then MIN_INT64
    else
      var f := Floor(offsets, own, n - 1);
      if offsets[n - 1] in own then Greatest(f, own[offsets[n - 1]].lo) else f
  }

  ghost predicate FloorRight(offsets: seq<nat>, own: map<nat, Window>, n: nat, floor: map<nat, int64>)
    requires n <= |offsets|
  {
    forall m :: 0 <= m < n ==> offsets[m] in floor && floor[offsets[m]] == Floor(offsets, own, m + 1)
  }

  method AllFloors(offsets: seq<nat>, own: map<nat, Window>) returns (floor: map<nat, int64>)
    requires Increasing(offsets)
    ensures FloorRight(offsets, own, |offsets|, floor)
  {
    floor := map[];
    var f: int64 := MIN_INT64;
    for n := 0 to |offsets|
      invariant f == Floor(offsets, own, n) && FloorRight(offsets, own, n, floor)
    {
      if offsets[n] in own { f := Greatest(f, own[offsets[n]].lo); }
      floor := floor[offsets[n] := f];
    }
  }

  // ----- Sights: returns of reads

  /** The read returned an entry, no sooner than the floor of its offset. */
  predicate Possible(r: Read, floor: map<nat, int64>) {
    r.offset != 0 && r.offset in floor && r.ret >= floor[r.offset]
  }

  function FirstSeen(gets: seq<Read>, floor: map<nat, int64>, off: nat, n: nat): Option<int64>
    requires n <= |gets|
  {
    if n == 0 then None
    else
      var r, first := gets[n - 1], FirstSeen(gets, floor, off, n - 1);
      if Possible(r, floor) && r.offset == off && (first.None? || r.ret < first.value) then Some(r.ret) else first
  }

  ghost predicate SeenRight(gets: seq<Read>, floor: map<nat, int64>, n: nat, seen: map<nat, int64>)
    requires n <= |gets|
  {
    forall o :: FirstSeen(gets, floor, o, n) == if o in seen then Some(seen[o]) else None
  }

  method AllSeen(gets: seq<Read>, floor: map<nat, int64>) returns (seen: map<nat, int64>)
    requires forall i :: 0 <= i < |gets| ==> gets[i].offset == 0 || gets[i].offset in floor
    ensures SeenRight(gets, floor, |gets|, seen)
  {
    seen := map[];
    for n := 0 to |gets|
      invariant SeenRight(gets, floor, n, seen)
    {
      var r := gets[n];
      if r.offset != 0 && r.ret >= floor[r.offset] {
        if r.offset !in seen || r.ret < seen[r.offset] {
          seen := seen[r.offset := r.ret];
        }
      }
    }
  }

  // ----- The earliest any entry at or after each was seen

  function Ceil(offsets: seq<nat>, own: map<nat, Window>, seen: map<nat, int64>, n: nat): int64
    requires n <= |offsets|
    decreases |offsets| - n
  {
    if n == |offsets| then PENDING
    else
      var off := offsets[n];
      var c := if off in seen then Least(Ceil(offsets, own, seen, n + 1), seen[off])
        else Ceil(offsets, own, seen, n + 1);
      if off in own then Least(c, own[off].hi) else c
  }

  /** The window of an entry some append put there. */
  function WindowAt(offsets: seq<nat>, own: map<nat, Window>, seen: map<nat, int64>, n: nat): Window
    requires n < |offsets| && offsets[n] in own
  {
    var lo, hi := Floor(offsets, own, n + 1), Ceil(offsets, own, seen, n);
    if lo <= hi then Window(lo, hi) else own[offsets[n]]
  }

  ghost predicate LandedFrom(offsets: seq<nat>, own: map<nat, Window>, seen: map<nat, int64>, n: nat,
      landed: map<nat, Window>)
    requires n <= |offsets|
  {
    && (forall m :: n <= m < |offsets| ==> (offsets[m] in landed <==> offsets[m] in own))
    && (forall m :: n <= m < |offsets| && offsets[m] in own ==> landed[offsets[m]] == WindowAt(offsets, own, seen, m))
  }

  /**
   Gives each entry that was appended its window: from its floor to the first sight at or above it,
   or its own bounds where those cross.
   */
  method Windows(appends: seq<Append>, l: Index, gets: seq<Read>)
    returns (landed: map<nat, Window>, ghost own: map<nat, Window>, ghost floor: map<nat, int64>,
      ghost seen: map<nat, int64>)
    requires (forall v :: Increasing(Lookup(l.byValue, v))) && Increasing(l.offsets) &&
      ListsOffsets(l.byOffset, l.offsets)
    requires forall i :: 0 <= i < |gets| ==> gets[i].offset == 0 || gets[i].offset in l.byOffset
    ensures OwnRight(appends, l, |appends|, own) && FloorRight(l.offsets, own, |l.offsets|, floor) &&
      SeenRight(gets, floor, |gets|, seen)
    ensures LandedFrom(l.offsets, own, seen, 0, landed)
  {
    hide OwnRight, SeenRight;
    var ow := AllOwn(appends, l);
    var fl := AllFloors(l.offsets, ow);
    forall o | o in l.byOffset ensures o in fl {
      assert o in l.offsets;
    }
    var se := AllSeen(gets, fl);
    own, floor, seen := ow, fl, se;
    landed := AllLanded(l.offsets, ow, fl, se);
  }

  /** The window of each entry some append put there, from the last to the first. */
  method AllLanded(offsets: seq<nat>, own: map<nat, Window>, floor: map<nat, int64>, seen: map<nat, int64>)
      returns (landed: map<nat, Window>)
    requires Increasing(offsets) && FloorRight(offsets, own, |offsets|, floor)
    ensures LandedFrom(offsets, own, seen, 0, landed)
  {
    hide Floor;
    landed := map[];
    var ceil: int64 := PENDING;
    for n := |offsets| downto 0
      invariant ceil == Ceil(offsets, own, seen, n) && LandedFrom(offsets, own, seen, n, landed)
      invariant forall o :: o in landed ==> exists m :: n <= m < |offsets| && offsets[m] == o
    {
      var off := offsets[n];
      if off in seen { ceil := Least(ceil, seen[off]); }
      if off in own {
        ceil := Least(ceil, own[off].hi);
        landed := landed[off := if floor[off] <= ceil then Window(floor[off], ceil) else own[off]];
      }
    }
  }
}
