/**
 Each key's history of landings and reads, and its check by the search
 (logcheck/logcheck.go, CheckReads).
 */
module LogReads {
  import opened Options
  import opened Seqs
  import opened Maps
  import opened Reports
  import opened History
  import opened Bitset
  import opened Logs
  import opened LogWindows
  import opened LogRuns
  import Search

  /** What an operation of a key's history does: land the entry at `off`, or read. */
  datatype ReadIn = ReadIn(off: nat, op: int, read: bool)

  type KeyOp = Op<ReadIn, nat>

  function Last(offs: seq<nat>, pos: int): nat {
    if 0 < pos <= |offs| then offs[pos - 1] else 0
  }

  /** A key whose entries land in order, and whose reads return the last. */
  function KeyModel(offs: seq<nat>): Model<int, ReadIn, nat> {
    Model(0, (pos: int, i: ReadIn, o: nat) => if i.read then (Last(offs, pos) == o, pos)
      else (0 <= pos < |offs| && offs[pos] == i.off, pos + 1), None)
  }

  // ----- Dirty reads

  /** The log holds no such entry as the read returned. */
  predicate Dirty(l: Index, r: Read) {
    r.offset != 0 && (r.offset !in l.byOffset || l.byOffset[r.offset].value != r.value ||
      l.byOffset[r.offset].key != r.key)
  }

  function Clean(l: Index, gets: seq<Read>, n: nat): (r: seq<Read>)
    requires n <= |gets|
    ensures forall i :: 0 <= i < |r| ==> !Dirty(l, r[i])
  {
    if n == 0 then [] else Clean(l, gets, n - 1) + if Dirty(l, gets[n - 1]) then [] else [gets[n - 1]]
  }

  ghost predicate NoDirty(l: Index, gets: seq<Read>, n: nat)
    requires n <= |gets|
  {
    forall i :: 0 <= i < n ==> !Dirty(l, gets[i])
  }

  lemma {:induction false} CleanIsAll(l: Index, gets: seq<Read>, n: nat)
    requires n <= |gets| && NoDirty(l, gets, n)
    ensures Clean(l, gets, n) == gets[..n]
  {
    if n > 0 {
      CleanIsAll(l, gets, n - 1);
      TakeNext(gets, n - 1);
    }
  }

  /** A report of each dirty read. */
  ghost function DirtyReports(l: Index, gets: seq<Read>, n: nat): seq<Anomaly<About>>
    requires n <= |gets|
  {
    if n == 0 then []
    else
      var r := gets[n - 1];
      DirtyReports(l, gets, n - 1) + if Dirty(l, r) then [Anomaly("dirty-read", About(r.value, r.key, [r.op]))] else []
  }

  lemma {:induction false} DirtyReported(l: Index, gets: seq<Read>, n: nat)
    requires n <= |gets|
    ensures DirtyReports(l, gets, n) == [] <==> NoDirty(l, gets, n)
    ensures forall x :: x in DirtyReports(l, gets, n) ==> x.kind == "dirty-read"
  {
    hide Dirty;
    if n > 0 { DirtyReported(l, gets, n - 1); }
  }

  method DropDirty(l: Index, gets: seq<Read>) returns (clean: seq<Read>, bad: seq<Anomaly<About>>)
    ensures clean == Clean(l, gets, |gets|) && bad == DirtyReports(l, gets, |gets|)
  {
    clean, bad := [], [];
    for n := 0 to |gets|
      invariant clean == Clean(l, gets, n) && bad == DirtyReports(l, gets, n)
    {
      var r := gets[n];
      if Dirty(l, r) {
        bad := bad + [Anomaly("dirty-read", About(r.value, r.key, [r.op]))];
      } else {
        clean := clean + [r];
      }
    }
  }

  // ----- Each key's history

  /** What an operation of a key's history stands for: an entry, or a read. */
  datatype Origin = Copy(off: nat) | Get(r: nat)

  /** An entry under the key that some append put there. */
  ghost predicate PutThere(appends: seq<Append>, l: Index, n: nat, k: string, o: nat)
    requires n <= |appends|
  {
    o in l.byOffset && l.byOffset[o].key == k && exists x ::
      0 <= x < n && |appends[x].attempts| > 0 && appends[x].value == l.byOffset[o].value
  }

  /** A read of an entry some append put there, or of none. */
  ghost predicate Usable(placed: map<string, seq<nat>>, r: Read) {
    r.offset == 0 || r.offset in Lookup(placed, r.key)
  }

  ghost predicate IsOp(landed: map<nat, Window>, clean: seq<Read>, op: KeyOp, origin: Origin) {
    match origin
    case Copy(o) =>
      && o in landed && op.call == landed[o].lo && op.ret == landed[o].hi && op.group == 0
      && op.input.off == o && !op.input.read
    case Get(r) =>
      && r < |clean| && op.call == clean[r].call && op.ret == clean[r].ret && op.group == 0
      && op.input.read && op.output == clean[r].offset
  }

  ghost predicate Matched(landed: map<nat, Window>, clean: seq<Read>, ops: seq<KeyOp>, origins: seq<Origin>) {
    |ops| == |origins| && Distinct(origins) && forall i :: 0 <= i < |ops| ==> IsOp(landed, clean, ops[i], origins[i])
  }

  ghost predicate AllMatched(landed: map<nat, Window>, clean: seq<Read>, byKey: map<string, seq<KeyOp>>,
      from: map<string, seq<Origin>>)
  {
    byKey.Keys == from.Keys && forall k :: Matched(landed, clean, Lookup(byKey, k), Lookup(from, k))
  }

  lemma MatchMore(landed: map<nat, Window>, clean: seq<Read>, byKey: map<string, seq<KeyOp>>,
      from: map<string, seq<Origin>>, k: string, op: KeyOp, origin: Origin)
    requires AllMatched(landed, clean, byKey, from) && IsOp(landed, clean, op, origin) && origin !in Lookup(from, k)
    ensures AllMatched(landed, clean, byKey[k := Lookup(byKey, k) + [op]], from[k := Lookup(from, k) + [origin]])
  {
    hide IsOp, Lookup;
    var a, b := byKey[k := Lookup(byKey, k) + [op]], from[k := Lookup(from, k) + [origin]];
    forall c ensures Matched(landed, clean, Lookup(a, c), Lookup(b, c)) {
      LookupPut(byKey, k, Lookup(byKey, k) + [op], c);
      LookupPut(from, k, Lookup(from, k) + [origin], c);
      if c == k {
        DistinctNext(Lookup(from, k), origin);
      }
    }
  }

  /** The entries of each key, so far. */
  ghost predicate PlacedSoFar(appends: seq<Append>, l: Index, n: nat, placed: map<string, seq<nat>>,
      from: map<string, seq<Origin>>)
    requires n <= |appends|
  {
    && (forall k, o :: o in Lookup(placed, k) <==> PutThere(appends, l, n, k, o))
    && (forall k, x :: x in Lookup(from, k) <==> x.Copy? && PutThere(appends, l, n, k, x.off))
    && (forall k :: Distinct(Lookup(placed, k)))
  }

  ghost predicate HeldUnder(l: Index, offs: seq<nat>, k: string, o: nat) {
    o in offs && o in l.byOffset && l.byOffset[o].key == k
  }

  /** What placing some more entries adds. */
  ghost predicate PlacedMore(l: Index, offs: seq<nat>, placed0: map<string, seq<nat>>,
      from0: map<string, seq<Origin>>, placed: map<string, seq<nat>>, from: map<string, seq<Origin>>)
  {
    && (forall k, o :: o in Lookup(placed, k) <==> o in Lookup(placed0, k) || HeldUnder(l, offs, k, o))
    && (forall k, x :: x in Lookup(from, k) <==> x in Lookup(from0, k) || (x.Copy? && HeldUnder(l, offs, k, x.off)))
    && (forall k :: Distinct(Lookup(placed, k)))
  }

  lemma PlaceStep(l: Index, offs: seq<nat>, o: nat, placed0: map<string, seq<nat>>, from0: map<string, seq<Origin>>,
      placed: map<string, seq<nat>>, from: map<string, seq<Origin>>)
    requires PlacedMore(l, offs, placed0, from0, placed, from) && o in l.byOffset &&
      o !in Lookup(placed, l.byOffset[o].key)
    ensures var k := l.byOffset[o].key;
      PlacedMore(l, offs + [o], placed0, from0, File(placed, k, o), from[k := Lookup(from, k) + [Copy(o)]])
  {
    hide Lookup, Distinct, File;
    var k := l.byOffset[o].key;
    var b := from[k := Lookup(from, k) + [Copy(o)]];
    FileMeans(placed, k, o);
    forall c, x ensures x in Lookup(b, c) <==> x in Lookup(from, c) || (c == k && x == Copy(o)) {
      LookupPut(from, k, Lookup(from, k) + [Copy(o)], c);
    }
  }

  /** No entry at these offsets has been placed. */
  ghost predicate NonePlaced(offs: seq<nat>, placed: map<string, seq<nat>>, from: map<string, seq<Origin>>) {
    forall o, k :: o in offs ==> o !in Lookup(placed, k) && Copy(o) !in Lookup(from, k)
  }

  lemma NotYetPlaced(l: Index, offs: seq<nat>, n: nat, placed0: map<string, seq<nat>>,
      from0: map<string, seq<Origin>>, placed: map<string, seq<nat>>, from: map<string, seq<Origin>>)
    requires n < |offs| && Increasing(offs) && PlacedMore(l, offs[..n], placed0, from0, placed, from)
    requires NonePlaced(offs, placed0, from0)
    ensures forall k :: offs[n] !in Lookup(placed, k) && Copy(offs[n]) !in Lookup(from, k)
  {
    hide Lookup, Distinct;
    assert offs[n] in offs;
    forall k ensures offs[n] !in Lookup(placed, k) && Copy(offs[n]) !in Lookup(from, k) {
      NotHeldYet(l, offs, n, k);
      assert offs[n] in Lookup(placed, k) <==> offs[n] in Lookup(placed0, k) || HeldUnder(l, offs[..n], k, offs[n]);
      assert Copy(offs[n]) in Lookup(from, k) <==>
        Copy(offs[n]) in Lookup(from0, k) || HeldUnder(l, offs[..n], k, Copy(offs[n]).off);
    }
  }

  lemma NotHeldYet(l: Index, offs: seq<nat>, n: nat, k: string)
    requires n < |offs| && Increasing(offs)
    ensures !HeldUnder(l, offs[..n], k, offs[n])
  {
  }

  /** Places one append's copies in the histories of their keys. */
  method PlaceCopies(l: Index, a: Append, landed: map<nat, Window>, clean: seq<Read>,
      byKey0: map<string, seq<KeyOp>>, placed0: map<string, seq<nat>>, ghost from0: map<string, seq<Origin>>,
      ghost unique: bool)
    returns (byKey: map<string, seq<KeyOp>>, placed: map<string, seq<nat>>, ghost from: map<string, seq<Origin>>)
    requires |a.attempts| > 0 && Increasing(Lookup(l.byValue, a.value))
    requires forall o :: o in Lookup(l.byValue, a.value) ==> o in l.byOffset && o in landed
    requires unique ==> AllMatched(landed, clean, byKey0, from0) && (forall k :: Distinct(Lookup(placed0, k)))
    requires unique ==> NonePlaced(Lookup(l.byValue, a.value), placed0, from0)
    ensures unique ==>
      AllMatched(landed, clean, byKey, from) &&
      PlacedMore(l, Lookup(l.byValue, a.value), placed0, from0, placed, from)
  {
    hide AllMatched, PlacedMore, NonePlaced, Distinct, Increasing;
    byKey, placed, from := byKey0, placed0, from0;
    var offs := Lookup(l.byValue, a.value);
    if unique {
      PlacedNone(l, placed0, from0);
    }
    for n := 0 to |offs|
      invariant unique ==>
        AllMatched(landed, clean, byKey, from) && PlacedMore(l, offs[..n], placed0, from0, placed, from)
    {
      var o := offs[n];
      var k, w := l.byOffset[o].key, landed[o];
      var op := Op(0, w.lo, w.hi, 0, ReadIn(o, a.attempts[0].op, false), 0);
      assert o in offs;
      if unique {
        NotYetPlaced(l, offs, n, placed0, from0, placed, from);
        MatchMore(landed, clean, byKey, from, k, op, Copy(o));
        PlaceStep(l, offs[..n], o, placed0, from0, placed, from);
        TakeNext(offs, n);
      }
      placed := File(placed, k, o);
      byKey := byKey[k := Lookup(byKey, k) + [op]];
      from := from[k := Lookup(from, k) + [Copy(o)]];
    }
    TakeAll(offs);
  }

  lemma PlacedNone(l: Index, placed0: map<string, seq<nat>>, from0: map<string, seq<Origin>>)
    requires forall k :: Distinct(Lookup(placed0, k))
    ensures PlacedMore(l, [], placed0, from0, placed0, from0)
  {
  }

  lemma PlacedNext(appends: seq<Append>, l: Index, n: nat, placed0: map<string, seq<nat>>,
      from0: map<string, seq<Origin>>, placed: map<string, seq<nat>>, from: map<string, seq<Origin>>)
    requires n < |appends| && |appends[n].attempts| > 0 && ListsValues(l.byOffset, l.byValue) &&
      PlacedSoFar(appends, l, n, placed0, from0)
    requires PlacedMore(l, Lookup(l.byValue, appends[n].value), placed0, from0, placed, from)
    ensures PlacedSoFar(appends, l, n + 1, placed, from)
  {
    hide Lookup, Distinct;
    forall k, o
      ensures PutThere(appends, l, n + 1, k, o) <==>
        PutThere(appends, l, n, k, o) || HeldUnder(l, Lookup(l.byValue, appends[n].value), k, o)
    {
      assert o in Lookup(l.byValue, appends[n].value) <==> o in l.byOffset && l.byOffset[o].value == appends[n].value;
    }
  }

  lemma PlacedSkip(appends: seq<Append>, l: Index, n: nat, placed: map<string, seq<nat>>,
      from: map<string, seq<Origin>>)
    requires n < |appends| && |appends[n].attempts| == 0 && PlacedSoFar(appends, l, n, placed, from)
    ensures PlacedSoFar(appends, l, n + 1, placed, from)
  {
    hide Lookup, Distinct;
    forall k, o ensures PutThere(appends, l, n + 1, k, o) <==> PutThere(appends, l, n, k, o) {
    }
  }

  /** What a value's copies hold, no other append put there. */
  lemma NotBefore(appends: seq<Append>, l: Index, n: nat, placed: map<string, seq<nat>>, from: map<string, seq<Origin>>)
    requires n < |appends| && UniqueValues(appends) && ListsValues(l.byOffset, l.byValue) &&
      PlacedSoFar(appends, l, n, placed, from)
    ensures NonePlaced(Lookup(l.byValue, appends[n].value), placed, from)
  {
    hide Lookup, Distinct;
    forall o, k | o in Lookup(l.byValue, appends[n].value)
      ensures o !in Lookup(placed, k) && Copy(o) !in Lookup(from, k)
    {
      assert o in l.byOffset && l.byOffset[o].value == appends[n].value;
      assert !PutThere(appends, l, n, k, o);
    }
  }

  method PlaceAll(appends: seq<Append>, l: Index, landed: map<nat, Window>, clean: seq<Read>)
    returns (byKey: map<string, seq<KeyOp>>, placed: map<string, seq<nat>>, ghost from: map<string, seq<Origin>>)
    requires ListsValues(l.byOffset, l.byValue) && forall v :: Increasing(Lookup(l.byValue, v))
    requires forall x, o ::
      0 <= x < |appends| && |appends[x].attempts| > 0 && o in Lookup(l.byValue, appends[x].value) ==> o in landed
    ensures UniqueValues(appends) ==>
      AllMatched(landed, clean, byKey, from) && PlacedSoFar(appends, l, |appends|, placed, from)
  {
    hide AllMatched, PlacedSoFar, PlacedMore, NonePlaced, UniqueValues, Lookup, Increasing;
    ghost var unique := UniqueValues(appends);
    byKey, placed, from := map[], map[], map[];
    NothingPlaced(appends, l, landed, clean);
    for n := 0 to |appends|
      invariant unique ==> AllMatched(landed, clean, byKey, from) && PlacedSoFar(appends, l, n, placed, from)
    {
      if |appends[n].attempts| > 0 {
        ghost var placed0, from0 := placed, from;
        if unique {
          NotBefore(appends, l, n, placed, from);
          AllDistinct(appends, l, n, placed, from);
        }
        byKey, placed, from := PlaceCopies(l, appends[n], landed, clean, byKey, placed, from, unique);
        if unique {
          PlacedNext(appends, l, n, placed0, from0, placed, from);
        }
      } else if unique {
        PlacedSkip(appends, l, n, placed, from);
      }
    }
  }

  lemma NothingPlaced(appends: seq<Append>, l: Index, landed: map<nat, Window>, clean: seq<Read>)
    ensures AllMatched(landed, clean, map[], map[]) && PlacedSoFar(appends, l, 0, map[], map[])
  {
  }

  lemma AllDistinct(appends: seq<Append>, l: Index, n: nat, placed: map<string, seq<nat>>,
      from: map<string, seq<Origin>>)
    requires n <= |appends| && PlacedSoFar(appends, l, n, placed, from)
    ensures forall k :: Distinct(Lookup(placed, k))
  {
  }

  // ----- Reads among them

  ghost predicate GetsSoFar(clean: seq<Read>, placed: map<string, seq<nat>>, n: nat, from0: map<string, seq<Origin>>,
      from: map<string, seq<Origin>>)
    requires n <= |clean|
  {
    forall k, x :: x in Lookup(from, k) <==>
      x in Lookup(from0, k) || (x.Get? && x.r < n && clean[x.r].key == k && Usable(placed, clean[x.r]))
  }

  lemma GetsNext(clean: seq<Read>, placed: map<string, seq<nat>>, n: nat, from0: map<string, seq<Origin>>,
      from: map<string, seq<Origin>>)
    requires n < |clean| && GetsSoFar(clean, placed, n, from0, from)
    ensures GetsSoFar(clean, placed, n + 1, from0, if Usable(placed, clean[n]) then
      from[clean[n].key := Lookup(from, clean[n].key) + [Get(n)]] else from)
  {
    hide Lookup, Usable;
    var k := clean[n].key;
    var b := from[k := Lookup(from, k) + [Get(n)]];
    forall c, x ensures x in Lookup(b, c) <==> x in Lookup(from, c) || (c == k && x == Get(n)) {
      LookupPut(from, k, Lookup(from, k) + [Get(n)], c);
    }
  }

  method AddReads(clean: seq<Read>, placed: map<string, seq<nat>>, landed: map<nat, Window>,
      byKey0: map<string, seq<KeyOp>>, ghost from0: map<string, seq<Origin>>, ghost unique: bool)
    returns (byKey: map<string, seq<KeyOp>>, ghost from: map<string, seq<Origin>>)
    requires unique ==> AllMatched(landed, clean, byKey0, from0) && forall k, x :: x in Lookup(from0, k) ==> x.Copy?
    ensures unique ==> AllMatched(landed, clean, byKey, from) && GetsSoFar(clean, placed, |clean|, from0, from)
  {
    hide AllMatched, GetsSoFar;
    byKey, from := byKey0, from0;
    NoGets(clean, placed, from0);
    for n := 0 to |clean|
      invariant unique ==> AllMatched(landed, clean, byKey, from) && GetsSoFar(clean, placed, n, from0, from)
    {
      var r := clean[n];
      if unique {
        GetsNext(clean, placed, n, from0, from);
      }
      if r.offset == 0 || r.offset in Lookup(placed, r.key) {
        var op := Op(0, r.call, r.ret, 0, ReadIn(0, r.op, true), r.offset);
        if unique {
          GetNew(clean, placed, n, from0, from, r.key);
          MatchMore(landed, clean, byKey, from, r.key, op, Get(n));
        }
        byKey := byKey[r.key := Lookup(byKey, r.key) + [op]];
        from := from[r.key := Lookup(from, r.key) + [Get(n)]];
      }
    }
  }

  lemma NoGets(clean: seq<Read>, placed: map<string, seq<nat>>, from0: map<string, seq<Origin>>)
    ensures GetsSoFar(clean, placed, 0, from0, from0)
  {
  }

  lemma GetNew(clean: seq<Read>, placed: map<string, seq<nat>>, n: nat, from0: map<string, seq<Origin>>,
      from: map<string, seq<Origin>>, k: string)
    requires n <= |clean| && GetsSoFar(clean, placed, n, from0, from) && forall k, x :: x in Lookup(from0, k) ==>
      x.Copy?
    ensures Get(n) !in Lookup(from, k)
  {
    hide Lookup, Usable;
    var x := Get(n);
    assert x in Lookup(from0, k) ==> x.Copy?;
    assert x in Lookup(from, k) ==> x in Lookup(from0, k);
  }

  // ----- The search of each key

  /** What the check works out before it searches. */
  datatype Work = Work(
    l: Index, clean: seq<Read>,
    own: map<nat, Window>, floor: map<nat, int64>, seen: map<nat, int64>, landed: map<nat, Window>,
    byKey: map<string, seq<KeyOp>>, placed: map<string, seq<nat>>, from: map<string, seq<Origin>>)

  ghost predicate WindowsRight(appends: seq<Append>, w: Work) {
    && OwnRight(appends, w.l, |appends|, w.own)
    && FloorRight(w.l.offsets, w.own, |w.l.offsets|, w.floor)
    && SeenRight(w.clean, w.floor, |w.clean|, w.seen)
    && LandedFrom(w.l.offsets, w.own, w.seen, 0, w.landed)
  }

  /** The histories hold each key's entries, in their windows, and its reads. */
  ghost predicate HistoriesRight(appends: seq<Append>, w: Work) {
    && AllMatched(w.landed, w.clean, w.byKey, w.from)
    && (forall k :: Increasing(Lookup(w.placed, k)))
    && (forall k, o :: o in Lookup(w.placed, k) <==> PutThere(appends, w.l, |appends|, k, o))
    && (forall k, x :: x in Lookup(w.from, k) <==> match x
      case Copy(o) => PutThere(appends, w.l, |appends|, k, o)
      case Get(r) => r < |w.clean| && w.clean[r].key == k && Usable(w.placed, w.clean[r]))
  }

  ghost predicate Worked(appends: seq<Append>, entries: seq<Entry>, gets: seq<Read>, w: Work) {
    Indexed(entries, w.l) && w.clean == Clean(w.l, gets, |gets|) && WindowsRight(appends, w) &&
      (UniqueValues(appends) ==> HistoriesRight(appends, w))
  }

  ghost predicate KeyLinearizable(w: Work, k: string) {
    Linearizable(KeyModel(Lookup(w.placed, k)), Lookup(w.byKey, k))
  }

  method BuildHistories(appends: seq<Append>, l: Index, landed: map<nat, Window>, clean: seq<Read>)
    returns (byKey: map<string, seq<KeyOp>>, placed: map<string, seq<nat>>, ghost from: map<string, seq<Origin>>)
    requires ListsValues(l.byOffset, l.byValue) && forall v :: Increasing(Lookup(l.byValue, v))
    requires forall x, o ::
      0 <= x < |appends| && |appends[x].attempts| > 0 && o in Lookup(l.byValue, appends[x].value) ==> o in landed
    ensures UniqueValues(appends) ==> forall own, floor, seen ::
      HistoriesRight(appends, Work(l, clean, own, floor, seen, landed, byKey, placed, from))
  {
    hide UniqueValues, ListsValues, Increasing, AllMatched, PutThere, Usable, SortAll, Lookup;
    ghost var from0;
    byKey, placed, from0 := PlaceAll(appends, l, landed, clean);
    if UniqueValues(appends) {
      AllDistinct(appends, l, |appends|, placed, from0);
      SortAllMeans(placed);
    }
    placed := SortAll(placed);
    byKey, from := AddReads(clean, placed, landed, byKey, from0, UniqueValues(appends));
  }

  /** Every copy of an append that was attempted has a window. */
  lemma CopiesLanded(appends: seq<Append>, l: Index, own: map<nat, Window>, seen: map<nat, int64>,
      landed: map<nat, Window>)
    requires ListsValues(l.byOffset, l.byValue) && ListsOffsets(l.byOffset, l.offsets)
    requires OwnRight(appends, l, |appends|, own) && LandedFrom(l.offsets, own, seen, 0, landed)
    ensures forall x, o ::
      0 <= x < |appends| && |appends[x].attempts| > 0 && o in Lookup(l.byValue, appends[x].value) ==> o in landed
  {
    hide OwnBounds, WindowAt, Lookup;
    forall x, o | 0 <= x < |appends| && |appends[x].attempts| > 0 && o in Lookup(l.byValue, appends[x].value)
      ensures o in landed
    {
      assert o in own;
      assert o in l.byOffset;
      assert o in l.offsets;
      var m :| 0 <= m < |l.offsets| && l.offsets[m] == o;
      assert l.offsets[m] in landed;
    }
  }

  method Prepare(appends: seq<Append>, entries: seq<Entry>, gets: seq<Read>)
    returns (bad: seq<Anomaly<About>>, byKey: map<string, seq<KeyOp>>, placed: map<string, seq<nat>>, ghost w: Work)
    requires forall i :: 0 <= i < |entries| ==> entries[i].offset > 0
    ensures Worked(appends, entries, gets, w) && byKey == w.byKey && placed == w.placed
    ensures bad == DirtyReports(w.l, gets, |gets|)
  {
    hide UniqueValues, ByOffset, ListsKeys, NoCollision, HistoriesRight, OwnRight, FloorRight, SeenRight, LandedFrom;
    var l := MakeIndex(entries);
    var clean;
    clean, bad := DropDirty(l, gets);
    var landed;
    ghost var own, floor, seen;
    landed, own, floor, seen := Windows(appends, l, clean);
    CopiesLanded(appends, l, own, seen, landed);
    ghost var from;
    byKey, placed, from := BuildHistories(appends, l, landed, clean);
    w := Work(l, clean, own, floor, seen, landed, byKey, placed, from);
  }

  /**
   What the reports say: each dirty read; and of the keys whose search finished, those whose
   history no order explains.
   */
  ghost predicate ReadVerdict(gets: seq<Read>, w: Work, bad: seq<Anomaly<About>>, unknown: seq<string>) {
    && DirtyReports(w.l, gets, |gets|) <= bad
    && (forall x :: x in bad[|DirtyReports(w.l, gets, |gets|)|..] ==> exists k :: k in w.byKey && x == Unexplained(k))
    && (forall k :: k in w.byKey && k !in unknown ==> (Unexplained(k) in bad <==> !KeyLinearizable(w, k)))
    && (forall k :: k in unknown ==> k in w.byKey && Unexplained(k) !in bad)
  }

  /** What there is to say against the reads, by name. */
  ghost predicate ReadKinds(gets: seq<Read>, w: Work, kinds: set<string>, unknown: seq<string>) {
    && ("dirty-read" in kinds <==> exists r :: 0 <= r < |gets| && Dirty(w.l, gets[r]))
    && ("nonlinearizable-read" in kinds <==> exists k :: k in w.byKey && k !in unknown && !KeyLinearizable(w, k))
  }

  /** A search was given up for an ill-timed history, for the context, or for more configurations than the limit. */
  ghost predicate GivenUpFor(ops: seq<KeyOp>, offs: seq<nat>, limit: nat, ctx: nat -> bool) {
    || !WellTimed(ops)
    || (exists n :: ctx(n))
    || (limit > 0 && Search.MoreThan(KeyModel(offs), ops, limit))
  }

  ghost predicate GivenUp(w: Work, unknown: seq<string>, limit: nat, ctx: nat -> bool) {
    && (forall k :: k in unknown ==> GivenUpFor(Lookup(w.byKey, k), Lookup(w.placed, k), limit, ctx))
    && (forall k :: k in w.byKey && !WellTimed(w.byKey[k]) ==> k in unknown)
  }

  /** The reports are right of the histories worked out, and searches are given up for cause. */
  ghost predicate ReadsReported(appends: seq<Append>, entries: seq<Entry>, gets: seq<Read>, bad: seq<Anomaly<About>>,
      unknown: seq<string>, limit: nat, ctx: nat -> bool)
  {
    exists w ::
      Worked(appends, entries, gets, w) && ReadVerdict(gets, w, bad, unknown) &&
      ReadKinds(gets, w, KindsOf(bad), unknown) && GivenUp(w, unknown, limit, ctx)
  }

  lemma KindsNamed(gets: seq<Read>, w: Work, bad: seq<Anomaly<About>>, unknown: seq<string>)
    requires ReadVerdict(gets, w, bad, unknown)
    ensures ReadKinds(gets, w, KindsOf(bad), unknown)
  {
    hide Dirty, KeyLinearizable, DirtyReports, KindsOf, Unexplained;
    var dirty := DirtyReports(w.l, gets, |gets|);
    var rest := bad[|dirty|..];
    DirtyReported(w.l, gets, |gets|);
    assert bad == dirty + rest;
    KindsJoin(dirty, rest);
    KindsAll(dirty, "dirty-read");
    RestNamed(gets, w, bad, unknown, rest);
    KindsAll(rest, "nonlinearizable-read");
  }

  /** The reports past the dirty reads are of keys. */
  lemma RestNamed(gets: seq<Read>, w: Work, bad: seq<Anomaly<About>>, unknown: seq<string>, rest: seq<Anomaly<About>>)
    requires ReadVerdict(gets, w, bad, unknown) && rest == bad[|DirtyReports(w.l, gets, |gets|)|..]
    ensures forall x :: x in rest ==> x.kind == "nonlinearizable-read"
    ensures rest != [] <==> exists k :: k in w.byKey && k !in unknown && !KeyLinearizable(w, k)
  {
    hide KeyLinearizable, DirtyReports;
    var dirty := DirtyReports(w.l, gets, |gets|);
    NotUnexplained(w.l, gets);
    assert bad == dirty + rest;
    if rest != [] {
      assert rest[0] in rest;
      var k :| k in w.byKey && rest[0] == Unexplained(k);
      assert Unexplained(k) in bad;
    }
    if k :| k in w.byKey && k !in unknown && !KeyLinearizable(w, k) {
      assert Unexplained(k) in bad && Unexplained(k) !in dirty;
    }
  }

  lemma KindsAll(reports: seq<Anomaly<About>>, kind: string)
    requires forall x :: x in reports ==> x.kind == kind
    ensures KindsOf(reports) == if reports == [] then {} else {kind}
  {
    if reports != [] {
      assert reports[0] in reports;
      assert reports[0].kind in KindsOf(reports);
    }
    forall i | 0 <= i < |reports| ensures reports[i].kind == kind {
      assert reports[i] in reports;
    }
  }

  /**
   Reports each dirty read, and each key whose history is not linearizable, but for keys whose
   search was given up on. Where values are unique to their appends, a key's history is
   just its entries that were appended, each in its window, and its reads of them.
   */
  method CheckReads(appends: seq<Append>, entries: seq<Entry>, gets: seq<Read>, hash: Words -> int, limit: nat,
      ctx: nat -> bool)
    returns (bad: seq<Anomaly<About>>, unknown: seq<string>)
    requires forall i :: 0 <= i < |entries| ==> entries[i].offset > 0
    ensures ReadsReported(appends, entries, gets, bad, unknown, limit, ctx)
  {
    hide Worked, DirtyReports, WellTimed, Linearizable, GivenUpFor, ReadKinds;
    ghost var w;
    var byKey, placed, dirty, more;
    dirty, byKey, placed, w := Prepare(appends, entries, gets);
    NotUnexplained(w.l, gets);
    more, unknown := SearchKeys(byKey, placed, hash, limit, ctx);
    bad := dirty + more;
    assert ReadVerdict(gets, w, bad, unknown);
    KindsNamed(gets, w, bad, unknown);
  }

  /** Searches each key's history, in any order of the keys. */
  method SearchKeys(byKey: map<string, seq<KeyOp>>, placed: map<string, seq<nat>>, hash: Words -> int, limit: nat,
      ctx: nat -> bool)
    returns (bad: seq<Anomaly<About>>, unknown: seq<string>)
    ensures forall x :: x in bad ==> exists k :: k in byKey && x == Unexplained(k)
    ensures forall k :: k in byKey && k !in unknown ==>
      (Unexplained(k) in bad <==> !Linearizable(KeyModel(Lookup(placed, k)), byKey[k]))
    ensures forall k :: k in unknown ==> k in byKey && Unexplained(k) !in bad
    ensures forall k :: k in unknown ==> k in byKey && GivenUpFor(byKey[k], Lookup(placed, k), limit, ctx)
    ensures forall k :: k in byKey && !WellTimed(byKey[k]) ==> k in unknown
  {
    hide KeyModel, WellTimed, Linearizable, SameSound, Lookup, Search.Right, Search.Counts, GivenUpFor;
    bad, unknown := [], [];
    var todo := byKey.Keys;
    while todo != {}
      invariant todo <= byKey.Keys
      invariant forall x :: x in bad ==> exists k :: k in byKey && k !in todo && x == Unexplained(k)
      invariant forall k :: k in byKey && k !in todo && k !in unknown ==>
        (Unexplained(k) in bad <==> !Linearizable(KeyModel(Lookup(placed, k)), byKey[k]))
      invariant forall k :: k in unknown ==> k in byKey && k !in todo && Unexplained(k) !in bad
      invariant forall k :: k in unknown ==> k in byKey && GivenUpFor(byKey[k], Lookup(placed, k), limit, ctx)
      invariant forall k :: k in byKey && k !in todo && !WellTimed(byKey[k]) ==> k in unknown
      decreases |todo|
    {
      var k :| k in todo;
      var m := KeyModel(Lookup(placed, k));
      KeyModelSound(Lookup(placed, k));
      var res, err := Search.CheckWithin(m, byKey[k], hash, limit, ctx);
      todo := todo - {k};
      UnknownFor(byKey[k], Lookup(placed, k), limit, ctx, res, err);
      match res.outcome {
        case Illegal => bad := bad + [Unexplained(k)];
        case Unknown => unknown := unknown + [k];
        case Ok =>
      }
    }
  }

  lemma UnknownFor(ops: seq<KeyOp>, offs: seq<nat>, limit: nat, ctx: nat -> bool, res: Search.Result<int>,
      err: Search.Error)
    requires res.outcome == Search.Unknown <==> err != Search.NoError
    requires err == Search.ErrBadOp <==> !WellTimed(ops)
    requires err != Search.ErrBadOp ==> Search.Counts(KeyModel(offs), ops, res)
    requires err == Search.ErrLimit ==> 0 < limit < res.explored
    requires err == Search.ErrContext ==> exists n :: n > 0 && n % 0x1000 == 0 && ctx(n)
    ensures res.outcome == Search.Unknown ==> GivenUpFor(ops, offs, limit, ctx)
    ensures !WellTimed(ops) ==> res.outcome == Search.Unknown
  {
    hide Search.Counts, Search.MoreThan, WellTimed, KeyModel;
    if err == Search.ErrLimit { Search.CountsMean(KeyModel(offs), ops, res, limit); }
  }

  /** The report of a key whose history no order explains. */
  function Unexplained(k: string): Anomaly<About> {
    Anomaly("nonlinearizable-read", About("", k, []))
  }

  lemma NotUnexplained(l: Index, gets: seq<Read>)
    ensures forall k :: Unexplained(k) !in DirtyReports(l, gets, |gets|)
  {
    DirtyReported(l, gets, |gets|);
  }

  lemma KeyModelSound(offs: seq<nat>)
    ensures SameSound(KeyModel(offs))
  {
  }
}
