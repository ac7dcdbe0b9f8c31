/**
 Appends to a log that gives each entry an offset, and the final log, indexed
 (logcheck/logcheck.go).
 */
module Logs {
  import opened Options
  import opened Seqs
  import opened Maps
  import opened Reports
  import opened History
  import opened Sorting

  datatype Outcome = OK | Failed | Unknown

  /** One try at an append. */
  datatype Attempt = Attempt(op: int, call: int64, ret: int64, outcome: Outcome, offset: nat)

  /** A value, where it is to go and on what conditions, and the attempts to append it. */
  datatype Append = Append(value: string, key: string, attempts: seq<Attempt>, idempotent: bool,
      afterKey: Option<nat>, afterLog: Option<nat>)

  datatype Entry = Entry(offset: nat, key: string, value: string)

  /** What a read asked of a key, and the entry it returned; offset 0 if there was none. */
  datatype Read = Read(op: int, key: string, call: int64, ret: int64, offset: nat, value: string)

  /** The value, the key and the operations a report names. */
  datatype About = About(value: string, key: string, ops: seq<int>)

  predicate NoGreater(x: nat, y: nat) { x <= y }

  /** Sorts distinct offsets. */
  function SortOffsets(s: seq<nat>): seq<nat> {
    Sort(s, NoGreater)
  }

  lemma OffsetsSorted(s: seq<nat>)
    requires Distinct(s)
    ensures Increasing(SortOffsets(s)) && forall o :: o in SortOffsets(s) <==> o in s
  {
    var r := SortOffsets(s);
    SortSorted(s, NoGreater);
    SameElements(s, r);
    SameDistinct(s, r);
    forall i, j | 0 <= i < j < |r| ensures r[i] < r[j] {
      assert NoGreater(r[i], r[j]);
    }
  }

  // ----- The final log, indexed

  datatype Index = Index(
    byOffset: map<nat, Entry>,
    byValue: map<string, seq<nat>>,
    byKey: map<string, seq<nat>>,
    offsets: seq<nat>,
    collisions: seq<Anomaly<About>>)

  ghost predicate IsFirst(entries: seq<Entry>, i: nat) {
    i < |entries| && forall j :: 0 <= j < i ==> entries[j].offset != entries[i].offset
  }

  /** The first entry at each offset. */
  ghost predicate ByOffset(entries: seq<Entry>, byOffset: map<nat, Entry>) {
    && (forall i :: 0 <= i < |entries| ==> entries[i].offset in byOffset)
    && (forall o :: o in byOffset ==> exists i: nat ::
      IsFirst(entries, i) && entries[i] == byOffset[o] && byOffset[o].offset == o)
  }

  ghost predicate NoCollision(entries: seq<Entry>) {
    forall i, j :: 0 <= i < j < |entries| ==> entries[i].offset != entries[j].offset
  }

  ghost predicate ListsValues(byOffset: map<nat, Entry>, byValue: map<string, seq<nat>>) {
    forall v, o :: o in Lookup(byValue, v) <==> o in byOffset && byOffset[o].value == v
  }

  ghost predicate ListsKeys(byOffset: map<nat, Entry>, byKey: map<string, seq<nat>>) {
    forall k, o :: o in Lookup(byKey, k) <==> o in byOffset && byOffset[o].key == k
  }

  ghost predicate ListsOffsets(byOffset: map<nat, Entry>, offsets: seq<nat>) {
    forall o :: o in offsets <==> o in byOffset
  }

  ghost predicate Indexed(entries: seq<Entry>, l: Index) {
    && ByOffset(entries, l.byOffset)
    && ListsValues(l.byOffset, l.byValue) && (forall v :: Increasing(Lookup(l.byValue, v)))
    && ListsKeys(l.byOffset, l.byKey) && (forall k :: Increasing(Lookup(l.byKey, k)))
    && ListsOffsets(l.byOffset, l.offsets) && Increasing(l.offsets)
    && KindsOf(l.collisions) == When(!NoCollision(entries), "collision")
  }

  /** Files an offset under a string. */
  function File(m: map<string, seq<nat>>, k: string, o: nat): map<string, seq<nat>> {
    m[k := Lookup(m, k) + [o]]
  }

  /** Sorts each list of a map. */
  function SortAll(m: map<string, seq<nat>>): map<string, seq<nat>> {
    map k | k in m :: SortOffsets(m[k])
  }

  lemma SortAllMeans(m: map<string, seq<nat>>)
    requires forall k :: Distinct(Lookup(m, k))
    ensures forall k :: Increasing(Lookup(SortAll(m), k))
    ensures forall k, o :: o in Lookup(SortAll(m), k) <==> o in Lookup(m, k)
  {
    hide Increasing, Distinct;
    NothingIncreases();
    forall k
      ensures Increasing(Lookup(SortAll(m), k)) && forall o :: o in Lookup(SortAll(m), k) <==> o in Lookup(m, k)
    {
      OffsetsSorted(Lookup(m, k));
    }
  }

  lemma NothingIncreases()
    ensures Increasing([])
  {
  }

  lemma ByOffsetNext(entries: seq<Entry>, n: nat, byOffset: map<nat, Entry>)
    requires n < |entries| && ByOffset(entries[..n], byOffset)
    ensures ByOffset(entries[..n + 1], if entries[n].offset in byOffset then byOffset
      else byOffset[entries[n].offset := entries[n]])
    ensures NoCollision(entries[..n + 1]) <==> NoCollision(entries[..n]) && entries[n].offset !in byOffset
  {
    CollisionNext(entries, n, byOffset);
    hide NoCollision, IsFirst;
    var a, b, e := entries[..n], entries[..n + 1], entries[n];
    var now := if e.offset in byOffset then byOffset else byOffset[e.offset := e];
    TakeNext(entries, n);
    forall o | o in now ensures exists i: nat :: IsFirst(b, i) && b[i] == now[o] && now[o].offset == o {
      if o in byOffset {
        var i: nat :| IsFirst(a, i) && a[i] == byOffset[o] && byOffset[o].offset == o;
        FirstStays(a, e, i);
      } else {
        NewIsFirst(a, e, byOffset);
        assert b[n] == e;
      }
    }
    forall i | 0 <= i < |b| ensures b[i].offset in now {
      if i < n { assert b[i] == a[i] && a[i].offset in byOffset; }
    }
  }

  lemma FirstStays(a: seq<Entry>, e: Entry, i: nat)
    requires IsFirst(a, i)
    ensures IsFirst(a + [e], i) && (a + [e])[i] == a[i]
  {
  }

  lemma NewIsFirst(a: seq<Entry>, e: Entry, byOffset: map<nat, Entry>)
    requires ByOffset(a, byOffset) && e.offset !in byOffset
    ensures IsFirst(a + [e], |a|)
  {
    forall j | 0 <= j < |a| ensures (a + [e])[j].offset != e.offset {
      assert a[j].offset in byOffset;
    }
  }

  lemma CollisionNext(entries: seq<Entry>, n: nat, byOffset: map<nat, Entry>)
    requires n < |entries| && ByOffset(entries[..n], byOffset)
    ensures NoCollision(entries[..n + 1]) <==> NoCollision(entries[..n]) && entries[n].offset !in byOffset
  {
    var a, b := entries[..n], entries[..n + 1];
    assert forall i :: 0 <= i < n ==> b[i] == a[i];
    assert b[n] == entries[n];
    if entries[n].offset in byOffset {
      var i: nat :| IsFirst(a, i) && a[i] == byOffset[entries[n].offset] &&
        byOffset[entries[n].offset].offset == entries[n].offset;
      assert !NoCollision(b);
    } else {
      forall i | 0 <= i < n ensures b[i].offset != b[n].offset {
        assert a[i].offset in byOffset;
      }
    }
    if NoCollision(b) {
      forall i, j | 0 <= i < j < n ensures a[i].offset != a[j].offset {
        assert b[i] == a[i] && b[j] == a[j];
      }
    }
  }

  lemma FileMeans(m: map<string, seq<nat>>, k: string, o: nat)
    ensures forall c, x :: x in Lookup(File(m, k, o), c) <==> x in Lookup(m, c) || (c == k && x == o)
    ensures (forall c :: Distinct(Lookup(m, c))) && o !in Lookup(m, k) ==> forall c ::
      Distinct(Lookup(File(m, k, o), c))
  {
    forall c ensures Lookup(File(m, k, o), c) == if c == k then Lookup(m, c) + [o] else Lookup(m, c) {
      LookupPut(m, k, Lookup(m, k) + [o], c);
    }
  }

  ghost predicate Listing(byOffset: map<nat, Entry>, byValue: map<string, seq<nat>>, byKey: map<string, seq<nat>>,
      offsets: seq<nat>)
  {
    && ListsValues(byOffset, byValue) && (forall v :: Distinct(Lookup(byValue, v)))
    && ListsKeys(byOffset, byKey) && (forall k :: Distinct(Lookup(byKey, k)))
    && ListsOffsets(byOffset, offsets) && Distinct(offsets)
  }

  lemma ListingNext(byOffset: map<nat, Entry>, byValue: map<string, seq<nat>>, byKey: map<string, seq<nat>>,
      offsets: seq<nat>, e: Entry)
    requires Listing(byOffset, byValue, byKey, offsets) && e.offset !in byOffset
    ensures Listing(byOffset[e.offset := e], File(byValue, e.value, e.offset), File(byKey, e.key, e.offset),
      offsets + [e.offset])
  {
    hide File, Distinct;
    FileMeans(byValue, e.value, e.offset);
    FileMeans(byKey, e.key, e.offset);
    DistinctNext(offsets, e.offset);
  }

  /** Indexes the first entry at each offset; a second one there is a collision. */
  method MakeIndex(entries: seq<Entry>) returns (l: Index)
    requires forall i :: 0 <= i < |entries| ==> entries[i].offset > 0
    ensures Indexed(entries, l)
  {
    hide ByOffset, NoCollision, Listing, Distinct, File, KindsOf;
    KindsNone<About>([]);
    var byOffset: map<nat, Entry>, byValue: map<string, seq<nat>>, byKey: map<string, seq<nat>>, offsets: seq<nat>,
      collisions: seq<Anomaly<About>> := map[], map[], map[], [], [];
    IndexNothing(entries);
    for n := 0 to |entries|
      invariant ByOffset(entries[..n], byOffset) && Listing(byOffset, byValue, byKey, offsets)
      invariant KindsOf(collisions) == When(!NoCollision(entries[..n]), "collision")
    {
      var e := entries[n];
      ByOffsetNext(entries, n, byOffset);
      if e.offset in byOffset {
        KindsMore(collisions, Anomaly("collision", About(e.value, e.key, [])));
        collisions := collisions + [Anomaly("collision", About(e.value, e.key, []))];
      } else {
        ListingNext(byOffset, byValue, byKey, offsets, e);
        byOffset := byOffset[e.offset := e];
        byValue := File(byValue, e.value, e.offset);
        byKey := File(byKey, e.key, e.offset);
        offsets := offsets + [e.offset];
      }
    }
    TakeAll(entries);
    l := Index(byOffset, SortAll(byValue), SortAll(byKey), SortOffsets(offsets), collisions);
    ListingSorted(byOffset, byValue, byKey, offsets);
  }

  lemma IndexNothing(entries: seq<Entry>)
    ensures ByOffset(entries[..0], map[]) && Listing(map[], map[], map[], []) && NoCollision(entries[..0])
  {
  }

  lemma ListingSorted(byOffset: map<nat, Entry>, byValue: map<string, seq<nat>>, byKey: map<string, seq<nat>>,
      offsets: seq<nat>)
    requires Listing(byOffset, byValue, byKey, offsets)
    ensures ListsValues(byOffset, SortAll(byValue)) && (forall v :: Increasing(Lookup(SortAll(byValue), v)))
    ensures ListsKeys(byOffset, SortAll(byKey)) && (forall k :: Increasing(Lookup(SortAll(byKey), k)))
    ensures ListsOffsets(byOffset, SortOffsets(offsets)) && Increasing(SortOffsets(offsets))
  {
    hide SortAll, SortOffsets, Increasing, Distinct, Lookup;
    SortAllMeans(byValue);
    SortAllMeans(byKey);
    OffsetsSorted(offsets);
  }

  // ----- The entry before an offset

  /** The last of `offs` below `off`, or 0. */
  function Before(offs: seq<nat>, off: nat): nat {
    if offs == [] then 0
    else if offs[|offs| - 1] < off then offs[|offs| - 1]
    else Before(offs[..|offs| - 1], off)
  }

  lemma {:induction false} BeforeMeans(offs: seq<nat>, off: nat)
    requires Increasing(offs)
    ensures (Before(offs, off) == 0 && forall o :: o in offs ==> off <= o) ||
      (Before(offs, off) in offs && Before(offs, off) < off)
    ensures forall o :: o in offs && o < off ==> o <= Before(offs, off)
  {
    if offs != [] {
      var n := |offs| - 1;
      assert offs == offs[..n] + [offs[n]];
      if offs[n] >= off {
        BeforeMeans(offs[..n], off);
      }
    }
  }
}
