/**
 The work the checker's passes do on one transaction or one key (listappend/listappend.go,
 internal and orders).
 */
module Passes {
  import opened Seqs
  import opened Maps
  import opened Reports
  import opened Txns
  import opened Inference

  /** What a report is about: the transactions by ID, the edges of a cycle, and the key. */
  datatype About = About(txns: seq<int>, edges: seq<string>, key: Key)

  // ----- internal

  /** The list read at `a` ends in the transaction's appends ahead of `a`. */
  ghost predicate OwnAt(mops: seq<Mop>, a: nat)
    requires a < |mops|
  {
    mops[a].Read? ==>
      var mine, list := Appended(mops[..a], mops[a].key), mops[a].list;
      |mine| <= |list| && list[|list| - |mine|..] == mine
  }

  ghost predicate OwnUpTo(mops: seq<Mop>, n: nat)
    requires n <= |mops|
  {
    forall a :: 0 <= a < n ==> OwnAt(mops, a)
  }

  ghost function RestAt(mops: seq<Mop>, a: nat): seq<Value>
    requires a < |mops| && mops[a].Read?
  {
    Rest(Appended(mops[..a], mops[a].key), mops[a].list)
  }

  predicate SameKeyReads(mops: seq<Mop>, a: nat, b: nat)
    requires a < |mops| && b < |mops|
  {
    mops[a].Read? && mops[b].Read? && mops[a].key == mops[b].key
  }

  ghost predicate RepeatUpTo(mops: seq<Mop>, n: nat)
    requires n <= |mops|
  {
    forall a, b :: 0 <= a < n && 0 <= b < n && SameKeyReads(mops, a, b) && OwnAt(mops, a) && OwnAt(mops, b) ==>
      RestAt(mops, a) == RestAt(mops, b)
  }

  /** For each key in `others`, some read ahead showed that of other transactions. */
  ghost predicate Shown(mops: seq<Mop>, n: nat, others: map<Key, seq<Value>>)
    requires n <= |mops|
  {
    forall k :: k in others ==> exists a ::
      0 <= a < n && mops[a].Read? && mops[a].key == k && OwnAt(mops, a) && RestAt(mops, a) == others[k]
  }

  ghost predicate AllShown(mops: seq<Mop>, n: nat, others: map<Key, seq<Value>>)
    requires n <= |mops|
  {
    forall a :: 0 <= a < n && mops[a].Read? && OwnAt(mops, a) ==>
      mops[a].key in others && others[mops[a].key] == RestAt(mops, a)
  }

  lemma RepeatNext(mops: seq<Mop>, n: nat, others: map<Key, seq<Value>>)
    requires n < |mops| && mops[n].Read? && OwnAt(mops, n) && Shown(mops, n, others) &&
      (RepeatUpTo(mops, n) ==> AllShown(mops, n, others))
    ensures RepeatUpTo(mops, n + 1) <==>
      RepeatUpTo(mops, n) && (mops[n].key in others ==> RestAt(mops, n) == others[mops[n].key])
  {
    hide RestAt, OwnAt;
    if RepeatUpTo(mops, n + 1) && mops[n].key in others {
      var a :| 0 <= a < n && mops[a].Read? && mops[a].key == mops[n].key && OwnAt(mops, a) &&
        RestAt(mops, a) == others[mops[n].key];
      assert SameKeyReads(mops, a, n);
    }
  }

  /** `own` holds the transaction's appends ahead of `n`. */
  ghost predicate Tracks(mops: seq<Mop>, n: nat, own: map<Key, seq<Value>>)
    requires n <= |mops|
  {
    forall k :: Lookup(own, k) == Appended(mops[..n], k)
  }

  lemma TracksNext(mops: seq<Mop>, n: nat, own: map<Key, seq<Value>>)
    requires n < |mops| && Tracks(mops, n, own)
    ensures Lookup(own, mops[n].key) == Appended(mops[..n], mops[n].key)
    ensures Tracks(mops, n + 1, if mops[n].Append? then
      own[mops[n].key := Lookup(own, mops[n].key) + [mops[n].value]] else own)
  {
    hide Appended;
    var m := mops[n];
    var now := if m.Append? then own[m.key := Lookup(own, m.key) + [m.value]] else own;
    forall k ensures Lookup(now, k) == Appended(mops[..n + 1], k) {
      AppendedPrefix(mops, k, n);
    }
  }

  /**
   Reports the reads that lack their transaction's own appends, and those that show others'
   differently than an earlier read did.
   */
  method InternalOf(id: int, mops: seq<Mop>) returns (reports: seq<Anomaly<About>>)
    ensures KindsOf(reports) == When(!OwnUpTo(mops, |mops|), "internal") + When(!RepeatUpTo(mops, |mops|),
      "nonrepeatable")
  {
    hide RepeatUpTo, RestAt, Tracks, Appended, Lookup, KindsOf, OwnAt;
    reports := [];
    var own: map<Key, seq<Value>>, others: map<Key, seq<Value>> := map[], map[];
    RepeatNone(mops);
    KindsNone<About>([]);
    for j := 0 to |mops|
      invariant Tracks(mops, j, own)
      invariant Shown(mops, j, others)
      invariant RepeatUpTo(mops, j) ==> AllShown(mops, j, others)
      invariant KindsOf(reports) == When(!OwnUpTo(mops, j), "internal") + When(!RepeatUpTo(mops, j), "nonrepeatable")
    {
      var m := mops[j];
      TracksNext(mops, j, own);
      RepeatSkip(mops, j);
      if m.Append? {
        own := own[m.key := Lookup(own, m.key) + [m.value]];
      } else {
        var mine := Lookup(own, m.key);
        RestIs(mops, j, mine);
        if |m.list| < |mine| || m.list[|m.list| - |mine|..] != mine {
          KindsMore(reports, Anomaly("internal", About([id], [], m.key)));
          reports := reports + [Anomaly("internal", About([id], [], m.key))];
        } else {
          var rest := m.list[..|m.list| - |mine|];
          RepeatNext(mops, j, others);
          if m.key in others && rest != others[m.key] {
            KindsMore(reports, Anomaly("nonrepeatable", About([id], [], m.key)));
            reports := reports + [Anomaly("nonrepeatable", About([id], [], m.key))];
          }
          others := others[m.key := rest];
        }
      }
    }
  }

  lemma RepeatNone(mops: seq<Mop>)
    ensures RepeatUpTo(mops, 0) && Tracks(mops, 0, map[])
  {
  }

  lemma RepeatSkip(mops: seq<Mop>, n: nat)
    requires n < |mops|
    ensures !mops[n].Read? ==> OwnAt(mops, n)
    ensures !mops[n].Read? || !OwnAt(mops, n) ==> (RepeatUpTo(mops, n + 1) <==> RepeatUpTo(mops, n))
    ensures OwnUpTo(mops, n + 1) <==> OwnUpTo(mops, n) && OwnAt(mops, n)
  {
  }

  lemma RestIs(mops: seq<Mop>, j: nat, mine: seq<Value>)
    requires j < |mops| && mops[j].Read? && mine == Appended(mops[..j], mops[j].key)
    ensures OwnAt(mops, j) <==> |mine| <= |mops[j].list| && mops[j].list[|mops[j].list| - |mine|..] == mine
    ensures |mine| <= |mops[j].list| ==> RestAt(mops, j) == mops[j].list[..|mops[j].list| - |mine|]
  {
  }

  // ----- orders

  /** Reports each value a list holds again. */
  method Repeats(id: int, k: Key, list: seq<Value>) returns (reports: seq<Anomaly<About>>)
    ensures KindsOf(reports) == When(!Distinct(list), "duplicate")
  {
    hide KindsOf;
    KindsNone<About>([]);
    reports := [];
    var dup: set<Value> := {};
    for i := 0 to |list|
      invariant forall v :: v in dup <==> v in list[..i]
      invariant KindsOf(reports) == When(!Distinct(list[..i]), "duplicate")
    {
      if list[i] in dup {
        KindsMore(reports, Anomaly("duplicate", About([id], [], k)));
        reports := reports + [Anomaly("duplicate", About([id], [], k))];
      }
      dup := dup + {list[i]};
      TakeNext(list, i);
      DistinctNext(list[..i], list[i]);
    }
    TakeAll(list);
  }

  /**
   The version order of a key is its first longest read; reports the reads that repeat a value, and
   those that are not beginnings of it.
   */
  method OrderOfKey(k: Key, rs: seq<seq<Value>>, who: seq<int>)
      returns (order: seq<Value>, reports: seq<Anomaly<About>>)
    requires |rs| == |who| > 0
    ensures order in rs && forall r :: r in rs ==> |r| <= |order|
    ensures KindsOf(reports) == When(!AllDistinct(rs, |rs|), "duplicate") + When(!AllBegin(rs, |rs|, order),
      "incompatible-order")
  {
    hide KindsOf;
    KindsNone<About>([]);
    reports := [];
    var longest := 0;
    for i := 0 to |rs|
      invariant 0 <= longest < |rs| && forall a :: 0 <= a < i ==> |rs[a]| <= |rs[longest]|
      invariant KindsOf(reports) == When(!AllDistinct(rs, i), "duplicate")
    {
      if |rs[i]| > |rs[longest]| {
        longest := i;
      }
      var dups := Repeats(who[i], k, rs[i]);
      KindsJoin(reports, dups);
      reports := reports + dups;
    }
    order := rs[longest];
    for i := 0 to |rs|
      invariant KindsOf(reports) == When(!AllDistinct(rs, |rs|), "duplicate") + When(!AllBegin(rs, i, order),
        "incompatible-order")
    {
      if |rs[i]| > |order| || order[..|rs[i]|] != rs[i] {
        KindsMore(reports, Anomaly("incompatible-order", About([who[i], who[longest]], [], k)));
        reports := reports + [Anomaly("incompatible-order", About([who[i], who[longest]], [], k))];
      }
    }
  }

  ghost predicate AllDistinct(rs: seq<seq<Value>>, n: nat)
    requires n <= |rs|
  {
    forall a :: 0 <= a < n ==> Distinct(rs[a])
  }

  ghost predicate AllBegin(rs: seq<seq<Value>>, n: nat, order: seq<Value>)
    requires n <= |rs|
  {
    forall a :: 0 <= a < n ==> rs[a] <= order
  }
}
