/**
 The bound on when a copy was sent holds of every log that could have put the copies there: the
 copies no ack placed, in order, landed at or after the calls left over, in order.
 */
module SendBound {
  import opened Seqs
  import opened History
  import opened Sorting
  import opened Logs
  import opened Sends

  /** The attempts that put an append's copies in the log, and when each landed. */
  ghost predicate Copies(a: Append, offs: seq<nat>, src: seq<nat>, at: seq<int>) {
    && |src| == |at| == |offs| && Distinct(src)
    && (forall i :: 0 <= i < |offs| ==>
      src[i] < |a.attempts| && !a.attempts[src[i]].outcome.Failed? && a.attempts[src[i]].call <= at[i])
    && (forall i, j :: 0 <= i < j < |offs| ==> at[i] <= at[j])
    && (a.idempotent ==> |offs| <= 1)
    && (forall t :: 0 <= t < |a.attempts| && a.attempts[t].outcome.OK? ==> exists i ::
      0 <= i < |offs| && Acked(a, offs, src, at, t, i))
  }

  /** The ack of attempt `t` named copy `i`, which had landed by then. */
  ghost predicate Acked(a: Append, offs: seq<nat>, src: seq<nat>, at: seq<int>, t: nat, i: nat)
    requires t < |a.attempts| && i < |offs| == |src| == |at|
  {
    (a.idempotent || src[i] == t) && offs[i] == a.attempts[t].offset && at[i] <= a.attempts[t].ret
  }

  ghost function CountBy(s: seq<int64>, limit: int): nat {
    if s == [] then 0 else CountBy(s[..|s| - 1], limit) + if s[|s| - 1] <= limit then 1 else 0
  }

  lemma {:induction false} CountJoin(a: seq<int64>, b: seq<int64>, limit: int)
    ensures CountBy(a + b, limit) == CountBy(a, limit) + CountBy(b, limit)
  {
    if b == [] {
      assert a + b == a;
    } else {
      var n := |b| - 1;
      assert (a + b)[..|a + b| - 1] == a + b[..n];
      CountJoin(a, b[..n], limit);
    }
  }

  lemma CountOf(x: int64, limit: int)
    ensures CountBy([x], limit) == if x <= limit then 1 else 0
  {
    assert CountBy([x][..0], limit) == 0;
  }

  lemma {:induction false} CountInsert(x: int64, s: seq<int64>, limit: int)
    ensures CountBy(Insert(x, s, NoLater), limit) == CountBy(s, limit) + if x <= limit then 1 else 0
  {
    CountOf(x, limit);
    if s == [] {
    } else if NoLater(x, s[0]) {
      CountJoin([x], s, limit);
    } else {
      CountInsert(x, s[1..], limit);
      CountJoin([s[0]], s[1..], limit);
      CountJoin([s[0]], Insert(x, s[1..], NoLater), limit);
      assert s == [s[0]] + s[1..];
    }
  }

  lemma {:induction false} CountSort(s: seq<int64>, limit: int)
    ensures CountBy(Sort(s, NoLater), limit) == CountBy(s, limit)
  {
    if s != [] {
      CountSort(s[1..], limit);
      CountInsert(s[0], Sort(s[1..], NoLater), limit);
      CountOf(s[0], limit);
      CountJoin([s[0]], s[1..], limit);
      assert s == [s[0]] + s[1..];
    }
  }

  lemma {:induction false} CountSmall(s: seq<int64>, limit: int, j: nat)
    requires Sorted(s, NoLater) && j < |s| && s[j] > limit
    ensures CountBy(s, limit) <= j
  {
    var n := |s| - 1;
    if j < n {
      assert NoLater(s[j], s[n]);
      CountSmall(s[..n], limit, j);
    } else {
      CountMost(s[..n], limit);
    }
  }

  lemma {:induction false} CountMost(s: seq<int64>, limit: int)
    ensures CountBy(s, limit) <= |s|
  {
    if s != [] { CountMost(s[..|s| - 1], limit); }
  }

  /** With more than `j` values no greater than a limit, neither is the one at `j` in order. */
  lemma InOrder(s: seq<int64>, limit: int, j: nat)
    requires CountBy(s, limit) > j
    ensures j < |Sort(s, NoLater)| && Sort(s, NoLater)[j] <= limit
  {
    var r := Sort(s, NoLater);
    CountSort(s, limit);
    CountMost(r, limit);
    SortSorted(s, NoLater);
    if r[j] > limit { CountSmall(r, limit, j); }
  }

  // ----- The copies no ack placed come from attempts left over

  ghost function SpareBy(a: Append, offs: seq<nat>, n: nat, limit: int): set<nat>
    requires n <= |a.attempts|
  {
    set t: nat | t < n && Spares(a, offs, t) && a.attempts[t].call <= limit
  }

  lemma {:induction false} SpareCount(a: Append, offs: seq<nat>, n: nat, limit: int)
    requires n <= |a.attempts|
    ensures CountBy(SpareCalls(a, offs, n), limit) == |SpareBy(a, offs, n, limit)|
  {
    if n > 0 {
      SpareCount(a, offs, n - 1, limit);
      var call := a.attempts[n - 1].call;
      var was := SpareBy(a, offs, n - 1, limit);
      if Spares(a, offs, n - 1) {
        CountJoin(SpareCalls(a, offs, n - 1), [call], limit);
        CountOf(call, limit);
        if call <= limit {
          assert SpareBy(a, offs, n, limit) == was + {n - 1};
        } else {
          assert SpareBy(a, offs, n, limit) == was;
        }
      } else {
        assert SpareBy(a, offs, n, limit) == was;
        assert SpareCalls(a, offs, n) == SpareCalls(a, offs, n - 1);
      }
    }
  }

  ghost function Sources(a: Append, offs: seq<nat>, src: seq<nat>, k: nat): set<nat>
    requires k <= |offs| == |src|
  {
    if k == 0 then {} else Sources(a, offs, src, k - 1) + if PlacedBy(a, offs, offs[k - 1], |a.attempts|) then {}
        else {src[k - 1]}
  }

  lemma {:induction false} SourcesAre(a: Append, offs: seq<nat>, src: seq<nat>, k: nat, t: nat)
    requires k <= |offs| == |src|
    ensures t in Sources(a, offs, src, k) <==>
      exists i :: 0 <= i < k && src[i] == t && !PlacedBy(a, offs, offs[i], |a.attempts|)
  {
    hide PlacedBy;
    if k > 0 {
      SourcesAre(a, offs, src, k - 1, t);
    }
  }

  lemma {:induction false} SourcesCount(a: Append, offs: seq<nat>, src: seq<nat>, k: nat)
    requires k <= |offs| == |src| && Distinct(src)
    ensures |Sources(a, offs, src, k)| == Rank(a, offs, k)
  {
    hide PlacedBy;
    if k > 0 {
      SourcesCount(a, offs, src, k - 1);
      SourcesAre(a, offs, src, k - 1, src[k - 1]);
    }
  }

  lemma OwnAck(a: Append, offs: seq<nat>, src: seq<nat>, at: seq<int>, i: nat)
    requires Copies(a, offs, src, at) && i < |offs| && a.attempts[src[i]].outcome.OK? && !a.idempotent
    ensures a.attempts[src[i]].offset == offs[i]
  {
    var j :| 0 <= j < |offs| && Acked(a, offs, src, at, src[i], j);
  }

  lemma UnplacedSpares(a: Append, offs: seq<nat>, src: seq<nat>, at: seq<int>, i: nat)
    requires Copies(a, offs, src, at) && i < |offs| && !PlacedBy(a, offs, offs[i], |a.attempts|)
    ensures Spares(a, offs, src[i])
  {
    assert !PlacesAt(a, offs, src[i], offs[i]);
    if a.attempts[src[i]].outcome.OK? && !a.idempotent {
      OwnAck(a, offs, src, at, i);
    }
  }

  lemma EnoughSpare(a: Append, offs: seq<nat>, src: seq<nat>, at: seq<int>, i: nat)
    requires Copies(a, offs, src, at) && i < |offs| && !PlacedBy(a, offs, offs[i], |a.attempts|)
    ensures CountBy(SpareCalls(a, offs, |a.attempts|), at[i]) > Rank(a, offs, i)
  {
    hide PlacedBy, Spares;
    var s := Sources(a, offs, src, i + 1);
    forall t | t in s ensures t in SpareBy(a, offs, |a.attempts|, at[i]) {
      SourcesAre(a, offs, src, i + 1, t);
      var j :| 0 <= j < i + 1 && src[j] == t && !PlacedBy(a, offs, offs[j], |a.attempts|);
      UnplacedSpares(a, offs, src, at, j);
    }
    SourcesCount(a, offs, src, i + 1);
    SubsetSize(s, SpareBy(a, offs, |a.attempts|, at[i]));
    SpareCount(a, offs, |a.attempts|, at[i]);
  }

  /** A copy landed no earlier than the bound. */
  lemma SentBeforeLanding(a: Append, offs: seq<nat>, src: seq<nat>, at: seq<int>, i: nat, c: int64)
    requires Copies(a, offs, src, at) && Increasing(offs) && i < |offs| && SentAt(a, offs, i, c)
    ensures c <= at[i]
  {
    if PlacedBy(a, offs, offs[i], |a.attempts|) {
      var t :| 0 <= t < |a.attempts| && PlacesAt(a, offs, t, offs[i]) && a.attempts[t].call == c;
      var j :| 0 <= j < |offs| && Acked(a, offs, src, at, t, j);
      assert offs[j] == offs[i];
    } else {
      LeftOverBound(a, offs, src, at, i, c);
    }
  }

  lemma LeftOverBound(a: Append, offs: seq<nat>, src: seq<nat>, at: seq<int>, i: nat, c: int64)
    requires Copies(a, offs, src, at) && i < |offs| && SentAt(a, offs, i, c) &&
      !PlacedBy(a, offs, offs[i], |a.attempts|)
    ensures c <= at[i]
  {
    hide PlacedBy, SpareCalls, RefusedCalls, Copies;
    EnoughSpare(a, offs, src, at, i);
    CopiesSize(a, offs, src, at);
    var left := SpareCalls(a, offs, |a.attempts|);
    CountMost(left, at[i]);
    InOrder(left, at[i], Rank(a, offs, i));
    assert LeftOver(a, offs) == left;
  }

  lemma CopiesSize(a: Append, offs: seq<nat>, src: seq<nat>, at: seq<int>)
    requires Copies(a, offs, src, at)
    ensures |src| == |at| == |offs|
  {
  }
}
