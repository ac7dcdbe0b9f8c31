/** A stable sort, as the source's calls of slices.SortStableFunc and slices.Sort use one. */
module Sorting {

  ghost predicate TotalPreorder<T(!new)>(le: (T, T) -> bool) {
    && (forall x, y :: le(x, y) || le(y, x))
    && (forall x, y, z :: le(x, y) && le(y, z) ==> le(x, z))
  }

  ghost predicate Sorted<T>(s: seq<T>, le: (T, T) -> bool) {
    forall i, j :: 0 <= i < j < |s| ==> le(s[i], s[j])
  }

  predicate NatLe(a: nat, b: nat) { a <= b }

  predicate NatLess(a: nat, b: nat) { a < b }

  /** Puts `x` ahead of the elements it ties with. */
  function Insert<T>(x: T, s: seq<T>, le: (T, T) -> bool): (r: seq<T>)
    ensures multiset(r) == multiset{x} + multiset(s)
  {
    if s == [] then [x]
    else if le(x, s[0]) then [x] + s
    else
      assert s == [s[0]] + s[1..];
      [s[0]] + Insert(x, s[1..], le)
  }

  function Sort<T>(s: seq<T>, le: (T, T) -> bool): (r: seq<T>)
    ensures multiset(r) == multiset(s)
  {
    if s == [] then []
    else
      assert s == [s[0]] + s[1..];
      Insert(s[0], Sort(s[1..], le), le)
  }

  lemma {:induction false} InsertSorted<T(!new)>(x: T, s: seq<T>, le: (T, T) -> bool)
    requires TotalPreorder(le) && Sorted(s, le)
    ensures Sorted(Insert(x, s, le), le)
  {
    if s != [] && !le(x, s[0]) {
      InsertSorted(x, s[1..], le);
      var rest := Insert(x, s[1..], le);
      forall y | y in rest ensures le(s[0], y) {
        assert y in multiset(rest);
        assert y == x || y in s[1..];
      }
    }
  }

  lemma {:induction false} SortSorted<T(!new)>(s: seq<T>, le: (T, T) -> bool)
    requires TotalPreorder(le)
    ensures Sorted(Sort(s, le), le)
  {
    if s != [] {
      SortSorted(s[1..], le);
      InsertSorted(s[0], Sort(s[1..], le), le);
    }
  }

  /** In order, and where two tie, the one `before` the other is ahead. */
  ghost predicate Stable<T>(s: seq<T>, le: (T, T) -> bool, before: (T, T) -> bool) {
    forall i, j :: 0 <= i < j < |s| ==> Ahead(le, before, s[i], s[j])
  }

  /** `x` may stand ahead of `y`. */
  ghost predicate Ahead<T>(le: (T, T) -> bool, before: (T, T) -> bool, x: T, y: T) {
    le(x, y) && (le(y, x) ==> before(x, y))
  }

  lemma StableMore<T>(x: T, s: seq<T>, le: (T, T) -> bool, before: (T, T) -> bool)
    requires Stable(s, le, before) && forall y :: y in s ==> Ahead(le, before, x, y)
    ensures Stable([x] + s, le, before)
  {
    var t := [x] + s;
    forall i, j | 0 <= i < j < |t| ensures Ahead(le, before, t[i], t[j]) {
      assert t[j] == s[j - 1] && t[j] in s;
      if i > 0 {
        assert t[i] == s[i - 1];
      }
    }
  }

  lemma {:induction false} InsertStable<T(!new)>(x: T, s: seq<T>, le: (T, T) -> bool, before: (T, T) -> bool)
    requires TotalPreorder(le) && Stable(s, le, before) && forall y :: y in s ==> before(x, y)
    ensures Stable(Insert(x, s, le), le, before)
  {
    hide Ahead;
    if s != [] {
      forall y | y in s[1..] ensures Ahead(le, before, s[0], y) {
        FirstAhead(s, le, before, y);
      }
      if le(x, s[0]) {
        forall y | y in s ensures Ahead(le, before, x, y) {
          TiesAhead(x, s, le, before, y);
        }
        StableMore(x, s, le, before);
      } else {
        TailStable(s, le, before);
        InsertStable(x, s[1..], le, before);
        NotBehind(x, s[0], le, before);
        var rest := Insert(x, s[1..], le);
        forall y | y in rest ensures Ahead(le, before, s[0], y) {
          assert y in multiset(rest);
          assert y == x || y in s[1..];
        }
        StableMore(s[0], rest, le, before);
      }
    } else {
      StableMore(x, s, le, before);
    }
  }

  lemma FirstAhead<T>(s: seq<T>, le: (T, T) -> bool, before: (T, T) -> bool, y: T)
    requires s != [] && Stable(s, le, before) && y in s[1..]
    ensures Ahead(le, before, s[0], y)
  {
    var k :| 0 <= k < |s[1..]| && s[1..][k] == y;
    assert s[k + 1] == y;
  }

  lemma TailStable<T>(s: seq<T>, le: (T, T) -> bool, before: (T, T) -> bool)
    requires s != [] && Stable(s, le, before)
    ensures Stable(s[1..], le, before)
  {
  }

  lemma TiesAhead<T(!new)>(x: T, s: seq<T>, le: (T, T) -> bool, before: (T, T) -> bool, y: T)
    requires TotalPreorder(le) && Stable(s, le, before) && s != [] && le(x, s[0]) && y in s && before(x, y)
    ensures Ahead(le, before, x, y)
  {
    if y != s[0] {
      assert y in s[1..];
      FirstAhead(s, le, before, y);
    }
  }

  lemma NotBehind<T(!new)>(x: T, y: T, le: (T, T) -> bool, before: (T, T) -> bool)
    requires TotalPreorder(le) && !le(x, y)
    ensures Ahead(le, before, y, x)
  {
  }

  /** The sort is stable. */
  lemma {:induction false} SortStable<T(!new)>(s: seq<T>, le: (T, T) -> bool, before: (T, T) -> bool)
    requires TotalPreorder(le) && forall i, j :: 0 <= i < j < |s| ==> before(s[i], s[j])
    ensures Stable(Sort(s, le), le, before)
  {
    if s != [] {
      SortStable(s[1..], le, before);
      var rest := Sort(s[1..], le);
      forall y | y in rest ensures before(s[0], y) {
        assert y in multiset(rest) && y in s[1..];
        var k :| 0 <= k < |s[1..]| && s[1..][k] == y;
        assert s[k + 1] == y;
      }
      InsertStable(s[0], rest, le, before);
    }
  }

  lemma SameElements<T>(s: seq<T>, t: seq<T>)
    requires multiset(s) == multiset(t)
    ensures |s| == |t|
    ensures forall x :: x in s <==> x in t
  {
    assert |multiset(s)| == |s| && |multiset(t)| == |t|;
    forall x ensures x in s <==> x in t {
      assert x in s <==> x in multiset(s);
      assert x in t <==> x in multiset(t);
    }
  }

  lemma SameDistinct<T>(s: seq<T>, t: seq<T>)
    requires multiset(s) == multiset(t)
    requires forall i, j :: 0 <= i < j < |s| ==> s[i] != s[j]
    ensures forall i, j :: 0 <= i < j < |t| ==> t[i] != t[j]
  {
    forall i, j | 0 <= i < j < |t| ensures t[i] != t[j] {
      if t[i] == t[j] {
        CountTwice(t, i, j);
        CountOnce(s, t[i]);
      }
    }
  }

  lemma CountTwice<T>(t: seq<T>, i: nat, j: nat)
    requires i < j < |t| && t[i] == t[j]
    ensures multiset(t)[t[i]] >= 2
  {
    assert t == t[..j] + [t[j]] + t[j + 1..];
    assert t[..j] == t[..i] + [t[i]] + t[i + 1..j];
  }

  lemma {:induction false} CountOnce<T>(s: seq<T>, x: T)
    requires forall i, j :: 0 <= i < j < |s| ==> s[i] != s[j]
    ensures multiset(s)[x] <= 1
  {
    if s != [] {
      assert s == [s[0]] + s[1..];
      CountOnce(s[1..], x);
      forall k | 0 <= k < |s[1..]| ensures s[1..][k] != s[0] {
        assert s[1..][k] == s[k + 1];
      }
      assert s[0] !in multiset(s[1..]);
    }
  }
}
