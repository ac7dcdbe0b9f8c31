/** Sequences and sets: what several modules say of them, and facts the proofs use by name. */
module Seqs {

  ghost predicate Distinct<T>(s: seq<T>) {
    forall i, j :: 0 <= i < j < |s| ==> s[i] != s[j]
  }

  ghost predicate Increasing(s: seq<nat>) {
    forall i, j :: 0 <= i < j < |s| ==> s[i] < s[j]
  }

  function Elements<T(==)>(s: seq<T>): set<T> {
    set x | x in s
  }

  function RemoveAt<T>(s: seq<T>, k: nat): seq<T>
    requires k < |s|
  {
    s[..k] + s[k + 1..]
  }

  lemma RemoveAtMeans<T>(s: seq<T>, k: nat)
    requires Distinct(s) && k < |s|
    ensures Distinct(RemoveAt(s, k)) && forall x :: x in RemoveAt(s, k) <==> x in s && x != s[k]
  {
    var r := RemoveAt(s, k);
    forall x | x in s && x != s[k] ensures x in r {
      var i :| 0 <= i < |s| && s[i] == x;
      assert r[if i < k then i else i - 1] == x;
    }
  }

  lemma RemoveAtElement<T>(s: seq<T>, k: nat, p: nat)
    requires k < |s| && p < |s| - 1
    ensures |RemoveAt(s, k)| == |s| - 1 && RemoveAt(s, k)[p] == s[if p < k then p else p + 1]
  {
  }

  function Upto(n: nat): (s: seq<nat>)
    ensures |s| == n && forall i :: 0 <= i < n ==> s[i] == i
  {
    if n == 0 then [] else Upto(n - 1) + [n - 1]
  }

  ghost function Below(n: nat): (s: set<nat>)
    ensures |s| == n && forall v: nat :: v in s <==> v < n
  {
    if n == 0 then {} else Below(n - 1) + {n - 1}
  }

  lemma DistinctNext<T>(s: seq<T>, x: T)
    ensures Distinct(s + [x]) <==> Distinct(s) && x !in s
  {
    if Distinct(s + [x]) {
      forall i, j | 0 <= i < j < |s| ensures s[i] != s[j] {
        assert (s + [x])[i] == s[i] && (s + [x])[j] == s[j];
      }
      forall i | 0 <= i < |s| ensures s[i] != x {
        assert (s + [x])[i] == s[i] && (s + [x])[|s|] == x;
      }
    }
  }

  lemma DistinctJoin<T>(a: seq<T>, b: seq<T>)
    requires Distinct(a) && Distinct(b) && forall x :: x in b ==> x !in a
    ensures Distinct(a + b)
  {
    forall i, j | 0 <= i < j < |a + b| ensures (a + b)[i] != (a + b)[j] {
      if i < |a| && j >= |a| {
        assert b[j - |a|] in b && a[i] in a;
      }
    }
  }

  lemma {:induction false} DistinctSize<T>(s: seq<T>)
    requires Distinct(s)
    ensures |Elements(s)| == |s|
  {
    if s != [] {
      var n := |s| - 1;
      DistinctSize(s[..n]);
      assert Elements(s) == Elements(s[..n]) + {s[n]};
    }
  }

  lemma {:induction false} Enumerated<T>(s: set<T>) returns (r: seq<T>)
    ensures Distinct(r) && forall x :: x in r <==> x in s
  {
    r := [];
    if s != {} {
      var x :| x in s;
      var rest := Enumerated(s - {x});
      r := rest + [x];
    }
  }

  lemma SubsetSize<T>(a: set<T>, b: set<T>)
    requires a <= b
    ensures |a| <= |b| && (a != b ==> |a| < |b|)
  {
    assert b == a + (b - a);
    if a != b {
      assert b - a != {};
    }
  }

  lemma NothingIn<T>(s: seq<T>)
    ensures s == [] <==> forall x :: x !in s
  {
    if s != [] {
      assert s[0] in s;
    }
  }

  lemma TakeNext<T>(s: seq<T>, k: nat)
    requires k < |s|
    ensures s[..k + 1] == s[..k] + [s[k]]
  {
  }

  lemma TakeAll<T>(s: seq<T>)
    ensures s[..|s|] == s
  {
  }

  lemma Regroup<T>(a: seq<T>, x: T, b: seq<T>)
    ensures a + [x] + b == a + ([x] + b)
  {
  }

  lemma DropLast<T>(a: seq<T>, x: T)
    ensures (a + [x])[..|a + [x]| - 1] == a
    ensures (a + [x])[|a + [x]| - 1] == x
  {
  }
}
