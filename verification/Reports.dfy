/** What checkers report, and which kinds of it. */
module Reports {

  /** A report: its kind, and what it is about. */
  datatype Anomaly<+P> = Anomaly(kind: string, about: P)

  /** The kinds of some reports. */
  ghost function KindsOf<P>(reports: seq<Anomaly<P>>): set<string> {
    set i | 0 <= i < |reports| :: reports[i].kind
  }

  /** A kind, if it is to be reported. */
  ghost function When(reported: bool, kind: string): set<string> {
    if reported then {kind} else {}
  }

  lemma KindsJoin<P>(a: seq<Anomaly<P>>, b: seq<Anomaly<P>>)
    ensures KindsOf(a + b) == KindsOf(a) + KindsOf(b)
  {
    forall x | x in KindsOf(a) + KindsOf(b) ensures x in KindsOf(a + b) {
      if i :| 0 <= i < |a| && a[i].kind == x {
        assert (a + b)[i].kind == x;
      } else {
        var j :| 0 <= j < |b| && b[j].kind == x;
        assert (a + b)[|a| + j].kind == x;
      }
    }
  }

  lemma KindsMore<P>(a: seq<Anomaly<P>>, x: Anomaly<P>)
    ensures KindsOf(a + [x]) == KindsOf(a) + {x.kind}
  {
    KindsJoin(a, [x]);
    assert [x][0].kind in KindsOf([x]);
  }

  lemma KindsNone<P>(a: seq<Anomaly<P>>)
    ensures KindsOf(a) == {} <==> a == []
  {
    if a != [] { assert a[0].kind in KindsOf(a); }
  }
}
