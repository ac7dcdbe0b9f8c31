/**
 What every step of the scheduling loop and of the jobs beside it keeps, and what follows for
 every run (driver.go, Run and runOne).
 */
module DriverInv {
  import opened Seqs
  import opened Sorting
  import opened Pools
  import opened Driver

  // ----- Every request is in one place

  ghost predicate Recorded(results: seq<Result>, r: nat) {
    exists i :: 0 <= i < |results| && results[i].job == r
  }

  ghost predicate OnceEach(results: seq<Result>) {
    forall i, j :: 0 <= i < j < |results| ==> results[i].job != results[j].job
  }

  function One(b: bool): nat { if b then 1 else 0 }

  /** In how many places a request is: waiting, running, finished or recorded. */
  ghost function Places(pending: seq<nat>, running: set<nat>, finished: set<nat>, results: seq<Result>, r: nat): nat {
    One(r in pending) + One(r in running) + One(r in finished) + One(Recorded(results, r))
  }

  ghost predicate Accounted(n: nat, pending: seq<nat>, running: set<nat>, finished: set<nat>, results: seq<Result>) {
    && Distinct(pending) && OnceEach(results)
    && forall r: nat :: Places(pending, running, finished, results, r) == One(r < n)
  }

  ghost predicate SelfNamed(finished: map<nat, Result>) {
    forall job :: job in finished ==> finished[job].job == job
  }

  lemma RecordMore(results: seq<Result>, x: Result)
    ensures forall r: nat :: Recorded(results + [x], r) <==> Recorded(results, r) || r == x.job
    ensures OnceEach(results) && !Recorded(results, x.job) ==> OnceEach(results + [x])
  {
    var more := results + [x];
    forall r: nat ensures Recorded(more, r) <==> Recorded(results, r) || r == x.job {
      if Recorded(results, r) {
        var i :| 0 <= i < |results| && results[i].job == r;
        assert more[i].job == r;
      }
      if r == x.job { assert more[|results|].job == r; }
    }
  }

  lemma AccountLaunch(n: nat, pending: seq<nat>, running: set<nat>, finished: set<nat>, results: seq<Result>, i: nat)
    requires Accounted(n, pending, running, finished, results) && i < |pending|
    ensures pending[i] < n && pending[i] !in running && pending[i] !in finished
    ensures Accounted(n, RemoveAt(pending, i), running + {pending[i]}, finished, results)
  {
    hide Recorded, OnceEach, RemoveAt;
    RemoveAtMeans(pending, i);
    assert Places(pending, running, finished, results, pending[i]) == 1;
    forall r: nat ensures Places(RemoveAt(pending, i), running + {pending[i]}, finished, results, r) == One(r < n) {
      assert Places(pending, running, finished, results, r) == One(r < n);
    }
  }

  lemma AccountRefuse(n: nat, pending: seq<nat>, running: set<nat>, finished: set<nat>, results: seq<Result>, i: nat)
    requires Accounted(n, pending, running, finished, results) && i < |pending|
    ensures Accounted(n, RemoveAt(pending, i), running, finished, results + [Result(pending[i], true, false)])
  {
    hide Recorded, OnceEach, RemoveAt;
    RemoveAtMeans(pending, i);
    RecordMore(results, Result(pending[i], true, false));
    assert Places(pending, running, finished, results, pending[i]) == 1;
    forall r: nat
      ensures Places(RemoveAt(pending, i), running, finished, results + [Result(pending[i], true, false)], r) ==
        One(r < n)
    {
      assert Places(pending, running, finished, results, r) == One(r < n);
    }
  }

  lemma AccountFinish(n: nat, pending: seq<nat>, running: set<nat>, finished: set<nat>, results: seq<Result>, job: nat)
    requires Accounted(n, pending, running, finished, results) && job in running
    ensures job !in finished && Accounted(n, pending, running - {job}, finished + {job}, results)
  {
    hide Recorded, OnceEach, Distinct;
    assert Places(pending, running, finished, results, job) == 1;
    forall r: nat ensures Places(pending, running - {job}, finished + {job}, results, r) == One(r < n) {
      assert Places(pending, running, finished, results, r) == One(r < n);
    }
  }

  lemma AccountRecord(n: nat, pending: seq<nat>, running: set<nat>, finished: set<nat>, results: seq<Result>, x: Result)
    requires Accounted(n, pending, running, finished, results) && x.job in finished
    ensures Accounted(n, pending, running, finished - {x.job}, results + [x])
  {
    hide Recorded, OnceEach, Distinct;
    RecordMore(results, x);
    assert Places(pending, running, finished, results, x.job) == 1;
    forall r: nat ensures Places(pending, running, finished - {x.job}, results + [x], r) == One(r < n) {
      assert Places(pending, running, finished, results, r) == One(r < n);
    }
  }

  lemma {:induction false} AccountClose(n: nat, pending: seq<nat>, running: set<nat>, finished: set<nat>,
      results: seq<Result>)
    requires Accounted(n, pending, running, finished, results)
    ensures Accounted(n, [], running, finished, results + Dropped(pending))
    decreases |pending|
  {
    hide Accounted;
    if pending == [] {
      assert results + Dropped(pending) == results;
    } else {
      AccountRefuse(n, pending, running, finished, results, 0);
      var x := Result(pending[0], true, false);
      AccountClose(n, RemoveAt(pending, 0), running, finished, results + [x]);
      DroppedFirst(pending);
      Regroup(results, x, Dropped(RemoveAt(pending, 0)));
    }
  }

  lemma DroppedFirst(pending: seq<nat>)
    requires pending != []
    ensures Dropped(pending) == [Result(pending[0], true, false)] + Dropped(RemoveAt(pending, 0))
  {
  }

  // ----- The start

  lemma {:induction false} PlannedAre<S, N(!new)>(c: Config<S, N>, n: nat)
    ensures Distinct(Planned(c, n)) && OnceEach(Refused(c, n))
    ensures forall r: nat :: r in Planned(c, n) <==> r < n && CanRun(c, r)
    ensures forall r: nat :: Recorded(Refused(c, n), r) <==> r < n && !CanRun(c, r)
  {
    hide CanRun, Recorded;
    if n > 0 {
      PlannedAre(c, n - 1);
      RecordMore(Refused(c, n - 1), Result(n - 1, true, false));
      assert CanRun(c, n - 1) ==> Refused(c, n) == Refused(c, n - 1);
      assert !CanRun(c, n - 1) ==> Planned(c, n) == Planned(c, n - 1);
    } else {
      NoneRecorded();
    }
  }

  lemma NoneRecorded()
    ensures forall r: nat :: !Recorded([], r)
  {
  }

  lemma StartAccounted<S, N(!new)>(c: Config<S, N>)
    ensures Accounted(|c.specs|, LargestFirst(c), {}, {}, Refused(c, |c.specs|))
    ensures forall r: nat :: r in LargestFirst(c) <==> r < |c.specs| && CanRun(c, r)
  {
    hide CanRun, Recorded, OnceEach, Planned, Refused;
    PlannedAre(c, |c.specs|);
    SameElements(Planned(c, |c.specs|), LargestFirst(c));
    SameDistinct(Planned(c, |c.specs|), LargestFirst(c));
  }

  // ----- The invariant

  /** None of the first `n` requests waiting can be served by these nodes. */
  ghost predicate NoneFit<S, N(!new)>(c: Config<S, N>, pending: seq<nat>, n: nat, free: set<N>) {
    n <= |pending| && forall k :: 0 <= k < n ==> pending[k] < |c.specs| && !Servable(c.fits, c.specs[pending[k]], free)
  }

  ghost predicate Settled<S, N(!new)>(c: Config<S, N>, s: State<N>) {
    s.stop || s.cancelled || NoneFit(c, s.pending, |s.pending|, s.free)
  }

  /** Unless a job has finished that the loop has yet to hear of. */
  ghost predicate PcRight<S, N(!new)>(c: Config<S, N>, s: State<N>) {
    match s.pc
    case Scan(i) => i <= |s.pending| && s.active < Limit(c.maxParallel) &&
      (s.finished == map[] ==> NoneFit(c, s.pending, i, s.free))
    case Alloc(i) => i < |s.pending| && s.active < Limit(c.maxParallel) && s.pending[i] < |c.specs| &&
      Servable(c.fits, c.specs[s.pending[i]], s.free) && (s.finished == map[] ==> NoneFit(c, s.pending, i, s.free))
    case After => s.finished == map[] ==> Settled(c, s) || s.active >= Limit(c.maxParallel)
    case Wait => s.active > 0 && (s.finished == map[] ==> Settled(c, s) || s.active >= Limit(c.maxParallel))
    case Done => s.active == 0 && Settled(c, s)
    case Closed => s.active == 0 && (!s.stop ==> s.pending == [])
    case _ => true
  }

  /** The requests that can run are those launched and those waiting. */
  ghost predicate Plans<S, N(!new)>(c: Config<S, N>, s: State<N>) {
    && (forall r: nat :: r in s.launched || r in s.pending ==> r < |c.specs| && CanRun(c, r))
    && (s.pc != Closed ==> forall r: nat :: r < |c.specs| && CanRun(c, r) ==> r in s.launched || r in s.pending)
  }

  ghost predicate Counted<S, N>(c: Config<S, N>, s: State<N>) {
    s.active == |s.running| + |s.finished| && s.active <= Limit(c.maxParallel) && SelfNamed(s.finished)
  }

  ghost predicate Inv<S, N(!new)>(c: Config<S, N>, s: State<N>) {
    && NodesParted(c.nodes, s.free, s.evicted, s.running)
    && Accounted(|c.specs|, s.pending, s.running.Keys, s.finished.Keys, s.results)
    && Counted(c, s)
    && PcRight(c, s)
    && Plans(c, s)
  }

  lemma StartHolds<S, N(!new)>(c: Config<S, N>, s: State<N>)
    requires Init(c, s)
    ensures Inv(c, s)
  {
    hide Accounted, CanRun, LargestFirst, Refused;
    StartAccounted(c);
    NothingInUse<N>();
    assert s.running.Keys == {} && s.finished.Keys == {};
  }

  lemma NothingInUse<N>()
    ensures InUse<N>(map[]) == {}
  {
  }

  // ----- Each step keeps it

  lemma LaunchHolds<S, N(!new)>(c: Config<S, N>, s: State<N>, t: State<N>, i: nat, given: seq<N>)
    requires Inv(c, s) && s.pc == Alloc(i) && Serves(c.fits, c.specs[s.pending[i]], s.free, given)
    requires t == s.(pc := Inner, pending := RemoveAt(s.pending, i), active := s.active + 1,
      running := s.running[s.pending[i] := Elements(given)],
                     free := s.free - Elements(given), launched := s.launched[s.pending[i] := given])
    ensures Inv(c, t)
  {
    hide Accounted, NodesParted, Plans, Servable, Serves, RemoveAt, Elements, Limit, SelfNamed;
    var job := s.pending[i];
    AccountLaunch(|c.specs|, s.pending, s.running.Keys, s.finished.Keys, s.results, i);
    AccountedPending(|c.specs|, s.pending, s.running.Keys, s.finished.Keys, s.results);
    ServesMeans(c.fits, c.specs[job], s.free, given);
    PartsOnLaunch(c.nodes, s.free, s.evicted, s.running, job, Elements(given));
    assert t.running.Keys == s.running.Keys + {job};
    MapMore(s.running, job, Elements(given));
    LaunchPlans(c, s, t, i, given);
  }

  lemma LaunchPlans<S, N(!new)>(c: Config<S, N>, s: State<N>, t: State<N>, i: nat, given: seq<N>)
    requires Plans(c, s) && !s.pc.Closed? && i < |s.pending| && Distinct(s.pending)
    requires t.pending == RemoveAt(s.pending, i) && t.launched == s.launched[s.pending[i] := given]
    ensures Plans(c, t)
  {
    hide CanRun, RemoveAt, Distinct;
    RemoveAtMeans(s.pending, i);
    assert s.pending[i] in s.pending;
  }

  lemma AccountedPending(n: nat, pending: seq<nat>, running: set<nat>, finished: set<nat>, results: seq<Result>)
    requires Accounted(n, pending, running, finished, results)
    ensures Distinct(pending)
  {
  }

  lemma MapMore<K, V>(m: map<K, V>, k: K, v: V)
    requires k !in m
    ensures |m[k := v]| == |m| + 1
  {
    assert m[k := v].Keys == m.Keys + {k};
    assert |m[k := v].Keys| == |m[k := v]| && |m.Keys| == |m|;
  }

  lemma MapLess<K, V>(m: map<K, V>, k: K)
    requires k in m
    ensures |m - {k}| == |m| - 1 && (m - {k}).Keys == m.Keys - {k}
  {
    assert (m - {k}).Keys == m.Keys - {k};
    assert |(m - {k}).Keys| == |m - {k}| && |m.Keys| == |m|;
  }

  lemma WaitHolds<S, N(!new)>(c: Config<S, N>, s: State<N>, t: State<N>)
    requires Inv(c, s) && WaitStep(c, s, t)
    ensures Inv(c, t)
  {
    hide Accounted, NodesParted, CanRun, Servable;
    var job :| job in s.finished && s.active > 0 &&
      t == s.(pc := Top, finished := s.finished - {job}, active := s.active - 1,
        results := s.results + [s.finished[job]],
              stop := s.stop || (c.exitFirst && s.finished[job].fail) || s.cancelled);
    AccountRecord(|c.specs|, s.pending, s.running.Keys, s.finished.Keys, s.results, s.finished[job]);
    MapLess(s.finished, job);
  }

  lemma FinishHolds<S, N(!new)>(c: Config<S, N>, s: State<N>, t: State<N>, job: nat, fail: bool, dirty: bool)
    requires Inv(c, s) && job in s.running && FinishOf(s, t, job, fail, dirty)
    ensures Inv(c, t)
  {
    hide Accounted, NodesParted, Plans, PcRight, Counted;
    AccountFinish(|c.specs|, s.pending, s.running.Keys, s.finished.Keys, s.results, job);
    PartsOnFinish(c.nodes, s.free, s.evicted, s.running, job);
    FinishCounted(c, s, t, job, fail, dirty);
    FinishPlans(c, s, t);
    FinishPc(c, s, t, job, fail, dirty);
  }

  lemma FinishCounted<S, N>(c: Config<S, N>, s: State<N>, t: State<N>, job: nat, fail: bool, dirty: bool)
    requires Counted(c, s) && job in s.running && job !in s.finished && FinishOf(s, t, job, fail, dirty)
    ensures Counted(c, t) && s.active > 0
    ensures t.running.Keys == s.running.Keys - {job} && t.finished.Keys == s.finished.Keys + {job}
  {
    hide Limit;
    MapLess(s.running, job);
    MapMore(s.finished, job, Result(job, fail, dirty));
    assert |s.running| > 0;
  }

  lemma FinishPlans<S, N(!new)>(c: Config<S, N>, s: State<N>, t: State<N>)
    requires Plans(c, s) && t.launched == s.launched && t.pending == s.pending && t.pc == s.pc
    ensures Plans(c, t)
  {
    hide CanRun;
  }

  lemma FinishPc<S, N(!new)>(c: Config<S, N>, s: State<N>, t: State<N>, job: nat, fail: bool, dirty: bool)
    requires PcRight(c, s) && s.active > 0 && job in s.running && FinishOf(s, t, job, fail, dirty)
    ensures PcRight(c, t)
  {
    hide Servable, NoneFit;
    assert job in t.finished;
    if s.pc.Alloc? {
      MoreServe(c.fits, c.specs[s.pending[s.pc.i]], s.free, t.free);
    }
  }

  lemma CloseHolds<S, N(!new)>(c: Config<S, N>, s: State<N>, t: State<N>)
    requires Inv(c, s) && s.pc.Done? && LoopStep(c, s, t)
    ensures Inv(c, t)
  {
    hide Accounted, NodesParted, CanRun, Servable;
    if !s.stop {
      AccountClose(|c.specs|, s.pending, s.running.Keys, s.finished.Keys, s.results);
    }
  }

  lemma ScanHolds<S, N(!new)>(c: Config<S, N>, s: State<N>, t: State<N>)
    requires Inv(c, s) && LoopStep(c, s, t) && (s.pc.Top? || s.pc.Inner? || s.pc.Scan? || s.pc.After?)
    ensures Inv(c, t)
  {
    hide Accounted, NodesParted, Plans, Counted, Servable, Limit;
    ScanPlans(c, s, t);
    if s.active == 0 { NothingOut(c, s); }
  }

  lemma NothingOut<S, N>(c: Config<S, N>, s: State<N>)
    requires Counted(c, s) && s.active == 0
    ensures s.finished == map[] && s.running == map[] && s.active < Limit(c.maxParallel)
  {
    assert |s.running.Keys| == |s.running| && |s.finished.Keys| == |s.finished|;
    assert s.running.Keys == {} && s.finished.Keys == {};
  }

  lemma ScanPlans<S, N(!new)>(c: Config<S, N>, s: State<N>, t: State<N>)
    requires Plans(c, s) && Counted(c, s) && LoopStep(c, s, t) &&
      (s.pc.Top? || s.pc.Inner? || s.pc.Scan? || s.pc.After?)
    ensures Plans(c, t) && Counted(c, t) && t == s.(pc := t.pc)
    ensures forall r :: r in s.pending ==> r < |c.specs|
  {
    hide CanRun, Servable, Limit;
    ScanOnly(c, s, t);
  }

  lemma ScanOnly<S, N(!new)>(c: Config<S, N>, s: State<N>, t: State<N>)
    requires LoopStep(c, s, t) && (s.pc.Top? || s.pc.Inner? || s.pc.Scan? || s.pc.After?)
    ensures t == s.(pc := t.pc) && !t.pc.Closed?
  {
    hide Servable, Limit;
  }

  /** Every step keeps the invariant. */
  lemma StepHolds<S, N(!new)>(c: Config<S, N>, s: State<N>, t: State<N>)
    requires Inv(c, s) && Next(c, s, t)
    ensures Inv(c, t)
  {
    if LoopStep(c, s, t) {
      LoopHolds(c, s, t);
    } else if FinishStep(s, t) {
      hide Inv;
      var job, fail, dirty :| job in s.running && FinishOf(s, t, job, fail, dirty);
      FinishHolds(c, s, t, job, fail, dirty);
    } else {
      CancelHolds(c, s, t);
    }
  }

  lemma CancelHolds<S, N(!new)>(c: Config<S, N>, s: State<N>, t: State<N>)
    requires Inv(c, s) && t == s.(cancelled := true)
    ensures Inv(c, t)
  {
    hide Accounted, NodesParted, CanRun, Servable;
  }

  lemma LoopHolds<S, N(!new)>(c: Config<S, N>, s: State<N>, t: State<N>)
    requires Inv(c, s) && LoopStep(c, s, t)
    ensures Inv(c, t)
  {
    match s.pc {
      case Alloc(i) =>
        var job := s.pending[i];
        var given :| Serves(c.fits, c.specs[job], s.free, given) &&
          t == s.(pc := Inner, pending := RemoveAt(s.pending, i), active := s.active + 1,
            running := s.running[job := Elements(given)],
                  free := s.free - Elements(given), launched := s.launched[job := given]);
        hide Inv;
        LaunchHolds(c, s, t, i, given);
      case Wait => hide Inv; WaitHolds(c, s, t);
      case Done => hide Inv; CloseHolds(c, s, t);
      case _ => hide Inv; ScanHolds(c, s, t);
    }
  }

  // ----- What holds of every run

  ghost predicate IsRun<S, N(!new)>(c: Config<S, N>, run: seq<State<N>>) {
    |run| > 0 && Init(c, run[0]) && forall k :: 0 <= k < |run| - 1 ==> Next(c, run[k], run[k + 1])
  }

  lemma {:induction false} RunHolds<S, N(!new)>(c: Config<S, N>, run: seq<State<N>>, k: nat)
    requires IsRun(c, run) && k < |run|
    ensures Inv(c, run[k])
  {
    hide Inv, Init, Next;
    if k == 0 {
      StartHolds(c, run[0]);
    } else {
      RunHolds(c, run, k - 1);
      assert Next(c, run[k - 1], run[k - 1 + 1]);
      StepHolds(c, run[k - 1], run[k]);
    }
  }

  /**
   At every moment the nodes are parted between the free, the evicted and the running jobs, no two
   of which share one; no more than the limit run; and no request has two results.
   */
  lemma AlwaysParted<S, N(!new)>(c: Config<S, N>, run: seq<State<N>>, k: nat)
    requires IsRun(c, run) && k < |run|
    ensures NodesParted(c.nodes, run[k].free, run[k].evicted, run[k].running)
    ensures |run[k].running| <= 1 || |run[k].running| <= c.maxParallel
    ensures OnceEach(run[k].results)
  {
    hide IsRun, NodesParted, OnceEach, PcRight, Plans;
    RunHolds(c, run, k);
  }

  /** Nodes found free for a request are still there when it comes to allocate them, whatever finished in between. */
  lemma AllocateNeverFails<S, N(!new)>(c: Config<S, N>, run: seq<State<N>>, k: nat)
    requires IsRun(c, run) && k + 1 < |run| && run[k].pc.Alloc? && LoopStep(c, run[k], run[k + 1])
    ensures run[k].pc.i < |run[k].pending| && run[k].pending[run[k].pc.i] in run[k + 1].running &&
      run[k + 1].results == run[k].results
  {
    hide IsRun, NodesParted, Accounted, Plans;
    RunHolds(c, run, k);
    assert PcRight(c, run[k]);
  }

  lemma NoneLeftRunning<S, N(!new)>(c: Config<S, N>, s: State<N>)
    requires Inv(c, s) && s.active == 0
    ensures s.free == c.nodes - s.evicted && s.running == map[] && s.finished == map[]
  {
    hide Accounted, PcRight, Plans;
    NothingOut(c, s);
    NothingInUse<N>();
  }

  /**
   Requests left waiting at the end, with scheduling neither stopped nor cancelled, cannot be
   served by all the nodes that are left.
   */
  lemma LeftCannotFit<S, N(!new)>(c: Config<S, N>, run: seq<State<N>>, k: nat, r: nat)
    requires IsRun(c, run) && k < |run| && run[k].pc.Done? && !run[k].stop && !run[k].cancelled && r in run[k].pending
    ensures r < |c.specs| && !Servable(c.fits, c.specs[r], c.nodes - run[k].evicted)
  {
    hide IsRun, NodesParted, Accounted, Plans, Counted, Servable;
    RunHolds(c, run, k);
    NoneLeftRunning(c, run[k]);
    var i :| 0 <= i < |run[k].pending| && run[k].pending[i] == r;
    assert NoneFit(c, run[k].pending, |run[k].pending|, run[k].free);
  }

  /**
   With no node evicted and scheduling neither stopped nor cancelled, every request that fits the
   pool has been launched by the end.
   */
  lemma NoneStranded<S, N(!new)>(c: Config<S, N>, run: seq<State<N>>, k: nat, r: nat)
    requires IsRun(c, run) && k < |run| && run[k].pc.Done? && !run[k].stop && !run[k].cancelled && run[k].evicted == {}
    requires r < |c.specs| && CanRun(c, r)
    ensures r in run[k].launched
  {
    hide IsRun, NodesParted, Accounted, Counted, Servable, PcRight;
    RunHolds(c, run, k);
    assert c.nodes - {} == c.nodes;
    if r in run[k].pending {
      LeftCannotFit(c, run, k, r);
      assert false;
    }
  }

  /** When scheduling was never stopped, every request has one result at the end, and only one. */
  lemma OneResultEach<S, N(!new)>(c: Config<S, N>, run: seq<State<N>>, k: nat, r: nat)
    requires IsRun(c, run) && k < |run| && run[k].pc.Closed? && !run[k].stop && r < |c.specs|
    ensures exists i :: 0 <= i < |run[k].results| && run[k].results[i].job == r && forall j ::
      0 <= j < |run[k].results| && run[k].results[j].job == r ==> j == i
  {
    hide IsRun, NodesParted, Counted, Servable, Plans;
    RunHolds(c, run, k);
    var s := run[k];
    NoneLeftRunning(c, s);
    assert Places(s.pending, s.running.Keys, s.finished.Keys, s.results, r) == 1;
    assert r !in s.running.Keys && r !in s.finished.Keys;
    var i :| 0 <= i < |s.results| && s.results[i].job == r;
  }

  /**
   Until it has closed, a run can always go on: the loop steps, or waits for a job that is running
   or has finished.
   */
  lemma NeverStuck<S, N(!new)>(c: Config<S, N>, s: State<N>) returns (t: State<N>)
    requires Inv(c, s) && !s.pc.Closed?
    ensures t != s && (LoopStep(c, s, t) || FinishStep(s, t))
  {
    hide NodesParted, Accounted, Servable;
    match s.pc {
      case Wait => t := WaitGoesOn(c, s);
      case Alloc(i) => t := AllocGoesOn(c, s, i);
      case Top => t := s.(pc := if |s.pending| > 0 || s.active > 0 then Inner else Done);
      case Inner => t := s.(pc := if !s.stop && !s.cancelled && s.active < Limit(c.maxParallel) then Scan(0)
        else After);
      case Scan(i) =>
        if i >= |s.pending| {
          t := s.(pc := After);
        } else {
          assert s.pending[i] in s.pending;
          t := s.(pc := if Servable(c.fits, c.specs[s.pending[i]], s.free) then Alloc(i) else Scan(i + 1));
        }
      case After => t := s.(pc := if s.active == 0 then Done else Wait);
      case Done => t := if s.stop then s.(pc := Closed)
        else s.(pc := Closed, pending := [], results := s.results + Dropped(s.pending));
    }
  }

  lemma WaitGoesOn<S, N(!new)>(c: Config<S, N>, s: State<N>) returns (t: State<N>)
    requires Counted(c, s) && s.active > 0 && s.pc.Wait?
    ensures t != s && (LoopStep(c, s, t) || FinishStep(s, t))
  {
    if s.finished.Keys != {} {
      var job :| job in s.finished.Keys;
      t := s.(pc := Top, finished := s.finished - {job}, active := s.active - 1,
        results := s.results + [s.finished[job]],
              stop := s.stop || (c.exitFirst && s.finished[job].fail) || s.cancelled);
      assert WaitStep(c, s, t);
    } else {
      assert s.finished == map[];
      assert |s.running.Keys| == |s.running| > 0;
      var job :| job in s.running.Keys;
      t := s.(running := s.running - {job}, finished := s.finished[job := Result(job, true, false)],
        free := s.free + s.running[job]);
      assert FinishOf(s, t, job, true, false);
    }
  }

  lemma AllocGoesOn<S, N(!new)>(c: Config<S, N>, s: State<N>, i: nat) returns (t: State<N>)
    requires s.pc == Alloc(i) && i < |s.pending| && s.pending[i] < |c.specs| &&
      Servable(c.fits, c.specs[s.pending[i]], s.free)
    ensures t != s && LoopStep(c, s, t)
  {
    var job := s.pending[i];
    var given :| Serves(c.fits, c.specs[job], s.free, given);
    t := s.(pc := Inner, pending := RemoveAt(s.pending, i), active := s.active + 1,
      running := s.running[job := Elements(given)],
            free := s.free - Elements(given), launched := s.launched[job := given]);
    assert AllocStep(c, s, t, i);
  }

  // ----- It ends

  /** A step of the loop or the end of a job; not the cancelling of the context. */
  ghost predicate Works<S, N(!new)>(c: Config<S, N>, s: State<N>, t: State<N>) {
    LoopStep(c, s, t) || FinishStep(s, t)
  }

  /** How many of the first `k` steps of a run are. */
  ghost function WorkDone<S, N(!new)>(c: Config<S, N>, run: seq<State<N>>, k: nat): nat
    requires k < |run|
  {
    if k == 0 then 0 else WorkDone(c, run, k - 1) + if Works(c, run[k - 1], run[k]) then 1 else 0
  }

  /** Requests still to be launched, and jobs still to be waited for. */
  ghost function Outstanding<N>(s: State<N>): nat {
    2 * |s.pending| + s.active
  }

  /** How far the loop is from launching a job or receiving a result. */
  ghost function Ahead(pc: Pc, pending: nat): nat {
    match pc
    case Top => 6 + pending
    case Inner => 5 + pending
    case Scan(i) => if i <= pending then 4 + pending - i else 4
    case Alloc(_) => 3
    case After => 2
    case Wait => 1
    case Done => 1
    case Closed => 0
  }

  ghost function Distance<N>(s: State<N>): nat {
    |s.running| + Ahead(s.pc, |s.pending|)
  }

  ghost function Left<N>(s: State<N>, most: nat): nat {
    Outstanding(s) * (most + 7) + Distance(s)
  }

  /** No more jobs run than requests have been launched. */
  ghost predicate Within<N>(s: State<N>, most: nat) {
    |s.pending| + |s.running| <= most
  }

  lemma WorkCounts<S, N(!new)>(c: Config<S, N>, s: State<N>, t: State<N>, most: nat)
    requires Works(c, s, t) && Within(s, most)
    ensures Within(t, most)
    ensures Outstanding(t) < Outstanding(s) || (Outstanding(t) == Outstanding(s) && Distance(t) < Distance(s))
  {
    hide LoopStep, FinishStep, Ahead;
    if LoopStep(c, s, t) {
      LoopCounts(c, s, t);
    } else {
      FinishCounts(s, t);
    }
  }

  lemma LoopCounts<S, N(!new)>(c: Config<S, N>, s: State<N>, t: State<N>)
    requires LoopStep(c, s, t)
    ensures |t.pending| + |t.running| <= |s.pending| + |s.running|
    ensures Outstanding(t) < Outstanding(s) ||
      (t.pending == s.pending && t.active == s.active && t.running == s.running &&
        Ahead(t.pc, |s.pending|) < Ahead(s.pc, |s.pending|))
  {
    hide AllocStep, WaitStep;
    match s.pc {
      case Alloc(i) => AllocCounts(c, s, t, i);
      case Wait => WaitCounts(c, s, t);
      case Done => hide Dropped;
      case _ => hide LoopStep, Ahead; ScanCounts(c, s, t);
    }
  }

  lemma ScanCounts<S, N(!new)>(c: Config<S, N>, s: State<N>, t: State<N>)
    requires LoopStep(c, s, t) && (s.pc.Top? || s.pc.Inner? || s.pc.Scan? || s.pc.After?)
    ensures t == s.(pc := t.pc) && Ahead(t.pc, |s.pending|) < Ahead(s.pc, |s.pending|)
  {
    hide Servable, Limit;
  }

  lemma FinishCounts<N>(s: State<N>, t: State<N>)
    requires FinishStep(s, t)
    ensures t.pc == s.pc && t.pending == s.pending && t.active == s.active && |t.running| < |s.running|
  {
    var job, fail, dirty :| job in s.running && FinishOf(s, t, job, fail, dirty);
    MapLess(s.running, job);
  }

  lemma WaitCounts<S, N>(c: Config<S, N>, s: State<N>, t: State<N>)
    requires WaitStep(c, s, t)
    ensures t.pending == s.pending && t.active == s.active - 1 && t.running == s.running
  {
  }

  lemma AllocCounts<S, N(!new)>(c: Config<S, N>, s: State<N>, t: State<N>, i: nat)
    requires i < |s.pending| && AllocStep(c, s, t, i)
    ensures |t.pending| == |s.pending| - 1 && t.active <= s.active + 1 && |t.running| <= |s.running| + 1
  {
    hide Servable, Serves;
    var job := s.pending[i];
    if Servable(c.fits, c.specs[job], s.free) {
      var given :| Serves(c.fits, c.specs[job], s.free, given) &&
        t == s.(pc := Inner, pending := RemoveAt(s.pending, i), active := s.active + 1,
          running := s.running[job := Elements(given)],
                free := s.free - Elements(given), launched := s.launched[job := given]);
      MapAtMost(s.running, job, Elements(given));
    }
  }

  lemma MapAtMost<K, V>(m: map<K, V>, k: K, v: V)
    ensures |m[k := v]| <= |m| + 1
  {
    assert m[k := v].Keys == m.Keys + {k};
    assert |m[k := v].Keys| == |m[k := v]| && |m.Keys| == |m|;
  }

  lemma DistanceBounded<N>(s: State<N>, most: nat)
    requires Within(s, most)
    ensures Distance(s) < most + 7
  {
  }

  lemma Falls(a: nat, b: nat, k: nat, x: nat, y: nat)
    requires x < k && y < k && (b < a || (b == a && y < x))
    ensures b * k + y < a * k + x
  {
    if b < a {
      assert (b + 1) * k <= a * k;
    }
  }

  /** Every step of the loop and every end of a job brings a run nearer its end. */
  lemma WorkBringsEnd<S, N(!new)>(c: Config<S, N>, s: State<N>, t: State<N>, most: nat)
    requires Next(c, s, t) && Within(s, most)
    ensures Within(t, most) && Left(t, most) <= Left(s, most) - if Works(c, s, t) then 1 else 0
  {
    hide LoopStep, FinishStep, Distance, Outstanding, Within;
    if Works(c, s, t) {
      WorkCounts(c, s, t, most);
      DistanceBounded(s, most);
      DistanceBounded(t, most);
      Falls(Outstanding(s), Outstanding(t), most + 7, Distance(s), Distance(t));
    } else {
      Cancelled(s, most);
    }
  }

  lemma Cancelled<N>(s: State<N>, most: nat)
    requires Within(s, most)
    ensures var t := s.(cancelled := true);
      Within(t, most) && Outstanding(t) == Outstanding(s) && Distance(t) == Distance(s)
  {
  }

  lemma {:induction false} WorkLeft<S, N(!new)>(c: Config<S, N>, run: seq<State<N>>, k: nat, most: nat)
    requires IsRun(c, run) && k < |run| && Within(run[0], most)
    ensures Within(run[k], most) && WorkDone(c, run, k) + Left(run[k], most) <= Left(run[0], most)
  {
    hide Init, Next, Works, Left, Within;
    if k > 0 {
      WorkLeft(c, run, k - 1, most);
      assert Next(c, run[k - 1], run[k - 1 + 1]);
      WorkBringsEnd(c, run[k - 1], run[k], most);
    }
  }

  /** Every run ends: with so many requests to launch it takes so many steps at most, whatever finishes when. */
  lemma Ends<S, N(!new)>(c: Config<S, N>, run: seq<State<N>>, k: nat)
    requires IsRun(c, run) && k < |run|
    ensures var most := |LargestFirst(c)|; WorkDone(c, run, k) <= (2 * most + 1) * (most + 7)
  {
    hide Next, Works, LargestFirst, Distance;
    var most := |LargestFirst(c)|;
    assert Init(c, run[0]) && Within(run[0], most);
    WorkLeft(c, run, k, most);
    DistanceBounded(run[0], most);
    assert Outstanding(run[0]) == 2 * most;
    assert (2 * most) * (most + 7) + (most + 7) == (2 * most + 1) * (most + 7);
  }
}
