/**
 What every run of the scheduling loop does: when it stops and what stopping means, what becomes
 of a job's nodes and result, and which request is launched next (driver.go, Run and runOne).
 */
module DriverRuns {
  import opened Seqs
  import opened Sorting
  import opened Pools
  import opened Driver
  import opened DriverInv

  // ----- The kinds of steps

  ghost predicate Moves<N>(s: State<N>, t: State<N>) {
    t == s.(pc := t.pc, cancelled := t.cancelled) && (s.cancelled ==> t.cancelled)
  }

  ghost predicate Launches<S, N(!new)>(c: Config<S, N>, s: State<N>, t: State<N>, i: nat, given: seq<N>) {
    && s.pc == Alloc(i) && i < |s.pending| && s.pending[i] < |c.specs|
    && Serves(c.fits, c.specs[s.pending[i]], s.free, given)
    && t == s.(pc := Inner, pending := RemoveAt(s.pending, i), active := s.active + 1,
      running := s.running[s.pending[i] := Elements(given)],
      free := s.free - Elements(given), launched := s.launched[s.pending[i] := given])
  }

  ghost predicate Hears<S, N>(c: Config<S, N>, s: State<N>, t: State<N>, job: nat) {
    && s.pc.Wait? && job in s.finished && s.active > 0
    && t == s.(pc := Top, finished := s.finished - {job}, active := s.active - 1,
      results := s.results + [s.finished[job]],
      stop := s.stop || (c.exitFirst && s.finished[job].fail) || s.cancelled)
  }

  ghost predicate Finishes<N>(s: State<N>, t: State<N>, job: nat, fail: bool, dirty: bool) {
    job in s.running && FinishOf(s, t, job, fail, dirty)
  }

  ghost predicate Drops<N>(s: State<N>, t: State<N>) {
    s.pc.Done? && !s.stop && t == s.(pc := Closed, pending := [], results := s.results + Dropped(s.pending))
  }

  ghost predicate StepKind<S, N(!new)>(c: Config<S, N>, s: State<N>, t: State<N>) {
    || (Moves(s, t) && (t.pc == s.pc || LoopStep(c, s, t)))
    || (exists i: nat, given :: Launches(c, s, t, i, given))
    || (exists job: nat :: Hears(c, s, t, job))
    || (exists job: nat, fail, dirty :: Finishes(s, t, job, fail, dirty))
    || Drops(s, t)
  }

  lemma KindOf<S, N(!new)>(c: Config<S, N>, s: State<N>, t: State<N>)
    requires Inv(c, s) && Next(c, s, t)
    ensures StepKind(c, s, t)
  {
    hide NodesParted, Accounted, Plans, Counted;
    if LoopStep(c, s, t) {
      match s.pc {
        case Alloc(i) => hide LoopStep; AllocKind(c, s, t, i);
        case Wait => hide LoopStep; WaitKind(c, s, t);
        case Done => assert s.stop ==> Moves(s, t);
        case _ => hide LoopStep; ScanOnly(c, s, t);
      }
    } else if FinishStep(s, t) {
      hide LoopStep, PcRight;
      var job, fail, dirty :| job in s.running && FinishOf(s, t, job, fail, dirty);
      assert Finishes(s, t, job, fail, dirty);
    }
  }

  lemma AllocKind<S, N(!new)>(c: Config<S, N>, s: State<N>, t: State<N>, i: nat)
    requires PcRight(c, s) && s.pc == Alloc(i) && LoopStep(c, s, t)
    ensures exists given :: Launches(c, s, t, i, given)
  {
    hide NoneFit;
    var job := s.pending[i];
    var given :| Serves(c.fits, c.specs[job], s.free, given) &&
      t == s.(pc := Inner, pending := RemoveAt(s.pending, i), active := s.active + 1,
        running := s.running[job := Elements(given)],
        free := s.free - Elements(given), launched := s.launched[job := given]);
    assert Launches(c, s, t, i, given);
  }

  lemma WaitKind<S, N(!new)>(c: Config<S, N>, s: State<N>, t: State<N>)
    requires s.pc.Wait? && LoopStep(c, s, t)
    ensures exists job: nat :: Hears(c, s, t, job)
  {
    var job: nat :| job in s.finished && s.active > 0 &&
      t == s.(pc := Top, finished := s.finished - {job}, active := s.active - 1,
        results := s.results + [s.finished[job]],
        stop := s.stop || (c.exitFirst && s.finished[job].fail) || s.cancelled);
    assert Hears(c, s, t, job);
  }

  // ----- What a run keeps about jobs, nodes and results

  /** A job launched has nodes of its own for its specs; what runs or has finished was launched, what waits was not. */
  ghost predicate Given<S, N(!new)>(c: Config<S, N>, s: State<N>) {
    && (forall job :: job in s.launched ==> job < |c.specs| && Serves(c.fits, c.specs[job], c.nodes, s.launched[job]))
    && (forall job :: job in s.running ==> job in s.launched && s.running[job] == Elements(s.launched[job]))
    && (forall job :: job in s.finished ==> job in s.launched)
    && (forall job :: job in s.pending ==> job !in s.launched)
  }

  /** A request that was not launched can only have failed. */
  ghost predicate NoneSkipped<N>(s: State<N>) {
    forall x :: x in s.results ==> x.job in s.launched || (x.fail && !x.dirty)
  }

  /** The job has ended so. */
  ghost predicate Ended<N>(s: State<N>, x: Result) {
    x in s.results || (x.job in s.finished && s.finished[x.job] == x)
  }

  ghost predicate Soiled<N>(s: State<N>, n: N, x: Result) {
    Ended(s, x) && x.dirty && x.job in s.launched && n in s.launched[x.job]
  }

  /** The nodes evicted are those of the jobs that ended dirty. */
  ghost predicate EvictedRight<N(!new)>(s: State<N>) {
    forall n :: n in s.evicted <==> exists x :: Soiled(s, n, x)
  }

  /** A job that was launched has failed, and that is to stop the run. */
  ghost predicate ExitFailed<S, N>(c: Config<S, N>, s: State<N>) {
    c.exitFirst && exists x :: x in s.results && x.fail && x.job in s.launched
  }

  ghost predicate StopRight<S, N>(c: Config<S, N>, s: State<N>) {
    && (ExitFailed(c, s) ==> s.stop)
    && (s.stop ==> !s.pc.Scan? && !s.pc.Alloc?)
  }

  ghost predicate Kept<S, N(!new)>(c: Config<S, N>, s: State<N>) {
    Given(c, s) && NoneSkipped(s) && EvictedRight(s) && StopRight(c, s)
  }

  lemma StartKept<S, N(!new)>(c: Config<S, N>, s: State<N>)
    requires Init(c, s)
    ensures Kept(c, s)
  {
    hide LargestFirst;
    forall x | x in s.results ensures x.fail && !x.dirty {
      RefusedFail(c, |c.specs|, x);
    }
  }

  lemma {:induction false} RefusedFail<S, N(!new)>(c: Config<S, N>, n: nat, x: Result)
    requires n <= |c.specs| == |c.broken| && x in Refused(c, n)
    ensures x.fail && !x.dirty
  {
    hide CanRun;
    if n > 0 && x in Refused(c, n - 1) { RefusedFail(c, n - 1, x); }
  }

  lemma MovesKept<S, N(!new)>(c: Config<S, N>, s: State<N>, t: State<N>)
    requires Kept(c, s) && Moves(s, t) && (t.pc == s.pc || LoopStep(c, s, t))
    ensures Kept(c, t)
  {
    hide Servable, Serves, Limit;
    forall n, x ensures Soiled(t, n, x) <==> Soiled(s, n, x) {
    }
  }

  lemma LaunchKept<S, N(!new)>(c: Config<S, N>, s: State<N>, t: State<N>, i: nat, given: seq<N>)
    requires Inv(c, s) && Kept(c, s) && Launches(c, s, t, i, given)
    ensures Kept(c, t)
  {
    hide Inv, Launches, Given, NoneSkipped, EvictedRight, StopRight;
    LaunchGiven(c, s, t, i, given);
    LaunchEnds(c, s, t, i, given);
  }

  lemma LaunchGiven<S, N(!new)>(c: Config<S, N>, s: State<N>, t: State<N>, i: nat, given: seq<N>)
    requires Inv(c, s) && Kept(c, s) && Launches(c, s, t, i, given)
    ensures Given(c, t)
  {
    hide Plans, Counted, PcRight, RemoveAt, Elements, EvictedRight, NoneSkipped, StopRight;
    AccountedPending(|c.specs|, s.pending, s.running.Keys, s.finished.Keys, s.results);
    RemoveAtMeans(s.pending, i);
    FreeServes(c, s, s.pending[i], given);
  }

  lemma FreeServes<S, N(!new)>(c: Config<S, N>, s: State<N>, job: nat, given: seq<N>)
    requires NodesParted(c.nodes, s.free, s.evicted, s.running) && job < |c.specs|
    requires Serves(c.fits, c.specs[job], s.free, given)
    ensures Serves(c.fits, c.specs[job], c.nodes, given)
  {
  }

  /** Who has ended, and how, is as it was. */
  lemma LaunchEnds<S, N(!new)>(c: Config<S, N>, s: State<N>, t: State<N>, i: nat, given: seq<N>)
    requires Inv(c, s) && Kept(c, s) && Launches(c, s, t, i, given)
    ensures NoneSkipped(t) && EvictedRight(t) && StopRight(c, t)
  {
    hide Plans, Counted, PcRight, NodesParted, RemoveAt, Elements, Given, Serves;
    var job := s.pending[i];
    NotEnded(c, s, job);
    forall n, x ensures Soiled(t, n, x) <==> Soiled(s, n, x) {
    }
  }

  lemma NotEnded<S, N(!new)>(c: Config<S, N>, s: State<N>, job: nat)
    requires Accounted(|c.specs|, s.pending, s.running.Keys, s.finished.Keys, s.results) && job in s.pending
    ensures job !in s.finished && job !in s.running && forall x :: x in s.results ==> x.job != job
  {
    assert Places(s.pending, s.running.Keys, s.finished.Keys, s.results, job) <= 1;
    assert !Recorded(s.results, job);
  }

  lemma HearKept<S, N(!new)>(c: Config<S, N>, s: State<N>, t: State<N>, job: nat)
    requires SelfNamed(s.finished) && Kept(c, s) && Hears(c, s, t, job)
    ensures Kept(c, t)
  {
    hide Serves;
    forall x ensures x in t.results <==> x in s.results || x == s.finished[job] {
    }
    assert Given(c, t);
    forall n, x ensures Soiled(t, n, x) <==> Soiled(s, n, x) {
    }
  }

  lemma FinishKept<S, N(!new)>(c: Config<S, N>, s: State<N>, t: State<N>, job: nat, fail: bool, dirty: bool)
    requires Inv(c, s) && Kept(c, s) && Finishes(s, t, job, fail, dirty)
    ensures Kept(c, t)
  {
    hide Plans, Counted, PcRight, NodesParted, Serves, EvictedRight;
    NotFinished(c, s, job);
    FinishEvicts(s, t, job, fail, dirty);
  }

  lemma NotFinished<S, N(!new)>(c: Config<S, N>, s: State<N>, job: nat)
    requires Accounted(|c.specs|, s.pending, s.running.Keys, s.finished.Keys, s.results) && job in s.running
    ensures job !in s.finished
  {
    assert Places(s.pending, s.running.Keys, s.finished.Keys, s.results, job) <= 1;
    assert job in s.running.Keys;
  }

  lemma FinishEvicts<N(!new)>(s: State<N>, t: State<N>, job: nat, fail: bool, dirty: bool)
    requires EvictedRight(s) && Finishes(s, t, job, fail, dirty) && job !in s.finished
    requires job in s.launched && s.running[job] == Elements(s.launched[job])
    ensures EvictedRight(t)
  {
    var own := Result(job, fail, dirty);
    forall x ensures Ended(t, x) <==> Ended(s, x) || x == own {
    }
    forall n ensures n in t.evicted <==> exists x :: Soiled(t, n, x) {
      if n in t.evicted {
        if n in s.evicted {
          var x :| Soiled(s, n, x);
          assert Soiled(t, n, x);
        } else {
          assert Soiled(t, n, own);
        }
      }
      if x :| Soiled(t, n, x) {
        if x == own { assert n in s.running[job]; } else { assert Soiled(s, n, x); }
      }
    }
  }

  lemma DropKept<S, N(!new)>(c: Config<S, N>, s: State<N>, t: State<N>)
    requires Kept(c, s) && Drops(s, t)
    ensures Kept(c, t)
  {
    hide Serves;
    DroppedAre(s.pending);
    forall x ensures x in t.results <==> x in s.results || x in Dropped(s.pending) {
    }
    forall n, x ensures Soiled(t, n, x) <==> Soiled(s, n, x) {
    }
  }

  lemma DroppedAre(pending: seq<nat>)
    ensures forall x :: x in Dropped(pending) ==> x.job in pending && x.fail && !x.dirty
  {
  }

  lemma StepKept<S, N(!new)>(c: Config<S, N>, s: State<N>, t: State<N>)
    requires Inv(c, s) && Kept(c, s) && Next(c, s, t)
    ensures Kept(c, t)
  {
    hide Inv, Kept, Moves, Launches, Hears, Finishes, Drops, Next, LoopStep;
    KindOf(c, s, t);
    if Moves(s, t) && (t.pc == s.pc || LoopStep(c, s, t)) {
      MovesKept(c, s, t);
    } else if i: nat, given :| Launches(c, s, t, i, given) {
      LaunchKept(c, s, t, i, given);
    } else if job: nat :| Hears(c, s, t, job) {
      InvNames(c, s);
      HearKept(c, s, t, job);
    } else if job: nat, fail, dirty :| Finishes(s, t, job, fail, dirty) {
      FinishKept(c, s, t, job, fail, dirty);
    } else {
      DropKept(c, s, t);
    }
  }

  lemma InvNames<S, N(!new)>(c: Config<S, N>, s: State<N>)
    requires Inv(c, s)
    ensures SelfNamed(s.finished)
  {
  }

  lemma {:induction false} RunKept<S, N(!new)>(c: Config<S, N>, run: seq<State<N>>, k: nat)
    requires IsRun(c, run) && k < |run|
    ensures Kept(c, run[k])
  {
    hide Inv, Init, Next, Kept;
    if k == 0 {
      StartKept(c, run[0]);
    } else {
      RunKept(c, run, k - 1);
      RunHolds(c, run, k - 1);
      assert Next(c, run[k - 1], run[k - 1 + 1]);
      StepKept(c, run[k - 1], run[k]);
    }
  }

  // ----- Nodes and results

  /**
   In every run a job is launched on nodes of the pool that serve its specs, one each; the nodes evicted are
   just those of the jobs that ended dirty; and a request that was not launched can only have failed.
   */
  lemma JobsRight<S, N(!new)>(c: Config<S, N>, run: seq<State<N>>, k: nat)
    requires IsRun(c, run) && k < |run|
    ensures forall job :: job in run[k].launched ==>
      job < |c.specs| && Serves(c.fits, c.specs[job], c.nodes, run[k].launched[job])
    ensures forall n :: n in run[k].evicted <==> exists x :: Soiled(run[k], n, x)
    ensures forall x :: x in run[k].results ==> x.job in run[k].launched || x.fail
  {
    hide IsRun, StopRight, Serves, Soiled;
    RunKept(c, run, k);
  }

  ghost predicate ReportedAt<N>(run: seq<State<N>>, j: nat, x: Result) {
    && j + 1 < |run| && x.job in run[j].running && x.job !in run[j + 1].running
    && x.job in run[j + 1].finished && run[j + 1].finished[x.job] == x
  }

  lemma {:induction false} FinishedReported<S, N(!new)>(c: Config<S, N>, run: seq<State<N>>, k: nat, job: nat)
      returns (j: nat)
    requires IsRun(c, run) && k < |run| && job in run[k].finished
    ensures j < k && ReportedAt(run, j, run[k].finished[job])
  {
    hide Inv, Init, Next, Kept;
    if k == 0 {
      NothingFinished(c, run[0]);
      assert false;
    }
    RunHolds(c, run, k - 1);
    RunHolds(c, run, k);
    InvNames(c, run[k]);
    assert Next(c, run[k - 1], run[k - 1 + 1]);
    KindOf(c, run[k - 1], run[k]);
    if job in run[k - 1].finished && run[k - 1].finished[job] == run[k].finished[job] {
      j := FinishedReported(c, run, k - 1, job);
    } else {
      j := k - 1;
      NewlyFinished(c, run[k - 1], run[k], job);
    }
  }

  lemma NothingFinished<S, N(!new)>(c: Config<S, N>, s: State<N>)
    requires Init(c, s)
    ensures s.finished == map[] && !s.stop && s.launched == map[]
  {
  }

  lemma NewlyFinished<S, N(!new)>(c: Config<S, N>, s: State<N>, t: State<N>, job: nat)
    requires StepKind(c, s, t) && job in t.finished
    requires !(job in s.finished && s.finished[job] == t.finished[job])
    ensures job in s.running && job !in t.running
  {
    hide LoopStep, Serves, RemoveAt, Elements, Dropped;
  }

  /** A result recorded of a job that was launched is the one it ended with. */
  lemma {:induction false} ResultReported<S, N(!new)>(c: Config<S, N>, run: seq<State<N>>, k: nat, x: Result)
      returns (j: nat)
    requires IsRun(c, run) && k < |run| && x in run[k].results && x.job in run[k].launched
    ensures j < k && ReportedAt(run, j, x)
  {
    hide Inv, Init, Next, Kept;
    if k == 0 {
      NothingFinished(c, run[0]);
      assert false;
    }
    RunHolds(c, run, k - 1);
    RunKept(c, run, k - 1);
    assert Next(c, run[k - 1], run[k - 1 + 1]);
    KindOf(c, run[k - 1], run[k]);
    if x in run[k - 1].results {
      RecordedLaunched(c, run[k - 1], run[k], x);
      j := ResultReported(c, run, k - 1, x);
    } else {
      NewlyRecorded(c, run[k - 1], run[k], x);
      InvNames(c, run[k - 1]);
      j := FinishedReported(c, run, k - 1, x.job);
    }
  }

  lemma RecordedLaunched<S, N(!new)>(c: Config<S, N>, s: State<N>, t: State<N>, x: Result)
    requires Inv(c, s) && StepKind(c, s, t) && x in s.results && x.job in t.launched
    ensures x.job in s.launched
  {
    hide Plans, Counted, PcRight, NodesParted, LoopStep, Serves, Accounted;
    if i: nat, given :| Launches(c, s, t, i, given) {
      NotEnded(c, s, s.pending[i]);
    }
  }

  lemma NewlyRecorded<S, N(!new)>(c: Config<S, N>, s: State<N>, t: State<N>, x: Result)
    requires Inv(c, s) && Kept(c, s) && StepKind(c, s, t) && x in t.results && x !in s.results && x.job in t.launched
    ensures x.job in s.finished && s.finished[x.job] == x
  {
    InvNames(c, s);
    ResultsAfter(c, s, t);
    hide Inv, StepKind, Hears, Drops, Kept;
    if job: nat :| Hears(c, s, t, job) {
      HeardIs(c, s, t, job, x);
    } else {
      DropsUnlaunched(c, s, t, x);
    }
  }

  lemma HeardIs<S, N>(c: Config<S, N>, s: State<N>, t: State<N>, job: nat, x: Result)
    requires SelfNamed(s.finished) && Hears(c, s, t, job) && x in t.results && x !in s.results
    ensures x.job in s.finished && s.finished[x.job] == x
  {
    assert t.results == s.results + [s.finished[job]];
  }

  lemma DropsUnlaunched<S, N(!new)>(c: Config<S, N>, s: State<N>, t: State<N>, x: Result)
    requires Kept(c, s) && Drops(s, t) && x in t.results && x !in s.results
    ensures x.job !in t.launched
  {
    hide Serves, EvictedRight, NoneSkipped, StopRight;
    DroppedAre(s.pending);
    assert t.results == s.results + Dropped(s.pending);
  }

  lemma ResultsAfter<S, N(!new)>(c: Config<S, N>, s: State<N>, t: State<N>)
    requires StepKind(c, s, t)
    ensures t.results == s.results || (exists job: nat :: Hears(c, s, t, job)) || Drops(s, t)
  {
    hide LoopStep, Serves, Drops, Hears;
  }

  // ----- Stopping

  lemma StopKind<S, N(!new)>(c: Config<S, N>, s: State<N>, t: State<N>)
    requires StepKind(c, s, t)
    ensures (s.stop ==> t.stop) && (s.cancelled ==> t.cancelled)
    ensures forall job :: job in s.launched ==> job in t.launched
    ensures forall x :: x in s.results ==> x in t.results
  {
    hide LoopStep, Serves, RemoveAt, Elements, Dropped;
  }

  /** With scheduling stopped, nothing more is launched or given a result without having been. */
  lemma StoppedStep<S, N(!new)>(c: Config<S, N>, s: State<N>, t: State<N>)
    requires Kept(c, s) && StepKind(c, s, t) && s.stop
    ensures t.stop && t.launched == s.launched && t.pending == s.pending
  {
    hide Given, NoneSkipped, EvictedRight, LoopStep, Serves;
  }

  /** Once scheduling has stopped it stays so: nothing is launched, and what was left waiting gets no result. */
  lemma {:induction false} StopsForGood<S, N(!new)>(c: Config<S, N>, run: seq<State<N>>, j: nat, k: nat)
    requires IsRun(c, run) && j <= k < |run| && run[j].stop
    ensures run[k].stop && run[k].launched == run[j].launched && run[k].pending == run[j].pending
    ensures forall r :: r in run[j].pending ==> !Recorded(run[k].results, r)
  {
    hide Init, Next, Kept, StepKind, Recorded;
    if j < k {
      StopsForGood(c, run, j, k - 1);
      RunHolds(c, run, k - 1);
      RunKept(c, run, k - 1);
      assert Next(c, run[k - 1], run[k - 1 + 1]);
      KindOf(c, run[k - 1], run[k]);
      StoppedStep(c, run[k - 1], run[k]);
    }
    RunHolds(c, run, k);
    forall r | r in run[j].pending ensures !Recorded(run[k].results, r) {
      WaitsUnrecorded(c, run[k], r);
    }
  }

  lemma WaitsUnrecorded<S, N(!new)>(c: Config<S, N>, s: State<N>, r: nat)
    requires Inv(c, s) && r in s.pending
    ensures !Recorded(s.results, r)
  {
    hide NodesParted, Counted, PcRight, Plans;
    assert Places(s.pending, s.running.Keys, s.finished.Keys, s.results, r) <= 1;
  }

  /** The loop heard of a job at step `j`, with the context cancelled. */
  ghost predicate HeardCancelled<S, N(!new)>(c: Config<S, N>, run: seq<State<N>>, j: nat) {
    j + 1 < |run| && run[j].cancelled && run[j].pc.Wait? && LoopStep(c, run[j], run[j + 1])
  }

  /**
   Scheduling has stopped just when a job that was launched has failed under ExitFirst, and is recorded, or the
   loop has heard of a job since the context was cancelled.
   */
  lemma {:induction false} StopsExactly<S, N(!new)>(c: Config<S, N>, run: seq<State<N>>, k: nat)
    requires IsRun(c, run) && k < |run|
    ensures run[k].stop <==> ExitFailed(c, run[k]) || exists j: nat :: j < k && HeardCancelled(c, run, j)
  {
    hide Inv, Init, Next, StepKind, ExitFailed, HeardCancelled;
    RunKept(c, run, k);
    KeptStops(c, run[k]);
    hide Kept;
    if k == 0 {
      NothingFinished(c, run[0]);
    } else {
      StopsExactly(c, run, k - 1);
      RunHolds(c, run, k - 1);
      RunKept(c, run, k - 1);
      assert Next(c, run[k - 1], run[k - 1 + 1]);
      KindOf(c, run[k - 1], run[k]);
      StopKind(c, run[k - 1], run[k]);
      StillFailed(c, run[k - 1], run[k]);
      if run[k].stop && !run[k - 1].stop {
        NewlyStopped(c, run[k - 1], run[k]);
        if run[k - 1].cancelled && run[k - 1].pc.Wait? && LoopStep(c, run[k - 1], run[k]) {
          assert HeardCancelled(c, run, k - 1) by { HeardNow(c, run, k - 1); }
        }
      }
      if j: nat :| j < k && HeardCancelled(c, run, j) && j == k - 1 {
        CancelledStops(c, run, j);
      }
    }
  }

  lemma HeardNow<S, N(!new)>(c: Config<S, N>, run: seq<State<N>>, j: nat)
    requires j + 1 < |run| && run[j].cancelled && run[j].pc.Wait? && LoopStep(c, run[j], run[j + 1])
    ensures HeardCancelled(c, run, j)
  {
  }

  lemma KeptStops<S, N(!new)>(c: Config<S, N>, s: State<N>)
    requires Kept(c, s)
    ensures ExitFailed(c, s) ==> s.stop
  {
  }

  lemma StillFailed<S, N(!new)>(c: Config<S, N>, s: State<N>, t: State<N>)
    requires forall job :: job in s.launched ==> job in t.launched
    requires forall x :: x in s.results ==> x in t.results
    ensures ExitFailed(c, s) ==> ExitFailed(c, t)
  {
  }

  lemma CancelledStops<S, N(!new)>(c: Config<S, N>, run: seq<State<N>>, j: nat)
    requires HeardCancelled(c, run, j)
    ensures run[j + 1].stop
  {
  }

  lemma NewlyStopped<S, N(!new)>(c: Config<S, N>, s: State<N>, t: State<N>)
    requires Inv(c, s) && Kept(c, s) && StepKind(c, s, t) && t.stop && !s.stop
    ensures ExitFailed(c, t) || (s.cancelled && s.pc.Wait? && LoopStep(c, s, t))
  {
    InvNames(c, s);
    OnlyHearingStops(c, s, t);
    hide Inv, StepKind, LoopStep, Serves, EvictedRight, NoneSkipped, StopRight;
    var job: nat :| Hears(c, s, t, job);
    HearIsStep(c, s, t, job);
    assert s.finished[job] in t.results;
  }

  lemma OnlyHearingStops<S, N(!new)>(c: Config<S, N>, s: State<N>, t: State<N>)
    requires StepKind(c, s, t) && t.stop && !s.stop
    ensures exists job: nat :: Hears(c, s, t, job)
  {
    hide LoopStep, Serves, RemoveAt, Elements;
  }

  lemma HearIsStep<S, N(!new)>(c: Config<S, N>, s: State<N>, t: State<N>, job: nat)
    requires Hears(c, s, t, job)
    ensures LoopStep(c, s, t)
  {
    assert WaitStep(c, s, t);
  }

  /** Past the test that looks at the context, and not yet back there. */
  predicate Deciding(pc: Pc) { pc.Scan? || pc.Alloc? }

  ghost predicate LaunchedToo<N>(s: State<N>, t: State<N>, r: nat) {
    t.launched.Keys == s.launched.Keys + {r}
  }

  /** No job more was launched, or one the loop was deciding on. */
  ghost predicate OneMoreAtMost<N>(s: State<N>, t: State<N>) {
    if Deciding(s.pc) && !Deciding(t.pc) then
      t.launched == s.launched || exists r: nat :: LaunchedToo(s, t, r)
    else t.launched == s.launched && (Deciding(t.pc) ==> Deciding(s.pc))
  }

  lemma CancelledStep<S, N(!new)>(c: Config<S, N>, s: State<N>, t: State<N>)
    requires Inv(c, s) && StepKind(c, s, t) && s.cancelled
    ensures t.cancelled && OneMoreAtMost(s, t)
  {
    hide Inv, Serves, Servable, RemoveAt, Elements;
    if i: nat, given :| Launches(c, s, t, i, given) {
      assert LaunchedToo(s, t, s.pending[i]);
    }
  }

  /**
   Once the context is cancelled, one more job at most is launched, and only if the loop was about
   to decide on it.
   */
  lemma {:induction false} CancelledLaunches<S, N(!new)>(c: Config<S, N>, run: seq<State<N>>, j: nat, k: nat)
    requires IsRun(c, run) && j <= k < |run| && run[j].cancelled
    ensures run[k].cancelled && OneMoreAtMost(run[j], run[k])
  {
    hide Inv, Init, Next, StepKind, Deciding;
    if j < k {
      CancelledLaunches(c, run, j, k - 1);
      RunHolds(c, run, k - 1);
      assert Next(c, run[k - 1], run[k - 1 + 1]);
      KindOf(c, run[k - 1], run[k]);
      CancelledStep(c, run[k - 1], run[k]);
      OneMoreInAll(run[j], run[k - 1], run[k]);
    }
  }

  lemma OneMoreInAll<N>(s: State<N>, t: State<N>, u: State<N>)
    requires OneMoreAtMost(s, t) && OneMoreAtMost(t, u)
    ensures OneMoreAtMost(s, u)
  {
    if r: nat :| LaunchedToo(t, u, r) && t.launched == s.launched {
      assert LaunchedToo(s, u, r);
    } else if r: nat :| LaunchedToo(s, t, r) && u.launched == t.launched {
      assert LaunchedToo(s, u, r);
    }
  }

  // ----- Which request is launched next

  /** Larger requests first, and of one size in the order given. */
  ghost predicate Precedes<S, N>(c: Config<S, N>, a: nat, b: nat) {
    a < |c.specs| && b < |c.specs| && (|c.specs[a]| > |c.specs[b]| || (|c.specs[a]| == |c.specs[b]| && a < b))
  }

  ghost predicate InTurn<S, N>(c: Config<S, N>, pending: seq<nat>) {
    forall i, j :: 0 <= i < j < |pending| ==> Precedes(c, pending[i], pending[j])
  }

  lemma RemoveInTurn<S, N>(c: Config<S, N>, pending: seq<nat>, k: nat)
    requires InTurn(c, pending) && k < |pending|
    ensures InTurn(c, RemoveAt(pending, k))
  {
    var r := RemoveAt(pending, k);
    forall i, j | 0 <= i < j < |r| ensures Precedes(c, r[i], r[j]) {
      RemoveAtElement(pending, k, i);
      RemoveAtElement(pending, k, j);
    }
  }

  lemma StartInTurn<S, N(!new)>(c: Config<S, N>)
    requires |c.broken| == |c.specs|
    ensures InTurn(c, LargestFirst(c))
  {
    hide InTurn, Size;
    PlannedRise(c, |c.specs|);
    SortedInTurn(c, Planned(c, |c.specs|), (a: nat, b: nat) => Size(c, b) <= Size(c, a), NatLess);
  }

  lemma SortedInTurn<S, N>(c: Config<S, N>, all: seq<nat>, le: (nat, nat) -> bool, before: (nat, nat) -> bool)
    requires forall a, b :: le(a, b) <==> Size(c, b) <= Size(c, a)
    requires forall a, b :: before(a, b) <==> a < b
    requires Increasing(all) && forall r :: r in all ==> r < |c.specs|
    ensures InTurn(c, Sort(all, le))
  {
    var r := Sort(all, le);
    SortStable(all, le, before);
    SameElements(all, r);
    forall i, j | 0 <= i < j < |r| ensures Precedes(c, r[i], r[j]) {
      assert Sorting.Ahead(le, before, r[i], r[j]);
      assert r[i] in all && r[j] in all;
    }
  }

  lemma {:induction false} PlannedRise<S, N(!new)>(c: Config<S, N>, n: nat)
    requires n <= |c.specs|
    ensures Increasing(Planned(c, n)) && forall r :: r in Planned(c, n) ==> r < n
  {
    hide CanRun;
    if n > 0 {
      PlannedRise(c, n - 1);
      var was, now := Planned(c, n - 1), Planned(c, n);
      assert forall i :: 0 <= i < |was| ==> was[i] in was;
    }
  }

  lemma PendingAfter<S, N(!new)>(c: Config<S, N>, s: State<N>, t: State<N>)
    requires StepKind(c, s, t) && InTurn(c, s.pending)
    ensures InTurn(c, t.pending)
  {
    hide LoopStep, Serves, InTurn, RemoveAt;
    if i: nat, given :| Launches(c, s, t, i, given) {
      RemoveInTurn(c, s.pending, i);
    } else if Drops(s, t) {
      NoneInTurn(c);
    }
  }

  lemma NoneInTurn<S, N>(c: Config<S, N>)
    ensures InTurn(c, [])
  {
  }

  lemma {:induction false} AlwaysInTurn<S, N(!new)>(c: Config<S, N>, run: seq<State<N>>, k: nat)
    requires IsRun(c, run) && k < |run|
    ensures InTurn(c, run[k].pending)
  {
    hide Inv, Next, InTurn, StepKind, LargestFirst;
    if k == 0 {
      StartInTurn(c);
    } else {
      AlwaysInTurn(c, run, k - 1);
      RunHolds(c, run, k - 1);
      assert Next(c, run[k - 1], run[k - 1 + 1]);
      KindOf(c, run[k - 1], run[k]);
      PendingAfter(c, run[k - 1], run[k]);
    }
  }

  /**
   The request launched is the largest that fits the free nodes, and of those the first given: no other that comes
   before it fits, unless nodes have come free since the loop last heard of a job.
   */
  lemma LargestThatFits<S, N(!new)>(c: Config<S, N>, run: seq<State<N>>, k: nat, job: nat, r: nat)
    requires IsRun(c, run) && k + 1 < |run| && job !in run[k].launched && job in run[k + 1].launched
    requires run[k].finished == map[] && r in run[k].pending && r < |c.specs| && job < |c.specs|
    requires |c.specs[r]| > |c.specs[job]| || (|c.specs[r]| == |c.specs[job]| && r < job)
    ensures !Servable(c.fits, c.specs[r], run[k].free)
  {
    hide Init, Next, Servable, StepKind;
    RunHolds(c, run, k);
    AlwaysInTurn(c, run, k);
    assert Next(c, run[k], run[k + 1]);
    KindOf(c, run[k], run[k + 1]);
    var i := LaunchAt(c, run[k], run[k + 1], job);
    var x :| 0 <= x < |run[k].pending| && run[k].pending[x] == r;
    if i <= x { BeforeInTurn(c, run[k].pending, x, i); }
  }

  lemma BeforeInTurn<S, N>(c: Config<S, N>, pending: seq<nat>, x: nat, i: nat)
    requires InTurn(c, pending) && i <= x < |pending|
    ensures !Precedes(c, pending[x], pending[i])
  {
    assert i < x ==> Precedes(c, pending[i], pending[x]);
  }

  lemma LaunchAt<S, N(!new)>(c: Config<S, N>, s: State<N>, t: State<N>, job: nat) returns (i: nat)
    requires StepKind(c, s, t) && job !in s.launched && job in t.launched
    ensures i < |s.pending| && s.pc == Alloc(i) && s.pending[i] == job
  {
    hide LoopStep, Serves, RemoveAt, Elements;
    var given;
    i, given :| Launches(c, s, t, i, given);
  }

  /**
   Whenever the loop waits and every job that has finished has been heard of, with scheduling neither stopped nor
   cancelled, as many jobs run as may, or no request waiting fits the free nodes.
   */
  lemma NoneHeldBack<S, N(!new)>(c: Config<S, N>, run: seq<State<N>>, k: nat, r: nat)
    requires IsRun(c, run) && k < |run| && run[k].pc.Wait? && run[k].finished == map[]
    requires !run[k].stop && !run[k].cancelled && r in run[k].pending
    ensures |run[k].running| > 0 && (|run[k].running| >= c.maxParallel ||
      (r < |c.specs| && !Servable(c.fits, c.specs[r], run[k].free)))
  {
    hide IsRun, NodesParted, Accounted, Plans, Servable;
    RunHolds(c, run, k);
    var x :| 0 <= x < |run[k].pending| && run[k].pending[x] == r;
  }
}
