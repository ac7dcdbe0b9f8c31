/**
 The scheduling loop, with the jobs it launches finishing beside it, as a state machine
 (driver.go, Run and runOne).
 */
module Driver {
  import opened Seqs
  import opened Sorting
  import opened Pools

  /** How a request ended; `dirty` says that its nodes may not be clean. */
  datatype Result = Result(job: nat, fail: bool, dirty: bool)

  /** The requests by number: the specs each asks for, and whether it could not be sized at all. */
  datatype Config<!S, !N> = Config(specs: seq<seq<S>>, broken: seq<bool>, nodes: set<N>, fits: (S, N) -> bool,
      maxParallel: int, exitFirst: bool)

  /** Where the loop is. */
  datatype Pc = Top | Inner | Scan(i: nat) | Alloc(i: nat) | After | Wait | Done | Closed

  /** `launched` has the nodes each job was launched on, one for each of its specs. */
  datatype State<!N> = State(
    pc: Pc, pending: seq<nat>, active: nat, stop: bool, cancelled: bool,
    running: map<nat, set<N>>, finished: map<nat, Result>,
    free: set<N>, evicted: set<N>, results: seq<Result>, launched: map<nat, seq<N>>)

  function Limit(maxParallel: int): nat {
    if maxParallel < 1 then 1 else maxParallel
  }

  // ----- The start

  ghost predicate CanRun<S, N(!new)>(c: Config<S, N>, r: nat) {
    r < |c.specs| == |c.broken| && !c.broken[r] && Servable(c.fits, c.specs[r], c.nodes)
  }

  ghost function Planned<S, N(!new)>(c: Config<S, N>, n: nat): seq<nat> {
    if n == 0 then [] else Planned(c, n - 1) + if CanRun(c, n - 1) then [n - 1] else []
  }

  ghost function Refused<S, N(!new)>(c: Config<S, N>, n: nat): seq<Result> {
    if n == 0 then [] else Refused(c, n - 1) + if CanRun(c, n - 1) then [] else [Result(n - 1, true, false)]
  }

  function Size<S, N>(c: Config<S, N>, r: nat): nat { if r < |c.specs| then |c.specs[r]| else 0 }

  ghost function LargestFirst<S, N(!new)>(c: Config<S, N>): seq<nat> {
    Sort<nat>(Planned(c, |c.specs|), (a: nat, b: nat) => Size(c, b) <= Size(c, a))
  }

  ghost predicate Init<S, N(!new)>(c: Config<S, N>, s: State<N>) {
    && |c.broken| == |c.specs|
    && s == State(Top, LargestFirst(c), 0, false, s.cancelled, map[], map[], c.nodes, {}, Refused(c, |c.specs|), map[])
  }

  // ----- The steps

  ghost predicate AllocStep<S, N(!new)>(c: Config<S, N>, s: State<N>, t: State<N>, i: nat)
    requires i < |s.pending|
  {
    var job := s.pending[i];
    job < |c.specs| &&
    if Servable(c.fits, c.specs[job], s.free) then
      exists given :: Serves(c.fits, c.specs[job], s.free, given) &&
        t == s.(pc := Inner, pending := RemoveAt(s.pending, i), active := s.active + 1,
          running := s.running[job := Elements(given)],
                free := s.free - Elements(given), launched := s.launched[job := given])
    else t == s.(pc := Inner, pending := RemoveAt(s.pending, i), results := s.results + [Result(job, true, false)])
  }

  ghost predicate WaitStep<S, N>(c: Config<S, N>, s: State<N>, t: State<N>) {
    exists job :: job in s.finished && s.active > 0 &&
      t == s.(pc := Top, finished := s.finished - {job}, active := s.active - 1,
        results := s.results + [s.finished[job]],
              stop := s.stop || (c.exitFirst && s.finished[job].fail) || s.cancelled)
  }

  function Dropped(pending: seq<nat>): (r: seq<Result>)
    ensures |r| == |pending| && forall i :: 0 <= i < |r| ==> r[i] == Result(pending[i], true, false)
  {
    if pending == [] then [] else Dropped(pending[..|pending| - 1]) + [Result(pending[|pending| - 1], true, false)]
  }

  /** A step of the scheduling loop. */
  ghost predicate LoopStep<S, N(!new)>(c: Config<S, N>, s: State<N>, t: State<N>) {
    match s.pc
    case Top => t == s.(pc := if |s.pending| > 0 || s.active > 0 then Inner else Done)
    case Inner => t == s.(pc := if !s.stop && !s.cancelled && s.active < Limit(c.maxParallel) then Scan(0) else After)
    case Scan(i) =>
      if i >= |s.pending| then t == s.(pc := After)
      else
        && s.pending[i] < |c.specs|
        && t == s.(pc := if Servable(c.fits, c.specs[s.pending[i]], s.free) then Alloc(i) else Scan(i + 1))
    case Alloc(i) => i < |s.pending| && AllocStep(c, s, t, i)
    case After => t == s.(pc := if s.active == 0 then Done else Wait)
    case Wait => WaitStep(c, s, t)
    case Done => t == if s.stop then s.(pc := Closed)
      else s.(pc := Closed, pending := [], results := s.results + Dropped(s.pending))
    case Closed => false
  }

  /** A job finishes, and its nodes are given back, or evicted if they may be dirty. */
  ghost predicate FinishStep<N>(s: State<N>, t: State<N>) {
    exists job, fail, dirty :: job in s.running && FinishOf(s, t, job, fail, dirty)
  }

  ghost predicate FinishOf<N>(s: State<N>, t: State<N>, job: nat, fail: bool, dirty: bool)
    requires job in s.running
  {
    t == s.(running := s.running - {job}, finished := s.finished[job := Result(job, fail, dirty)],
            free := if dirty then s.free else s.free + s.running[job],
            evicted := if dirty then s.evicted + s.running[job] else s.evicted)
  }

  ghost predicate Next<S, N(!new)>(c: Config<S, N>, s: State<N>, t: State<N>) {
    LoopStep(c, s, t) || FinishStep(s, t) || t == s.(cancelled := true)
  }

  // ----- Every node is free, evicted or one job's

  ghost function InUse<N>(running: map<nat, set<N>>): set<N> {
    set job, n | job in running && n in running[job] :: n
  }

  ghost predicate Apart<N>(running: map<nat, set<N>>) {
    forall i, j :: i in running && j in running && i != j ==> running[i] !! running[j]
  }

  ghost predicate NodesParted<N>(nodes: set<N>, free: set<N>, evicted: set<N>, running: map<nat, set<N>>) {
    && nodes == free + evicted + InUse(running)
    && free !! evicted && free !! InUse(running) && evicted !! InUse(running)
    && Apart(running)
  }

  lemma InUseMore<N>(running: map<nat, set<N>>, job: nat, given: set<N>)
    requires job !in running
    ensures InUse(running[job := given]) == InUse(running) + given
  {
    var now := running[job := given];
    forall n ensures n in InUse(now) <==> n in InUse(running) + given {
      if n in given { assert job in now && n in now[job]; }
      if n in InUse(running) {
        var j :| j in running && n in running[j];
        assert j in now && n in now[j];
      }
    }
  }

  lemma InUseLess<N>(running: map<nat, set<N>>, job: nat)
    requires job in running && Apart(running)
    ensures InUse(running - {job}) == InUse(running) - running[job] && running[job] <= InUse(running)
  {
    var now := running - {job};
    forall n ensures n in InUse(now) <==> n in InUse(running) - running[job] {
      if n in InUse(now) {
        var j :| j in now && n in now[j];
        assert j in running && n in running[j] && running[j] !! running[job];
      }
      if n in InUse(running) && n !in running[job] {
        var j :| j in running && n in running[j];
        assert j in now && n in now[j];
      }
    }
  }

  lemma PartsOnLaunch<N>(nodes: set<N>, free: set<N>, evicted: set<N>, running: map<nat, set<N>>, job: nat,
      given: set<N>)
    requires NodesParted(nodes, free, evicted, running) && job !in running && given <= free
    ensures NodesParted(nodes, free - given, evicted, running[job := given])
  {
    InUseMore(running, job, given);
    ApartMore(running, job, given);
    CarveSets(nodes, free, InUse(running), evicted, given);
  }

  lemma ApartMore<N>(running: map<nat, set<N>>, job: nat, given: set<N>)
    requires Apart(running) && job !in running && InUse(running) !! given
    ensures Apart(running[job := given])
  {
    forall i | i in running ensures running[i] !! given {
      forall n | n in running[i] ensures n !in given {
        assert n in InUse(running);
      }
    }
  }

  lemma PartsOnFinish<N>(nodes: set<N>, free: set<N>, evicted: set<N>, running: map<nat, set<N>>, job: nat)
    requires NodesParted(nodes, free, evicted, running) && job in running
    ensures NodesParted(nodes, free + running[job], evicted, running - {job})
    ensures NodesParted(nodes, free, evicted + running[job], running - {job})
  {
    InUseLess(running, job);
    assert Apart(running - {job});
    GiveSets(nodes, free, evicted, InUse(running), running[job]);
  }

  lemma GiveSets<N>(nodes: set<N>, free: set<N>, evicted: set<N>, inUse: set<N>, back: set<N>)
    requires nodes == free + evicted + inUse && free !! evicted && free !! inUse && evicted !! inUse && back <= inUse
    ensures nodes == (free + back) + evicted + (inUse - back) && nodes == free + (evicted + back) + (inUse - back)
    ensures (free + back) !! evicted && (free + back) !! (inUse - back) && evicted !! (inUse - back)
    ensures free !! (evicted + back) && free !! (inUse - back) && (evicted + back) !! (inUse - back)
  {
  }
}
