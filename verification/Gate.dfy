/**
 A cgroup's gate, which keeps command starts and freezes apart, as a state machine: each body
 under the gate's mutex is a step, and waiting for the starts in flight lets other steps in
 (cgroup_linux.go, cgroupGate).
 */
module Gate {
  import opened Options
  import opened Seqs

  type Chan = nat

  /** Where a goroutine is. */
  datatype Pc =
    | Idle
    /** Outside the mutex, waiting for a channel to close. */
    | Waiting(thawed: Chan)
    /** Woken, and about to look at the gate again. */
    | Woken
    /** Counted in, and not yet out. */
    | Started
    /** Holding the turn of freezes and thaws, and about to take the mutex. */
    | FreezeTurn
    | ThawTurn
    /** Waiting for the starts in flight; `closed` says that this freeze closed the gate. */
    | Draining(closed: bool)
    /** Frozen, and waiting until the kernel says so. */
    | Polling(thawed: Chan)

  /**
   `kernel` is the freeze flag the kernel holds; `closings` are the channels closed, in order;
   `next` numbers the next channel made.
   */
  datatype State = State(pcs: seq<Pc>, turn: Option<nat>, starting: int, frozen: bool, thawed: Chan, next: nat,
      closings: seq<Chan>, kernel: bool)

  ghost predicate Init(s: State) {
    && (forall t :: 0 <= t < |s.pcs| ==> s.pcs[t].Idle?)
    && s.turn == None && s.starting == 0 && !s.frozen && s.next == 0 && s.closings == [] && !s.kernel
  }

  function At(s: State, t: nat, pc: Pc): State
    requires t < |s.pcs|
  {
    s.(pcs := s.pcs[t := pc])
  }

  /** Counts a start in, or waits for the thaw if the gate is closed. */
  function Enter(s: State, t: nat): State
    requires t < |s.pcs|
  {
    if s.frozen then At(s, t, Waiting(s.thawed)) else At(s, t, Started).(starting := s.starting + 1)
  }

  function Leave(s: State, t: nat): State
    requires t < |s.pcs|
  {
    At(s, t, Idle).(starting := s.starting - 1)
  }

  /** Closes the gate, unless an earlier freeze has. */
  function Shutting(s: State, t: nat): State
    requires t < |s.pcs|
  {
    if s.frozen then At(s, t, Draining(false))
    else At(s, t, Draining(true)).(frozen := true, thawed := s.next, next := s.next + 1)
  }

  /** Writes the freeze flag once no start is in flight; on failure opens the gate again to whoever waits. */
  function Freeze(s: State, t: nat, closed: bool, ok: bool): State
    requires t < |s.pcs|
  {
    if ok then At(s, t, Polling(s.thawed)).(turn := None, kernel := true)
    else if closed then At(s, t, Idle).(turn := None, frozen := false, closings := s.closings + [s.thawed])
    else At(s, t, Idle).(turn := None)
  }

  /** Clears the freeze flag, and lets the starts waiting go. */
  function Thaw(s: State, t: nat, ok: bool): State
    requires t < |s.pcs|
  {
    if !ok then At(s, t, Idle).(turn := None)
    else if s.frozen then At(s, t, Idle).(turn := None, kernel := false, frozen := false,
        closings := s.closings + [s.thawed])
    else At(s, t, Idle).(turn := None, kernel := false)
  }

  /** A step of goroutine `t`; `ok` says whether a write it makes succeeds. */
  ghost predicate StepOf(s: State, u: State, t: nat, ok: bool)
    requires t < |s.pcs|
  {
    match s.pcs[t]
    case Idle =>
      || u == Enter(s, t)
      || (s.turn.None? && u == At(s, t, FreezeTurn).(turn := Some(t)))
      || (s.turn.None? && u == At(s, t, ThawTurn).(turn := Some(t)))
    case Waiting(c) => (c in s.closings && u == At(s, t, Woken)) || u == At(s, t, Idle)
    case Woken => u == Enter(s, t)
    case Started => u == Leave(s, t)
    case FreezeTurn => u == Shutting(s, t)
    case Draining(closed) => s.starting == 0 && u == Freeze(s, t, closed, ok)
    case ThawTurn => u == Thaw(s, t, ok)
    case Polling(_) => u == At(s, t, Idle)
  }

  ghost predicate Next(s: State, u: State) {
    exists t: nat, ok :: t < |s.pcs| && StepOf(s, u, t, ok)
  }

  // ----- The invariant

  ghost function CountStarted(pcs: seq<Pc>): nat {
    if pcs == [] then 0 else CountStarted(pcs[..|pcs| - 1]) + if pcs[|pcs| - 1].Started? then 1 else 0
  }

  lemma {:induction false} CountMove(pcs: seq<Pc>, t: nat, pc: Pc)
    requires t < |pcs|
    ensures CountStarted(pcs[t := pc]) ==
      CountStarted(pcs) - (if pcs[t].Started? then 1 else 0) + (if pc.Started? then 1 else 0)
  {
    var n := |pcs| - 1;
    if t == n {
      assert pcs[t := pc][..n] == pcs[..n];
    } else {
      assert pcs[t := pc][..n] == pcs[..n][t := pc];
      CountMove(pcs[..n], t, pc);
    }
  }

  lemma {:induction false} CountIdle(pcs: seq<Pc>)
    requires forall t :: 0 <= t < |pcs| ==> pcs[t].Idle?
    ensures CountStarted(pcs) == 0
  {
    if pcs != [] { CountIdle(pcs[..|pcs| - 1]); }
  }

  predicate HasTurn(pc: Pc) { pc.FreezeTurn? || pc.ThawTurn? || pc.Draining? }

  /** One goroutine at most takes its turn at freezing and thawing. */
  ghost predicate Turns(s: State) {
    forall t: nat :: t < |s.pcs| ==> (HasTurn(s.pcs[t]) <==> s.turn == Some(t))
  }

  /** Every channel made is closed, but for that of the freeze in force; and closed once. */
  ghost predicate Channels(s: State) {
    && Distinct(s.closings)
    && (s.frozen ==> s.thawed < s.next)
    && (forall c: nat :: c in s.closings <==> c < s.next && !(s.frozen && c == s.thawed))
  }

  /** A freeze that waits for starts has the gate closed; and if it closed it, the kernel's flag is clear. */
  ghost predicate Drains(s: State) {
    forall t: nat :: t < |s.pcs| && s.pcs[t].Draining? ==> s.frozen && (s.pcs[t].closed ==> !s.kernel)
  }

  /** A goroutine waits on a channel that has been made. */
  ghost predicate Waits(s: State) {
    forall t: nat :: t < |s.pcs| && s.pcs[t].Waiting? ==> s.pcs[t].thawed < s.next
  }

  /** The kernel's flag is set only while the gate is closed and no start is in flight. */
  ghost predicate KernelSafe(s: State) {
    s.kernel ==> s.frozen && s.starting == 0
  }

  /** A closed gate has the kernel's flag set, or a freeze at work that closed it. */
  ghost predicate ClosedFor(s: State) {
    s.frozen && !s.kernel ==> exists t: nat :: t < |s.pcs| && s.pcs[t] == Draining(true)
  }

  ghost predicate Inv(s: State) {
    && Turns(s) && Channels(s) && Drains(s) && Waits(s) && KernelSafe(s) && ClosedFor(s)
    && s.starting == CountStarted(s.pcs)
  }

  lemma StartHolds(s: State)
    requires Init(s)
    ensures Inv(s)
  {
    CountIdle(s.pcs);
  }

  lemma EnterHolds(s: State, t: nat)
    requires Inv(s) && t < |s.pcs| && (s.pcs[t].Idle? || s.pcs[t].Woken?)
    ensures Inv(Enter(s, t))
  {
    CountMove(s.pcs, t, Enter(s, t).pcs[t]);
  }

  lemma LeaveHolds(s: State, t: nat)
    requires Inv(s) && t < |s.pcs| && s.pcs[t].Started?
    ensures Inv(Leave(s, t))
  {
    CountMove(s.pcs, t, Idle);
    CountPositive(s.pcs, t);
  }

  lemma {:induction false} CountPositive(pcs: seq<Pc>, t: nat)
    requires t < |pcs| && pcs[t].Started?
    ensures CountStarted(pcs) > 0
  {
    if t < |pcs| - 1 { CountPositive(pcs[..|pcs| - 1], t); }
  }

  lemma ShutHolds(s: State, t: nat)
    requires Inv(s) && t < |s.pcs| && s.pcs[t].FreezeTurn?
    ensures Inv(Shutting(s, t))
  {
    CountMove(s.pcs, t, Shutting(s, t).pcs[t]);
  }

  /** Ending the freeze in force closes its channel, and leaves none open. */
  lemma Reopen(s: State, u: State)
    requires Channels(s) && s.frozen && !u.frozen && u.next == s.next && u.closings == s.closings + [s.thawed]
    ensures Channels(u)
  {
    assert s.thawed !in s.closings;
  }

  lemma FreezeHolds(s: State, t: nat, closed: bool, ok: bool)
    requires Inv(s) && t < |s.pcs| && s.pcs[t] == Draining(closed) && s.starting == 0
    ensures Inv(Freeze(s, t, closed, ok))
  {
    CountMove(s.pcs, t, Freeze(s, t, closed, ok).pcs[t]);
    if !ok && closed {
      Reopen(s, Freeze(s, t, closed, ok));
    }
  }

  lemma SameChannels(s: State, u: State)
    requires Channels(s) && u.frozen == s.frozen && u.thawed == s.thawed && u.next == s.next && u.closings == s.closings
    ensures Channels(u)
  {
  }

  /** Taking a turn, being woken, giving up and being done change nothing else. */
  lemma MoveHolds(s: State, t: nat, pc: Pc, turn: Option<nat>)
    requires Inv(s) && t < |s.pcs| && !HasTurn(s.pcs[t]) && !s.pcs[t].Started? &&
      (pc.Idle? || pc.Woken? || pc.FreezeTurn? || pc.ThawTurn?)
    requires if HasTurn(pc) then s.turn.None? && turn == Some(t) else turn == s.turn
    ensures Inv(At(s, t, pc).(turn := turn))
  {
    CountMove(s.pcs, t, pc);
    SameChannels(s, At(s, t, pc).(turn := turn));
  }

  lemma ThawHolds(s: State, t: nat, ok: bool)
    requires Inv(s) && t < |s.pcs| && s.pcs[t].ThawTurn?
    ensures Inv(Thaw(s, t, ok))
  {
    hide Channels;
    CountMove(s.pcs, t, Idle);
    if ok && s.frozen {
      Reopen(s, Thaw(s, t, ok));
    } else {
      SameChannels(s, Thaw(s, t, ok));
    }
  }

  lemma StepHolds(s: State, u: State, t: nat, ok: bool)
    requires Inv(s) && t < |s.pcs| && StepOf(s, u, t, ok)
    ensures Inv(u)
  {
    hide Inv;
    match s.pcs[t] {
      case Idle =>
        if u == Enter(s, t) { EnterHolds(s, t); } else { MoveHolds(s, t, u.pcs[t], u.turn); }
      case Waiting(_) => MoveHolds(s, t, u.pcs[t], s.turn);
      case Woken => EnterHolds(s, t);
      case Started => LeaveHolds(s, t);
      case FreezeTurn => ShutHolds(s, t);
      case Draining(closed) => FreezeHolds(s, t, closed, ok);
      case ThawTurn => ThawHolds(s, t, ok);
      case Polling(_) => MoveHolds(s, t, Idle, s.turn);
    }
  }

  // ----- What holds of every run

  ghost predicate IsRun(run: seq<State>) {
    |run| > 0 && Init(run[0]) && forall k :: 0 <= k < |run| - 1 ==> Next(run[k], run[k + 1])
  }

  lemma {:induction false} RunHolds(run: seq<State>, k: nat)
    requires IsRun(run) && k < |run|
    ensures Inv(run[k])
  {
    hide Inv, StepOf;
    if k == 0 {
      StartHolds(run[0]);
    } else {
      RunHolds(run, k - 1);
      assert Next(run[k - 1], run[k - 1 + 1]);
      var t: nat, ok :| t < |run[k - 1].pcs| && StepOf(run[k - 1], run[k], t, ok);
      StepHolds(run[k - 1], run[k], t, ok);
    }
  }

  /**
   In every interleaving, failed writes included, the kernel's flag is set only while the gate is
   closed and no start is in flight; no channel is closed twice; and whoever waits for a thaw waits on
   the channel of the freeze in force, or on one that is closed.
   */
  lemma GateSafe(run: seq<State>, k: nat)
    requires IsRun(run) && k < |run|
    ensures var s := run[k];
      && (s.kernel ==> s.frozen && s.starting == 0 && forall t :: 0 <= t < |s.pcs| ==> !s.pcs[t].Started?)
      && Distinct(s.closings)
      && (forall t :: 0 <= t < |s.pcs| && s.pcs[t].Waiting? ==>
        s.pcs[t].thawed in s.closings || (s.frozen && s.pcs[t].thawed == s.thawed))
  {
    hide IsRun;
    RunHolds(run, k);
    var s := run[k];
    forall t: nat | t < |s.pcs| && s.kernel ensures !s.pcs[t].Started? {
      if s.pcs[t].Started? { CountPositive(s.pcs, t); }
    }
  }

  /** Until a freeze that is draining goes on, no start is let in and no thaw opens the gate. */
  lemma DrainingOnlyEmpties(s: State, u: State, t: nat)
    requires Inv(s) && t < |s.pcs| && s.pcs[t].Draining? && Next(s, u) && u.pcs[t] == s.pcs[t]
    ensures u.frozen && u.starting <= s.starting && u.kernel == s.kernel
  {
    var x: nat, ok :| x < |s.pcs| && StepOf(s, u, x, ok);
    assert x != t ==> !HasTurn(s.pcs[x]);
    assert s.frozen;
  }

  // ----- What a freeze and a thaw achieve

  /** The gate is open, the flag clear, and whoever waits can go on. */
  ghost predicate Open(s: State) {
    && !s.frozen && !s.kernel
    && forall t: nat :: t < |s.pcs| && s.pcs[t].Waiting? ==> s.pcs[t].thawed in s.closings
  }

  /** The gate is closed, the flag set, and no start in flight. */
  ghost predicate Shut(s: State) {
    s.frozen && s.kernel && forall t: nat :: t < |s.pcs| ==> !s.pcs[t].Started?
  }

  /** Nothing has changed but where `t` is, and that it gave up its turn. */
  ghost predicate OnlyDone(s: State, u: State, t: nat) {
    && t < |s.pcs| == |u.pcs| && u == s.(pcs := u.pcs, turn := None) && u.pcs[t].Idle?
    && forall x :: 0 <= x < |s.pcs| && x != t ==> u.pcs[x] == s.pcs[x]
  }

  /**
   In every run a thaw whose write succeeds opens the gate, and so does a failed freeze that had closed it; a
   freeze whose write succeeds shuts it; and a failed thaw, or a failed freeze of a gate shut before, changes
   nothing.
   */
  lemma Achieved(run: seq<State>, k: nat, t: nat, ok: bool)
    requires IsRun(run) && k + 1 < |run| && t < |run[k].pcs| && StepOf(run[k], run[k + 1], t, ok)
    ensures run[k].pcs[t].ThawTurn? ==> if ok then Open(run[k + 1]) else OnlyDone(run[k], run[k + 1], t)
    ensures run[k].pcs[t] == Draining(true) ==> if ok then Shut(run[k + 1]) else Open(run[k + 1])
    ensures run[k].pcs[t] == Draining(false) ==> if ok then Shut(run[k + 1]) else OnlyDone(run[k], run[k + 1], t)
    ensures run[k].pcs[t].Draining? && !ok ==> run[k + 1].pcs[t].Idle?
    ensures run[k].pcs[t].Draining? && ok ==> run[k + 1].pcs[t] == Polling(run[k + 1].thawed)
  {
    hide IsRun;
    var s, u := run[k], run[k + 1];
    RunHolds(run, k);
    RunHolds(run, k + 1);
    if s.pcs[t].Draining? && ok {
      forall x: nat | x < |u.pcs| ensures !u.pcs[x].Started? {
        if u.pcs[x].Started? { CountPositive(u.pcs, x); }
      }
    }
  }

  /** A freeze closes the gate before it waits for the starts in flight. */
  lemma FreezeCloses(run: seq<State>, k: nat, t: nat, ok: bool)
    requires IsRun(run) && k + 1 < |run| && t < |run[k].pcs| && run[k].pcs[t].FreezeTurn?
    requires StepOf(run[k], run[k + 1], t, ok)
    ensures run[k + 1].frozen && run[k + 1].pcs[t] == Draining(!run[k].frozen)
    ensures run[k + 1].starting == run[k].starting && run[k + 1].kernel == run[k].kernel
  {
  }

  /** While no freeze is at work, the gate is closed exactly while the flag is set. */
  lemma ClosedIsFrozen(run: seq<State>, k: nat)
    requires IsRun(run) && k < |run| && forall t :: 0 <= t < |run[k].pcs| ==> !run[k].pcs[t].Draining?
    ensures run[k].frozen <==> run[k].kernel
  {
    hide IsRun;
    RunHolds(run, k);
  }

  // ----- Everyone can go on

  lemma {:induction false} SameSize(run: seq<State>, i: nat, k: nat)
    requires IsRun(run) && i <= k < |run|
    ensures |run[i].pcs| == |run[k].pcs|
    ensures forall c :: c in run[i].closings ==> c in run[k].closings
  {
    hide Next, Init;
    if i < k {
      SameSize(run, i, k - 1);
      assert Next(run[k - 1], run[k - 1 + 1]);
      StepKeeps(run[k - 1], run[k]);
    }
  }

  /** No goroutine comes or goes, and no channel is opened again. */
  lemma StepKeeps(s: State, u: State)
    requires Next(s, u)
    ensures |s.pcs| == |u.pcs| && (u.closings == s.closings || u.closings == s.closings + [s.thawed])
  {
    var t: nat, ok :| t < |s.pcs| && StepOf(s, u, t, ok);
    match s.pcs[t]
    case FreezeTurn => assert u == Shutting(s, t);
    case Draining(closed) => assert u == Freeze(s, t, closed, ok);
    case ThawTurn => assert u == Thaw(s, t, ok);
    case _ => assert u.closings == s.closings;
  }

  /** Whoever was waiting when a thaw succeeded can go on, however long it takes to. */
  lemma ThawFrees(run: seq<State>, j: nat, k: nat, thawer: nat, t: nat)
    requires IsRun(run) && j < k < |run|
    requires thawer < |run[j].pcs| && run[j].pcs[thawer].ThawTurn? && StepOf(run[j], run[j + 1], thawer, true)
    requires t < |run[j].pcs| && run[j].pcs[t].Waiting?
    requires t < |run[k].pcs| && run[k].pcs[t] == run[j].pcs[t]
    ensures exists u :: StepOf(run[k], u, t, true) && u.pcs[t].Woken?
  {
    hide IsRun;
    RunHolds(run, j);
    Achieved(run, j, thawer, true);
    var c := run[j].pcs[t].thawed;
    assert run[j + 1].pcs[t] == run[j].pcs[t];
    SameSize(run, j + 1, k);
    assert StepOf(run[k], At(run[k], t, Woken), t, true);
  }

  /** Two steps of its own, or one, take a start in through an open gate. */
  lemma OpenLetsIn(run: seq<State>, k: nat, t: nat)
    requires IsRun(run) && k < |run| && !run[k].frozen && t < |run[k].pcs|
    ensures run[k].pcs[t].Waiting? ==> exists u ::
      StepOf(run[k], u, t, true) && u.pcs[t].Woken? && u.frozen == run[k].frozen && |u.pcs| == |run[k].pcs|
    ensures run[k].pcs[t].Woken? || run[k].pcs[t].Idle? ==> exists u ::
      StepOf(run[k], u, t, true) && u.pcs[t].Started? && u.starting == run[k].starting + 1
  {
    hide IsRun;
    RunHolds(run, k);
    if run[k].pcs[t].Waiting? {
      assert StepOf(run[k], At(run[k], t, Woken), t, true);
    } else if run[k].pcs[t].Woken? || run[k].pcs[t].Idle? {
      assert StepOf(run[k], Enter(run[k], t), t, true);
    }
  }

  /** Through a closed gate no start is let in: it waits for the thaw that ends the freeze in force. */
  lemma ClosedKeepsOut(run: seq<State>, k: nat, t: nat, ok: bool)
    requires IsRun(run) && k + 1 < |run| && t < |run[k].pcs| && StepOf(run[k], run[k + 1], t, ok) && run[k].frozen
    requires run[k].pcs[t].Idle? || run[k].pcs[t].Woken? || run[k].pcs[t].Waiting?
    ensures !run[k + 1].pcs[t].Started? && run[k + 1].starting == run[k].starting
    ensures run[k].pcs[t].Woken? ==>
      run[k + 1].pcs[t].Waiting? && run[k + 1].pcs[t].thawed !in run[k + 1].closings
  {
    hide IsRun;
    RunHolds(run, k);
  }

  ghost predicate SomeCanLeave(s: State) {
    exists x: nat, u :: x < |s.pcs| && s.pcs[x].Started? && StepOf(s, u, x, true) && u.starting < s.starting
  }

  /**
   Whoever has the turn can go on, or waits for starts in flight, which can each leave; and when no one
   has it, anyone idle can take it, to freeze or to thaw.
   */
  lemma NeverStuck(run: seq<State>, k: nat, t: nat)
    requires IsRun(run) && k < |run| && t < |run[k].pcs|
    ensures run[k].turn == Some(t) ==> (exists u :: StepOf(run[k], u, t, true)) || SomeCanLeave(run[k])
    ensures run[k].turn.None? && run[k].pcs[t].Idle? ==>
      (exists u :: StepOf(run[k], u, t, true) && u.pcs[t].FreezeTurn? && u.turn == Some(t)) &&
      (exists u :: StepOf(run[k], u, t, true) && u.pcs[t].ThawTurn? && u.turn == Some(t))
  {
    hide IsRun;
    RunHolds(run, k);
    var s := run[k];
    if s.turn == Some(t) {
      match s.pcs[t] {
        case FreezeTurn => assert StepOf(s, Shutting(s, t), t, true);
        case ThawTurn => assert StepOf(s, Thaw(s, t, true), t, true);
        case Draining(closed) =>
          if s.starting == 0 {
            assert StepOf(s, Freeze(s, t, closed, true), t, true);
          } else {
            var x := SomeStarted(s.pcs);
            assert StepOf(s, Leave(s, x), x, true);
          }
        case _ => assert false;
      }
    } else if s.turn.None? && s.pcs[t].Idle? {
      assert StepOf(s, At(s, t, FreezeTurn).(turn := Some(t)), t, true);
      assert StepOf(s, At(s, t, ThawTurn).(turn := Some(t)), t, true);
    }
  }

  lemma {:induction false} SomeStarted(pcs: seq<Pc>) returns (x: nat)
    requires CountStarted(pcs) > 0
    ensures x < |pcs| && pcs[x].Started?
  {
    if pcs[|pcs| - 1].Started? { x := |pcs| - 1; } else { x := SomeStarted(pcs[..|pcs| - 1]); }
  }
}
