/**
 What holds each time round the search's loop, and how each of its branches keeps it.
 */
module Standing {
  import opened Seqs
  import opened History
  import opened Completion
  import opened CompletionTheory
  import opened Bitset
  import opened EntryList
  import opened Layout
  import opened Groups
  import opened Trail
  import opened ConfigCache
  import opened SearchTheory
  import opened Moves

  datatype Frame<S> = Frame(call: Entry, state: S)

  ghost predicate StackOf<S, I, O>(k: Task<S, I, O>, t: Trail<S>, stack: seq<Frame<S>>) {
    if t.Start? then stack == []
    else
      && |stack| > 0
      && t.op in k.calls
      && stack[|stack| - 1] == Frame(k.calls[t.op], t.prev.state)
      && StackOf(k, t.prev, stack[..|stack| - 1])
  }

  ghost predicate TrailSeen<S(!new)>(t: Trail<S>, seen: set<Config<S>>) {
    forall c :: OnTrail(t, c) ==> c in seen
  }

  /** The search stands at entry `pos` of the list at the end of trail `t`. */
  ghost predicate Stands<S(!new), I(!new), O(!new)>(k: Task<S, I, O>, d: int, t: Trail<S>, pos: nat,
      seen: set<Config<S>>)
    requires |k.after| == |k.ops|
  {
    && TrailOk(k, t)
    && 1 <= pos
    && (pos < |t.list| || |t.list| == 1)
    && Progress(k, Reach(d, seen), t, pos)
    && TrailProgress(k, Reach(d, seen), t)
    && SeenOk(k, Reach(d, seen), t, seen)
    && TrailSeen(t, seen)
    && seen <= Universe(k)
  }

  /** A call is not the last entry: its return comes after it. */
  lemma CallHasNext<S, I, O>(k: Task<S, I, O>, t: Trail<S>, pos: nat)
    requires WellTimed(k.ops) && |k.after| == |k.ops| && TrailOk(k, t)
    requires 1 <= pos < |t.list| && t.list[pos].call
    ensures 0 <= t.list[pos].op < |k.ops| && t.list[pos].op !in t.Done()
    ensures pos + 1 < |t.list|
  {
    assert IsNamed(k.calls, k.rets, t.list[pos]);
    var j := PositionOf(t.list, k.rets[t.list[pos].op]);
    CallBeforeReturn(k.ops, t.Done(), k.calls, k.rets, t.list, pos, j);
  }

  /** Passing by a call that is spent. */
  lemma PassBy<S(!new), I(!new), O(!new)>(k: Task<S, I, O>, d: int, t: Trail<S>, pos: nat, seen: set<Config<S>>)
    requires WellTimed(k.ops) && |k.after| == |k.ops| && Stands(k, d, t, pos, seen)
    requires pos < |t.list| && t.list[pos].call && t.list[pos].op >= 0 && Spent(k, Reach(d, seen), t, t.list[pos].op)
    ensures Stands(k, d, t, pos + 1, seen) && pos + 1 < |t.list|
  {
    CallHasNext(k, t, pos);
    ProgressNext(k, Reach(d, seen), t, pos);
  }

  /** A call the search reaches and none of its tests rejects is one to try. */
  lemma Reached<S(!new), I(!new), O(!new)>(k: Task<S, I, O>, d: int, t: Trail<S>, pos: nat, seen: set<Config<S>>,
      o: Opened)
    requires WellTimed(k.ops) && |k.after| == |k.ops| && Stands(k, d, t, pos, seen) && Tracks(k.ops, t.Done(), o)
    requires pos < |t.list| && t.list[pos].call
    ensures 0 <= t.list[pos].op < |k.ops| && t.list[pos].op !in t.Done()
    ensures Admissible(k.ops, t.Done(), t.list[pos].op) <==> o.open == 0 || k.ops[t.list[pos].op].Group() == o.open
  {
    CallHasNext(k, t, pos);
    TimelyCall(k, Reach(d, seen), t, pos);
  }

  /** Moving on to a configuration not visited before. */
  lemma Forward<S(!new), I(!new), O(!new)>(k: Task<S, I, O>, d: int, t: Trail<S>, pos: nat, seen: set<Config<S>>,
      t': Trail<S>)
    requires |k.after| == |k.ops| && Stands(k, d, t, pos, seen)
    requires pos < |t.list| && 0 <= t.list[pos].op < |k.ops| && Pushed(k, t, pos, t') && TrailOk(k, t')
    ensures Stands(k, d, t', 1, seen + {Config(t'.words, t'.state)})
    ensures Config(t'.words, t'.state) in Universe(k)
  {
    hide Universe, SeenOk, Progress, TrailOk, TrailProgress;
    var c := Config(t'.words, t'.state);
    var was, now := Reach(d, seen), Reach(d, seen + {c});
    TrailInUniverse(k, t');
    Longer(k, t');
    ProgressDeeper(k, was, now, t, pos);
    TrailDeeper(k, was, now, t);
    SeenDeeper(k, was, now, t, seen);
    SeenForward(k, now, t, seen, t');
    FirstPlace(k, now, t');
    PushedProgress(k, now, t, pos, t');
  }

  lemma PushedProgress<S(!new), I(!new), O(!new)>(k: Task<S, I, O>, d: Reach<S>, t: Trail<S>, pos: nat, t': Trail<S>)
    requires |k.after| == |k.ops| && Progress(k, d, t, pos) && TrailProgress(k, d, t)
    requires t'.Then? && t'.prev == t && t'.i == pos
    ensures TrailProgress(k, d, t')
  {
  }

  lemma Longer<S, I, O>(k: Task<S, I, O>, t: Trail<S>)
    requires |k.after| == |k.ops| && TrailOk(k, t)
    ensures |t.list| >= 1 && |k.ops| <= 64 * |t.words|
  {
  }

  lemma FirstPlace<S(!new), I(!new), O(!new)>(k: Task<S, I, O>, d: Reach<S>, t: Trail<S>)
    requires |k.after| == |k.ops| && |t.list| >= 1
    ensures Progress(k, d, t, 1)
  {
  }

  lemma SeenForward<S(!new), I(!new), O(!new)>(k: Task<S, I, O>, d: Reach<S>, t: Trail<S>, seen: set<Config<S>>,
      t': Trail<S>)
    requires |k.after| == |k.ops| && SeenOk(k, d, t, seen) && t'.Then? && t'.prev == t && |k.ops| <= 64 * |t'.words|
    ensures SeenOk(k, d, t', seen + {Config(t'.words, t'.state)})
  {
    hide Doomed;
    var seen' := seen + {Config(t'.words, t'.state)};
    forall c | c in seen'
      ensures |k.ops| <= 64 * |c.ops| && (OnTrail(t', c) || Doomed(k, d, Members(c.ops, |k.ops|), c.state))
    {
      if c in seen {
        assert OnTrail(t, c) ==> OnTrail(t', c);
      }
    }
  }

  /** Backing up from a configuration with nothing left to try. */
  lemma Back<S(!new), I(!new), O(!new)>(k: Task<S, I, O>, d: int, rank: seq<nat>, t: Trail<S>, pos: nat,
      seen: set<Config<S>>)
    requires TaskOk(k, rank) && Stands(k, d, t, pos, seen)
    requires pos < |t.list| && !t.list[pos].call && 0 <= t.list[pos].op < |k.ops| && !k.ops[t.list[pos].op].Pending()
    requires |t.Done()| <= d
    ensures Doomed(k, Reach(d, seen), t.Done(), t.state)
    ensures t.Then? ==> Stands(k, d, t.prev, t.i + 1, seen)
  {
    hide Doomed, Progress, SeenOk, Universe;
    assert OnTrail(t, Config(t.words, t.state));
    StuckDoomed(k, Reach(d, seen), rank, t, pos);
    if t.Then? {
      PopProgress(k, Reach(d, seen), t);
      PopSeen(k, Reach(d, seen), t, seen);
      PopSizes(k, t);
    }
  }

  lemma PopSizes<S, I, O>(k: Task<S, I, O>, t: Trail<S>)
    requires |k.after| == |k.ops| && TrailOk(k, t) && t.Then?
    ensures TrailOk(k, t.prev) && t.i + 1 < |t.prev.list|
  {
  }

  lemma StandsDeeper<S(!new), I(!new), O(!new)>(k: Task<S, I, O>, d: int, d': int, t: Trail<S>, pos: nat,
      seen: set<Config<S>>)
    requires |k.after| == |k.ops| && d <= d' && Stands(k, d, t, pos, seen)
    ensures Stands(k, d', t, pos, seen)
  {
    hide Progress, TrailProgress, SeenOk, TrailOk, Universe;
    ProgressDeeper(k, Reach(d, seen), Reach(d', seen), t, pos);
    TrailDeeper(k, Reach(d, seen), Reach(d', seen), t);
    SeenDeeper(k, Reach(d, seen), Reach(d', seen), t, seen);
  }

  /** Meeting the return of an unanswered operation: every answered one is linearized. */
  lemma Finished<S(!new), I(!new), O(!new)>(k: Task<S, I, O>, d: int, t: Trail<S>, pos: nat, seen: set<Config<S>>)
    requires |k.after| == |k.ops| && Stands(k, d, t, pos, seen)
    requires pos < |t.list| && !t.list[pos].call && 0 <= t.list[pos].op < |k.ops| && k.ops[t.list[pos].op].Pending()
    ensures IsLinearization(k.m, k.ops, t.Path()) && AllAnswered(k.ops, t.Done())
  {
    hide IsLinearization, Progress, SeenOk, Universe, TrailOk;
    FirstReturn(k, Reach(d, seen), t, pos);
    TrailLinearizes(k, t);
  }

  lemma Emptied<S(!new), I(!new), O(!new)>(k: Task<S, I, O>, t: Trail<S>)
    requires |k.after| == |k.ops| && TrailOk(k, t) && |t.list| == 1
    ensures IsLinearization(k.m, k.ops, t.Path()) && AllAnswered(k.ops, t.Done())
  {
    hide IsLinearization, TrailOk;
    EmptyListDone(k, t);
    TrailLinearizes(k, t);
  }

  // ----- What an illegal verdict reports

  /** `longest` is a legal beginning of the history that leaves `state`; of what it lacks, `stuck` returned first. */
  ghost predicate Explains<S, I, O>(m: Model<S, I, O>, ops: seq<Op<I, O>>, longest: seq<nat>, state: S, stuck: nat) {
    && InRange(|ops|, longest)
    && Stepwise(ops, longest)
    && Legal(m, ops, m.init, longest)
    && state == StateOf(m, ops, longest)
    && stuck < |ops| && stuck !in longest && !ops[stuck].Pending()
    && forall a: nat :: a < |ops| && a !in longest ==> ops[stuck].ret <= ops[a].ret
  }

  lemma {:induction false} TrailStepwise<S, I, O>(k: Task<S, I, O>, t: Trail<S>)
    requires |k.after| == |k.ops| && TrailOk(k, t)
    ensures Stepwise(k.ops, t.Path())
  {
    hide TrailOk, Admissible;
    if t.Then? {
      TrailStep(k, t);
      TrailStepwise(k, t.prev);
      DoneIsPath(t.prev);
      StepwiseOn(k.ops, t.prev.Path(), t.op);
    }
  }

  lemma StepwiseOn<I, O>(ops: seq<Op<I, O>>, p: seq<nat>, x: nat)
    requires Stepwise(ops, p) && Admissible(ops, Elements(p), x)
    ensures Stepwise(ops, p + [x])
  {
    hide Admissible;
    var q := p + [x];
    forall j | 0 <= j < |q| ensures Admissible(ops, Elements(q[..j]), q[j]) {
      if j < |p| {
        assert q[..j] == p[..j];
      } else {
        DropLast(p, x);
      }
    }
  }

  lemma {:induction false} TrailLegal<S, I, O>(k: Task<S, I, O>, t: Trail<S>, rest: seq<nat>)
    requires |k.after| == |k.ops| && TrailOk(k, t)
    requires InRange(|k.ops|, rest) && Legal(k.m, k.ops, t.state, rest)
    ensures InRange(|k.ops|, t.Path() + rest) && Legal(k.m, k.ops, k.m.init, t.Path() + rest)
  {
    hide TrailOk, Legal;
    if t.Start? {
      assert t.Path() + rest == rest;
      StartsInit(k, t);
    } else {
      TrailStep(k, t);
      LegalFirst(k.m, k.ops, t.prev.state, t.op, rest);
      TrailLegal(k, t.prev, [t.op] + rest);
      Regroup(t.prev.Path(), t.op, rest);
    }
  }

  lemma StartsInit<S, I, O>(k: Task<S, I, O>, t: Trail<S>)
    requires |k.after| == |k.ops| && TrailOk(k, t) && t.Start?
    ensures t.state == k.m.init
  {
  }

  lemma LegalFirst<S, I, O>(m: Model<S, I, O>, ops: seq<Op<I, O>>, s: S, x: nat, rest: seq<nat>)
    requires x < |ops| && InRange(|ops|, rest) && Step(m, ops, s, x).0 && Legal(m, ops, Step(m, ops, s, x).1, rest)
    ensures InRange(|ops|, [x] + rest) && Legal(m, ops, s, [x] + rest)
  {
    assert ([x] + rest)[1..] == rest;
  }

  lemma TrailExplains<S(!new), I(!new), O(!new)>(k: Task<S, I, O>, d: Reach<S>, t: Trail<S>, pos: nat)
    requires |k.after| == |k.ops| && TrailOk(k, t) && Progress(k, d, t, pos)
    requires 1 <= pos < |t.list| && !t.list[pos].call && 0 <= t.list[pos].op < |k.ops| &&
      !k.ops[t.list[pos].op].Pending()
    ensures Explains(k.m, k.ops, t.Path(), t.state, t.list[pos].op)
  {
    hide TrailOk, Progress, Stepwise, Laid;
    FirstReturn(k, d, t, pos);
    DoneIsPath(t);
    TrailStepwise(k, t);
    TrailFolds(k, t);
    NothingLegal(k, t.state);
    TrailLegal(k, t, []);
    assert t.Path() + [] == t.Path();
    LeftAtReturn(k, t, pos);
  }

  lemma NothingLegal<S, I, O>(k: Task<S, I, O>, s: S)
    ensures InRange(|k.ops|, []) && Legal(k.m, k.ops, s, [])
  {
  }

  lemma LeftAtReturn<S, I, O>(k: Task<S, I, O>, t: Trail<S>, pos: nat)
    requires |k.after| == |k.ops| && TrailOk(k, t) && 1 <= pos < |t.list| && 0 <= t.list[pos].op
    ensures t.list[pos].op !in t.Done()
  {
    ListedAreLeft(k, t, t.list[pos]);
  }

  /** The trail is an order the search tried, as long as its stack. */
  lemma TrailTried<S(!new), I(!new), O(!new)>(k: Task<S, I, O>, t: Trail<S>, stack: seq<Frame<S>>)
    requires |k.after| == |k.ops| && TrailOk(k, t) && StackOf(k, t, stack)
    ensures Tries(k.m, k.ops, k.after, {}, k.m.init, t.Path()) && |t.Done()| == |t.Path()| == |stack|
  {
    TrailTries(k, t, []);
    assert t.Path() + [] == t.Path();
    DoneSize(k, t);
    StackSize(k, t, stack);
  }

  lemma {:induction false} StackSize<S, I, O>(k: Task<S, I, O>, t: Trail<S>, stack: seq<Frame<S>>)
    requires StackOf(k, t, stack)
    ensures |t.Path()| == |stack|
  {
    if t.Then? {
      StackSize(k, t.prev, stack[..|stack| - 1]);
    }
  }

  function StackOps<S>(stack: seq<Frame<S>>): seq<int> {
    if stack == [] then [] else StackOps(stack[..|stack| - 1]) + [stack[|stack| - 1].call.op]
  }

  lemma {:induction false} StackOpsArePath<S, I, O>(k: Task<S, I, O>, t: Trail<S>, stack: seq<Frame<S>>)
    requires |k.after| == |k.ops| && TrailOk(k, t) && StackOf(k, t, stack)
    ensures StackOps(stack) == t.Path()
  {
    if t.Then? {
      StackOpsArePath(k, t.prev, stack[..|stack| - 1]);
    }
  }
}
