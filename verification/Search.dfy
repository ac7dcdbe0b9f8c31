/**
 The search itself (linearize/linearize.go, CheckWithin): Wing and Gong's algorithm with
 Lowe's memoization, the two prunings for unanswered operations, and atomic groups.
 */
module Search {
  import opened Options
  import opened Seqs
  import opened History
  import opened Completion
  import opened CompletionTheory
  import opened Bitset
  import opened EntryList
  import opened Layout
  import opened Groups
  import opened Trail
  import opened ConfigCache
  import opened Afters
  import opened SearchTheory
  import opened Moves
  import opened Standing
  import opened Explored

  datatype Outcome = Ok | Illegal | Unknown

  datatype Error = NoError | ErrBadOp | ErrLimit | ErrContext

  /** `state` and `stuck` are set for an illegal history; `stuck` for a bad operation too. */
  datatype Result<+S> = Result(outcome: Outcome, longest: seq<int>, state: Option<S>, stuck: int, explored: nat)

  /** What the search carries: its stack, the state and the bits at its top, and the group begun. */
  datatype Spot<S> = Spot(stack: seq<Frame<S>>, state: S, linearized: Words, group: Opened)

  /** How far the search got before it last backed up deepest. */
  datatype Best<+S> = Best(depth: int, longest: seq<int>, state: S, stuck: int)

  ghost predicate BestOk<S, I, O>(m: Model<S, I, O>, ops: seq<Op<I, O>>, after: seq<int>, best: Best<S>)
    requires |after| == |ops|
  {
    best.depth >= 0 ==>
      && best.stuck >= 0
      && (forall i :: 0 <= i < |best.longest| ==> best.longest[i] >= 0)
      && best.depth == |best.longest|
      && Tries(m, ops, after, {}, m.init, best.longest)
      && Explains(m, ops, best.longest, best.state, best.stuck)
  }

  /** A verdict that is right: of an illegal history only if `same` is sound. */
  ghost predicate Right<S(!new), I(!new), O(!new)>(m: Model<S, I, O>, ops: seq<Op<I, O>>, res: Result<S>) {
    match res.outcome
    case Ok => Linearizable(m, ops)
    case Illegal =>
      && (SameSound(m) ==> !Linearizable(m, ops))
      && res.state.Some? && res.stuck >= 0
      && (forall i :: 0 <= i < |res.longest| ==> res.longest[i] >= 0)
      && Explains(m, ops, res.longest, res.state.value, res.stuck)
      && exists after :: IsAfter(m, ops, after) && Longest(m, ops, after, res.longest)
    case Unknown => true
  }

  /**
   The configurations visited, as many as were counted: each one that some order the search tries
   leads to, the start among them; in an illegal history all there are, and in a linearizable one
   some that every answered operation is linearized in.
   */
  ghost predicate Counted<S(!new), I(!new), O(!new)>(m: Model<S, I, O>, ops: seq<Op<I, O>>, after: seq<int>,
      res: Result<S>, visited: set<Visit<S>>)
  {
    && IsAfter(m, ops, after) && |after| == |ops|
    && |visited| == res.explored && Visit({}, m.init) in visited
    && (forall v :: v in visited ==> Reaches(m, ops, after, v))
    && (res.outcome.Illegal? ==> forall v :: Reaches(m, ops, after, v) ==> v in visited)
    && (res.outcome.Ok? ==> exists v :: v in visited && AllAnswered(ops, v.done))
  }

  ghost predicate Counts<S(!new), I(!new), O(!new)>(m: Model<S, I, O>, ops: seq<Op<I, O>>, res: Result<S>) {
    exists after: seq<int>, visited: set<Visit<S>> :: Counted(m, ops, after, res, visited)
  }

  /** The search tries to get to more than `n` configurations. */
  ghost predicate MoreThan<S(!new), I(!new), O(!new)>(m: Model<S, I, O>, ops: seq<Op<I, O>>, n: nat) {
    exists after: seq<int>, visited: set<Visit<S>> ::
      IsAfter(m, ops, after) && |after| == |ops| && |visited| > n &&
      forall v :: v in visited ==> Reaches(m, ops, after, v)
  }

  /** It tries to get to just so many. */
  ghost predicate JustSoMany<S(!new), I(!new), O(!new)>(m: Model<S, I, O>, ops: seq<Op<I, O>>, n: nat) {
    exists after: seq<int>, visited: set<Visit<S>> ::
      IsAfter(m, ops, after) && |after| == |ops| && |visited| == n &&
      forall v :: v in visited <==> Reaches(m, ops, after, v)
  }

  lemma CountsMean<S(!new), I(!new), O(!new)>(m: Model<S, I, O>, ops: seq<Op<I, O>>, res: Result<S>, n: nat)
    requires Counts(m, ops, res)
    ensures res.explored > n ==> MoreThan(m, ops, n)
    ensures res.outcome.Illegal? ==> JustSoMany(m, ops, res.explored)
  {
    hide IsAfter, Reaches;
    var after: seq<int>, visited: set<Visit<S>> :| Counted(m, ops, after, res, visited);
  }

  lemma DoomedStart<S(!new), I(!new), O(!new)>(k: Task<S, I, O>, d: Reach<S>, t: Trail<S>)
    requires |k.after| == |k.ops| && WellTimed(k.ops) && TrailOk(k, t) && t.Start?
    requires Doomed(k, d, t.Done(), t.state)
    ensures SameSound(k.m) ==> !Linearizable(k.m, k.ops)
    ensures Shallow(k.m, k.ops, k.after, {}, k.m.init, d.depth) && Covered(k, d.seen, {}, k.m.init)
  {
    DeadStart(k.m, k.ops);
  }

  lemma HasIsDone<S, I, O>(k: Task<S, I, O>, t: Trail<S>, i: nat)
    requires LevelOk(k, t) && i < |k.ops|
    ensures Has(t.words, i) <==> i in t.Done()
  {
    assert i in Members(t.words, |k.ops|) <==> i in t.Done();
  }

  /** The search's variables are those of a trail and a place in its list. */
  ghost predicate Ready<S(!new), I(!new), O(!new)>(k: Task<S, I, O>, d: int, rank: seq<nat>, size: map<int64, int>,
      t: Trail<S>, pos: nat, spot: Spot<S>, seen: set<Config<S>>)
  {
    && TaskOk(k, rank)
    && Sizes(k.ops, size)
    && Stands(k, d, t, pos, seen)
    && StackOf(k, t, spot.stack)
    && spot.state == t.state
    && spot.linearized == t.words
    && Tracks(k.ops, t.Done(), spot.group)
  }

  /**
   The tests that pass a call by: it is not of the group that is open; its last twin is not
   linearized; it is illegal here; or it is unanswered and would change nothing.
   */
  predicate Skips<S(==), I, O>(m: Model<S, I, O>, ops: seq<Op<I, O>>, after: seq<int>, spot: Spot<S>, x: nat)
    requires x < |ops| == |after| <= 64 * |spot.linearized| && after[x] < |ops|
  {
    var op := ops[x];
    || (spot.group.open != 0 && op.Group() != spot.group.open)
    || (after[x] >= 0 && !Has(spot.linearized, after[x]))
    || (var (ok, next) := m.step(spot.state, op.input, op.output);
        !ok || (op.Pending() && next == spot.state))
  }

  /** The search passes by exactly the calls it should not try. */
  lemma SkipsUntried<S(!new), I(!new), O(!new)>(k: Task<S, I, O>, d: int, rank: seq<nat>, size: map<int64, int>,
      t: Trail<S>, pos: nat, spot: Spot<S>, seen: set<Config<S>>)
    requires Ready(k, d, rank, size, t, pos, spot, seen)
    requires pos < |t.list| && t.list[pos].call
    ensures 0 <= t.list[pos].op < |k.ops| && |k.ops| <= 64 * |spot.linearized|
    ensures Skips(k.m, k.ops, k.after, spot, t.list[pos].op) <==>
      !Tried(k.m, k.ops, k.after, t.Done(), t.state, t.list[pos].op)
  {
    Reached(k, d, t, pos, seen, spot.group);
    var x := t.list[pos].op;
    if k.after[x] >= 0 {
      HasIsDone(k, t, k.after[x]);
    }
  }

  lemma ReadyPassBy<S(!new), I(!new), O(!new)>(k: Task<S, I, O>, d: int, rank: seq<nat>, size: map<int64, int>,
      t: Trail<S>, pos: nat, spot: Spot<S>, seen: set<Config<S>>)
    requires Ready(k, d, rank, size, t, pos, spot, seen)
    requires pos < |t.list| && t.list[pos].call && t.list[pos].op >= 0 && Spent(k, Reach(d, seen), t, t.list[pos].op)
    ensures Ready(k, d, rank, size, t, pos + 1, spot, seen) && pos + 1 < |t.list|
  {
    PassBy(k, d, t, pos, seen);
  }

  lemma ReadyForward<S(!new), I(!new), O(!new)>(k: Task<S, I, O>, d: int, rank: seq<nat>, size: map<int64, int>,
      t: Trail<S>, pos: nat, spot: Spot<S>, seen: set<Config<S>>)
      returns (t': Trail<S>)
    requires Ready(k, d, rank, size, t, pos, spot, seen)
    requires pos < |t.list| && t.list[pos].call && 0 <= t.list[pos].op < |k.ops|
    requires Tried(k.m, k.ops, k.after, t.Done(), t.state, t.list[pos].op)
    ensures Pushed(k, t, pos, t') && t.list[pos].op in k.calls && t.list[pos].op in k.rets
    ensures t'.Then? && t'.op == t.list[pos].op && t'.j < |t.list| && t'.op / 64 < |t.words| && |t'.list| > 0 &&
      t'.list[0] == k.head
    ensures t'.state == Step(k.m, k.ops, t.state, t'.op).1 && t'.words == Set(t.words, t'.op)
    ensures t.list[pos] == k.calls[t'.op] && t.list[t'.j] == k.rets[t'.op] && Apart(k, t)
    ensures Config(t'.words, t'.state) in Universe(k)
    ensures Ready(k, d, rank, size, t', 1,
                  Spot(spot.stack + [Frame(t.list[pos], spot.state)], t'.state, t'.words,
                    Enter(size, spot.group, k.ops[t'.op].Group())),
                  seen + {Config(t'.words, t'.state)})
  {
    t' := PushTarget(k, t, pos);
    Forward(k, d, t, pos, seen, t');
    TrailApart(k, t);
    Reached(k, d, t, pos, seen, spot.group);
    EnterTracks(k.ops, size, t.Done(), spot.group, t'.op);
    DropLast(spot.stack, Frame(t.list[pos], spot.state));
  }

  /** Passing by a call that leads where the search has been. */
  lemma ReadyCached<S(!new), I(!new), O(!new)>(k: Task<S, I, O>, d: int, rank: seq<nat>, size: map<int64, int>,
      t: Trail<S>, pos: nat, spot: Spot<S>, seen: set<Config<S>>)
    requires Ready(k, d, rank, size, t, pos, spot, seen)
    requires pos < |t.list| && t.list[pos].call && 0 <= t.list[pos].op < |k.ops|
    requires Tried(k.m, k.ops, k.after, t.Done(), t.state, t.list[pos].op)
    requires Config(Set(spot.linearized, t.list[pos].op), Step(k.m, k.ops, spot.state, t.list[pos].op).1) in seen
    ensures Clear(Set(spot.linearized, t.list[pos].op), t.list[pos].op) == spot.linearized
    ensures Ready(k, d, rank, size, t, pos + 1, spot, seen) && pos + 1 < |t.list|
  {
    var x := t.list[pos].op;
    CachedDoomed(k, Reach(d, seen), t, seen, x, Step(k.m, k.ops, t.state, x).1);
    HasIsDone(k, t, x);
    ClearUndoesSet(t.words, x);
    ReadyPassBy(k, d, rank, size, t, pos, spot, seen);
  }

  lemma ReadyBack<S(!new), I(!new), O(!new)>(k: Task<S, I, O>, d: int, rank: seq<nat>, size: map<int64, int>,
      t: Trail<S>, pos: nat, spot: Spot<S>, seen: set<Config<S>>)
    requires Ready(k, d, rank, size, t, pos, spot, seen)
    requires pos < |t.list| && !t.list[pos].call && 0 <= t.list[pos].op < |k.ops| && !k.ops[t.list[pos].op].Pending()
    requires |spot.stack| <= d
    ensures Doomed(k, Reach(d, seen), t.Done(), t.state)
    ensures t.Start? <==> spot.stack == []
    ensures t.Then? ==>
      && t.op < |k.ops| && t.op / 64 < |spot.linearized|
      && spot.stack[|spot.stack| - 1] == Frame(k.calls[t.op], t.prev.state)
      && Ready(k, d, rank, size, t.prev, t.i + 1, Retreat(k, size, spot, t.op), seen)
  {
    TrailTried(k, t, spot.stack);
    Back(k, d, rank, t, pos, seen);
    if t.Then? {
      HasIsDone(k, t.prev, t.op);
      ClearUndoesSet(t.prev.words, t.op);
      LeaveTracks(k.ops, size, t.prev.Done(), spot.group, t.op);
    }
  }

  ghost function Retreat<S, I, O>(k: Task<S, I, O>, size: map<int64, int>, spot: Spot<S>, x: nat): Spot<S>
    requires spot.stack != [] && x < |k.ops| && x / 64 < |spot.linearized|
  {
    Spot(spot.stack[..|spot.stack| - 1], spot.stack[|spot.stack| - 1].state,
         Clear(spot.linearized, x), Leave(size, spot.group, k.ops[x].Group()))
  }

  lemma ReadyPop<S(!new), I(!new), O(!new)>(k: Task<S, I, O>, t: Trail<S>)
    requires |k.after| == |k.ops| && TrailOk(k, t) && t.Then?
    ensures Apart(k, t.prev) && Distinct(t.prev.list)
    ensures 0 < t.i < t.j < |t.prev.list| && t.list == Without(t.prev.list, t.i, t.j)
    ensures t.op < |k.ops| && t.op in k.calls && t.op in k.rets
    ensures k.calls[t.op] == t.prev.list[t.i] && t.prev.list[t.j] == k.rets[t.op]
  {
    TrailApart(k, t.prev);
  }

  method Prepare<S(!new), I(!new), O(!new)>(m: Model<S, I, O>, ops: seq<Op<I, O>>)
      returns (head: Entry, after: seq<int>, ghost k: Task<S, I, O>, ghost rank: seq<nat>, ghost list: seq<Entry>)
    requires WellTimed(ops)
    ensures k.m == m && k.ops == ops && k.head == head && k.after == after && fresh(k.Entries())
    ensures TaskOk(k, rank) && Laid(ops, {}, k.calls, k.rets, list) && list[0] == head
    ensures Linked(list) && Mated(|ops|, k.calls, k.rets) && IsAfter(m, ops, after)
  {
    hide Laid, Linked, Mated, IsAfter, SameSound, AfterOk;
    ghost var calls, rets;
    head, list, calls, rets := Link(ops);
    after, rank := After(m, ops);
    k := Task(m, ops, after, head, calls, rets);
    AllListed(k, list);
    AfterSized(m, ops, after);
  }

  lemma AllListed<S, I, O>(k: Task<S, I, O>, list: seq<Entry>)
    requires |list| > 0 && list[0] == k.head
    requires forall i :: (i in k.calls ==> k.calls[i] in list) && (i in k.rets ==> k.rets[i] in list)
    ensures k.Entries() <= set x | x in list
  {
  }

  lemma AfterSized<S, I, O>(m: Model<S, I, O>, ops: seq<Op<I, O>>, after: seq<int>)
    requires IsAfter(m, ops, after)
    ensures |after| == |ops|
  {
  }

  lemma FirstConfig<S>(hash: Words -> int, c: Config<S>)
    ensures Add(Cache(hash, map[], 0), c).1.Holds({c})
  {
    Added(Cache(hash, map[], 0), c, {});
    assert {} + {c} == {c};
  }

  lemma StartReady<S(!new), I(!new), O(!new)>(k: Task<S, I, O>, d: int, rank: seq<nat>, size: map<int64, int>,
      t: Trail<S>, spot: Spot<S>, seen: set<Config<S>>)
    requires TaskOk(k, rank) && Sizes(k.ops, size)
    requires t == Start(k.m.init, New(|k.ops|), t.list) && Laid(k.ops, {}, k.calls, k.rets, t.list) &&
      t.list[0] == k.head
    requires spot == Spot([], k.m.init, New(|k.ops|), Opened(0, 0)) && seen == {Config(t.words, t.state)}
    ensures Ready(k, d, rank, size, t, 1, spot, seen)
  {
    NewIsEmpty(|k.ops|);
    TrailInUniverse(k, t);
  }

  /** The search's whole state: its variables, what it has seen, and the list as it stands. */
  ghost predicate Going<S(!new), I(!new), O(!new)>(k: Task<S, I, O>, d: int, rank: seq<nat>, size: map<int64, int>,
      t: Trail<S>, pos: nat,
      spot: Spot<S>, seen: set<Config<S>>, cache: Cache<S>, e: Entry?)
    reads k.Entries(), t.Places().Keys, set e | e in t.list
  {
    Ready(k, d, rank, size, t, pos, spot, seen) && InPlace(k, t) && cache.Holds(seen) && e == At(t.list, pos)
  }

  method Begin<S(==, !new), I(!new), O(!new)>(m: Model<S, I, O>, ops: seq<Op<I, O>>, hash: Words -> int)
      returns (head: Entry, after: seq<int>, size: map<int64, int>, spot: Spot<S>, cache: Cache<S>, e: Entry?,
        ghost k: Task<S, I, O>, ghost rank: seq<nat>, ghost t: Trail<S>, ghost seen: set<Config<S>>)
    requires WellTimed(ops)
    ensures k.m == m && k.ops == ops && k.head == head && k.after == after && fresh(k.Entries())
    ensures Going(k, -1, rank, size, t, 1, spot, seen, cache, e) && IsAfter(m, ops, after)
    ensures seen == {Config(t.words, t.state)}
  {
    hide IsAfter, Ready, Add, TaskOk, Sizes, Laid, Cache.Holds;
    ghost var list;
    head, after, k, rank, list := Prepare(m, ops);
    size := GroupSizes(ops);
    spot := Spot([], m.init, New(|ops|), Opened(0, 0));
    t := Start(m.init, New(|ops|), list);
    seen := {Config(New(|ops|), m.init)};
    cache := Add(Cache(hash, map[], 0), Config(spot.linearized, spot.state)).1;
    FirstConfig(hash, Config(spot.linearized, spot.state));
    StartReady(k, -1, rank, size, t, spot, seen);
    e := head.next;
  }

  /** The search is not done, and stands at a call or a return of an operation left. */
  lemma AtEntry<S(!new), I(!new), O(!new)>(k: Task<S, I, O>, d: int, rank: seq<nat>, size: map<int64, int>,
      t: Trail<S>, pos: nat,
      spot: Spot<S>, seen: set<Config<S>>, cache: Cache<S>, e: Entry?)
    requires Going(k, d, rank, size, t, pos, spot, seen, cache, e)
    ensures k.head.next == null <==> |t.list| == 1
    ensures k.head.next == At(t.list, 1)
    ensures |t.list| > 1 ==> e != null && pos < |t.list| && t.list[pos] == e && 0 <= e.op < |k.ops|
    ensures spot.state == t.state && spot.linearized == t.words
    ensures |k.after| == |k.ops| <= 64 * |spot.linearized| && forall i :: 0 <= i < |k.after| ==> k.after[i] < |k.ops|
  {
  }

  lemma AtHead<S(!new), I(!new), O(!new)>(k: Task<S, I, O>, t: Trail<S>)
    requires InPlace(k, t) && |t.list| > 0 && t.list[0] == k.head
    ensures k.head.next == At(t.list, 1)
  {
  }

  lemma AfterEntry<S(!new), I(!new), O(!new)>(k: Task<S, I, O>, t: Trail<S>, pos: nat, e: Entry)
    requires InPlace(k, t) && pos + 1 < |t.list| && t.list[pos] == e
    ensures e.next == t.list[pos + 1]
  {
  }

  /** What is left to visit, then to undo, then to look at. */
  ghost predicate Closer<S>(universe: set<Config<S>>, seen: set<Config<S>>, depth: nat, left: int,
      seen': set<Config<S>>, depth': nat, left': int)
  {
    || |universe - seen'| < |universe - seen|
    || (seen' == seen && depth' < depth)
    || (seen' == seen && depth' == depth && 0 <= left' < left)
  }

  lemma NewIsCloser<S>(universe: set<Config<S>>, seen: set<Config<S>>, c: Config<S>)
    requires c in universe && c !in seen
    ensures |universe - (seen + {c})| < |universe - seen|
  {
    assert universe - (seen + {c}) == universe - seen - {c};
  }

  /** Linearizes the call at `e`, to a configuration not visited before. */
  method Descend<S(==, !new), I(!new), O(!new)>(size: map<int64, int>, head: Entry,
      spot: Spot<S>, next: S, linearized: Words, cache: Cache<S>, e: Entry, g: int64,
      ghost k: Task<S, I, O>, ghost d: int, ghost rank: seq<nat>, ghost t: Trail<S>, ghost pos: nat,
        ghost seen: set<Config<S>>)
      returns (spot': Spot<S>, e': Entry?, ghost t': Trail<S>)
    requires k.head == head
    requires Ready(k, d, rank, size, t, pos, spot, seen) && InPlace(k, t)
    requires pos < |t.list| && t.list[pos] == e && e.call && 0 <= e.op < |k.ops| && g == k.ops[e.op].Group()
    requires |k.after| == |k.ops| && Tried(k.m, k.ops, k.after, t.Done(), t.state, e.op)
    requires e.op / 64 < |t.words| && next == Step(k.m, k.ops, t.state, e.op).1 && linearized == Set(t.words, e.op)
    requires cache.Holds(seen + {Config(linearized, next)})
    modifies k.Entries()`prev, k.Entries()`next
    ensures Config(linearized, next) in Universe(k) && spot'.linearized == linearized && spot'.state == next
    ensures Going(k, d, rank, size, t', 1, spot', seen + {Config(linearized, next)}, cache, e')
  {
    hide Ready, Cache.Holds, Tried, Universe, Set, Pushed, Laid, Trail.Places;
    t' := ReadyForward(k, d, rank, size, t, pos, spot, seen);
    spot' := Spot(spot.stack + [Frame(e, spot.state)], next, linearized, Enter(size, spot.group, g));
    Push(k, t, pos, e, t');
    AtHead(k, t');
    e' := head.next;
  }

  /** At a call: pass it by, or linearize it. */
  method AtCall<S(==, !new), I(!new), O(!new)>(m: Model<S, I, O>, ops: seq<Op<I, O>>, after: seq<int>,
      size: map<int64, int>, head: Entry,
      spot: Spot<S>, cache: Cache<S>, e: Entry,
      ghost k: Task<S, I, O>, ghost d: int, ghost rank: seq<nat>, ghost t: Trail<S>, ghost pos: nat,
        ghost seen: set<Config<S>>)
      returns (spot': Spot<S>, cache': Cache<S>, e': Entry?, ghost t': Trail<S>, ghost pos': nat,
        ghost seen': set<Config<S>>)
    requires k.m == m && k.ops == ops && k.head == head && k.after == after
    requires Going(k, d, rank, size, t, pos, spot, seen, cache, e)
    requires pos < |t.list| && e.call
    modifies k.Entries()`prev, k.Entries()`next
    ensures Going(k, d, rank, size, t', pos', spot', seen', cache', e')
    ensures Closer(Universe(k), seen, |spot.stack|, |t.list| - pos, seen', |spot'.stack|, |t'.list| - pos')
    ensures seen' == seen || seen' == seen + {Config(spot'.linearized, spot'.state)}
  {
    hide Ready, Add, Cache.Holds, Tried, Universe, Set, Clear, Pushed, Laid, Trail.Places, Skips, Spent, Linked, Mated;
    assert t.list[pos] == e;
    SkipsUntried(k, d, rank, size, t, pos, spot, seen);
    AtEntry(k, d, rank, size, t, pos, spot, seen, cache, e);
    spot', cache', t', pos', seen' := spot, cache, t, pos + 1, seen;
    var x := e.op as nat;
    if Skips(m, ops, after, spot, x) {
      ReadyPassBy(k, d, rank, size, t, pos, spot, seen);
      AfterEntry(k, t, pos, e);
      e' := e.next;
      return;
    }
    var next := m.step(spot.state, ops[x].input, ops[x].output).1;
    var linearized := Set(spot.linearized, x);
    var added := Add(cache, Config(linearized, next));
    Added(cache, Config(linearized, next), seen);
    cache' := added.1;
    seen' := seen + {Config(linearized, next)};
    if added.0 {
      spot', e', t' := Descend(size, head, spot, next, linearized, cache', e, ops[x].Group(), k, d, rank, t, pos, seen);
      pos' := 1;
      NewIsCloser(Universe(k), seen, Config(linearized, next));
    } else {
      assert seen' == seen;
      ReadyCached(k, d, rank, size, t, pos, spot, seen);
      spot' := spot.(linearized := Clear(linearized, x));
      AfterEntry(k, t, pos, e);
      e' := e.next;
    }
  }

  /** At the return of an answered operation: back up to the last call linearized, and go on past it. */
  method Ascend<S(==, !new), I(!new), O(!new)>(ops: seq<Op<I, O>>, size: map<int64, int>, spot: Spot<S>,
      cache: Cache<S>, e: Entry,
      ghost k: Task<S, I, O>, ghost d: int, ghost rank: seq<nat>, ghost t: Trail<S>, ghost pos: nat,
        ghost seen: set<Config<S>>)
      returns (spot': Spot<S>, e': Entry?)
    requires k.ops == ops && t.Then?
    requires Going(k, d, rank, size, t, pos, spot, seen, cache, e)
    requires pos < |t.list| && !e.call && 0 <= e.op < |ops| && !ops[e.op].Pending() && |spot.stack| <= d
    modifies k.Entries()`prev, k.Entries()`next
    ensures Going(k, d, rank, size, t.prev, t.i + 1, spot', seen, cache, e')
    ensures |spot'.stack| < |spot.stack|
  {
    hide Ready, Cache.Holds, Clear, Leave;
    assert t.list[pos] == e;
    ReadyBack(k, d, rank, size, t, pos, spot, seen);
    ReadyEnd(k, d, rank, size, t, pos, spot, seen);
    var f := spot.stack[|spot.stack| - 1];
    spot' := Spot(spot.stack[..|spot.stack| - 1], f.state, Clear(spot.linearized, f.call.op),
      Leave(size, spot.group, ops[f.call.op].Group()));
    Pop(k, t, f.call);
    e' := f.call.next;
  }

  lemma ReadyEnd<S(!new), I(!new), O(!new)>(k: Task<S, I, O>, d: int, rank: seq<nat>, size: map<int64, int>,
      t: Trail<S>, pos: nat, spot: Spot<S>, seen: set<Config<S>>)
    requires Ready(k, d, rank, size, t, pos, spot, seen) && t.Then?
    ensures Apart(k, t.prev) && Distinct(t.prev.list)
    ensures 0 < t.i < t.j < |t.prev.list| && t.list == Without(t.prev.list, t.i, t.j)
    ensures t.op < |k.ops| && t.op in k.calls && t.op in k.rets
    ensures k.calls[t.op] == t.prev.list[t.i] && t.prev.list[t.j] == k.rets[t.op] && k.calls[t.op].op == t.op
  {
    ReadyPop(k, t);
  }

  /** Remembers how far this branch got, if further than any before. */
  function Deeper<S>(spot: Spot<S>, e: Entry, best: Best<S>): Best<S> {
    if |spot.stack| > best.depth then Best(|spot.stack|, StackOps(spot.stack), spot.state, e.op) else best
  }

  lemma DeeperOk<S(!new), I(!new), O(!new)>(spot: Spot<S>, e: Entry, best: Best<S>, k: Task<S, I, O>, rank: seq<nat>,
      size: map<int64, int>,
      t: Trail<S>, pos: nat, seen: set<Config<S>>)
    requires Ready(k, best.depth, rank, size, t, pos, spot, seen) && |k.after| == |k.ops| &&
      BestOk(k.m, k.ops, k.after, best)
    requires pos < |t.list| && t.list[pos] == e && !e.call && 0 <= e.op < |k.ops| && !k.ops[e.op].Pending()
    ensures BestOk(k.m, k.ops, k.after, Deeper(spot, e, best)) && Deeper(spot, e, best).depth >= |spot.stack|
    ensures Deeper(spot, e, best).depth >= best.depth
  {
    hide Tries, Explains, TaskOk, Sizes, Tracks;
    if |spot.stack| > best.depth {
      StackOpsArePath(k, t, spot.stack);
      TrailTried(k, t, spot.stack);
      TrailExplains(k, Reach(best.depth, seen), t, pos);
    }
  }

  lemma GoingDeeper<S(!new), I(!new), O(!new)>(k: Task<S, I, O>, d: int, d': int, rank: seq<nat>,
      size: map<int64, int>, t: Trail<S>, pos: nat,
      spot: Spot<S>, seen: set<Config<S>>, cache: Cache<S>, e: Entry?)
    requires Going(k, d, rank, size, t, pos, spot, seen, cache, e) && d <= d'
    ensures Going(k, d', rank, size, t, pos, spot, seen, cache, e)
  {
    hide Stands, Sizes, StackOf, Tracks, InPlace, Cache.Holds;
    StandsDeeper(k, d, d', t, pos, seen);
  }

  /** At the return of an answered operation: the depth reached is noted, and the search goes back, or ends. */
  method AtReturn<S(==, !new), I(!new), O(!new)>(m: Model<S, I, O>, ops: seq<Op<I, O>>, ghost after: seq<int>,
      size: map<int64, int>, spot: Spot<S>, cache: Cache<S>, e: Entry, best: Best<S>,
      ghost k: Task<S, I, O>, ghost rank: seq<nat>, ghost t: Trail<S>, ghost pos: nat, ghost seen: set<Config<S>>)
      returns (best': Best<S>, stop: bool, spot': Spot<S>, e': Entry?, ghost t': Trail<S>, ghost pos': nat)
    requires k.m == m && k.ops == ops && k.after == after && IsAfter(m, ops, after) && |after| == |ops|
    requires Going(k, best.depth, rank, size, t, pos, spot, seen, cache, e) && BestOk(m, ops, after, best)
    requires AllReached(k, seen)
    requires pos < |t.list| && !e.call && 0 <= e.op < |ops| && !ops[e.op].Pending()
    modifies k.Entries()`prev, k.Entries()`next
    ensures var res := Result(Illegal, best'.longest, Some(best'.state), best'.stuck, cache.size);
      stop ==> Right(m, ops, res) && Counts(m, ops, res)
    ensures !stop ==> |spot'.stack| < |spot.stack|
    ensures !stop ==> Going(k, best'.depth, rank, size, t', pos', spot', seen, cache, e')
    ensures !stop ==> BestOk(m, ops, after, best')
  {
    hide Going, BestOk, Deeper, Right, IsAfter, Counts, AllReached;
    spot', e', t', pos', stop := spot, e, t, pos, |spot.stack| == 0;
    GoingReady(k, best.depth, rank, size, t, pos, spot, seen, cache, e);
    DeeperOk(spot, e, best, k, rank, size, t, pos, seen);
    best' := Deeper(spot, e, best);
    GoingDeeper(k, best.depth, best'.depth, rank, size, t, pos, spot, seen, cache, e);
    if stop {
      GoingDoomed(k, best'.depth, rank, size, t, pos, spot, seen, cache, e);
      IllegalRight(m, ops, after, best', cache.size);
      IllegalCounts(k, best', rank, size, t, pos, spot, seen, cache, e);
    } else {
      spot', e' := Ascend(ops, size, spot, cache, e, k, best'.depth, rank, t, pos, seen);
      t', pos' := t.prev, t.i + 1;
    }
  }

  /** Searches a history whose operations all return at or after their calls. */
  method Explore<S(==, !new), I(!new), O(!new)>(m: Model<S, I, O>, ops: seq<Op<I, O>>, hash: Words -> int,
      limit: nat, ctx: nat -> bool)
      returns (res: Result<S>, err: Error)
    requires WellTimed(ops)
    ensures Right(m, ops, res) && Counts(m, ops, res)
    ensures err != ErrBadOp && (res.outcome == Unknown <==> err != NoError)
    ensures err == ErrLimit ==> 0 < limit < res.explored
    ensures limit > 0 ==> res.explored <= limit + 1
    ensures err == ErrContext ==> exists n :: n > 0 && n % 0x1000 == 0 && ctx(n)
  {
    hide Going, Universe, BestOk, Deeper, Right, Linearizable, IsAfter, WellTimed, Counts, AllReached;
    UndecidedRight(m, ops);
    ghost var k, rank, t, seen;
    var head, after, size, spot, cache, e;
    head, after, size, spot, cache, e, k, rank, t, seen := Begin(m, ops, hash);
    var best := Best(-1, [], m.init, -1);
    var steps := 0;
    ghost var pos: nat := 1;
    AtEntry(k, -1, rank, size, t, pos, spot, seen, cache, e);
    NoBest(m, ops, after, best);
    StartReached(k, -1, rank, size, t, pos, spot, seen, cache, e);
    while head.next != null
      invariant Going(k, best.depth, rank, size, t, pos, spot, seen, cache, e)
      invariant BestOk(m, ops, after, best)
      invariant AllReached(k, seen) && (limit > 0 ==> cache.size <= limit + 1)
      invariant head.next == null <==> |t.list| == 1
      decreases |Universe(k) - seen|, |spot.stack|, |t.list| - pos
    {
      steps := steps + 1;
      StillCounts(k, best.depth, rank, size, t, pos, spot, seen, cache, e);
      if steps % 0x1000 == 0 && ctx(steps) {
        return Result(Unknown, [], None, 0, cache.size), ErrContext;
      }
      if limit > 0 && cache.size > limit {
        return Result(Unknown, [], None, 0, cache.size), ErrLimit;
      }
      AtEntry(k, best.depth, rank, size, t, pos, spot, seen, cache, e);
      if e.call {
        ghost var was := seen;
        spot, cache, e, t, pos, seen := AtCall(m, ops, after, size, head, spot, cache, e, k, best.depth, rank, t,
          pos, seen);
        ReachedOn(k, best.depth, rank, size, t, pos, spot, was, seen, cache, e);
      } else if ops[e.op].Pending() {
        GoingFinished(k, best.depth, rank, size, t, pos, spot, seen, cache, e);
        OkCounts(k, best.depth, rank, size, t, pos, spot, seen, cache, e);
        OkRight(m, ops, cache.size);
        return Result(Ok, [], None, 0, cache.size), NoError;
      } else {
        var stop;
        best, stop, spot, e, t, pos := AtReturn(m, ops, after, size, spot, cache, e, best, k, rank, t, pos, seen);
        if stop {
          return Result(Illegal, best.longest, Some(best.state), best.stuck, cache.size), NoError;
        }
      }
      AtEntry(k, best.depth, rank, size, t, pos, spot, seen, cache, e);
    }
    GoingEmptied(k, best.depth, rank, size, t, pos, spot, seen, cache, e);
    OkCounts(k, best.depth, rank, size, t, pos, spot, seen, cache, e);
    OkRight(m, ops, cache.size);
    res, err := Result(Ok, [], None, 0, cache.size), NoError;
  }

  lemma OkRight<S(!new), I(!new), O(!new)>(m: Model<S, I, O>, ops: seq<Op<I, O>>, explored: nat)
    requires Linearizable(m, ops)
    ensures Right(m, ops, Result(Ok, [], None, 0, explored))
  {
  }

  lemma UndecidedRight<S(!new), I(!new), O(!new)>(m: Model<S, I, O>, ops: seq<Op<I, O>>)
    ensures forall explored :: Right(m, ops, Result(Unknown, [], None, 0, explored))
  {
  }

  lemma IllegalRight<S(!new), I(!new), O(!new)>(m: Model<S, I, O>, ops: seq<Op<I, O>>, after: seq<int>,
      best: Best<S>, explored: nat)
    requires IsAfter(m, ops, after) && BestOk(m, ops, after, best) && best.depth >= 0
    requires SameSound(m) ==> !Linearizable(m, ops)
    requires Shallow(m, ops, after, {}, m.init, best.depth)
    ensures Right(m, ops, Result(Illegal, best.longest, Some(best.state), best.stuck, explored))
  {
    hide Explains, Linearizable, SameSound, Tries;
    assert |after| == |ops|;
    assert Longest(m, ops, after, best.longest);
  }

  lemma NoBest<S, I, O>(m: Model<S, I, O>, ops: seq<Op<I, O>>, after: seq<int>, best: Best<S>)
    requires |after| == |ops| && best.depth < 0
    ensures BestOk(m, ops, after, best)
  {
  }

  lemma GoingFinished<S(!new), I(!new), O(!new)>(k: Task<S, I, O>, d: int, rank: seq<nat>, size: map<int64, int>,
      t: Trail<S>, pos: nat,
      spot: Spot<S>, seen: set<Config<S>>, cache: Cache<S>, e: Entry)
    requires Going(k, d, rank, size, t, pos, spot, seen, cache, e)
    requires pos < |t.list| && !e.call && 0 <= e.op < |k.ops| && k.ops[e.op].Pending()
    ensures Linearizable(k.m, k.ops) && AllAnswered(k.ops, t.Done())
  {
    Finished(k, d, t, pos, seen);
  }

  lemma GoingEmptied<S(!new), I(!new), O(!new)>(k: Task<S, I, O>, d: int, rank: seq<nat>, size: map<int64, int>,
      t: Trail<S>, pos: nat,
      spot: Spot<S>, seen: set<Config<S>>, cache: Cache<S>, e: Entry?)
    requires Going(k, d, rank, size, t, pos, spot, seen, cache, e) && |t.list| == 1
    ensures Linearizable(k.m, k.ops) && AllAnswered(k.ops, t.Done())
  {
    Emptied(k, t);
  }

  // ----- What the search counts

  lemma {:induction false} StartOnTrail<S(!new), I(!new), O(!new)>(k: Task<S, I, O>, t: Trail<S>)
    requires |k.after| == |k.ops| && TrailOk(k, t)
    ensures OnTrail(t, Config(New(|k.ops|), k.m.init))
  {
    if t.Then? { StartOnTrail(k, t.prev); }
  }

  lemma StartReached<S(!new), I(!new), O(!new)>(k: Task<S, I, O>, d: int, rank: seq<nat>, size: map<int64, int>,
      t: Trail<S>, pos: nat, spot: Spot<S>, seen: set<Config<S>>, cache: Cache<S>, e: Entry?)
    requires Going(k, d, rank, size, t, pos, spot, seen, cache, e)
    requires seen == {Config(t.words, t.state)}
    ensures |k.after| == |k.ops| && AllReached(k, seen) && cache.size == 1
  {
    hide Universe, SeenOk, Progress, TrailProgress, AllReached, InPlace, StackOf, Tracks, Sizes;
    NoneReached(k);
    ReachedMore(k, {}, t);
    assert {} + {Config(t.words, t.state)} == seen;
  }

  lemma NoneReached<S(!new), I(!new), O(!new)>(k: Task<S, I, O>)
    requires |k.after| == |k.ops|
    ensures AllReached(k, {})
  {
  }

  /** One more configuration, the one the search has moved on to. */
  lemma ReachedOn<S(!new), I(!new), O(!new)>(k: Task<S, I, O>, d: int, rank: seq<nat>, size: map<int64, int>,
      t: Trail<S>, pos: nat, spot: Spot<S>, was: set<Config<S>>, seen: set<Config<S>>, cache: Cache<S>, e: Entry?)
    requires Going(k, d, rank, size, t, pos, spot, seen, cache, e)
    requires seen == was || seen == was + {Config(spot.linearized, spot.state)}
    requires |k.after| == |k.ops| && AllReached(k, was)
    ensures AllReached(k, seen) && cache.size == |seen| <= |was| + 1
  {
    hide Universe, SeenOk, Progress, TrailProgress, AllReached;
    ReachedMore(k, was, t);
  }

  /** The number of configurations visited is that of a set of visits. */
  lemma VisitsCounted<S(!new), I(!new), O(!new)>(k: Task<S, I, O>, d: int, rank: seq<nat>, size: map<int64, int>,
      t: Trail<S>, pos: nat, spot: Spot<S>, seen: set<Config<S>>, cache: Cache<S>, e: Entry?)
    requires Going(k, d, rank, size, t, pos, spot, seen, cache, e) && |k.after| == |k.ops| && AllReached(k, seen)
    ensures |Visits(k, seen)| == cache.size && Visit({}, k.m.init) in Visits(k, seen)
    ensures Visit(t.Done(), t.state) in Visits(k, seen)
    ensures forall v :: v in Visits(k, seen) ==> Reaches(k.m, k.ops, k.after, v)
  {
    hide Universe, SeenOk, Progress, TrailProgress, Reaches;
    VisitCount(k, seen);
    StartOnTrail(k, t);
    NewIsEmpty(|k.ops|);
    assert VisitOf(k, Config(New(|k.ops|), k.m.init)) == Visit({}, k.m.init);
    TrailMembers(k, t);
    assert OnTrail(t, Config(t.words, t.state));
    assert VisitOf(k, Config(t.words, t.state)) == Visit(t.Done(), t.state);
  }

  lemma StillCounts<S(!new), I(!new), O(!new)>(k: Task<S, I, O>, d: int, rank: seq<nat>, size: map<int64, int>,
      t: Trail<S>, pos: nat, spot: Spot<S>, seen: set<Config<S>>, cache: Cache<S>, e: Entry?)
    requires Going(k, d, rank, size, t, pos, spot, seen, cache, e) && |k.after| == |k.ops| && AllReached(k, seen)
    requires IsAfter(k.m, k.ops, k.after)
    ensures Counts(k.m, k.ops, Result(Unknown, [], None, 0, cache.size)) && cache.size == |seen|
  {
    VisitCount(k, seen) by { hide SeenOk, Progress, TrailProgress, Universe; }
    hide Going, IsAfter, Reaches, Visits, AllReached;
    VisitsCounted(k, d, rank, size, t, pos, spot, seen, cache, e);
    assert Counted(k.m, k.ops, k.after, Result(Unknown, [], None, 0, cache.size), Visits(k, seen));
  }

  lemma OkCounts<S(!new), I(!new), O(!new)>(k: Task<S, I, O>, d: int, rank: seq<nat>, size: map<int64, int>,
      t: Trail<S>, pos: nat, spot: Spot<S>, seen: set<Config<S>>, cache: Cache<S>, e: Entry?)
    requires Going(k, d, rank, size, t, pos, spot, seen, cache, e) && |k.after| == |k.ops| && AllReached(k, seen)
    requires IsAfter(k.m, k.ops, k.after) && AllAnswered(k.ops, t.Done())
    ensures Counts(k.m, k.ops, Result(Ok, [], None, 0, cache.size))
  {
    hide Going, IsAfter, Reaches, Visits, AllReached, AllAnswered;
    VisitsCounted(k, d, rank, size, t, pos, spot, seen, cache, e);
    assert Counted(k.m, k.ops, k.after, Result(Ok, [], None, 0, cache.size), Visits(k, seen));
  }

  lemma IllegalCounts<S(!new), I(!new), O(!new)>(k: Task<S, I, O>, best: Best<S>, rank: seq<nat>,
      size: map<int64, int>, t: Trail<S>, pos: nat, spot: Spot<S>, seen: set<Config<S>>, cache: Cache<S>, e: Entry?)
    requires Going(k, best.depth, rank, size, t, pos, spot, seen, cache, e) && |k.after| == |k.ops|
    requires AllReached(k, seen) && IsAfter(k.m, k.ops, k.after) && Covered(k, seen, {}, k.m.init)
    ensures Counts(k.m, k.ops, Result(Illegal, best.longest, Some(best.state), best.stuck, cache.size))
  {
    hide Going, IsAfter, Reaches, Visits, AllReached, Covered;
    VisitsCounted(k, best.depth, rank, size, t, pos, spot, seen, cache, e);
    forall v | Reaches(k.m, k.ops, k.after, v) ensures v in Visits(k, seen) {
      CoveredIsAll(k, seen, v);
    }
    assert Counted(k.m, k.ops, k.after, Result(Illegal, best.longest, Some(best.state), best.stuck, cache.size),
      Visits(k, seen));
  }

  lemma GoingReady<S(!new), I(!new), O(!new)>(k: Task<S, I, O>, d: int, rank: seq<nat>, size: map<int64, int>,
      t: Trail<S>, pos: nat,
      spot: Spot<S>, seen: set<Config<S>>, cache: Cache<S>, e: Entry)
    requires Going(k, d, rank, size, t, pos, spot, seen, cache, e)
    requires pos < |t.list| && !e.call && 0 <= e.op < |k.ops| && !k.ops[e.op].Pending()
    ensures Ready(k, d, rank, size, t, pos, spot, seen) && t.list[pos] == e
    ensures t.Start? <==> spot.stack == []
  {
  }

  lemma GoingDoomed<S(!new), I(!new), O(!new)>(k: Task<S, I, O>, d: int, rank: seq<nat>, size: map<int64, int>,
      t: Trail<S>, pos: nat,
      spot: Spot<S>, seen: set<Config<S>>, cache: Cache<S>, e: Entry)
    requires Going(k, d, rank, size, t, pos, spot, seen, cache, e) && spot.stack == [] && d >= 0
    requires pos < |t.list| && !e.call && 0 <= e.op < |k.ops| && !k.ops[e.op].Pending()
    ensures |k.after| == |k.ops| && (SameSound(k.m) ==> !Linearizable(k.m, k.ops))
    ensures Shallow(k.m, k.ops, k.after, {}, k.m.init, d) && Covered(k, seen, {}, k.m.init)
  {
    ReadyBack(k, d, rank, size, t, pos, spot, seen);
    DoomedStart(k, Reach(d, seen), t);
  }

  /**
   Decides whether `ops` is linearizable by `m`, unless an operation is called after its return. An
   Ok or an Illegal verdict is right; and, with no limit and a context that never ends, one of the
   two is reached.
   */
  method CheckWithin<S(==, !new), I(!new), O(!new)>(m: Model<S, I, O>, ops: seq<Op<I, O>>, hash: Words -> int,
      limit: nat, ctx: nat -> bool)
      returns (res: Result<S>, err: Error)
    ensures res.outcome == Ok ==> Linearizable(m, ops)
    ensures res.outcome == Illegal && SameSound(m) ==> !Linearizable(m, ops)
    ensures Right(m, ops, res)
    ensures res.outcome == Unknown <==> err != NoError
    ensures err == ErrBadOp <==> !WellTimed(ops)
    ensures err == ErrBadOp ==>
      0 <= res.stuck < |ops| && ops[res.stuck].ret < ops[res.stuck].call && WellTimed(ops[..res.stuck])
    ensures err != ErrBadOp ==> Counts(m, ops, res)
    ensures err == ErrLimit ==> 0 < limit < res.explored
    ensures limit > 0 ==> res.explored <= limit + 1
    ensures err == ErrContext ==> exists n :: n > 0 && n % 0x1000 == 0 && ctx(n)
  {
    for i := 0 to |ops|
      invariant WellTimed(ops[..i])
    {
      if ops[i].ret < ops[i].call {
        return Result(Unknown, [], None, i, 0), ErrBadOp;
      }
    }
    TakeAll(ops);
    res, err := Explore(m, ops, hash, limit, ctx);
  }
}
