/**
 Conditional writes compare and swap: over every run of the store with unique ETags, one write
 conditional on an ETag takes effect at most, and one conditional on there being no object at
 most between deletes.
 */
module CompareAndSwap {
  import opened Options
  import opened ETags
  import opened ObjectStore

  // ----- What one operation does to a key

  predicate WritesTo(op: Op, bucket: string, key: string) {
    IsWrite(op) && op.bucket == bucket && op.key == key
  }

  predicate DeletesFrom(op: Op, bucket: string, key: string) {
    op.Delete? && op.bucket == bucket && key in op.keys
  }

  /** A write that takes effect met its conditions, and its key holds what it wrote under the ETag of the reply. */
  lemma WriteMeans(c: Config, s: St, op: Op, t: St, reply: Reply)
    requires Step(c, s, op, t, reply) && IsWrite(op) && reply.Applied?
    ensures Accepted(c, s, op) && Met(op.cond, At(s, op.bucket, op.key))
    ensures At(t, op.bucket, op.key) == Some(Obj(reply.etag, Content(c, s, op)))
    ensures c.unique ==> t.nextID == s.nextID + 1 && reply.etag == ETag(t.nextID)
  {
    hide Met, Sound, SourceMet, Content, Digest, ETag, SameBut;
  }

  /** Any other operation leaves a key as it was, or removes it. */
  lemma OthersKeep(c: Config, s: St, op: Op, t: St, reply: Reply, bucket: string, key: string)
    requires Step(c, s, op, t, reply) && !(WritesTo(op, bucket, key) && reply.Applied?)
    ensures At(t, bucket, key) == if DeletesFrom(op, bucket, key) then None else At(s, bucket, key)
  {
    hide Accepted, Refusal, Held, Content, Digest, ETag;
  }

  lemma NumbersRise(c: Config, s: St, op: Op, t: St, reply: Reply)
    requires Step(c, s, op, t, reply)
    ensures s.nextID <= t.nextID
  {
    hide Accepted, Refusal, Held, Content, Digest, ETag, SameBut, At;
  }

  // ----- Over a run

  /** The last of the first `n` operations to write the key or delete it wrote it, and was the `i`-th. */
  ghost predicate Latest(ops: seq<Op>, replies: seq<Reply>, n: nat, i: nat, bucket: string, key: string)
    requires |ops| == |replies|
  {
    && i < n <= |ops|
    && WritesTo(ops[i], bucket, key) && replies[i].Applied?
    && forall k :: i < k < n ==>
      !(WritesTo(ops[k], bucket, key) && replies[k].Applied?) && !DeletesFrom(ops[k], bucket, key)
  }

  /** In every run a key holds just what the latest write to it stored, if it was not deleted since. */
  lemma {:induction false} HoldsLatest(c: Config, states: seq<St>, ops: seq<Op>, replies: seq<Reply>, n: nat,
      bucket: string, key: string)
    requires IsRun(c, states, ops, replies) && n <= |ops|
    ensures At(states[n], bucket, key).Some? <==> exists i: nat :: Latest(ops, replies, n, i, bucket, key)
    ensures forall i: nat :: Latest(ops, replies, n, i, bucket, key) ==>
      && Accepted(c, states[i], ops[i])
      && At(states[n], bucket, key) == Some(Obj(replies[i].etag, Content(c, states[i], ops[i])))
  {
    hide Step, At, Accepted, Content, WritesTo, DeletesFrom;
    if n == 0 {
      StartsEmpty(bucket, key);
    } else {
      var m := n - 1;
      HoldsLatest(c, states, ops, replies, m, bucket, key);
      assert Step(c, states[m], ops[m], states[m + 1], replies[m]);
      if WritesTo(ops[m], bucket, key) && replies[m].Applied? {
        WroteKey(ops[m], bucket, key);
        WriteMeans(c, states[m], ops[m], states[n], replies[m]);
        assert Latest(ops, replies, n, m, bucket, key);
      } else {
        OthersKeep(c, states[m], ops[m], states[n], replies[m], bucket, key);
        if !DeletesFrom(ops[m], bucket, key) && At(states[m], bucket, key).Some? {
          var i: nat :| Latest(ops, replies, m, i, bucket, key);
          assert Latest(ops, replies, n, i, bucket, key);
        }
        forall i: nat | Latest(ops, replies, n, i, bucket, key)
          ensures Latest(ops, replies, m, i, bucket, key) && !DeletesFrom(ops[m], bucket, key)
        {
          assert i != m;
        }
      }
    }
  }

  lemma StartsEmpty(bucket: string, key: string)
    ensures At(START, bucket, key).None?
  {
  }

  lemma WroteKey(op: Op, bucket: string, key: string)
    requires WritesTo(op, bucket, key)
    ensures IsWrite(op) && op.bucket == bucket && op.key == key
  {
  }

  lemma {:induction false} NextRises(c: Config, states: seq<St>, ops: seq<Op>, replies: seq<Reply>, i: nat, j: nat)
    requires IsRun(c, states, ops, replies) && i <= j < |states|
    ensures states[i].nextID <= states[j].nextID
    decreases j - i
  {
    hide Step;
    if i < j {
      NextRises(c, states, ops, replies, i, j - 1);
      assert Step(c, states[j - 1], ops[j - 1], states[j - 1 + 1], replies[j - 1]);
      NumbersRise(c, states[j - 1], ops[j - 1], states[j], replies[j - 1]);
    }
  }

  /** With unique ETags the reply to the `i`-th operation, a write that took effect, has the number drawn for it. */
  lemma TagOf(c: Config, states: seq<St>, ops: seq<Op>, replies: seq<Reply>, i: nat)
    requires IsRun(c, states, ops, replies) && c.unique && i < |ops| && IsWrite(ops[i]) && replies[i].Applied?
    ensures states[i + 1].nextID == states[i].nextID + 1 && replies[i].etag == ETag(states[i + 1].nextID)
  {
    hide Step, ETag;
    WriteMeans(c, states[i], ops[i], states[i + 1], replies[i]);
  }

  /** No two writes that take effect get the same ETag, whatever their keys. */
  lemma NoETagReused(c: Config, states: seq<St>, ops: seq<Op>, replies: seq<Reply>, i: nat, j: nat)
    requires IsRun(c, states, ops, replies) && c.unique && i < j < |ops|
    requires IsWrite(ops[i]) && replies[i].Applied? && IsWrite(ops[j]) && replies[j].Applied?
    ensures replies[i] != replies[j]
  {
    hide Step, ETag;
    TagOf(c, states, ops, replies, i);
    TagOf(c, states, ops, replies, j);
    NextRises(c, states, ops, replies, i + 1, j);
    var n, m := states[i].nextID + 1, states[j].nextID + 1;
    if ETag(n) == ETag(m) {
      OneNumberEach(n, m);
      assert false;
    }
  }

  lemma MetIfMatch(cond: Cond, cur: Option<Obj>)
    requires Met(cond, cur) && cond.ifMatch != ""
    ensures cur.Some? && Matches(cond.ifMatch, cur.value.etag)
  {
  }

  /**
   A write conditional on an ETag that takes effect found its key under the ETag of an earlier
   write, which it names.
   */
  lemma Replaces(c: Config, states: seq<St>, ops: seq<Op>, replies: seq<Reply>, j: nat) returns (i: nat)
    requires IsRun(c, states, ops, replies) && j < |ops| && IsWrite(ops[j]) && ops[j].cond.ifMatch != "" &&
      replies[j].Applied?
    ensures Latest(ops, replies, j, i, ops[j].bucket, ops[j].key) && Matches(ops[j].cond.ifMatch, replies[i].etag)
  {
    hide Step, At, Accepted, Content, Latest, Matches, Met;
    HoldsLatest(c, states, ops, replies, j, ops[j].bucket, ops[j].key);
    WriteMeans(c, states[j], ops[j], states[j + 1], replies[j]);
    MetIfMatch(ops[j].cond, At(states[j], ops[j].bucket, ops[j].key));
    i :| Latest(ops, replies, j, i, ops[j].bucket, ops[j].key);
  }

  /** Of the writes to a key conditional on one ETag, one takes effect at most. */
  lemma IfMatchOnce(c: Config, states: seq<St>, ops: seq<Op>, replies: seq<Reply>, i: nat, j: nat, header: string)
    requires IsRun(c, states, ops, replies) && c.unique && i < |ops| && j < |ops| && header != "" && SingleTag(header)
    requires IsWrite(ops[i]) && ops[i].cond.ifMatch == header && replies[i].Applied?
    requires WritesTo(ops[j], ops[i].bucket, ops[i].key) && ops[j].cond.ifMatch == header && replies[j].Applied?
    ensures i == j
  {
    hide Step, SingleTag;
    if i < j {
      NotAgain(c, states, ops, replies, i, j, header);
    } else if j < i {
      NotAgain(c, states, ops, replies, j, i, header);
    }
  }

  lemma NotAgain(c: Config, states: seq<St>, ops: seq<Op>, replies: seq<Reply>, i: nat, j: nat, header: string)
    requires IsRun(c, states, ops, replies) && c.unique && i < j < |ops| && header != "" && SingleTag(header)
    requires IsWrite(ops[i]) && ops[i].cond.ifMatch == header && replies[i].Applied?
    requires WritesTo(ops[j], ops[i].bucket, ops[i].key) && ops[j].cond.ifMatch == header
    ensures !replies[j].Applied?
  {
    hide Step, ETag, Matches, SingleTag;
    if replies[j].Applied? {
      var p := Replaces(c, states, ops, replies, i);
      var q := Replaces(c, states, ops, replies, j);
      assert p < i <= q;
      TagOf(c, states, ops, replies, p);
      TagOf(c, states, ops, replies, q);
      MatchesOne(header, states[p + 1].nextID, states[q + 1].nextID);
      NextRises(c, states, ops, replies, p + 1, q);
      assert false;
    }
  }

  ghost predicate Deletes(ops: seq<Op>, i: nat, j: nat, bucket: string, key: string) {
    exists k :: i < k < j && k < |ops| && DeletesFrom(ops[k], bucket, key)
  }

  lemma MetIfNone(cond: Cond, cur: Option<Obj>)
    requires Met(cond, cur) && cond.ifNoneMatch != ""
    ensures cond.ifNoneMatch == "*" && cur.None?
  {
  }

  /** Some write from the `i`-th on is the latest, if none deletes the key. */
  lemma {:induction false} LatestSince(ops: seq<Op>, replies: seq<Reply>, i: nat, n: nat, bucket: string,
      key: string) returns (l: nat)
    requires |ops| == |replies| && i < n <= |ops| && WritesTo(ops[i], bucket, key) && replies[i].Applied? &&
      !Deletes(ops, i, n, bucket, key)
    ensures Latest(ops, replies, n, l, bucket, key)
    decreases n
  {
    hide WritesTo, DeletesFrom;
    l := n - 1;
    if !(WritesTo(ops[l], bucket, key) && replies[l].Applied?) {
      assert !Deletes(ops, i, n - 1, bucket, key);
      assert !DeletesFrom(ops[n - 1], bucket, key);
      l := LatestSince(ops, replies, i, n - 1, bucket, key);
    }
  }

  /**
   Between a write to a key and a later one conditional on there being no object, if both take
   effect, the key was deleted.
   */
  lemma IfNoneMatchOnce(c: Config, states: seq<St>, ops: seq<Op>, replies: seq<Reply>, i: nat, j: nat)
    requires IsRun(c, states, ops, replies) && i < j < |ops|
    requires IsWrite(ops[j]) && ops[j].cond.ifNoneMatch == "*" && replies[j].Applied?
    requires WritesTo(ops[i], ops[j].bucket, ops[j].key) && replies[i].Applied?
    ensures Deletes(ops, i, j, ops[j].bucket, ops[j].key)
  {
    hide Step, At, Accepted, Met, Deletes, Latest, WritesTo, Content;
    var bucket, key := ops[j].bucket, ops[j].key;
    WriteMeans(c, states[j], ops[j], states[j + 1], replies[j]);
    MetIfNone(ops[j].cond, At(states[j], bucket, key));
    HoldsLatest(c, states, ops, replies, j, bucket, key);
    if !Deletes(ops, i, j, bucket, key) {
      var l := LatestSince(ops, replies, i, j, bucket, key);
      assert false;
    }
  }

  /** In every run the number drawn next is no upload's. */
  lemma {:induction false} FreshUpload(c: Config, states: seq<St>, ops: seq<Op>, replies: seq<Reply>, n: nat)
    requires IsRun(c, states, ops, replies) && n < |states|
    ensures forall id :: id in states[n].uploads ==> 0 < id <= states[n].nextID
  {
    hide Step;
    if n > 0 {
      FreshUpload(c, states, ops, replies, n - 1);
      assert Step(c, states[n - 1], ops[n - 1], states[n - 1 + 1], replies[n - 1]);
      UploadsNumbered(c, states[n - 1], ops[n - 1], states[n], replies[n - 1]);
    }
  }

  lemma UploadsNumbered(c: Config, s: St, op: Op, t: St, reply: Reply)
    requires Step(c, s, op, t, reply) && forall id :: id in s.uploads ==> 0 < id <= s.nextID
    ensures forall id :: id in t.uploads ==> 0 < id <= t.nextID
  {
    hide Accepted, Refusal, Held, Content, Digest, ETag, SameBut, At;
  }

  // ----- When a write takes effect, by what was written before

  /** Some write to the key is the latest, and it got an ETag the header names, if there is a header. */
  ghost predicate LatestNamed(ops: seq<Op>, replies: seq<Reply>, n: nat, bucket: string, key: string, header: string)
    requires |ops| == |replies|
  {
    exists i: nat :: Latest(ops, replies, n, i, bucket, key) && replies[i].Applied? &&
      (header != "" ==> Matches(header, replies[i].etag))
  }

  ghost predicate NoneLatest(ops: seq<Op>, replies: seq<Reply>, n: nat, bucket: string, key: string)
    requires |ops| == |replies|
  {
    forall i: nat :: !Latest(ops, replies, n, i, bucket, key)
  }

  /** No write to the key is the latest if one is not to be, and the latest got an ETag named if one is to have. */
  ghost predicate CondHolds(ops: seq<Op>, replies: seq<Reply>, n: nat, bucket: string, key: string, cond: Cond)
    requires |ops| == |replies|
  {
    && (cond.ifNoneMatch == "" || (cond.ifNoneMatch == "*" && NoneLatest(ops, replies, n, bucket, key)))
    && (cond.ifMatch == "" || LatestNamed(ops, replies, n, bucket, key, cond.ifMatch))
  }

  /** The latest write to a copy's source got an ETag that If-Match names, and If-None-Match does not. */
  ghost predicate SourceHolds(ops: seq<Op>, replies: seq<Reply>, n: nat, bucket: string, key: string, cond: SourceCond)
    requires |ops| == |replies|
  {
    && !cond.since && LatestNamed(ops, replies, n, bucket, key, cond.ifMatch)
    && (cond.ifNoneMatch == "" || !LatestNamed(ops, replies, n, bucket, key, cond.ifNoneMatch))
  }

  ghost predicate MayWrite(s: St, ops: seq<Op>, replies: seq<Reply>, j: nat)
    requires j < |ops| == |replies| && IsWrite(ops[j])
  {
    ops[j].bucket in s.buckets && CondHolds(ops, replies, j, ops[j].bucket, ops[j].key, ops[j].cond)
  }

  ghost predicate MayCopy(ops: seq<Op>, replies: seq<Reply>, j: nat)
    requires j < |ops| == |replies| && ops[j].Copy?
  {
    SourceHolds(ops, replies, j, ops[j].fromBucket, ops[j].fromKey, ops[j].source)
  }

  lemma NamedMeans(c: Config, states: seq<St>, ops: seq<Op>, replies: seq<Reply>, n: nat, bucket: string, key: string,
      header: string)
    requires IsRun(c, states, ops, replies) && n <= |ops|
    ensures LatestNamed(ops, replies, n, bucket, key, header) <==>
      At(states[n], bucket, key).Some? && (header != "" ==> Matches(header, At(states[n], bucket, key).value.etag))
    ensures NoneLatest(ops, replies, n, bucket, key) <==> At(states[n], bucket, key).None?
  {
    hide Step, At, Accepted, Content, Matches;
    HoldsLatest(c, states, ops, replies, n, bucket, key);
    if At(states[n], bucket, key).Some? {
      var i: nat :| Latest(ops, replies, n, i, bucket, key);
    }
  }

  /**
   In every run a put takes effect exactly when its bucket is there and its conditions hold of the latest write to
   the key; and a copy exactly when, beside that, its conditions on the source hold of the latest write to it.
   */
  lemma EffectExactly(c: Config, states: seq<St>, ops: seq<Op>, replies: seq<Reply>, j: nat)
    requires IsRun(c, states, ops, replies) && j < |ops|
    ensures ops[j].Put? ==> (replies[j].Applied? <==> MayWrite(states[j], ops, replies, j))
    ensures ops[j].Copy? ==> (replies[j].Applied? <==> MayWrite(states[j], ops, replies, j) && MayCopy(ops, replies, j))
  {
    hide Step, At, Matches, LatestNamed, NoneLatest;
    var op := ops[j];
    if IsWrite(op) {
      NamedMeans(c, states, ops, replies, j, op.bucket, op.key, op.cond.ifMatch);
      TakenIfAccepted(c, states, ops, replies, j);
      if op.Copy? {
        NamedMeans(c, states, ops, replies, j, op.fromBucket, op.fromKey, op.source.ifMatch);
        NamedMeans(c, states, ops, replies, j, op.fromBucket, op.fromKey, op.source.ifNoneMatch);
      }
    }
  }

  lemma TakenIfAccepted(c: Config, states: seq<St>, ops: seq<Op>, replies: seq<Reply>, j: nat)
    requires IsRun(c, states, ops, replies) && j < |ops| && IsWrite(ops[j])
    ensures replies[j].Applied? <==> Accepted(c, states[j], ops[j])
  {
    hide Accepted, Refusal, Stored;
    assert Step(c, states[j], ops[j], states[j + 1], replies[j]);
  }

  /** A copy that takes effect stores what the latest write to its source stored. */
  lemma CopiesLatest(c: Config, states: seq<St>, ops: seq<Op>, replies: seq<Reply>, j: nat) returns (i: nat)
    requires IsRun(c, states, ops, replies) && j < |ops| && ops[j].Copy? && replies[j].Applied?
    ensures Latest(ops, replies, j, i, ops[j].fromBucket, ops[j].fromKey)
    ensures At(states[j + 1], ops[j].bucket, ops[j].key).Some?
    ensures Accepted(c, states[i], ops[i]) &&
      At(states[j + 1], ops[j].bucket, ops[j].key).value.data == Content(c, states[i], ops[i])
  {
    hide Step, At, Matches, Met, SourceMet, WritesTo, DeletesFrom;
    assert Step(c, states[j], ops[j], states[j + 1], replies[j]) by { StepAt(c, states, ops, replies, j); }
    WriteMeans(c, states[j], ops[j], states[j + 1], replies[j]);
    HoldsLatest(c, states, ops, replies, j, ops[j].fromBucket, ops[j].fromKey);
    i :| Latest(ops, replies, j, i, ops[j].fromBucket, ops[j].fromKey);
  }

  lemma StepAt(c: Config, states: seq<St>, ops: seq<Op>, replies: seq<Reply>, j: nat)
    requires IsRun(c, states, ops, replies) && j < |ops|
    ensures Step(c, states[j], ops[j], states[j + 1], replies[j])
  {
    hide Step;
  }

  // ----- What it comes to for one operation

  /** The ETag of the reply is in no reply before. */
  ghost predicate NewTag(replies: seq<Reply>, j: nat)
    requires j < |replies|
  {
    forall i :: 0 <= i < j && replies[i].Applied? ==> replies[i] != replies[j]
  }

  /** No write to the key before that was conditional on the same ETag took effect. */
  ghost predicate FirstToMatch(ops: seq<Op>, replies: seq<Reply>, j: nat)
    requires j < |ops| == |replies| && IsWrite(ops[j])
  {
    forall i ::
      0 <= i < j && WritesTo(ops[i], ops[j].bucket, ops[j].key) && ops[i].cond.ifMatch == ops[j].cond.ifMatch ==>
      !replies[i].Applied?
  }

  /** Each write to the key before that took effect was deleted since. */
  ghost predicate AllDeleted(ops: seq<Op>, replies: seq<Reply>, j: nat)
    requires j < |ops| == |replies| && IsWrite(ops[j])
  {
    forall i: nat :: i < j && WritesTo(ops[i], ops[j].bucket, ops[j].key) && replies[i].Applied? ==>
      Deletes(ops, i, j, ops[j].bucket, ops[j].key)
  }

  /** What compare and swap means for the `j`-th operation, if it is a write that took effect. */
  ghost predicate Swapped(c: Config, ops: seq<Op>, replies: seq<Reply>, j: nat)
    requires j < |ops| == |replies|
  {
    IsWrite(ops[j]) && replies[j].Applied? ==>
      && (c.unique ==> NewTag(replies, j))
      && (c.unique && ops[j].cond.ifMatch != "" && SingleTag(ops[j].cond.ifMatch) ==> FirstToMatch(ops, replies, j))
      && (ops[j].cond.ifNoneMatch == "*" ==> AllDeleted(ops, replies, j))
  }

  lemma OnlyWrites(c: Config, states: seq<St>, ops: seq<Op>, replies: seq<Reply>, i: nat)
    requires IsRun(c, states, ops, replies) && i < |ops| && replies[i].Applied?
    ensures IsWrite(ops[i])
  {
    hide Accepted, Refusal, Held, Deleted, SameObjects, Stored;
    assert Step(c, states[i], ops[i], states[i + 1], replies[i]);
  }

  lemma RunSwaps(c: Config, states: seq<St>, ops: seq<Op>, replies: seq<Reply>, j: nat)
    requires IsRun(c, states, ops, replies) && j < |ops|
    ensures Swapped(c, ops, replies, j)
  {
    hide Step, Deletes, SingleTag;
    if IsWrite(ops[j]) && replies[j].Applied? {
      forall i: nat | c.unique && i < j && replies[i].Applied? ensures replies[i] != replies[j] {
        OnlyWrites(c, states, ops, replies, i);
        NoETagReused(c, states, ops, replies, i, j);
      }
      var header := ops[j].cond.ifMatch;
      if c.unique && header != "" && SingleTag(header) {
        forall i: nat | i < j && WritesTo(ops[i], ops[j].bucket, ops[j].key) && ops[i].cond.ifMatch == header
          ensures !replies[i].Applied?
        {
          if replies[i].Applied? {
            NotAgain(c, states, ops, replies, i, j, header);
            assert false;
          }
        }
      }
      if ops[j].cond.ifNoneMatch == "*" {
        forall i: nat | i < j && WritesTo(ops[i], ops[j].bucket, ops[j].key) && replies[i].Applied?
          ensures Deletes(ops, i, j, ops[j].bucket, ops[j].key)
        {
          IfNoneMatchOnce(c, states, ops, replies, i, j);
        }
      }
    }
  }

  // ----- Without unique ETags

  /** Writes the same bytes over and over, on condition that the ETag is theirs. */
  function Again(header: string): Op {
    Put("b", "k", Cond("", header), "x")
  }

  function Cell(o: Option<Obj>, id: nat): St {
    St(map["b" := if o.Some? then map["k" := o.value] else map[]], map[], id)
  }

  lemma PutsCell(c: Config, o: Option<Obj>, cond: Cond)
    requires !c.unique && Met(cond, o)
    ensures var e := Quote(c.md5("x"));
      Step(c, Cell(o, 0), Put("b", "k", cond, "x"), Cell(Some(Obj(e, "x")), 0), Applied(e))
  {
    hide Met, ETag;
    assert At(Cell(o, 0), "b", "k") == o;
  }

  lemma MakesCell(c: Config)
    ensures Step(c, START, Make("b"), Cell(None, 0), Done)
  {
  }

  /** When ETags are digests, two writes conditional on one ETag can both take effect. */
  lemma DigestsRepeat(c: Config) returns (states: seq<St>, ops: seq<Op>, replies: seq<Reply>)
    requires !c.unique && forall ch :: ch in c.md5("x") ==> IsDigit(ch)
    ensures IsRun(c, states, ops, replies) && |ops| == 4 && SingleTag(Quote(c.md5("x")))
    ensures ops[2] == ops[3] == Again(Quote(c.md5("x"))) && replies[2].Applied? && replies[3].Applied?
  {
    hide IsDigit, SingleTag, Matches, Step, Cell;
    var header := Quote(c.md5("x"));
    SentBack(c.md5("x"));
    var o := Some(Obj(header, "x"));
    var written := Cell(o, 0);
    ops := [Make("b"), Put("b", "k", Cond("", ""), "x"), Again(header), Again(header)];
    states := [START, Cell(None, 0), written, written, written];
    replies := [Done, Applied(header), Applied(header), Applied(header)];
    MakesCell(c);
    PutsCell(c, None, Cond("", ""));
    PutsCell(c, o, Cond("", header));
  }
}
