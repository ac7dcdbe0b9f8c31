/**
 Uploads in parts: over every run of the store, an upload holds the latest of each part put since
 it was begun, and completing it stores them joined (objstore/objstore.go).
 */
module Uploads {
  import opened Options
  import opened ETags
  import opened ObjectStore
  import opened CompareAndSwap

  // ----- What a run says of an upload

  ghost predicate Begins(ops: seq<Op>, replies: seq<Reply>, b: nat, id: nat, bucket: string, key: string) {
    b < |ops| == |replies| && ops[b] == Begin(bucket, key) && replies[b] == Begun(id)
  }

  /** The operation completes the upload or gives it up. */
  predicate Finishes(op: Op, reply: Reply, id: nat) {
    op == Abort(id) || (op.Complete? && op.id == id && reply.Applied?)
  }

  predicate Puts(op: Op, reply: Reply, id: nat, number: int) {
    op.PutPart? && op.id == id && op.number == number && reply == Done
  }

  ghost predicate OpenSince(ops: seq<Op>, replies: seq<Reply>, b: nat, n: nat, id: nat)
    requires n <= |ops| == |replies|
  {
    forall i :: b < i < n ==> !Finishes(ops[i], replies[i], id)
  }

  /** Of the operations from the `b`-th to the `n`-th, the `i`-th was the last to put the part. */
  ghost predicate LatestPart(ops: seq<Op>, replies: seq<Reply>, b: nat, n: nat, i: nat, id: nat, number: int)
    requires n <= |ops| == |replies|
  {
    b < i < n && Puts(ops[i], replies[i], id, number) && forall j :: i < j < n ==> !Puts(ops[j], replies[j], id, number)
  }

  ghost predicate HasPart(ops: seq<Op>, replies: seq<Reply>, b: nat, n: nat, id: nat, number: int)
    requires n <= |ops| == |replies|
  {
    exists i: nat :: LatestPart(ops, replies, b, n, i, id, number)
  }

  /** The upload holds just the parts put since, each as it was put last. */
  ghost predicate PartsAre(ops: seq<Op>, replies: seq<Reply>, b: nat, n: nat, id: nat, parts: map<int, Data>)
    requires n <= |ops| == |replies|
  {
    && (forall number: int :: number in parts <==> HasPart(ops, replies, b, n, id, number))
    && (forall number, i: nat :: LatestPart(ops, replies, b, n, i, id, number) ==>
      number in parts && PutBy(ops, i, parts[number]))
  }

  predicate PutBy(ops: seq<Op>, i: nat, data: Data) {
    i < |ops| && ops[i].PutPart? && ops[i].data == data
  }

  ghost predicate Follows(ops: seq<Op>, replies: seq<Reply>, b: nat, n: nat, id: nat, bucket: string, key: string,
      s: St)
    requires n <= |ops| == |replies|
  {
    && (id in s.uploads <==> OpenSince(ops, replies, b, n, id))
    && (id in s.uploads ==>
      s.uploads[id].bucket == bucket && s.uploads[id].key == key &&
      PartsAre(ops, replies, b, n, id, s.uploads[id].parts))
  }

  // ----- One step

  function PartsAfter(parts: map<int, Data>, op: Op, reply: Reply, id: nat): map<int, Data> {
    if op.PutPart? && op.id == id && reply == Done then parts[op.number := op.data] else parts
  }

  /** What an operation does to an upload that was begun before. */
  lemma UploadStep(c: Config, s: St, op: Op, t: St, reply: Reply, id: nat)
    requires Step(c, s, op, t, reply) && id <= s.nextID
    ensures id in t.uploads <==> id in s.uploads && !Finishes(op, reply, id)
    ensures id in t.uploads ==> t.uploads[id].bucket == s.uploads[id].bucket && t.uploads[id].key == s.uploads[id].key
    ensures id in t.uploads ==> t.uploads[id].parts == PartsAfter(s.uploads[id].parts, op, reply, id)
  {
    hide Accepted, Refusal, Held, Content, Digest, ETag, SameBut, At;
  }

  lemma PartsNext(ops: seq<Op>, replies: seq<Reply>, b: nat, n: nat, id: nat, parts: map<int, Data>)
    requires b < n < |ops| == |replies| && PartsAre(ops, replies, b, n, id, parts)
    ensures PartsAre(ops, replies, b, n + 1, id, PartsAfter(parts, ops[n], replies[n], id))
  {
    hide PartsAre;
    var op := ops[n];
    if op.PutPart? && op.id == id && replies[n] == Done {
      PartPut(ops, replies, b, n, id, parts);
    } else {
      PartKept(ops, replies, b, n, id, parts);
    }
  }

  lemma PartPut(ops: seq<Op>, replies: seq<Reply>, b: nat, n: nat, id: nat, parts: map<int, Data>)
    requires b < n < |ops| == |replies| && PartsAre(ops, replies, b, n, id, parts)
    requires ops[n].PutPart? && Puts(ops[n], replies[n], id, ops[n].number)
    ensures PartsAre(ops, replies, b, n + 1, id, parts[ops[n].number := ops[n].data])
  {
    hide Puts, LatestPart;
    var here, now := ops[n].number, parts[ops[n].number := ops[n].data];
    LastIsLatest(ops, replies, b, n, id);
    OnlyLatest(ops, replies, b, n + 1, id, here, n);
    forall number: int ensures number in now <==> HasPart(ops, replies, b, n + 1, id, number) {
      if number != here {
        OtherPart(ops[n], replies[n], id, number);
        SamePart(ops, replies, b, n, id, number);
      }
    }
    forall number, i: nat | LatestPart(ops, replies, b, n + 1, i, id, number)
      ensures number in now && PutBy(ops, i, now[number])
    {
      if number != here {
        OtherPart(ops[n], replies[n], id, number);
        SamePart(ops, replies, b, n, id, number);
      }
    }
  }

  lemma SamePart(ops: seq<Op>, replies: seq<Reply>, b: nat, n: nat, id: nat, number: int)
    requires b < n < |ops| == |replies| && !Puts(ops[n], replies[n], id, number)
    ensures forall i: nat :: LatestPart(ops, replies, b, n + 1, i, id, number) <==>
      LatestPart(ops, replies, b, n, i, id, number)
    ensures HasPart(ops, replies, b, n + 1, id, number) <==> HasPart(ops, replies, b, n, id, number)
  {
    hide Puts;
    forall i: nat
      ensures LatestPart(ops, replies, b, n + 1, i, id, number) <==> LatestPart(ops, replies, b, n, i, id, number)
    {
    }
    if HasPart(ops, replies, b, n + 1, id, number) {
      var i: nat :| LatestPart(ops, replies, b, n + 1, i, id, number);
      assert LatestPart(ops, replies, b, n, i, id, number);
    }
    if HasPart(ops, replies, b, n, id, number) {
      var i: nat :| LatestPart(ops, replies, b, n, i, id, number);
      assert LatestPart(ops, replies, b, n + 1, i, id, number);
    }
  }

  lemma LastIsLatest(ops: seq<Op>, replies: seq<Reply>, b: nat, n: nat, id: nat)
    requires b < n < |ops| == |replies| && ops[n].PutPart? && Puts(ops[n], replies[n], id, ops[n].number)
    ensures LatestPart(ops, replies, b, n + 1, n, id, ops[n].number)
  {
  }

  lemma OtherPart(op: Op, reply: Reply, id: nat, number: int)
    requires op.PutPart? && op.number != number
    ensures !Puts(op, reply, id, number)
  {
  }

  lemma OnlyLatest(ops: seq<Op>, replies: seq<Reply>, b: nat, n: nat, id: nat, number: int, i: nat)
    requires n <= |ops| == |replies| && LatestPart(ops, replies, b, n, i, id, number)
    ensures forall j: nat :: LatestPart(ops, replies, b, n, j, id, number) ==> j == i
  {
    hide Puts;
  }

  lemma PartKept(ops: seq<Op>, replies: seq<Reply>, b: nat, n: nat, id: nat, parts: map<int, Data>)
    requires b < n < |ops| == |replies| && PartsAre(ops, replies, b, n, id, parts)
    requires forall number :: !Puts(ops[n], replies[n], id, number)
    ensures PartsAre(ops, replies, b, n + 1, id, parts)
  {
    hide Puts, LatestPart;
    forall number: int ensures number in parts <==> HasPart(ops, replies, b, n + 1, id, number) {
      SamePart(ops, replies, b, n, id, number);
    }
    forall number, i: nat | LatestPart(ops, replies, b, n + 1, i, id, number)
      ensures number in parts && PutBy(ops, i, parts[number])
    {
      assert !Puts(ops[n], replies[n], id, number);
      SamePart(ops, replies, b, n, id, number);
      assert LatestPart(ops, replies, b, n, i, id, number);
    }
  }

  // ----- Over a run

  lemma BegunAt(c: Config, states: seq<St>, ops: seq<Op>, replies: seq<Reply>, b: nat, id: nat, bucket: string,
      key: string)
    requires IsRun(c, states, ops, replies) && Begins(ops, replies, b, id, bucket, key)
    ensures states[b + 1].nextID == id && id in states[b + 1].uploads
    ensures states[b + 1].uploads[id] == Upload(bucket, key, map[])
  {
    assert Step(c, states[b], ops[b], states[b + 1], replies[b]);
  }

  /** In every run an upload that was begun is there until it ends, and holds the latest of each part put since. */
  lemma {:induction false} UploadHolds(c: Config, states: seq<St>, ops: seq<Op>, replies: seq<Reply>, b: nat, n: nat,
      id: nat, bucket: string, key: string)
    requires IsRun(c, states, ops, replies) && Begins(ops, replies, b, id, bucket, key) && b < n <= |ops|
    ensures Follows(ops, replies, b, n, id, bucket, key, states[n])
    decreases n
  {
    hide Step, Finishes, PartsAre, Puts;
    BegunAt(c, states, ops, replies, b, id, bucket, key);
    if n == b + 1 {
      NoPartsYet(ops, replies, b, id);
    } else {
      var m := n - 1;
      UploadHolds(c, states, ops, replies, b, m, id, bucket, key);
      StepAt(c, states, ops, replies, m);
      NextRises(c, states, ops, replies, b + 1, m);
      UploadStep(c, states[m], ops[m], states[n], replies[m], id);
      if id in states[m].uploads { PartsNext(ops, replies, b, m, id, states[m].uploads[id].parts); }
    }
  }

  lemma NoPartsYet(ops: seq<Op>, replies: seq<Reply>, b: nat, id: nat)
    requires b + 1 <= |ops| == |replies|
    ensures PartsAre(ops, replies, b, b + 1, id, map[])
  {
  }

  /** And every upload was begun. */
  lemma {:induction false} WasBegun(c: Config, states: seq<St>, ops: seq<Op>, replies: seq<Reply>, n: nat, id: nat)
      returns (b: nat)
    requires IsRun(c, states, ops, replies) && n <= |ops| && id in states[n].uploads
    ensures b < n && Begins(ops, replies, b, id, states[n].uploads[id].bucket, states[n].uploads[id].key)
  {
    hide Step;
    assert n > 0;
    StepAt(c, states, ops, replies, n - 1);
    if id in states[n - 1].uploads {
      b := WasBegun(c, states, ops, replies, n - 1, id);
      FreshUpload(c, states, ops, replies, n - 1);
      UploadStep(c, states[n - 1], ops[n - 1], states[n], replies[n - 1], id);
    } else {
      b := n - 1;
      NewlyBegun(c, states[n - 1], ops[n - 1], states[n], replies[n - 1], id);
    }
  }

  lemma NewlyBegun(c: Config, s: St, op: Op, t: St, reply: Reply, id: nat)
    requires Step(c, s, op, t, reply) && id !in s.uploads && id in t.uploads
    ensures op == Begin(t.uploads[id].bucket, t.uploads[id].key) && reply == Begun(id)
  {
    hide Accepted, Refusal, Held, Content, Digest, ETag, SameBut, At;
  }

  // ----- Completing

  /** The part was put since the upload was begun, and the ETag given is that of its data. */
  ghost predicate PartGood(c: Config, ops: seq<Op>, replies: seq<Reply>, b: nat, n: nat, id: nat, part: Part,
      data: Data)
    requires n <= |ops| == |replies|
  {
    Matches(part.etag, Quote(c.md5(data))) && exists i: nat ::
      LatestPart(ops, replies, b, n, i, id, part.number) && PutBy(ops, i, data)
  }

  /** The upload is open, and `data` are the parts listed, as they were put last, in rising numbers. */
  ghost predicate Joins(c: Config, ops: seq<Op>, replies: seq<Reply>, n: nat, op: Op, data: seq<Data>)
    requires n <= |ops| == |replies| && op.Complete?
  {
    && |data| == |op.parts|
    && (forall i, j :: 0 <= i < j < |op.parts| ==> op.parts[i].number < op.parts[j].number)
    && exists b: nat ::
      b < n && Begins(ops, replies, b, op.id, op.bucket, op.key) && OpenSince(ops, replies, b, n, op.id) &&
      forall i :: 0 <= i < |data| ==> PartGood(c, ops, replies, b, n, op.id, op.parts[i], data[i])
  }

  lemma PartGoodMeans(c: Config, ops: seq<Op>, replies: seq<Reply>, b: nat, n: nat, id: nat, parts: map<int, Data>,
      part: Part, data: Data)
    requires n <= |ops| == |replies| && PartsAre(ops, replies, b, n, id, parts)
    ensures PartGood(c, ops, replies, b, n, id, part, data) <==>
      part.number in parts && parts[part.number] == data && Matches(part.etag, Quote(c.md5(data)))
  {
    hide LatestPart, Matches;
    if part.number in parts {
      assert HasPart(ops, replies, b, n, id, part.number);
      var i: nat :| LatestPart(ops, replies, b, n, i, id, part.number);
    }
  }

  /**
   In every run completing an upload takes effect exactly when its bucket is there, its conditions hold, and the
   upload is open and has the parts listed; and the key then holds those parts joined.
   */
  lemma CompleteExactly(c: Config, states: seq<St>, ops: seq<Op>, replies: seq<Reply>, j: nat)
    requires IsRun(c, states, ops, replies) && j < |ops| && ops[j].Complete?
    ensures replies[j].Applied? <==> MayWrite(states[j], ops, replies, j) && exists data ::
      Joins(c, ops, replies, j, ops[j], data)
    ensures replies[j].Applied? ==> exists data ::
      Joins(c, ops, replies, j, ops[j], data) &&
      At(states[j + 1], ops[j].bucket, ops[j].key) == Some(Obj(replies[j].etag, Concat(data)))
  {
    hide Step, At, Matches, Sound, Chunks, Concat, Joins, MayWrite, Met;
    var op := ops[j];
    TakenIfAccepted(c, states, ops, replies, j);
    MayWriteMeans(c, states, ops, replies, j);
    if replies[j].Applied? {
      JoinsChunks(c, states, ops, replies, j);
      StepAt(c, states, ops, replies, j);
      WriteMeans(c, states[j], op, states[j + 1], replies[j]);
    }
    if data :| Joins(c, ops, replies, j, op, data) {
      JoinsSound(c, states, ops, replies, j, data);
    }
  }

  lemma MayWriteMeans(c: Config, states: seq<St>, ops: seq<Op>, replies: seq<Reply>, j: nat)
    requires IsRun(c, states, ops, replies) && j < |ops| && IsWrite(ops[j])
    ensures MayWrite(states[j], ops, replies, j) <==>
      ops[j].bucket in states[j].buckets && Met(ops[j].cond, At(states[j], ops[j].bucket, ops[j].key))
  {
    hide Step, At, Matches, LatestNamed, NoneLatest;
    NamedMeans(c, states, ops, replies, j, ops[j].bucket, ops[j].key, ops[j].cond.ifMatch);
  }

  lemma JoinsChunks(c: Config, states: seq<St>, ops: seq<Op>, replies: seq<Reply>, j: nat)
    requires IsRun(c, states, ops, replies) && j < |ops| && ops[j].Complete?
    requires IsUpload(states[j], ops[j].id, ops[j].bucket, ops[j].key)
    requires Sound(c, states[j].uploads[ops[j].id], ops[j].parts)
    ensures Joins(c, ops, replies, j, ops[j], Chunks(states[j].uploads[ops[j].id], ops[j].parts))
  {
    hide Step, Matches, PartGood, PartsAre;
    var op, u := ops[j], states[j].uploads[ops[j].id];
    var b := WasBegun(c, states, ops, replies, j, op.id);
    UploadHolds(c, states, ops, replies, b, j, op.id, op.bucket, op.key);
    var data := Chunks(u, op.parts);
    forall i | 0 <= i < |data| ensures PartGood(c, ops, replies, b, j, op.id, op.parts[i], data[i]) {
      PartGoodMeans(c, ops, replies, b, j, op.id, u.parts, op.parts[i], data[i]);
    }
  }

  lemma JoinsSound(c: Config, states: seq<St>, ops: seq<Op>, replies: seq<Reply>, j: nat, data: seq<Data>)
    requires IsRun(c, states, ops, replies) && j < |ops| && ops[j].Complete? && Joins(c, ops, replies, j, ops[j], data)
    ensures IsUpload(states[j], ops[j].id, ops[j].bucket, ops[j].key)
    ensures Sound(c, states[j].uploads[ops[j].id], ops[j].parts)
  {
    hide Step, Matches, PartGood, PartsAre;
    var op := ops[j];
    var b: nat :| b < j && Begins(ops, replies, b, op.id, op.bucket, op.key) && OpenSince(ops, replies, b, j, op.id) &&
      forall i :: 0 <= i < |data| ==> PartGood(c, ops, replies, b, j, op.id, op.parts[i], data[i]);
    UploadHolds(c, states, ops, replies, b, j, op.id, op.bucket, op.key);
    var u := states[j].uploads[op.id];
    forall i | 0 <= i < |op.parts|
      ensures op.parts[i].number in u.parts && Matches(op.parts[i].etag, Quote(c.md5(u.parts[op.parts[i].number])))
    {
      PartGoodMeans(c, ops, replies, b, j, op.id, u.parts, op.parts[i], data[i]);
    }
  }

  // ----- Buckets

  /** The operation makes the bucket, or removes it. */
  predicate Makes(op: Op, bucket: string) { op == Make(bucket) }

  predicate Drops(op: Op, reply: Reply, bucket: string) { op == Drop(bucket) && reply == Done }

  /** In every run a bucket is there just when it was made and not removed since. */
  lemma {:induction false} BucketThere(c: Config, states: seq<St>, ops: seq<Op>, replies: seq<Reply>, n: nat,
      bucket: string)
    requires IsRun(c, states, ops, replies) && n <= |ops|
    ensures bucket in states[n].buckets <==> exists i: nat ::
      i < n && Makes(ops[i], bucket) && forall j :: i < j < n ==> !Drops(ops[j], replies[j], bucket)
  {
    hide Step;
    if n > 0 {
      var m := n - 1;
      BucketThere(c, states, ops, replies, m, bucket);
      StepAt(c, states, ops, replies, m);
      BucketStep(c, states[m], ops[m], states[n], replies[m], bucket);
      if Makes(ops[m], bucket) {
        assert m < n && Makes(ops[m], bucket);
      }
    }
  }

  lemma BucketStep(c: Config, s: St, op: Op, t: St, reply: Reply, bucket: string)
    requires Step(c, s, op, t, reply)
    ensures bucket in t.buckets <==> Makes(op, bucket) || (bucket in s.buckets && !Drops(op, reply, bucket))
  {
    hide Accepted, Refusal, Held, Content, Digest, ETag, SameBut, At;
  }
}
