/**
 What the object server promises of its store: what each operation does to the objects, the
 uploads and the numbers it draws, and how it answers (objstore/objstore.go).
 */
module ObjectStore {
  import opened Options
  import opened Seqs
  import opened ETags

  type Data = string

  datatype Obj = Obj(etag: string, data: Data)

  datatype Upload = Upload(bucket: string, key: string, parts: map<int, Data>)

  type Bucket = map<string, Obj>

  /** What the lock guards. Uploads go by the number drawn for them. */
  datatype St = St(buckets: map<string, Bucket>, uploads: map<nat, Upload>, nextID: nat)

  /**
   Whether every write gets an ETag of its own; and the digests that are the ETags otherwise, of
   what is written whole and of what is joined from parts.
   */
  datatype Config = Config(unique: bool, md5: Data -> string, md5Parts: seq<Data> -> string)

  /** A write's conditions: the values of If-None-Match and If-Match, "" for one that is not there. */
  datatype Cond = Cond(ifNoneMatch: string, ifMatch: string)

  /** What a copy asks of its source; `since` stands for the conditions on time, which are refused. */
  datatype SourceCond = SourceCond(since: bool, ifMatch: string, ifNoneMatch: string)

  datatype Part = Part(number: int, etag: string)

  datatype Op =
    | Put(bucket: string, key: string, cond: Cond, data: Data)
    | Copy(bucket: string, key: string, cond: Cond, fromBucket: string, fromKey: string, source: SourceCond)
    | Complete(bucket: string, key: string, cond: Cond, id: nat, parts: seq<Part>)
    | Delete(bucket: string, keys: seq<string>)
    | Make(bucket: string)
    | Drop(bucket: string)
    | Begin(bucket: string, key: string)
    | PutPart(bucket: string, key: string, id: nat, number: int, data: Data)
    | Abort(id: nat)

  datatype Reply = Applied(etag: string) | Removed(keys: seq<string>) | Begun(id: nat) | Done | Denied(code: string)

  function At(s: St, bucket: string, key: string): Option<Obj> {
    if bucket in s.buckets && key in s.buckets[bucket] then Some(s.buckets[bucket][key]) else None
  }

  predicate IsUpload(s: St, id: nat, bucket: string, key: string) {
    id in s.uploads && s.uploads[id].bucket == bucket && s.uploads[id].key == key
  }

  predicate IsWrite(op: Op) {
    op.Put? || op.Copy? || op.Complete?
  }

  // ----- When a write is accepted

  /** The conditions hold of what the key holds (sections 13.1.1 and 13.1.2 of RFC 9110). */
  predicate Met(cond: Cond, cur: Option<Obj>) {
    && (cond.ifNoneMatch != "" ==> cond.ifNoneMatch == "*" && cur.None?)
    && (cond.ifMatch != "" ==> cur.Some? && Matches(cond.ifMatch, cur.value.etag))
  }

  /** The code that conditions which do not hold are answered with. */
  predicate FailsWith(cond: Cond, cur: Option<Obj>, code: string) {
    && !Met(cond, cur)
    && code in {"NotImplemented", "NoSuchKey", "PreconditionFailed"}
    && (code == "NotImplemented" <==> cond.ifNoneMatch !in {"", "*"})
    && (code == "NoSuchKey" <==> cond.ifNoneMatch in {"", "*"} && cond.ifMatch != "" && cur.None?)
  }

  predicate SourceMet(cond: SourceCond, etag: string) {
    && !cond.since
    && (cond.ifMatch != "" ==> Matches(cond.ifMatch, etag))
    && (cond.ifNoneMatch != "" ==> !Matches(cond.ifNoneMatch, etag))
  }

  /** Each part is there, with the ETag given for it, and their numbers rise. */
  ghost predicate Sound(c: Config, u: Upload, parts: seq<Part>) {
    && (forall i :: 0 <= i < |parts| ==> parts[i].number in u.parts)
    && (forall i :: 0 <= i < |parts| ==> Matches(parts[i].etag, Quote(c.md5(u.parts[parts[i].number]))))
    && (forall i, j :: 0 <= i < j < |parts| ==> parts[i].number < parts[j].number)
  }

  /** What the parts hold, and "" for one that is not there. */
  function Chunks(u: Upload, parts: seq<Part>): seq<Data> {
    seq(|parts|, i requires 0 <= i < |parts| => if parts[i].number in u.parts then u.parts[parts[i].number] else "")
  }

  function Concat(chunks: seq<Data>): Data {
    if chunks == [] then "" else Concat(chunks[..|chunks| - 1]) + chunks[|chunks| - 1]
  }

  ghost predicate Accepted(c: Config, s: St, op: Op)
    requires IsWrite(op)
  {
    && op.bucket in s.buckets
    && Met(op.cond, At(s, op.bucket, op.key))
    && (op.Copy? ==>
          var from := At(s, op.fromBucket, op.fromKey);
          from.Some? && SourceMet(op.source, from.value.etag))
    && (op.Complete? ==> IsUpload(s, op.id, op.bucket, op.key) && Sound(c, s.uploads[op.id], op.parts))
  }

  /** Why a write is refused. */
  ghost predicate Refusal(c: Config, s: St, op: Op, code: string)
    requires IsWrite(op)
  {
    if op.Complete? && !IsUpload(s, op.id, op.bucket, op.key) then code == "NoSuchUpload"
    else if op.bucket !in s.buckets then code == "NoSuchBucket"
    else if op.Copy? && At(s, op.fromBucket, op.fromKey).None? then code == "NoSuchKey"
    else if op.Copy? && !SourceMet(op.source, At(s, op.fromBucket, op.fromKey).value.etag) then
      code == if op.source.since then "NotImplemented" else "PreconditionFailed"
    else if !Met(op.cond, At(s, op.bucket, op.key)) then FailsWith(op.cond, At(s, op.bucket, op.key), code)
    else code == "InvalidPart"
  }

  // ----- What a write that is accepted does

  ghost function Content(c: Config, s: St, op: Op): Data
    requires IsWrite(op) && Accepted(c, s, op)
  {
    match op
    case Put(_, _, _, data) => data
    case Copy(_, _, _, bucket, key, _) => At(s, bucket, key).value.data
    case Complete(_, _, _, id, parts) => Concat(Chunks(s.uploads[id], parts))
  }

  /** The ETag a write gets when they are not unique. */
  ghost function Digest(c: Config, s: St, op: Op): string
    requires IsWrite(op) && Accepted(c, s, op)
  {
    match op
    case Put(_, _, _, data) => Quote(c.md5(data))
    case Copy(_, _, _, bucket, key, _) => At(s, bucket, key).value.etag
    case Complete(_, _, _, id, parts) => Quote(c.md5Parts(Chunks(s.uploads[id], parts)))
  }

  /** Every object is as it was but those of the bucket under the keys. */
  ghost predicate SameBut(s: St, t: St, bucket: string, keys: set<string>) {
    forall b, k :: b != bucket || k !in keys ==> At(t, b, k) == At(s, b, k)
  }

  ghost predicate Stored(c: Config, s: St, op: Op, t: St, etag: string)
    requires IsWrite(op) && Accepted(c, s, op)
  {
    && t.buckets.Keys == s.buckets.Keys
    && At(t, op.bucket, op.key) == Some(Obj(etag, Content(c, s, op)))
    && SameBut(s, t, op.bucket, {op.key})
    && t.uploads == (if op.Complete? then s.uploads - {op.id} else s.uploads)
    && t.nextID == (if c.unique then s.nextID + 1 else s.nextID)
    && etag == (if c.unique then ETag(t.nextID) else Digest(c, s, op))
  }

  // ----- What every operation does

  /** The keys of a list a bucket holds, each once, in the order of the list. */
  function Held(b: Bucket, keys: seq<string>): seq<string> {
    if keys == [] then []
    else
      var n := |keys| - 1;
      Held(b, keys[..n]) + if keys[n] in b && keys[n] !in keys[..n] then [keys[n]] else []
  }

  ghost predicate Deleted(s: St, bucket: string, keys: seq<string>, t: St)
  {
    && t.buckets.Keys == s.buckets.Keys
    && (forall k :: k in keys ==> At(t, bucket, k).None?)
    && SameBut(s, t, bucket, set k | k in keys)
    && t.uploads == s.uploads && t.nextID == s.nextID
  }

  /** Only which buckets there are may have changed. */
  ghost predicate SameObjects(s: St, t: St) {
    && (forall b, k :: At(t, b, k) == At(s, b, k))
    && t.uploads == s.uploads && t.nextID == s.nextID
  }

  ghost predicate Refused(s: St, t: St, reply: Reply, code: string) {
    t == s && reply == Denied(code)
  }

  /** An operation takes the store from `s` to `t` with this reply. */
  ghost predicate Step(c: Config, s: St, op: Op, t: St, reply: Reply) {
    match op
    case Delete(bucket, keys) =>
      if bucket !in s.buckets then Refused(s, t, reply, "NoSuchBucket")
      else reply == Removed(Held(s.buckets[bucket], keys)) && Deleted(s, bucket, keys, t)
    case Make(bucket) => reply == Done && SameObjects(s, t) && t.buckets.Keys == s.buckets.Keys + {bucket}
    case Drop(bucket) =>
      if bucket !in s.buckets then Refused(s, t, reply, "NoSuchBucket")
      else if s.buckets[bucket] != map[] then Refused(s, t, reply, "BucketNotEmpty")
      else reply == Done && SameObjects(s, t) && t.buckets.Keys == s.buckets.Keys - {bucket}
    case Begin(bucket, key) =>
      if bucket !in s.buckets then Refused(s, t, reply, "NoSuchBucket")
      else
        && reply == Begun(t.nextID) && t.nextID == s.nextID + 1
        && t.buckets == s.buckets && t.uploads == s.uploads[t.nextID := Upload(bucket, key, map[])]
    case PutPart(bucket, key, id, number, data) =>
      if !IsUpload(s, id, bucket, key) then Refused(s, t, reply, "NoSuchUpload")
      else if !(1 <= number <= 10000) then Refused(s, t, reply, "InvalidArgument")
      else
        && reply == Done && t.buckets == s.buckets && t.nextID == s.nextID
        && t.uploads == s.uploads[id := Upload(bucket, key, s.uploads[id].parts[number := data])]
    case Abort(id) => reply == Done && t == s.(uploads := s.uploads - {id})
    case _ =>
      if Accepted(c, s, op) then reply.Applied? && Stored(c, s, op, t, reply.etag)
      else reply.Denied? && Refused(s, t, reply, reply.code) && Refusal(c, s, op, reply.code)
  }

  const START := St(map[], map[], 0)

  /** A run: the operations, the reply to each, and the state before each and after the last. */
  ghost predicate IsRun(c: Config, states: seq<St>, ops: seq<Op>, replies: seq<Reply>) {
    && |states| == |ops| + 1 && |replies| == |ops|
    && states[0] == START
    && forall i :: 0 <= i < |ops| ==> Step(c, states[i], ops[i], states[i + 1], replies[i])
  }

  lemma RunOn(c: Config, states: seq<St>, ops: seq<Op>, replies: seq<Reply>, op: Op, t: St, reply: Reply)
    requires IsRun(c, states, ops, replies) && Step(c, states[|ops|], op, t, reply)
    ensures IsRun(c, states + [t], ops + [op], replies + [reply])
  {
    hide Step;
  }

  // ----- Steps on the way to a closed form

  lemma ConcatNext(u: Upload, parts: seq<Part>, n: nat)
    requires n < |parts|
    ensures Chunks(u, parts[..n + 1]) == Chunks(u, parts[..n]) + [Chunks(u, parts)[n]]
    ensures Concat(Chunks(u, parts[..n + 1])) == Concat(Chunks(u, parts[..n])) + Chunks(u, parts)[n]
  {
    hide Concat;
    var before := Chunks(u, parts[..n]);
    assert Chunks(u, parts[..n + 1]) == before + [Chunks(u, parts)[n]];
    ConcatMore(before, Chunks(u, parts)[n]);
  }

  lemma ConcatMore(chunks: seq<Data>, more: Data)
    ensures Concat(chunks + [more]) == Concat(chunks) + more
  {
    DropLast(chunks, more);
  }

  lemma HeldNext(b: Bucket, keys: seq<string>, n: nat)
    requires n < |keys|
    ensures Held(b, keys[..n + 1]) ==
      Held(b, keys[..n]) + if keys[n] in b && keys[n] !in keys[..n] then [keys[n]] else []
  {
    TakeNext(keys, n);
    DropLast(keys[..n], keys[n]);
  }

  /** Held names what the bucket has of the keys, each once. */
  lemma {:induction false} HeldMeans(b: Bucket, keys: seq<string>)
    ensures Distinct(Held(b, keys)) && forall k :: k in Held(b, keys) <==> k in keys && k in b
  {
    if keys != [] {
      var n := |keys| - 1;
      HeldMeans(b, keys[..n]);
      assert keys == keys[..n] + [keys[n]];
    }
  }
}
