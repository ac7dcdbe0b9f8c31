/**
 The object server's handlers, each the body its lock guards (objstore/objstore.go). The ghost
 fields record every operation and reply, so that what holds of every run holds of the server.
 */
module ObjectServer {
  import opened Options
  import opened Seqs
  import opened ETags
  import opened ObjectStore
  import opened CompareAndSwap

  class Server {
    const c: Config
    var buckets: map<string, Bucket>
    var uploads: map<nat, Upload>
    var nextID: nat
    ghost var states: seq<St>
    ghost var ops: seq<Op>
    ghost var replies: seq<Reply>

    constructor (c: Config)
      ensures this.c == c && Valid() && ops == []
    {
      this.c := c;
      buckets, uploads, nextID := map[], map[], 0;
      states, ops, replies := [START], [], [];
    }

    ghost function Abs(): St
      reads this
    {
      St(buckets, uploads, nextID)
    }

    /** What was done since the server started is a run to where it is now. */
    ghost predicate Valid()
      reads this
    {
      IsRun(c, states, ops, replies) && states[|ops|] == Abs()
    }

    /**
     An operation in state `s` was answered so and is on the record; and if it is a write that took
     effect, it compared and swapped against all on the record before it.
     */
    ghost predicate Follows(s: St, ops0: seq<Op>, replies0: seq<Reply>, op: Op, reply: Reply)
      reads this
    {
      && Valid() && Step(c, s, op, Abs(), reply)
      && ops == ops0 + [op] && replies == replies0 + [reply]
      && Swapped(c, ops, replies, |ops0|)
    }

    /** Adds an operation just done to the record. */
    ghost method Record(s: St, op: Op, reply: Reply)
      requires IsRun(c, states, ops, replies) && states[|ops|] == s && Step(c, s, op, Abs(), reply)
      modifies `states, `ops, `replies
      ensures Follows(s, old(ops), old(replies), op, reply)
    {
      hide Step, Swapped;
      RunOn(c, states, ops, replies, op, Abs(), reply);
      states, ops, replies := states + [Abs()], ops + [op], replies + [reply];
      RunSwaps(c, states, ops, replies, |ops| - 1);
    }

    /** Why the conditions of a write fail, if they do. */
    method Check(cond: Cond, cur: Option<Obj>) returns (why: Option<string>)
      ensures why.None? <==> Met(cond, cur)
      ensures why.Some? ==> FailsWith(cond, cur, why.value)
    {
      hide Matches;
      if cond.ifNoneMatch != "" {
        if cond.ifNoneMatch != "*" {
          return Some("NotImplemented");
        }
        if cur.Some? {
          return Some("PreconditionFailed");
        }
      }
      if cond.ifMatch != "" {
        if cur.None? {
          return Some("NoSuchKey");
        }
        var r := ETagMatch(cond.ifMatch, cur.value.etag);
        if !r {
          return Some("PreconditionFailed");
        }
      }
      why := None;
    }

    method CheckSource(cond: SourceCond, src: Obj) returns (why: Option<string>)
      ensures why.None? <==> SourceMet(cond, src.etag)
      ensures why.Some? ==> why.value == if cond.since then "NotImplemented" else "PreconditionFailed"
    {
      hide Matches;
      if cond.since {
        return Some("NotImplemented");
      }
      if cond.ifMatch != "" {
        var r := ETagMatch(cond.ifMatch, src.etag);
        if !r {
          return Some("PreconditionFailed");
        }
      }
      if cond.ifNoneMatch != "" {
        var r := ETagMatch(cond.ifNoneMatch, src.etag);
        if r {
          return Some("PreconditionFailed");
        }
      }
      why := None;
    }

    /** Draws a number for a new ETag, or takes the one given. */
    method NewETag(plain: string) returns (etag: string)
      modifies `nextID
      ensures nextID == if c.unique then old(nextID) + 1 else old(nextID)
      ensures etag == if c.unique then ETag(nextID) else plain
    {
      if c.unique {
        nextID := nextID + 1;
        return ETag(nextID);
      }
      etag := plain;
    }

    method Put(bucket: string, key: string, cond: Cond, data: Data) returns (reply: Reply)
      requires Valid()
      modifies this
      ensures Follows(old(Abs()), old(ops), old(replies), Op.Put(bucket, key, cond, data), reply)
    {
      hide IsRun, Step, Met, FailsWith, ETag;
      ghost var s, op := Abs(), Op.Put(bucket, key, cond, data);
      if bucket !in buckets {
        reply := Denied("NoSuchBucket");
        WriteRefused(c, s, op, reply.code);
      } else {
        var b := buckets[bucket];
        var why := Check(cond, if key in b then Some(b[key]) else None);
        if why.Some? {
          reply := Denied(why.value);
          WriteRefused(c, s, op, reply.code);
        } else {
          var etag := NewETag(Quote(c.md5(data)));
          buckets := buckets[bucket := b[key := Obj(etag, data)]];
          reply := Applied(etag);
          WriteStored(c, s, op, Abs(), etag);
        }
      }
      Record(s, op, reply);
    }

    method Copy(bucket: string, key: string, cond: Cond, fromBucket: string, fromKey: string, source: SourceCond)
        returns (reply: Reply)
      requires Valid()
      modifies this
      ensures Follows(old(Abs()), old(ops), old(replies),
                      Op.Copy(bucket, key, cond, fromBucket, fromKey, source), reply)
    {
      hide IsRun, Step, Met, FailsWith, SourceMet, ETag;
      ghost var s, op := Abs(), Op.Copy(bucket, key, cond, fromBucket, fromKey, source);
      if bucket !in buckets {
        reply := Denied("NoSuchBucket");
        WriteRefused(c, s, op, reply.code);
      } else if fromBucket !in buckets || fromKey !in buckets[fromBucket] {
        reply := Denied("NoSuchKey");
        WriteRefused(c, s, op, reply.code);
      } else {
        var from, b := buckets[fromBucket][fromKey], buckets[bucket];
        var why := CheckSource(source, from);
        if why.None? {
          why := Check(cond, if key in b then Some(b[key]) else None);
        }
        if why.Some? {
          reply := Denied(why.value);
          WriteRefused(c, s, op, reply.code);
        } else {
          var etag := NewETag(from.etag);
          buckets := buckets[bucket := b[key := Obj(etag, from.data)]];
          reply := Applied(etag);
          WriteStored(c, s, op, Abs(), etag);
        }
      }
      Record(s, op, reply);
    }

    /** Joins the parts of an upload, checking each. */
    method Join(u: Upload, parts: seq<Part>) returns (chunks: Option<seq<Data>>, data: Data)
      ensures chunks.Some? <==> Sound(c, u, parts)
      ensures chunks.Some? ==> chunks.value == Chunks(u, parts) && data == Concat(chunks.value)
    {
      hide Matches, Chunks, Concat;
      data := "";
      var all := [];
      NoChunks(u, parts);
      for n := 0 to |parts|
        invariant Sound(c, u, parts[..n])
        invariant all == Chunks(u, parts[..n]) && data == Concat(all)
      {
        var p := parts[n];
        SoundNext(c, u, parts, n);
        if p.number !in u.parts || (n > 0 && p.number <= parts[n - 1].number) {
          return None, "";
        }
        var r := ETagMatch(p.etag, Quote(c.md5(u.parts[p.number])));
        if !r {
          return None, "";
        }
        ConcatNext(u, parts, n);
        ChunkAt(u, parts, n);
        all, data := all + [u.parts[p.number]], data + u.parts[p.number];
      }
      TakeAll(parts);
      chunks := Some(all);
    }

    method Complete(bucket: string, key: string, cond: Cond, id: nat, parts: seq<Part>) returns (reply: Reply)
      requires Valid()
      modifies this
      ensures Follows(old(Abs()), old(ops), old(replies), Op.Complete(bucket, key, cond, id, parts), reply)
    {
      hide IsRun, Step, Met, FailsWith, Sound, Concat, Chunks, ETag;
      ghost var s, op := Abs(), Op.Complete(bucket, key, cond, id, parts);
      if id !in uploads || uploads[id].bucket != bucket || uploads[id].key != key {
        reply := Denied("NoSuchUpload");
        WriteRefused(c, s, op, reply.code);
      } else if bucket !in buckets {
        reply := Denied("NoSuchBucket");
        WriteRefused(c, s, op, reply.code);
      } else {
        var b := buckets[bucket];
        var why := Check(cond, if key in b then Some(b[key]) else None);
        if why.Some? {
          reply := Denied(why.value);
          WriteRefused(c, s, op, reply.code);
        } else {
          var chunks, data := Join(uploads[id], parts);
          if chunks.None? {
            reply := Denied("InvalidPart");
            WriteRefused(c, s, op, reply.code);
          } else {
            uploads := uploads - {id};
            var etag := NewETag(Quote(c.md5Parts(chunks.value)));
            buckets := buckets[bucket := b[key := Obj(etag, data)]];
            reply := Applied(etag);
            WriteStored(c, s, op, Abs(), etag);
          }
        }
      }
      Record(s, op, reply);
    }

    /** Deletes the keys a bucket has, in turn. */
    method Delete(bucket: string, keys: seq<string>) returns (reply: Reply)
      requires Valid()
      modifies this
      ensures Follows(old(Abs()), old(ops), old(replies), Op.Delete(bucket, keys), reply)
    {
      hide IsRun, Held;
      ghost var s := Abs();
      if bucket !in buckets {
        reply := Denied("NoSuchBucket");
      } else {
        var gone := DeleteAll(bucket, keys);
        reply := Removed(gone);
      }
      Record(s, Op.Delete(bucket, keys), reply);
    }

    method DeleteAll(bucket: string, keys: seq<string>) returns (gone: seq<string>)
      requires bucket in buckets
      modifies `buckets
      ensures Deleted(old(Abs()), bucket, keys, Abs()) && gone == Held(old(buckets)[bucket], keys)
    {
      hide Held;
      var b := buckets[bucket];
      ghost var was := b;
      gone := [];
      NoneHeld(b);
      for n := 0 to |keys|
        invariant buckets == old(buckets) && gone == Held(was, keys[..n])
        invariant forall k :: k in b <==> k in was && k !in keys[..n]
        invariant forall k :: k in b ==> b[k] == was[k]
      {
        HeldNext(was, keys, n);
        TakeNext(keys, n);
        if keys[n] in b {
          b, gone := b - {keys[n]}, gone + [keys[n]];
        }
      }
      TakeAll(keys);
      buckets := buckets[bucket := b];
    }

    method Make(bucket: string) returns (reply: Reply)
      requires Valid()
      modifies this
      ensures Follows(old(Abs()), old(ops), old(replies), Op.Make(bucket), reply)
    {
      hide IsRun;
      ghost var s := Abs();
      if bucket !in buckets {
        buckets := buckets[bucket := map[]];
      }
      reply := Done;
      Record(s, Op.Make(bucket), reply);
    }

    method Drop(bucket: string) returns (reply: Reply)
      requires Valid()
      modifies this
      ensures Follows(old(Abs()), old(ops), old(replies), Op.Drop(bucket), reply)
    {
      hide IsRun;
      ghost var s := Abs();
      if bucket !in buckets {
        reply := Denied("NoSuchBucket");
      } else if buckets[bucket] != map[] {
        reply := Denied("BucketNotEmpty");
      } else {
        buckets := buckets - {bucket};
        reply := Done;
      }
      Record(s, Op.Drop(bucket), reply);
    }

    method Begin(bucket: string, key: string) returns (reply: Reply)
      requires Valid()
      modifies this
      ensures Follows(old(Abs()), old(ops), old(replies), Op.Begin(bucket, key), reply)
      ensures reply.Begun? ==> reply.id !in old(uploads)
    {
      ghost var s := Abs();
      FreshUpload(c, states, ops, replies, |ops|);
      if bucket !in buckets {
        reply := Denied("NoSuchBucket");
      } else {
        nextID := nextID + 1;
        uploads := uploads[nextID := Upload(bucket, key, map[])];
        reply := Begun(nextID);
      }
      Record(s, Op.Begin(bucket, key), reply);
    }

    method PutPart(bucket: string, key: string, id: nat, number: int, data: Data) returns (reply: Reply)
      requires Valid()
      modifies this
      ensures Follows(old(Abs()), old(ops), old(replies), Op.PutPart(bucket, key, id, number, data), reply)
    {
      hide IsRun;
      ghost var s := Abs();
      if id !in uploads || uploads[id].bucket != bucket || uploads[id].key != key {
        reply := Denied("NoSuchUpload");
      } else if number < 1 || number > 10000 {
        reply := Denied("InvalidArgument");
      } else {
        uploads := uploads[id := uploads[id].(parts := uploads[id].parts[number := data])];
        reply := Done;
      }
      Record(s, Op.PutPart(bucket, key, id, number, data), reply);
    }

    method Abort(id: nat) returns (reply: Reply)
      requires Valid()
      modifies this
      ensures Follows(old(Abs()), old(ops), old(replies), Op.Abort(id), reply)
    {
      hide IsRun;
      ghost var s := Abs();
      uploads := uploads - {id};
      reply := Done;
      Record(s, Op.Abort(id), reply);
    }
  }

  // ----- Why the handlers step as they should

  lemma WriteRefused(c: Config, s: St, op: Op, code: string)
    requires IsWrite(op) && !Accepted(c, s, op) && Refusal(c, s, op, code)
    ensures Step(c, s, op, s, Denied(code))
  {
    hide Accepted, Refusal;
  }

  lemma WriteStored(c: Config, s: St, op: Op, t: St, etag: string)
    requires IsWrite(op) && Accepted(c, s, op)
    requires t.buckets == s.buckets[op.bucket := s.buckets[op.bucket][op.key := Obj(etag, Content(c, s, op))]]
    requires t.uploads == if op.Complete? then s.uploads - {op.id} else s.uploads
    requires t.nextID == if c.unique then s.nextID + 1 else s.nextID
    requires etag == if c.unique then ETag(t.nextID) else Digest(c, s, op)
    ensures Step(c, s, op, t, Applied(etag))
  {
    hide Met, SourceMet, Sound, Content, Digest, ETag;
  }

  lemma NoChunks(u: Upload, parts: seq<Part>)
    ensures Chunks(u, parts[..0]) == [] && Concat([]) == ""
  {
  }

  lemma ChunkAt(u: Upload, parts: seq<Part>, n: nat)
    requires n < |parts| && parts[n].number in u.parts
    ensures |Chunks(u, parts)| == |parts| && Chunks(u, parts)[n] == u.parts[parts[n].number]
  {
  }

  /** One more part is right if it is there, after the one before, with its ETag; and if one is wrong, so are all. */
  lemma SoundNext(c: Config, u: Upload, parts: seq<Part>, n: nat)
    requires n < |parts| && Sound(c, u, parts[..n])
    ensures Sound(c, u, parts[..n + 1]) <==>
      && parts[n].number in u.parts && (n > 0 ==> parts[n - 1].number < parts[n].number)
      && Matches(parts[n].etag, Quote(c.md5(u.parts[parts[n].number])))
    ensures Sound(c, u, parts) ==> Sound(c, u, parts[..n + 1])
  {
    hide Matches;
    SoundPrefix(c, u, parts, n + 1);
    if Sound(c, u, parts[..n + 1]) {
      assert parts[..n + 1][n] == parts[n];
      if n > 0 {
        assert parts[..n + 1][n - 1] == parts[n - 1];
      }
    }
    if n > 0 && parts[n - 1].number < parts[n].number {
      assert parts[..n][n - 1] == parts[n - 1];
    }
  }

  lemma SoundPrefix(c: Config, u: Upload, parts: seq<Part>, n: nat)
    requires n <= |parts|
    ensures Sound(c, u, parts) ==> Sound(c, u, parts[..n])
  {
    hide Matches;
  }

  lemma NoneHeld(b: Bucket)
    ensures Held(b, []) == []
  {
  }
}
