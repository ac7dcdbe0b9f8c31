/**
 A set of configurations kept in buckets by a hash of their bits
 (linearize/linearize.go, cache). Any hash will do.
 */
module ConfigCache {
  import opened Bitset

  datatype Config<S> = Config(ops: Words, state: S)

  datatype Cache<S> = Cache(hash: Words -> int, m: map<int, seq<Config<S>>>, size: nat) {

    function Bucket(c: Config<S>): seq<Config<S>> {
      if hash(c.ops) in m then m[hash(c.ops)] else []
    }

    /** The cache holds exactly the configurations in `seen`. */
    ghost predicate Holds(seen: set<Config<S>>) {
      && (forall h, c :: h in m && c in m[h] && hash(c.ops) == h ==> c in seen)
      && (forall c :: c in seen ==> c in Bucket(c))
      && size == |seen|
    }
  }

  /** Whether a configuration is new, and the cache with it recorded. */
  function Add<S(==)>(cache: Cache<S>, c: Config<S>): (bool, Cache<S>) {
    if c in cache.Bucket(c) then (false, cache)
    else (true, Cache(cache.hash, cache.m[cache.hash(c.ops) := cache.Bucket(c) + [c]], cache.size + 1))
  }

  lemma Added<S>(cache: Cache<S>, c: Config<S>, seen: set<Config<S>>)
    requires cache.Holds(seen)
    ensures Add(cache, c).0 <==> c !in seen
    ensures Add(cache, c).1.Holds(seen + {c})
  {
    var h := cache.hash(c.ops);
    assert c in cache.Bucket(c) ==> h in cache.m && c in cache.m[h];
    if c in seen {
      assert seen + {c} == seen;
    }
  }
}
