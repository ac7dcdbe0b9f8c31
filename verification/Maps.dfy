/** Maps to lists, in which a key that is missing stands for the empty list. */
module Maps {

  function Lookup<K, V>(m: map<K, seq<V>>, k: K): seq<V> {
    if k in m then m[k] else []
  }

  lemma LookupPut<K, V>(m: map<K, seq<V>>, k: K, s: seq<V>, c: K)
    ensures Lookup(m[k := s], c) == if c == k then s else Lookup(m, c)
  {
  }
}
