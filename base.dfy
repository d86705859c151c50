/** Optional values and map lookups shared by every module of the model.
    Java's `null` (an absent parent, a missing map entry) becomes `None`. */
module Base {

  datatype Option<T> = None | Some(value: T) {
    function GetOr(default: T): T {
      match this
      case Some(v) => v
      case None => default
    }
  }

  /** `HashMap.get`: the value stored under `k`, or `None` when there is none. */
  function Lookup<K, V>(m: map<K, V>, k: K): Option<V> {
    if k in m then Some(m[k]) else None
  }

  /** Two maps that agree on every lookup are the same map. */
  lemma LookupExt<K, V>(a: map<K, V>, b: map<K, V>)
    requires forall k :: Lookup(a, k) == Lookup(b, k)
    ensures a == b
  {
    forall k | k in a
      ensures k in b && a[k] == b[k]
    {
      assert Lookup(a, k) == Lookup(b, k);
    }
    forall k | k in b
      ensures k in a
    {
      assert Lookup(a, k) == Lookup(b, k);
    }
  }
}
