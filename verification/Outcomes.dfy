/** Shared result types: a lookup that may find nothing, and a call that may raise. */
module Outcomes {
  datatype Option<+T> = None | Some(value: T) {
    function GetOr(default: T): T {
      if Some? then value else default
    }
  }

  datatype Result<+T, +E> = Ok(value: T) | Err(error: E)

  function Get<K, V>(m: map<K, V>, k: K): Option<V> {
    if k in m then Some(m[k]) else None
  }

  // Maps that answer every lookup alike are the same map.
  lemma SameLookups<K, V>(m: map<K, V>, n: map<K, V>)
    requires forall k :: Get(m, k) == Get(n, k)
    ensures m == n
  {
    assert forall k :: k in m ==> Get(m, k) == Some(m[k]);
    assert forall k :: k in n ==> Get(n, k) == Some(n[k]);
    assert forall k :: k in m <==> Get(m, k).Some?;
    assert forall k :: k in n <==> Get(n, k).Some?;
  }
}
