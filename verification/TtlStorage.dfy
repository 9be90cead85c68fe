/**
 * The key-value map with per-entry time to live that the session store sits on.
 * Expired entries are only reclaimed when a read meets them, so the map that is
 * held and the map that callers can observe differ; `LiveAt` is the latter.
 */
module TtlStorage {
  import opened Wrappers

  datatype Entry<V> = Entry(value: V, expiresAt: Option<int>)

  predicate Alive<V>(e: Entry<V>, now: int) {
    e.expiresAt.None? || now < e.expiresAt.value
  }

  /** What any caller can observe of `m` from instant `now` on. */
  ghost function LiveAt<K(!new), V(!new)>(m: map<K, Entry<V>>, now: int): map<K, Entry<V>> {
    map k | k in m && Alive(m[k], now) :: m[k]
  }

  function Lookup<K, V>(m: map<K, Entry<V>>, k: K): Option<V> {
    if k in m then Some(m[k].value) else None
  }

  /** Storing with a time to live; a lifetime that is not positive stores nothing observable. */
  function Put<K, V>(m: map<K, Entry<V>>, k: K, v: V, now: int, ttlMs: int): map<K, Entry<V>> {
    if 0 < ttlMs then m[k := Entry(v, Some(now + ttlMs))] else m - {k}
  }

  /** Observing later is observing the earlier observation later: nothing expired returns. */
  lemma LiveAtComposes<K(!new), V(!new)>(m: map<K, Entry<V>>, t0: int, t1: int)
    requires t0 <= t1
    ensures LiveAt(LiveAt(m, t0), t1) == LiveAt(m, t1)
  {
  }

  class TtlMap<K(!new, ==), V(!new)> {
    var entries: map<K, Entry<V>>

    constructor ()
      ensures entries == map[]
    {
      entries := map[];
    }

    /** The live value, deleting the entry instead when its lifetime has passed. */
    method Get(k: K, now: int) returns (r: Option<V>)
      modifies this
      ensures r == Lookup(LiveAt(old(entries), now), k)
      ensures LiveAt(entries, now) == LiveAt(old(entries), now)
      ensures entries.Keys <= old(entries).Keys
    {
      if k !in entries {
        return None;
      }
      var entry := entries[k];
      if entry.expiresAt.Some? && entry.expiresAt.value <= now {
        entries := entries - {k};
        return None;
      }
      return Some(entry.value);
    }

    /** Without a lifetime the entry never expires. */
    method Set(k: K, v: V, now: int, ttlMs: Option<int>)
      modifies this
      ensures ttlMs.Some? ==> LiveAt(entries, now) == Put(LiveAt(old(entries), now), k, v, now, ttlMs.value)
      ensures ttlMs.None? ==>
                forall t :: LiveAt(entries, t) == LiveAt(old(entries), t)[k := Entry(v, None)]
    {
      entries := entries[k := Entry(v, if ttlMs.None? then None else Some(now + ttlMs.value))];
    }

    method Delete(k: K)
      modifies this
      ensures entries == old(entries) - {k}
      ensures forall t :: LiveAt(entries, t) == LiveAt(old(entries), t) - {k}
    {
      entries := entries - {k};
    }
  }
}
