/**
 * The compiler's result cache: a bounded map in insertion order. A hit moves its key to the
 * end; storing under a key already there replaces the entry where it stands.
 */
module SourceCache {
  import opened Wrappers

  const MAX_CACHE_ENTRIES: nat := 100
  const CACHE_TTL_MS: int := 300_000

  datatype Entry<V> = Entry(value: V, timestamp: int, lastAccessed: int, hash: string)

  /** `order` lists the keys of `entries`, the next to be evicted first. */
  datatype Cache<V> = Cache(order: seq<string>, entries: map<string, Entry<V>>, hits: nat, misses: nat)

  ghost predicate Valid<V>(c: Cache<V>) {
    && (forall i, j :: 0 <= i < j < |c.order| ==> c.order[i] != c.order[j])
    && (forall k :: k in c.order <==> k in c.entries)
  }

  function Without(keys: seq<string>, key: string): seq<string> {
    if keys == [] then [] else (if keys[0] == key then [] else [keys[0]]) + Without(keys[1..], key)
  }

  predicate Fresh<V>(e: Entry<V>, hash: string, now: int) {
    e.hash == hash && now - e.timestamp <= CACHE_TTL_MS
  }

  function Get<V>(c: Cache<V>, key: string, hash: string, now: int): (Option<V>, Cache<V>) {
    if key !in c.entries || !Fresh(c.entries[key], hash, now) then (None, c.(misses := c.misses + 1))
    else
      var e := c.entries[key];
      (Some(e.value),
       Cache(Without(c.order, key) + [key], c.entries[key := e.(lastAccessed := now)], c.hits + 1, c.misses))
  }

  /** Drops keys from the front while there are too many; an empty key in front stops it. */
  function Evict<V>(c: Cache<V>): Cache<V>
    decreases |c.order|
  {
    if |c.order| <= MAX_CACHE_ENTRIES || c.order[0] == "" then c
    else Evict(c.(order := c.order[1..], entries := c.entries - {c.order[0]}))
  }

  function Stored<V>(c: Cache<V>, key: string, hash: string, value: V, now: int): Cache<V> {
    c.(order := if key in c.entries then c.order else c.order + [key],
       entries := c.entries[key := Entry(value, now, now, hash)])
  }

  function Set<V>(c: Cache<V>, key: string, hash: string, value: V, now: int): Cache<V> {
    Evict(Stored(c, key, hash, value, now))
  }

  function Invalidate<V>(c: Cache<V>, key: string): Cache<V> {
    c.(order := Without(c.order, key), entries := c.entries - {key})
  }

  function Cleared<V>(c: Cache<V>): Cache<V> {
    c.(order := [], entries := map[])
  }

  class SourceCacheImpl<V> {
    var order: seq<string>
    var entries: map<string, Entry<V>>
    var hits: nat
    var misses: nat

    ghost function Now(): Cache<V>
      reads this
    {
      Cache(order, entries, hits, misses)
    }

    constructor ()
      ensures Now() == Cache([], map[], 0, 0)
    {
      order, entries, hits, misses := [], map[], 0, 0;
    }

    method Lookup(key: string, contentHash: string, now: int) returns (r: Option<V>)
      modifies this
      ensures (r, Now()) == Get(old(Now()), key, contentHash, now)
    {
      if key !in entries {
        misses := misses + 1;
        return None;
      }
      var entry := entries[key];
      if entry.hash != contentHash || now - entry.timestamp > CACHE_TTL_MS {
        misses := misses + 1;
        return None;
      }
      hits := hits + 1;
      order := Without(order, key) + [key];
      entries := entries[key := entry.(lastAccessed := now)];
      return Some(entry.value);
    }

    method Store(key: string, contentHash: string, value: V, now: int)
      modifies this
      ensures Now() == Set(old(Now()), key, contentHash, value, now)
    {
      if key !in entries {
        order := order + [key];
      }
      entries := entries[key := Entry(value, now, now, contentHash)];
      while |order| > MAX_CACHE_ENTRIES
        invariant Evict(Now()) == Set(old(Now()), key, contentHash, value, now)
        decreases |order|
      {
        var oldestKey := order[0];
        if oldestKey == "" {
          break;
        }
        order := order[1..];
        entries := entries - {oldestKey};
      }
    }

    method Drop(key: string)
      modifies this
      ensures Now() == Invalidate(old(Now()), key)
    {
      order := Without(order, key);
      entries := entries - {key};
    }

    method Clear()
      modifies this
      ensures Now() == Cleared(old(Now()))
    {
      order, entries := [], map[];
    }
  }

  // ---------------------------------------------------------------------------------------
  // The order and the bound

  lemma {:induction false} WithoutKeepsOrder(keys: seq<string>, key: string)
    requires forall i, j :: 0 <= i < j < |keys| ==> keys[i] != keys[j]
    ensures var r := Without(keys, key);
            && (forall i, j :: 0 <= i < j < |r| ==> r[i] != r[j])
            && (forall k :: k in r <==> k in keys && k != key)
            && |r| == if key in keys then |keys| - 1 else |keys|
  {
    if keys != [] {
      WithoutKeepsOrder(keys[1..], key);
      assert keys == [keys[0]] + keys[1..];
      assert keys[0] !in keys[1..];
    }
  }

  /** The four operations keep the order and the entries in step. */
  lemma OperationsKeepValid<V>(c: Cache<V>, key: string, hash: string, value: V, now: int)
    requires Valid(c)
    ensures Valid(Get(c, key, hash, now).1) && Valid(Invalidate(c, key)) && Valid(Cleared(c))
    ensures |Get(c, key, hash, now).1.order| == |c.order|
    ensures Valid(Stored(c, key, hash, value, now)) && Valid(Set(c, key, hash, value, now))
  {
    WithoutKeepsOrder(c.order, key);
    EvictKeepsValid(Stored(c, key, hash, value, now));
  }

  lemma {:induction false} EvictKeepsValid<V>(c: Cache<V>)
    requires Valid(c)
    ensures Valid(Evict(c)) && Evict(c).entries.Keys <= c.entries.Keys
    ensures forall k :: k in Evict(c).entries ==> Evict(c).entries[k] == c.entries[k]
    decreases |c.order|
  {
    if |c.order| > MAX_CACHE_ENTRIES && c.order[0] != "" {
      var next := c.(order := c.order[1..], entries := c.entries - {c.order[0]});
      assert c.order == [c.order[0]] + next.order;
      EvictKeepsValid(next);
    }
  }

  /**
   * Storing keeps the cache within its bound exactly when it does not push out an empty key:
   * that key stops the eviction. Otherwise a new key drops the one in front, and no other.
   */
  lemma StoreIsBoundedExactly<V>(c: Cache<V>, key: string, hash: string, value: V, now: int)
    requires Valid(c) && |c.order| <= MAX_CACHE_ENTRIES
    ensures var c' := Set(c, key, hash, value, now);
            && (|c'.order| <= MAX_CACHE_ENTRIES <==>
                !(key !in c.entries && |c.order| == MAX_CACHE_ENTRIES && c.order[0] == ""))
            && (forall k :: k in c'.entries <==>
                  (k in c.entries || k == key)
                  && !(key !in c.entries && |c.order| == MAX_CACHE_ENTRIES && k == c.order[0] && k != ""))
  {
    var stored := Stored(c, key, hash, value, now);
    if |stored.order| > MAX_CACHE_ENTRIES && stored.order[0] != "" {
      var dropped := stored.(order := stored.order[1..], entries := stored.entries - {stored.order[0]});
      assert Evict(stored) == Evict(dropped) == dropped;
      assert c.order[0] in c.entries;
    }
  }

  /**
   * Eviction follows hits and first insertions, not writes: in a full cache the key in front
   * that has just been rewritten is the next to go, while one that has just been read stays.
   */
  lemma RewrittenIsEvictedReadIsNot<V>(c: Cache<V>, other: string, hash: string, value: V, now: int)
    requires Valid(c) && |c.order| == MAX_CACHE_ENTRIES && c.order[0] != "" && other !in c.entries
    ensures var key := c.order[0];
            var written := Set(c, key, hash, value, now);
            && key in written.entries && written.order == c.order
            && key !in Set(written, other, hash, value, now).entries
    ensures var key := c.order[0];
            var (hit, read) := Get(c, key, hash, now);
            hit.Some? ==> key in Set(read, other, hash, value, now).entries
  {
    var key := c.order[0];
    OperationsKeepValid(c, key, hash, value, now);
    StoreIsBoundedExactly(Set(c, key, hash, value, now), other, hash, value, now);
    StoreIsBoundedExactly(Get(c, key, hash, now).1, other, hash, value, now);
    WithoutFirst(c.order);
  }

  lemma {:induction false} WithoutFirst(keys: seq<string>)
    requires keys != [] && forall i, j :: 0 <= i < j < |keys| ==> keys[i] != keys[j]
    ensures Without(keys, keys[0]) == keys[1..]
  {
    assert keys[0] !in keys[1..];
    WithoutAbsent(keys[1..], keys[0]);
  }

  lemma {:induction false} WithoutAbsent(keys: seq<string>, key: string)
    requires key !in keys
    ensures Without(keys, key) == keys
  {
    if keys != [] {
      WithoutAbsent(keys[1..], key);
    }
  }
}
