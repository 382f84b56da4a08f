/** A keyed cache whose entries expire. */
module CacheWithTtls {
  import opened Wrappers

  datatype CacheEntry<+V> = CacheEntry(value: V, setOn: int)

  predicate IsFresh<V>(entry: CacheEntry<V>, ttlMs: int, now: int) {
    now - entry.setOn < ttlMs
  }

  /** What a lookup finds: the value of a fresh entry. */
  function Cached<V>(cache: map<string, CacheEntry<V>>, ttlMs: int, key: string, now: int): Option<V> {
    if key in cache && IsFresh(cache[key], ttlMs, now) then Some(cache[key].value) else None
  }

  class CacheWithTtl<V> {
    const ttlMs: int
    var cache: map<string, CacheEntry<V>>

    constructor (ttlMs: int)
      ensures this.ttlMs == ttlMs && cache == map[]
    {
      this.ttlMs := ttlMs;
      cache := map[];
    }

    /** An expired entry is dropped when it is asked for; no later lookup can tell. */
    method Get(key: string, now: int) returns (value: Option<V>)
      modifies this
      ensures value == Cached(old(cache), ttlMs, key, now)
      ensures value.Some? <==> key in old(cache) && now < old(cache)[key].setOn + ttlMs
      ensures value.Some? ==> value.value == old(cache)[key].value
      ensures cache == if value.None? then old(cache) - {key} else old(cache)
      ensures forall k :: Cached(cache, ttlMs, k, now) == Cached(old(cache), ttlMs, k, now)
    {
      if key !in cache {
        assert cache - {key} == cache;
        return None;
      }
      if !IsFresh(cache[key], ttlMs, now) {
        cache := cache - {key};
        return None;
      }
      return Some(cache[key].value);
    }

    method Set(key: string, value: V, now: int)
      modifies this
      ensures cache == old(cache)[key := CacheEntry(value, now)]
    {
      cache := cache[key := CacheEntry(value, now)];
    }

    /** Exactly the fresh entries stay. */
    method ClearStale(now: int)
      modifies this
      ensures forall k :: k in cache <==> k in old(cache) && now < old(cache)[k].setOn + ttlMs
      ensures forall k :: k in cache ==> cache[k] == old(cache)[k]
    {
      var keys := cache.Keys;
      while keys != {}
        invariant keys <= old(cache).Keys
        invariant forall k :: k in cache ==> k in old(cache) && cache[k] == old(cache)[k]
        invariant forall k :: k in old(cache) ==> (k in cache <==> k in keys || IsFresh(old(cache)[k], ttlMs, now))
        decreases |keys|
      {
        var key :| key in keys;
        keys := keys - {key};
        if !IsFresh(cache[key], ttlMs, now) {
          cache := cache - {key};
        }
      }
    }
  }
}
