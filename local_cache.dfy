/**
 The in-process cache backend: an object owning one mutable dictionary from
 string keys to entries, with `get`, `set`, `delete` and `clear`. Each method
 states the new dictionary (and the result) in terms of the old one.
 */
module Local {
  import opened CacheEntries

  class LocalCache<T> {
    /** The dictionary of entries, replaced or updated by every operation. */
    var cache: Store<T>

    /** A new cache holds no entry, so it misses every key. */
    constructor ()
      ensures cache == map[]
      ensures forall key, now :: Read(cache, key, now) == PyNone
    {
      cache := map[];
    }

    /**
     Returns the object stored under `key` only while its expiry is strictly
     after `now`; otherwise deletes the key (lazy eviction) and returns `None`.
     */
    method Get(key: string, now: Instant) returns (r: PyValue<T>)
      modifies this
      ensures r == Read(old(cache), key, now)
      ensures cache == AfterRead(old(cache), key, now)
      ensures old(Live(cache, key, now)) ==> r == old(cache[key].value) && cache == old(cache)
      ensures key !in old(cache) ==> r.PyNone? && cache == old(cache)
      ensures key in old(cache) && !old(Live(cache, key, now)) ==> r.PyNone? && cache == old(cache) - {key}
    {
      if key in cache && cache[key].exp > now {
        return cache[key].value;
      } else {
        Delete(key);
      }
      return PyNone;
    }

    /** Binds `key` to `value`, expiring `expire` days after `now`, whatever was there. */
    method Set(key: string, value: PyValue<T>, expire: int, now: Instant)
      modifies this
      ensures cache == Write(old(cache), key, value, expire, now)
      ensures cache.Keys == old(cache).Keys + {key}
      ensures cache[key] == CacheValue(value, now + expire * MicrosPerDay)
      ensures forall k :: k in old(cache) && k != key ==> cache[k] == old(cache)[k]
    {
      cache := cache[key := CacheValue(value, ExpiryAt(now, expire))];
    }

    /** Removes `key` if present; an absent key is not an error and changes nothing. */
    method Delete(key: string)
      modifies this
      ensures cache == Remove(old(cache), key)
      ensures key !in old(cache) ==> cache == old(cache)
    {
      if key in cache {
        cache := cache - {key};
      }
    }

    /** Replaces the dictionary with an empty one. */
    method Clear()
      modifies this
      ensures cache == map[]
      ensures forall key, now :: Read(cache, key, now) == PyNone
    {
      cache := map[];
    }
  }

  /**
   A client of the class alone: `set(key, v, expire)` with a positive
   `expire` is read back immediately; a read once the expiry has passed
   misses and leaves the key evicted; `clear` then leaves an empty cache.
   */
  method SetReadExpireClear<T>(key: string, v: PyValue<T>, expire: int, now: Instant)
    returns (first: PyValue<T>, second: PyValue<T>, evicted: bool, emptied: bool)
    requires expire > 0
    ensures first == v
    ensures second.PyNone?
    ensures evicted && emptied
  {
    var c := new LocalCache<T>();
    c.Set(key, v, expire, now);
    first := c.Get(key, now);
    second := c.Get(key, now + expire * MicrosPerDay);
    evicted := key !in c.cache;
    c.Set(key, v, expire, now);
    c.Clear();
    emptied := c.cache == map[];
  }
}
