/**
 The values an in-process TTL cache stores and the meaning of its four
 operations on a plain map, written as functions. `Local.LocalCache` runs
 these operations on its mutable field; `CacheTraces` reasons about
 sequences of them.

 Time is an integer count of microseconds (the resolution of a Python
 `datetime`) on an arbitrary origin; the caller passes the current instant
 where the source reads the wall clock.
 */
module CacheEntries {

  /** An instant, in microseconds. */
  type Instant = int

  /** `timedelta(n)` is `n` days: 86 400 seconds of 1 000 000 microseconds. */
  const MicrosPerDay: int := 86_400_000_000

  /** A Python object as the cache sees it: `None`, or any other object. */
  datatype PyValue<T> = PyNone | Obj(obj: T)

  /** One cache entry: the stored object and the instant at which it expires. */
  datatype CacheValue<T> = CacheValue(value: PyValue<T>, exp: Instant)

  /** The cache's dictionary from string keys to entries. */
  type Store<T> = map<string, CacheValue<T>>

  /**
   The expiry `set` gives an entry: `expire` is passed as the first
   positional argument of `timedelta`, so it counts DAYS. A positive
   `expire` keeps the entry at least a whole day; zero or less gives an
   entry that has already expired.
   */
  function ExpiryAt(now: Instant, expire: int): (exp: Instant)
    ensures expire > 0 <==> exp > now
    ensures expire > 0 ==> exp - now >= MicrosPerDay
    ensures expire < 0 ==> now - exp >= MicrosPerDay
  {
    now + expire * MicrosPerDay
  }

  /** The entry under `key` is present and its expiry is strictly later than `now`. */
  predicate Live<T>(c: Store<T>, key: string, now: Instant)
  {
    key in c && c[key].exp > now
  }

  /** What `get` returns: the stored object of a live entry, `None` otherwise. */
  function Read<T>(c: Store<T>, key: string, now: Instant): PyValue<T>
  {
    if Live(c, key, now) then c[key].value else PyNone
  }

  /** The dictionary after `get`: untouched on a hit, the key deleted on a miss. */
  function AfterRead<T>(c: Store<T>, key: string, now: Instant): Store<T>
  {
    if Live(c, key, now) then c else Remove(c, key)
  }

  /** The dictionary after `set`: the key bound to a new entry, whatever was there. */
  function Write<T>(c: Store<T>, key: string, value: PyValue<T>, expire: int, now: Instant): Store<T>
  {
    c[key := CacheValue(value, ExpiryAt(now, expire))]
  }

  /** The dictionary after `delete`: the key gone, present before or not. */
  function Remove<T>(c: Store<T>, key: string): Store<T>
  {
    c - {key}
  }

  /** An empty cache misses every key, at every instant. */
  lemma EmptyMisses<T>(key: string, now: Instant)
    ensures Read<T>(map[], key, now) == PyNone
    ensures AfterRead<T>(map[], key, now) == map[]
  {
  }

  /**
   A live entry is returned and nothing changes; an absent key reads `None`
   and nothing changes; a present but expired key reads `None` and only that
   key is removed.
   */
  lemma ReadCases<T>(c: Store<T>, key: string, now: Instant)
    ensures Live(c, key, now) ==> Read(c, key, now) == c[key].value && AfterRead(c, key, now) == c
    ensures key !in c ==> Read(c, key, now) == PyNone && AfterRead(c, key, now) == c
    ensures key in c && c[key].exp <= now ==>
              Read(c, key, now) == PyNone && AfterRead(c, key, now).Keys == c.Keys - {key}
              && forall k :: k in c && k != key ==> AfterRead(c, key, now)[k] == c[k]
  {
  }

  /**
   After `set(key, v, expire)` at `now`, a read of `key` at any instant
   before the new expiry returns `v` and leaves the entry in place.
   */
  lemma WriteThenRead<T>(c: Store<T>, key: string, v: PyValue<T>, expire: int, now: Instant, later: Instant)
    requires later < ExpiryAt(now, expire)
    ensures Read(Write(c, key, v, expire, now), key, later) == v
    ensures AfterRead(Write(c, key, v, expire, now), key, later) == Write(c, key, v, expire, now)
  {
  }

  /**
   `set` with `expire <= 0` stores an entry that is already stale: a read at
   the same or a later instant misses and evicts it, leaving the dictionary
   without the key.
   */
  lemma StaleWrite<T>(c: Store<T>, key: string, v: PyValue<T>, expire: int, now: Instant, later: Instant)
    requires expire <= 0 && now <= later
    ensures Read(Write(c, key, v, expire, now), key, later) == PyNone
    ensures AfterRead(Write(c, key, v, expire, now), key, later) == Remove(c, key)
  {
  }

  /** Two writes of one key: the later one is all that remains. */
  lemma LastWriteWins<T>(c: Store<T>, key: string, v1: PyValue<T>, e1: int, n1: Instant,
                         v2: PyValue<T>, e2: int, n2: Instant)
    ensures Write(Write(c, key, v1, e1, n1), key, v2, e2, n2) == Write(c, key, v2, e2, n2)
  {
  }

  /** Deleting a key twice is deleting it once; deleting an absent key changes nothing. */
  lemma RemoveIdempotent<T>(c: Store<T>, key: string)
    ensures Remove(Remove(c, key), key) == Remove(c, key)
    ensures key !in c ==> Remove(c, key) == c
  {
  }

  /**
   A miss and a hit on a stored `None` return the same thing: from `get`'s
   result alone the caller cannot tell them apart (only the dictionary
   afterwards differs).
   */
  lemma MissLooksLikeStoredNone<T>(key: string, now: Instant)
    ensures var hit := map[key := CacheValue(PyNone, now + 1)];
            Read(hit, key, now) == Read<T>(map[], key, now) == PyNone
            && AfterRead(hit, key, now) != AfterRead<T>(map[], key, now)
  {
  }

  /**
   The same holds of every dictionary: a live entry holding `None` reads
   exactly as the dictionary without that key does.
   */
  lemma StoredNoneReadsAsMiss<T>(c: Store<T>, key: string, now: Instant)
    requires Live(c, key, now) && c[key].value == PyNone
    ensures Read(c, key, now) == Read(Remove(c, key), key, now)
  {
  }

  /**
   `expire` counts days, not seconds: an entry set with `expire == 5` is still
   returned five seconds (and four days) later, and is gone exactly five days later.
   */
  lemma ExpireCountsDays<T>(c: Store<T>, key: string, v: PyValue<T>, now: Instant)
    ensures Read(Write(c, key, v, 5, now), key, now + 5 * 1_000_000 + 1) == v
    ensures Read(Write(c, key, v, 5, now), key, now + 4 * MicrosPerDay) == v
    ensures Read(Write(c, key, v, 5, now), key, now + 5 * MicrosPerDay) == PyNone
  {
  }
}
