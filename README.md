# In-process TTL cache of the TMS FastAPI backend, in Dafny

The backend can cache values in process with `LocalCache`
(`app/services/cache/local.py`). The cache is one mutable dictionary from
string keys to `CacheValue(value, exp)` records, with four operations:

- `get(key)` returns the stored value only while the entry's expiry is
  strictly later than the current time. Otherwise it deletes the key (lazy
  eviction) and returns `None`.
- `set(key, value, expire)` overwrites any entry for the key.
- `delete(key)` removes the key and ignores an absent one.
- `clear()` replaces the dictionary with an empty one.

The model has three modules:

- `CacheEntries` (`cache_entries.dfy`) defines the values and the
  effect of each operation on a plain map (`Read`, `AfterRead`, `Write`,
  `Remove`). Its lemmas state the per-call properties.
- `Local` (`local_cache.dfy`) defines the class `LocalCache` with the
  dictionary as a `map` field. Its methods, with `modifies this`, state the
  new dictionary and the result in terms of the old dictionary.
- `CacheTraces` (`cache_traces.dfy`) covers sequences of calls. It replays
  calls (`Run`) and compares them with an independent reference cache that
  never evicts (`RunEager`). Its induction lemmas state what holds across
  calls.

Decisions about the model:

- **Time.** The wall clock `datetime.now()` becomes an explicit `now`
  argument. An instant is an integer count of microseconds, the resolution
  of a Python `datetime`.
- **Days, not seconds.** `timedelta(expire)` passes `expire` as its first
  positional argument, which counts days. So an entry expires
  `expire * 86 400 000 000` microseconds after `now`. The Redis backend
  (`ex=expire`, app/services/cache/redis.py:31) treats the same argument as
  seconds. This model follows the local backend's code: see `ExpiryAt` and
  `ExpireCountsDays`.
- **`None`.** Python's `None` is `PyValue.PyNone`. A miss returns `PyNone`,
  which is also what a stored `None` returns. The two cases are
  indistinguishable from the result alone; see `MissLooksLikeStoredNone`.

## Model

| member | source | states |
|---|---|---|
| `CacheEntries.ExpiryAt` | app/services/cache/local.py:30 | `expire` counts days. The entry is in the future iff `expire > 0`, and then by at least a whole day. A negative `expire` puts it at least a day in the past. |
| `CacheEntries.EmptyMisses` | app/services/cache/local.py:16-26 | An empty dictionary misses every key at every instant and stays empty. |
| `CacheEntries.ReadCases` | app/services/cache/local.py:19-36 | A live entry is returned and nothing changes. An absent key gives `None` and nothing changes (the swallowed `KeyError`). A present expired key gives `None`, and only that key is removed. |
| `CacheEntries.WriteThenRead` | app/services/cache/local.py:22-30 | After `set(key, v, expire)` at `now`, a read at any instant before `now + expire` days returns `v` and keeps the entry. |
| `CacheEntries.StaleWrite` | app/services/cache/local.py:22-30 | With `expire <= 0`, a read at the same or a later instant misses and evicts the key. The dictionary is then the old one without the key. |
| `CacheEntries.LastWriteWins` | app/services/cache/local.py:28-30 | Two `set`s of one key leave only the second entry (unconditional overwrite). |
| `CacheEntries.RemoveIdempotent` | app/services/cache/local.py:32-36 | Deleting twice equals deleting once. Deleting an absent key changes nothing. |
| `CacheEntries.MissLooksLikeStoredNone` | app/services/cache/local.py:22-26 | A live stored `None` and an empty cache return the same `None`. Only the dictionary afterwards differs. |
| `CacheEntries.StoredNoneReadsAsMiss` | app/services/cache/local.py:22-26 | In any dictionary, a live entry holding `None` reads the same as the same dictionary without that key. |
| `CacheEntries.ExpireCountsDays` | app/services/cache/local.py:30 | After `set(key, v, 5)`, `v` is still returned five seconds and four days later, and is gone exactly five days later. |
| `Local.LocalCache.constructor` | app/services/cache/local.py:16-17 | A new cache has an empty dictionary and misses every key. |
| `Local.LocalCache.Get` | app/services/cache/local.py:19-26 | On a live key, returns its value and leaves the dictionary unchanged. On an absent key, returns `None` with no change. On an expired key, returns `None` and removes exactly that key. |
| `Local.LocalCache.Set` | app/services/cache/local.py:28-30 | The key maps to `CacheValue(value, now + expire days)`. Whatever was there before is replaced. Every other key is unchanged. |
| `Local.LocalCache.Delete` | app/services/cache/local.py:32-36 | The new dictionary is the old one without the key. If the key was absent, the dictionary is unchanged. |
| `Local.LocalCache.Clear` | app/services/cache/local.py:38-39 | The dictionary is empty, so every key misses. |
| `Local.SetReadExpireClear` | app/services/cache/local.py:16-39 | Seen by a client of the class: a positive-TTL `set` reads back at once. A read at the expiry misses and leaves the key evicted. `clear` leaves the cache empty. |
| `CacheTraces.Run` | app/services/cache/local.py:19-39 | Replaying calls gives one result per call, and every call other than `get` (`set`, `delete`, `clear`) returns `None`. |
| `CacheTraces.LazyEvictionIsTransparent` | app/services/cache/local.py:19-26 | If the clock never runs backwards, every call returns what a cache that never evicts returns. Lazy eviction is invisible to callers. |
| `CacheTraces.EntrySurvives` | app/services/cache/local.py:19-39 | An entry is displaced only by a `set` or `delete` of its key, a `clear`, or a read of its key at or after its expiry. Without one of those it is unchanged after any calls. |
| `CacheTraces.SetThenGetHits` | app/services/cache/local.py:19-30 | After `set(key, v, expire)`, a later `get(key)` before the expiry returns `v`. This holds whatever calls on other keys came between, as long as none was `clear` and no read of `key` came after the expiry. |
| `CacheTraces.KeysComeFromSets` | app/services/cache/local.py:19-39 | Every key present after a sequence of calls was present before or was `set` by one of them. |
| `CacheTraces.ClearedKeyMisses` | app/services/cache/local.py:19-39 | After `clear`, `get` of a key that no later call `set`s returns `None`. |

## Left out

- `RedisCache` (`app/services/cache/redis.py`) is a wrapper over a networked Redis connection pool with `pickle` serialisation. That is I/O and foreign calls.
- `get_cache` (`app/services/cache/__init__.py`) picks one of two module singletons from an environment variable. The module-level `_local_cache` instance (`local.py:42`) is a plain construction, covered by the constructor.
- `BaseCache` (`app/services/cache/base.py`) is an abstract interface with no behaviour.
- JWT issuance, refresh and verification are not modelled: `create_jwt_token_pair` and `refresh_access_token` are imported at app/handlers/auth.py:9, `_get_token_payload` at app/services/users.py:9, and app/services/auth.py defines only `create_user`.
- The user and post services, password hashing, pydantic schemas, HTTP handlers, database and Celery setup are framework glue.
- The `print` calls in `get` and `set` are console output only.
- Concurrent access to the dictionary is not modelled. The source has no locking, so the model is single-threaded.
- The wall clock is a parameter. `LazyEvictionIsTransparent` assumes the clock never runs backwards. A naive local `datetime.now()` can run backwards, for example on a clock change.
- `Local.LocalCache.Set` does not model the `OverflowError` that Python raises when `timedelta(expire)` or `now + timedelta(expire)` leaves the range of `datetime` (beyond ±999 999 999 days, or outside years 1 to 9999). Instants are unbounded integers.
- Stored values are values, not references. The model does not capture a caller mutating a cached object after `set`, which Python's by-reference storage would show to later `get`s.
