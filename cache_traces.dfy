/**
 Sequences of cache calls. `Run` replays calls on the cache's dictionary and
 collects what each returns (`set`, `delete` and `clear` return `None`).
 `RunEager` is an independent reference: a cache that never evicts and only
 filters expired entries when reading. While the clock never runs backwards
 the two return the same results, so lazy eviction is invisible to callers.
 */
module CacheTraces {
  import opened CacheEntries

  /** One call on the cache, with the instant it reads the clock at where it does. */
  datatype Op<T> =
    | Get(key: string, now: Instant)
    | Set(key: string, value: PyValue<T>, expire: int, now: Instant)
    | Delete(key: string)
    | Clear

  /** One call: the new dictionary and the value the call returns. */
  function Step<T>(c: Store<T>, op: Op<T>): (Store<T>, PyValue<T>)
  {
    match op
    case Get(key, now) => (AfterRead(c, key, now), Read(c, key, now))
    case Set(key, value, expire, now) => (Write(c, key, value, expire, now), PyNone)
    case Delete(key) => (Remove(c, key), PyNone)
    case Clear => (map[], PyNone)
  }

  /** The calls in order: the final dictionary and one returned value per call. */
  function Run<T>(c: Store<T>, ops: seq<Op<T>>): (r: (Store<T>, seq<PyValue<T>>))
    ensures |r.1| == |ops|
    ensures forall i :: 0 <= i < |ops| && !ops[i].Get? ==> r.1[i] == PyNone
    decreases |ops|
  {
    if ops == [] then (c, [])
    else
      var (c', out) := Step(c, ops[0]);
      var (final, outs) := Run(c', ops[1..]);
      (final, [out] + outs)
  }

  /** The reference cache: `get` never deletes, it only ignores expired entries. */
  function EagerStep<T>(c: Store<T>, op: Op<T>): (Store<T>, PyValue<T>)
  {
    match op
    case Get(key, now) => (c, if key in c && c[key].exp > now then c[key].value else PyNone)
    case Set(key, value, expire, now) => (c[key := CacheValue(value, now + expire * MicrosPerDay)], PyNone)
    case Delete(key) => (c - {key}, PyNone)
    case Clear => (map[], PyNone)
  }

  function RunEager<T>(c: Store<T>, ops: seq<Op<T>>): (Store<T>, seq<PyValue<T>>)
    decreases |ops|
  {
    if ops == [] then (c, [])
    else
      var (c', out) := EagerStep(c, ops[0]);
      var (final, outs) := RunEager(c', ops[1..]);
      (final, [out] + outs)
  }

  /** The clock reading a call makes, or `t` for a call that does not read it. */
  function ClockAfter<T>(op: Op<T>, t: Instant): Instant
  {
    match op
    case Get(_, now) => now
    case Set(_, _, _, now) => now
    case _ => t
  }

  /** Every clock reading in `ops` is at least `t` and at least every earlier one. */
  ghost predicate ClockFrom<T>(ops: seq<Op<T>>, t: Instant)
    decreases |ops|
  {
    ops == [] || (ClockAfter(ops[0], t) >= t && ClockFrom(ops[1..], ClockAfter(ops[0], t)))
  }

  /**
   The lazy dictionary `c` keeps a subset of the reference dictionary `r`,
   entry for entry; what it dropped had expired by `t`.
   */
  ghost predicate Agrees<T>(c: Store<T>, r: Store<T>, t: Instant)
  {
    && (forall k :: k in c ==> k in r && r[k] == c[k])
    && (forall k :: k in r && k !in c ==> r[k].exp <= t)
  }

  lemma {:induction false} AgreesRun<T>(c: Store<T>, r: Store<T>, t: Instant, ops: seq<Op<T>>)
    requires Agrees(c, r, t) && ClockFrom(ops, t)
    ensures Run(c, ops).1 == RunEager(r, ops).1
    decreases |ops|
  {
    if ops != [] {
      var t' := ClockAfter(ops[0], t);
      var (c', _) := Step(c, ops[0]);
      var (r', _) := EagerStep(r, ops[0]);
      assert Step(c, ops[0]).1 == EagerStep(r, ops[0]).1;
      assert Agrees(c', r', t');
      AgreesRun(c', r', t', ops[1..]);
    }
  }

  /**
   Lazy eviction is unobservable: starting from the same dictionary, with a
   clock that never runs backwards, every call returns what the reference
   cache returns.
   */
  lemma LazyEvictionIsTransparent<T>(c: Store<T>, ops: seq<Op<T>>, start: Instant)
    requires ClockFrom(ops, start)
    ensures Run(c, ops).1 == RunEager(c, ops).1
  {
    AgreesRun(c, c, start, ops);
  }

  /**
   No call in `ops` can displace the entry under `key` expiring at `exp`: none
   sets or deletes `key`, none clears, and every read of `key` is before `exp`.
   */
  ghost predicate Untouched<T>(ops: seq<Op<T>>, key: string, exp: Instant)
  {
    forall i :: 0 <= i < |ops| ==>
      match ops[i]
      case Get(k, now) => k == key ==> now < exp
      case Set(k, _, _, _) => k != key
      case Delete(k) => k != key
      case Clear => false
  }

  /** An entry no call displaces is still there, unchanged, after the calls. */
  lemma {:induction false} EntrySurvives<T>(c: Store<T>, key: string, ops: seq<Op<T>>)
    requires key in c && Untouched(ops, key, c[key].exp)
    ensures key in Run(c, ops).0 && Run(c, ops).0[key] == c[key]
    decreases |ops|
  {
    if ops != [] {
      var c' := Step(c, ops[0]).0;
      assert Untouched(ops[1..], key, c[key].exp) by {
        forall i | 0 <= i < |ops[1..]| ensures ops[1..][i] == ops[i + 1] { }
      }
      assert 0 <= 0 < |ops|;
      assert key in c' && c'[key] == c[key];
      EntrySurvives(c', key, ops[1..]);
    }
  }

  /**
   After `set(key, v, expire)` at `now`, a `get(key)` at any later instant
   before the expiry returns `v`, whatever calls on other keys came between,
   as long as none of them was `clear` and no read of `key` came after the expiry.
   */
  lemma SetThenGetHits<T>(c: Store<T>, key: string, v: PyValue<T>, expire: int, now: Instant,
                          between: seq<Op<T>>, later: Instant)
    requires Untouched(between, key, ExpiryAt(now, expire))
    requires later < ExpiryAt(now, expire)
    ensures Run(c, [Set(key, v, expire, now)] + between + [Get(key, later)]).1[|between| + 1] == v
  {
    var c1 := Write(c, key, v, expire, now);
    EntrySurvives(c1, key, between);
    RunAppend(c, [Set(key, v, expire, now)] + between, [Get(key, later)]);
    RunAppend(c, [Set(key, v, expire, now)], between);
  }

  /** Running `a + b` is running `a` and then `b` from where `a` left the dictionary. */
  lemma {:induction false} RunAppend<T>(c: Store<T>, a: seq<Op<T>>, b: seq<Op<T>>)
    ensures Run(c, a + b).0 == Run(Run(c, a).0, b).0
    ensures Run(c, a + b).1 == Run(c, a).1 + Run(Run(c, a).0, b).1
    decreases |a|
  {
    if a != [] {
      assert (a + b)[1..] == a[1..] + b;
      RunAppend(Step(c, a[0]).0, a[1..], b);
    } else {
      assert a + b == b;
    }
  }

  /** The keys `set` in `ops`. */
  function SetKeys<T>(ops: seq<Op<T>>): set<string>
  {
    set i | 0 <= i < |ops| && ops[i].Set? :: ops[i].key
  }

  /** Every key in the dictionary after `ops` was there before or was `set` by one of them. */
  lemma {:induction false} KeysComeFromSets<T>(c: Store<T>, ops: seq<Op<T>>)
    ensures Run(c, ops).0.Keys <= c.Keys + SetKeys(ops)
    decreases |ops|
  {
    if ops != [] {
      var c' := Step(c, ops[0]).0;
      KeysComeFromSets(c', ops[1..]);
      assert c'.Keys <= c.Keys + SetKeys(ops[..1]);
      forall k | k in SetKeys(ops[1..]) ensures k in SetKeys(ops) {
        var i :| 0 <= i < |ops[1..]| && ops[1..][i].Set? && ops[1..][i].key == k;
        assert ops[i + 1] == ops[1..][i];
      }
      forall k | k in SetKeys(ops[..1]) ensures k in SetKeys(ops) {
        assert ops[..1][0] == ops[0];
      }
    }
  }

  /**
   After `clear`, a key that no later call `set`s misses on every read:
   `get(key)` returns `None`.
   */
  lemma ClearedKeyMisses<T>(c: Store<T>, between: seq<Op<T>>, key: string, later: Instant)
    requires key !in SetKeys(between)
    ensures Run(c, [Clear] + between + [Get(key, later)]).1[|between| + 1].PyNone?
  {
    RunAppend(c, [Clear] + between, [Get(key, later)]);
    RunAppend(c, [Clear], between);
    KeysComeFromSets(map[], between);
  }
}
