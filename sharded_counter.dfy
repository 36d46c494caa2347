/**
 * The sharded counter of the site builder's utilities (`ShardedCounter` and `CounterGrowTask`).
 *
 * A named counter spreads its total over several datastore records ("shards") so that concurrent
 * increments seldom touch the same record. Memcache holds three soft entries per counter (the shard
 * count, the total and an error tally), and a deferred task adds shards after conflicts.
 *
 * The datastore, memcache and the task queue are the fields of one `Services` object. The random
 * shard choice and the way the datastore transaction of an increment ends are inputs of
 * `ShardedCounter.Increment`; memcache eviction and expiry are the explicit step `Services.Evict`.
 */
module ShardedCounters {
  import opened Wrappers

  /** A datastore key: a kind and a name, below an optional parent key. */
  datatype Key = Root(kind: string, name: string) | Child(parent: Key, kind: string, name: string)

  const COUNTER_KIND := "shard-counter"
  const NAME_PREFIX := "sharded-counter-"
  const CACHE_COUNT_PREFIX := "Count:"
  const CACHE_ERROR_PREFIX := "Errors"
  const CACHE_SHARDS_PREFIX := "Shards:"
  const CACHE_TASK_PREFIX := "GrowTask:"
  const DEBOUNCE_DURATION := 5000

  /** The key under which the constructor creates the counter `name`. */
  function CounterKey(name: string): Key
  {
    Child(Root("root", "shard-counter-root"), COUNTER_KIND, NAME_PREFIX + name)
  }

  /** The key under which `counterByName` looks the counter `name` up. */
  function LookupKey(name: string): Key
  {
    Child(Root("root", "sharded-counter-root"), "sharded-counter", NAME_PREFIX + name)
  }

  /** The stored counter entity: its key and its `shard-count`, `counter-name` and `error-count` properties. */
  datatype CounterEntity = CounterEntity(key: Key, shardCount: int, counterName: string, errorCount: int)

  /** A queued `CounterGrowTask`: the cache key of the error tally, the counter's key and the countdown. */
  datatype GrowTask = GrowTask(errorCountKey: string, counterKey: Key, countdownMillis: int)

  /** How the datastore transaction of `increment` ends. The shard `put` carries no transaction
      argument, so it joins the transaction begun just before; a ConcurrentModificationException,
      on the read or on the commit, discards it and the transaction is rolled back. */
  datatype Commit =
    | Committed   // the shard is written and the transaction commits
    | Conflict    // ConcurrentModificationException: no shard is written

  /** The datastore, memcache and the default task queue. */
  class Services {
    /** Counter entities in the datastore, by key. */
    var counters: map<Key, CounterEntity>
    /** Shard records in the datastore: for each counter key, the `count` of each shard number. */
    var shards: map<Key, map<nat, int>>
    /** Memcache entries; a `GrowTask:` entry holds the position of its task in `queue` (its handle). */
    var cache: map<string, int>
    /** Tasks added to the queue, oldest first. */
    var queue: seq<GrowTask>

    /** Every stored counter sits under its own key and has the counter kind. */
    ghost predicate Valid()
      reads this
    {
      forall k :: k in counters ==> counters[k].key == k && k.kind == COUNTER_KIND
    }

    constructor ()
      ensures Valid()
      ensures counters == map[] && shards == map[] && cache == map[] && queue == []
    {
      counters, shards, cache, queue := map[], map[], map[], [];
    }

    /** Memcache drops entry `k`: an eviction, or the expiry of a `GrowTask:` entry. */
    method Evict(k: string)
      modifies this
      ensures cache == old(cache) - {k}
      ensures counters == old(counters) && shards == old(shards) && queue == old(queue)
    {
      cache := cache - {k};
    }
  }

  /** `counterByName` never finds a stored counter: its lookup key has another kind. */
  lemma LookupMissesStoredCounters(services: Services, name: string)
    requires services.Valid()
    ensures LookupKey(name) !in services.counters
    ensures forall other :: LookupKey(name) != CounterKey(other)
  {
    assert LookupKey(name).kind != COUNTER_KIND by {
      assert |"sharded-counter"| != |COUNTER_KIND|;
    }
  }

  // ---------------------------------------------------------------------------------------------
  // Memcache and datastore helpers

  /** memcache `increment(k, delta)`: changes an existing entry and creates none. */
  function Bumped(cache: map<string, int>, k: string, delta: int): (c: map<string, int>)
    ensures c.Keys == cache.Keys
    ensures forall j :: j in c ==> c[j] == cache[j] + (if j == k then delta else 0)
  {
    if k in cache then cache[k := cache[k] + delta] else cache
  }

  /** memcache `increment(k, delta, initial)`: an absent entry is first set to `initial`, then incremented. */
  function BumpedOrSeeded(cache: map<string, int>, k: string, delta: int, initial: int): (c: map<string, int>)
    ensures c.Keys == cache.Keys + {k}
    ensures k in cache ==> c == Bumped(cache, k, delta)
    ensures k !in cache ==> c == cache[k := initial + delta]
  {
    cache[k := (if k in cache then cache[k] else initial) + delta]
  }

  /** The value `run` reads for the tally `k`: `-1` when the entry is absent. */
  function TallyOr(cache: map<string, int>, k: string): int
  {
    if k in cache then cache[k] else -1
  }

  /** The shard records of the counter `key`: none before its first increment. */
  function ShardsOf(shards: map<Key, map<nat, int>>, key: Key): map<nat, int>
  {
    if key in shards then shards[key] else map[]
  }

  /** The stored `count` of shard `i`, if that shard exists. */
  function Lookup(m: map<nat, int>, i: nat): Option<int>
  {
    if i in m then Some(m[i]) else None
  }

  // ---------------------------------------------------------------------------------------------
  // The total of a counter's shards

  /** The sum of the `count` of the shards numbered in `ks`, in any order. */
  ghost function TotalOver(m: map<nat, int>, ks: set<nat>): int
    requires ks <= m.Keys
    decreases ks
  {
    if ks == {} then 0
    else
      var k :| k in ks;
      m[k] + TotalOver(m, ks - {k})
  }

  /** The sum of the `count` of all shard records. */
  ghost function Total(m: map<nat, int>): int
  {
    TotalOver(m, m.Keys)
  }

  /** The sum does not depend on which shard is taken first. */
  lemma {:induction false} TotalOverRemove(m: map<nat, int>, ks: set<nat>, k: nat)
    requires ks <= m.Keys && k in ks
    ensures TotalOver(m, ks) == m[k] + TotalOver(m, ks - {k})
    decreases ks
  {
    var j :| j in ks && TotalOver(m, ks) == m[j] + TotalOver(m, ks - {j});
    if j != k {
      TotalOverRemove(m, ks - {j}, k);
      TotalOverRemove(m, ks - {k}, j);
      assert ks - {j} - {k} == ks - {k} - {j};
    }
  }

  /** Two shard maps that agree on `ks` have the same sum over `ks`. */
  lemma {:induction false} TotalOverAgree(m1: map<nat, int>, m2: map<nat, int>, ks: set<nat>)
    requires ks <= m1.Keys && ks <= m2.Keys
    requires forall k :: k in ks ==> m1[k] == m2[k]
    ensures TotalOver(m1, ks) == TotalOver(m2, ks)
    decreases ks
  {
    if ks != {} {
      var k :| k in ks && TotalOver(m1, ks) == m1[k] + TotalOver(m1, ks - {k});
      TotalOverAgree(m1, m2, ks - {k});
      TotalOverRemove(m2, ks, k);
    }
  }

  /** Writing `v` into shard `i` changes the total by `v` minus the shard's previous count. */
  lemma TotalUpdate(m: map<nat, int>, i: nat, v: int)
    ensures Total(m[i := v]) == Total(m) + v - (if i in m then m[i] else 0)
  {
    var m' := m[i := v];
    TotalOverRemove(m', m'.Keys, i);
    var rest := m'.Keys - {i};
    TotalOverAgree(m', m, rest);
    if i in m {
      TotalOverRemove(m, m.Keys, i);
      assert m.Keys - {i} == rest;
    } else {
      assert m.Keys == rest;
    }
  }

  /**
   * The `count` that `increment` writes for a shard as written: 1 for a new shard, and for an
   * existing one the value of `count++`, which is the count before the increment.
   */
  function WrittenCount(existing: Option<int>): int
  {
    match existing
    case None => 1
    case Some(count) => count
  }

  /** The `count` the increment evidently means to write: one more than before, or 1 for a new shard. */
  function IntendedCount(existing: Option<int>): int
  {
    match existing
    case None => 1
    case Some(count) => count + 1
  }

  /** As written, an increment raises the total only when it creates the shard. */
  lemma WrittenCountGrowsOnlyNewShards(m: map<nat, int>, i: nat)
    ensures Total(m[i := WrittenCount(Lookup(m, i))]) == Total(m) + (if i in m then 0 else 1)
  {
    TotalUpdate(m, i, WrittenCount(Lookup(m, i)));
  }

  /** With the intended write, every increment raises the total by exactly one. */
  lemma IntendedCountAddsOne(m: map<nat, int>, i: nat)
    ensures Total(m[i := IntendedCount(Lookup(m, i))]) == Total(m) + 1
  {
    TotalUpdate(m, i, IntendedCount(Lookup(m, i)));
  }

  /** The shard records after an increment writes shard `i` of the counter `key`. */
  function WriteShard(shards: map<Key, map<nat, int>>, key: Key, i: nat): map<Key, map<nat, int>>
  {
    var m := ShardsOf(shards, key);
    shards[key := m[i := WrittenCount(Lookup(m, i))]]
  }

  // ---------------------------------------------------------------------------------------------
  // CounterGrowTask

  /** The cache and the queue after `debounceTask(counterName, errorCountKey, counterKey)`. */
  function Debounced(cache: map<string, int>, queue: seq<GrowTask>, counterName: string,
                     errorCountKey: string, counterKey: Key): (map<string, int>, seq<GrowTask>)
  {
    var taskKey := CACHE_TASK_PREFIX + counterName;
    if taskKey in cache then (cache, queue)
    else (cache[taskKey := |queue|], queue + [GrowTask(errorCountKey, counterKey, DEBOUNCE_DURATION)])
  }

  /** Successive `debounceTask` calls for one counter name, each with its tally key and counter key. */
  function DebouncedAll(cache: map<string, int>, queue: seq<GrowTask>, counterName: string,
                        calls: seq<(string, Key)>): (map<string, int>, seq<GrowTask>)
    decreases |calls|
  {
    if calls == [] then (cache, queue)
    else
      var (c, q) := Debounced(cache, queue, counterName, calls[0].0, calls[0].1);
      DebouncedAll(c, q, counterName, calls[1..])
  }

  /**
   * The tally a conflict leaves in the cache (`increment(key, 1, 1)`, then `debounceTask`): an
   * existing tally rises by one, and an absent one is seeded with 1 and incremented, so the first
   * conflict leaves 2. The `GrowTask:` entry the debounce may add is a different key.
   */
  lemma ConflictTally(cache: map<string, int>, queue: seq<GrowTask>, counterName: string,
                      name: string, counterKey: Key)
    ensures var errKey := CACHE_ERROR_PREFIX + name;
            var c := Debounced(BumpedOrSeeded(cache, errKey, 1, 1), queue, counterName, errKey, counterKey).0;
      && errKey in c
      && (errKey !in cache ==> c[errKey] == 2)
      && (errKey in cache ==> c[errKey] == cache[errKey] + 1)
  {
  }

  /**
   * While the `GrowTask:` entry is not evicted, any number of calls enqueue at most one task, with
   * the 5000 ms countdown: exactly one, the first call's, when the entry was absent, and none at
   * all when it was already there.
   */
  lemma {:induction false} DebounceEnqueuesOnce(cache: map<string, int>, queue: seq<GrowTask>,
                                                    counterName: string, calls: seq<(string, Key)>)
    ensures var (c, q) := DebouncedAll(cache, queue, counterName, calls);
      && |queue| <= |q| <= |queue| + 1
      && q[..|queue|] == queue
      && (forall t :: t in q[|queue|..] ==> t.countdownMillis == DEBOUNCE_DURATION)
      && (CACHE_TASK_PREFIX + counterName in cache ==> c == cache && q == queue)
      && (CACHE_TASK_PREFIX + counterName !in cache && calls != [] ==>
            q == queue + [GrowTask(calls[0].0, calls[0].1, DEBOUNCE_DURATION)])
      && (calls != [] ==> CACHE_TASK_PREFIX + counterName in c)
    decreases |calls|
  {
    if calls != [] {
      var (c, q) := Debounced(cache, queue, counterName, calls[0].0, calls[0].1);
      DebounceEnqueuesOnce(c, q, counterName, calls[1..]);
      if CACHE_TASK_PREFIX + counterName !in cache {
        DebounceStaysOnce(c, q, counterName, calls[1..]);
      }
    }
  }

  /** Once the `GrowTask:` entry is present, further calls change nothing. */
  lemma {:induction false} DebounceStaysOnce(cache: map<string, int>, queue: seq<GrowTask>,
                                            counterName: string, calls: seq<(string, Key)>)
    requires CACHE_TASK_PREFIX + counterName in cache
    ensures DebouncedAll(cache, queue, counterName, calls) == (cache, queue)
    decreases |calls|
  {
    if calls != [] {
      DebounceStaysOnce(cache, queue, counterName, calls[1..]);
    }
  }

  /** `CounterGrowTask.debounceTask`: enqueue a grow task unless one was enqueued within the last 5000 ms. */
  method DebounceTask(services: Services, counterName: string, errorCountKey: string, counterKey: Key)
    modifies services
    ensures (services.cache, services.queue)
         == Debounced(old(services.cache), old(services.queue), counterName, errorCountKey, counterKey)
    ensures services.counters == old(services.counters) && services.shards == old(services.shards)
  {
    var taskKey := CACHE_TASK_PREFIX + counterName;
    if taskKey !in services.cache {
      var handle := |services.queue|;
      services.queue := services.queue + [GrowTask(errorCountKey, counterKey, DEBOUNCE_DURATION)];
      services.cache := services.cache[taskKey := handle];
    }
  }

  /** The number of shards `run` adds for the tally it read (`-1` when the tally was absent). */
  function GrowthDelta(errors: int): int
  {
    if errors > 2 then errors / 2 else 2
  }

  /** As written, a tally of 3 adds one shard, fewer than the tallies 2 and 4 (and an absent tally) add. */
  lemma GrowthDeltaDips()
    ensures GrowthDelta(3) == 1
    ensures GrowthDelta(-1) == GrowthDelta(2) == GrowthDelta(4) == 2
    ensures exists e1, e2 :: e1 < e2 && GrowthDelta(e1) > GrowthDelta(e2)
  {
    assert GrowthDelta(2) > GrowthDelta(3);
  }

  /** The growth the task evidently means: half the tally, but never fewer than two shards. */
  function IntendedGrowthDelta(errors: int): int
  {
    if errors > 4 then errors / 2 else 2
  }

  /** The intended delta is at least 2, grows with the tally, and differs from the written one only at 3. */
  lemma IntendedGrowthDeltaProperties(e1: int, e2: int)
    ensures IntendedGrowthDelta(e1) >= 2
    ensures e1 <= e2 ==> IntendedGrowthDelta(e1) <= IntendedGrowthDelta(e2)
    ensures e1 != 3 ==> IntendedGrowthDelta(e1) == GrowthDelta(e1)
    ensures e1 > 4 ==> 2 * IntendedGrowthDelta(e1) <= e1 < 2 * IntendedGrowthDelta(e1) + 2
  {
  }

  // ---------------------------------------------------------------------------------------------
  // ShardedCounter

  /** A counter object: the in-memory copy of its entity and its three cache keys. */
  class ShardedCounter {
    const services: Services
    var ent: CounterEntity
    var name: string
    const cacheCountKey: string
    const cacheShardsKey: string
    const cacheErrorKey: string

    /** The cache keys belong to the entity's key, which has the counter kind. */
    ghost predicate Valid()
      reads this
    {
      && ent.key.kind == COUNTER_KIND
      && cacheCountKey == CACHE_COUNT_PREFIX + ent.key.name
      && cacheShardsKey == CACHE_SHARDS_PREFIX + ent.key.name
      && cacheErrorKey == CACHE_ERROR_PREFIX + ent.key.name
    }

    /** A new counter `name` with `initialShards` shards; it is cached but not stored yet. */
    constructor (services: Services, name: string, initialShards: int)
      modifies services
      ensures Valid() && this.services == services
      ensures ent == CounterEntity(CounterKey(name), initialShards, name, 0) && this.name == name
      ensures services.cache == old(services.cache)[cacheShardsKey := initialShards][cacheErrorKey := 0]
      ensures services.counters == old(services.counters) && services.shards == old(services.shards)
      ensures services.queue == old(services.queue)
    {
      var key := CounterKey(name);
      this.services := services;
      ent := CounterEntity(key, initialShards, name, 0);
      cacheCountKey := CACHE_COUNT_PREFIX + key.name;
      cacheShardsKey := CACHE_SHARDS_PREFIX + key.name;
      cacheErrorKey := CACHE_ERROR_PREFIX + key.name;
      this.name := name;
      new;
      services.cache := services.cache[cacheShardsKey := initialShards][cacheErrorKey := 0];
    }

    /** A counter object for the stored entity `src`; it caches the entity's shard count and error count. */
    constructor FromEntity(services: Services, src: CounterEntity)
      requires src.key.kind == COUNTER_KIND
      modifies services
      ensures Valid() && this.services == services
      ensures ent == src && name == src.counterName
      ensures services.cache == old(services.cache)[cacheShardsKey := src.shardCount][cacheErrorKey := src.errorCount]
      ensures services.counters == old(services.counters) && services.shards == old(services.shards)
      ensures services.queue == old(services.queue)
    {
      this.services := services;
      ent := src;
      cacheCountKey := CACHE_COUNT_PREFIX + src.key.name;
      cacheShardsKey := CACHE_SHARDS_PREFIX + src.key.name;
      cacheErrorKey := CACHE_ERROR_PREFIX + src.key.name;
      name := src.counterName;
      new;
      services.cache := services.cache[cacheShardsKey := src.shardCount][cacheErrorKey := src.errorCount];
    }

    /** The entity `fetchDatastore` leaves in `ent`: the stored one, or the current one when none is stored. */
    ghost function Fetched(): CounterEntity
      reads this, services
    {
      if ent.key in services.counters then services.counters[ent.key] else ent
    }

    /** The value `getShardCount` returns in the current state. */
    ghost function ShardCountNow(): int
      reads this, services
    {
      if cacheShardsKey in services.cache then services.cache[cacheShardsKey] else Fetched().shardCount
    }

    /** `getShardCount`: the cached shard count, or else the stored one, which it then caches. */
    method GetShardCount() returns (n: int)
      requires Valid() && services.Valid()
      modifies this
      modifies services`cache
      ensures Valid() && ent.key == old(ent.key) && name == old(name)
      ensures n == old(ShardCountNow())
      ensures services.cache == old(services.cache)[cacheShardsKey := n]
      ensures ent == if cacheShardsKey in old(services.cache) then old(ent) else old(Fetched())
    {
      if cacheShardsKey in services.cache {
        n := services.cache[cacheShardsKey];
      } else {
        if ent.key in services.counters {
          ent := services.counters[ent.key];
        }
        n := ent.shardCount;
        services.cache := services.cache[cacheShardsKey := n];
      }
    }

    /**
     * `addShards(delta)`: stores `getShardCount() + delta` as the shard count and raises the cached
     * shard count by `delta`, so that afterwards the cache and the datastore agree.
     */
    method AddShards(delta: int)
      requires Valid() && services.Valid()
      modifies this, services
      ensures Valid() && services.Valid() && ent.key == old(ent.key) && name == old(name)
      ensures ent == (if cacheShardsKey in old(services.cache) then old(ent) else old(Fetched()))
                       .(shardCount := old(ShardCountNow()) + delta)
      ensures services.counters == old(services.counters)[ent.key := ent]
      ensures services.cache == old(services.cache)[cacheShardsKey := ent.shardCount]
      ensures services.shards == old(services.shards) && services.queue == old(services.queue)
    {
      var shardCount := GetShardCount();
      shardCount := shardCount + delta;
      ent := ent.(shardCount := shardCount);
      services.counters := services.counters[ent.key := ent];
      if cacheShardsKey in services.cache {
        services.cache := services.cache[cacheShardsKey := services.cache[cacheShardsKey] + delta];
      }
    }

    /**
     * `increment`: picks shard `nextInt(n)` of the `n` shards `getShardCount` reports and writes it;
     * `nextInt` stands for `Random.nextInt`, which throws for a bound that is not positive.
     * After a commit the cached total, if present, rises by one. After a conflict the error tally
     * rises by one and a grow task is debounced; the increment is not retried.
     */
    method Increment(nextInt: int -> int, commit: Commit) returns (r: Result<(), string>)
      requires Valid() && services.Valid()
      requires forall bound :: bound > 0 ==> 0 <= nextInt(bound) < bound
      modifies this, services
      ensures Valid() && services.Valid() && ent.key == old(ent.key) && name == old(name)
      ensures ent == if cacheShardsKey in old(services.cache) then old(ent) else old(Fetched())
      ensures services.counters == old(services.counters)
      ensures var n := old(ShardCountNow());
              var c := old(services.cache)[cacheShardsKey := n];
        && (n <= 0 ==> r.Err? && services.cache == c && services.shards == old(services.shards)
                       && services.queue == old(services.queue))
        && (n > 0 ==> r.Ok?)
        && (n > 0 && commit == Committed ==>
              services.shards == WriteShard(old(services.shards), ent.key, nextInt(n)))
        && (n > 0 && commit == Conflict ==> services.shards == old(services.shards))
        && (n > 0 && commit == Committed ==>
              services.cache == Bumped(c, cacheCountKey, 1) && services.queue == old(services.queue))
        && (n > 0 && commit != Committed ==>
              (services.cache, services.queue)
              == Debounced(BumpedOrSeeded(c, cacheErrorKey, 1, 1), old(services.queue),
                           ent.key.name, cacheErrorKey, ent.key))
    {
      var shardCount := GetShardCount();
      if shardCount <= 0 {
        return Err("IllegalArgumentException: bound must be positive");
      }
      var shardNum: nat := nextInt(shardCount);
      if commit == Committed {
        var m := ShardsOf(services.shards, ent.key);
        var count := WrittenCount(Lookup(m, shardNum));
        services.shards := services.shards[ent.key := m[shardNum := count]];
        if cacheCountKey in services.cache {
          services.cache := services.cache[cacheCountKey := services.cache[cacheCountKey] + 1];
        }
      } else {
        var tally := if cacheErrorKey in services.cache then services.cache[cacheErrorKey] else 1;
        services.cache := services.cache[cacheErrorKey := tally + 1];
        DebounceTask(services, ent.key.name, cacheErrorKey, ent.key);
      }
      return Ok(());
    }

    /**
     * `getCount`: the cached total, or else the sum of the `count` of every shard record under the
     * counter's key, which it then caches.
     */
    method GetCount() returns (val: int)
      requires Valid()
      modifies services`cache
      ensures cacheCountKey in old(services.cache) ==>
                val == old(services.cache[cacheCountKey]) && services.cache == old(services.cache)
      ensures cacheCountKey !in old(services.cache) ==>
                val == Total(ShardsOf(services.shards, ent.key))
                && services.cache == old(services.cache)[cacheCountKey := val]
    {
      var countKey := CACHE_COUNT_PREFIX + ent.key.name;
      if countKey in services.cache {
        val := services.cache[countKey];
      } else {
        var records := ShardsOf(services.shards, ent.key);
        var pending := records.Keys;
        val := 0;
        while pending != {}
          invariant pending <= records.Keys
          invariant services.cache == old(services.cache)
          invariant val + TotalOver(records, pending) == Total(records)
          decreases pending
        {
          var k :| k in pending;
          TotalOverRemove(records, pending, k);
          val := val + records[k];
          pending := pending - {k};
        }
        services.cache := services.cache[countKey := val];
      }
    }
  }

  // ---------------------------------------------------------------------------------------------
  // Finding a counter by name, and the grow task

  /**
   * `new ShardedCounter(src)` where the source may throw: an entity of another kind is refused
   * with IllegalArgumentException.
   */
  method Wrap(services: Services, src: CounterEntity) returns (r: Result<ShardedCounter, string>)
    modifies services
    ensures r.Err? <==> src.key.kind != COUNTER_KIND
    ensures r.Err? ==> services.cache == old(services.cache)
    ensures r.Ok? ==> fresh(r.value) && r.value.Valid() && r.value.services == services && r.value.ent == src
    ensures r.Ok? ==> services.cache == old(services.cache)[r.value.cacheShardsKey := src.shardCount]
                                                           [r.value.cacheErrorKey := src.errorCount]
    ensures services.counters == old(services.counters) && services.shards == old(services.shards)
    ensures services.queue == old(services.queue)
  {
    if src.key.kind != COUNTER_KIND {
      return Err("IllegalArgumentException: the given Entity is not of kind shard-counter");
    }
    var counter := new ShardedCounter.FromEntity(services, src);
    return Ok(counter);
  }

  /**
   * The body of `counterByName` with the lookup key as a parameter: wrap the entity stored under
   * `key`; when there is none, create, store and return a counter with `shards` shards if
   * `shards > 0`, and return nothing otherwise. A wrap that throws is caught and gives nothing.
   */
  method FindOrCreate(services: Services, key: Key, name: string, shards: int) returns (r: Option<ShardedCounter>)
    modifies services
    ensures key in old(services.counters) ==>
              && (r.Some? <==> old(services.counters[key]).key.kind == COUNTER_KIND)
              && services.counters == old(services.counters)
              && (r.Some? ==> r.value.ent == old(services.counters[key])
                              && services.cache == old(services.cache)[r.value.cacheShardsKey := r.value.ent.shardCount]
                                                                      [r.value.cacheErrorKey := r.value.ent.errorCount])
    ensures key !in old(services.counters) ==>
              && (r.Some? <==> shards > 0)
              && (r.Some? ==> r.value.ent == CounterEntity(CounterKey(name), shards, name, 0)
                              && services.counters == old(services.counters)[CounterKey(name) := r.value.ent]
                              && services.cache == old(services.cache)[r.value.cacheShardsKey := shards]
                                                                      [r.value.cacheErrorKey := 0])
    ensures r.None? ==> services.counters == old(services.counters) && services.cache == old(services.cache)
    ensures r.Some? ==> fresh(r.value) && r.value.Valid() && r.value.services == services
    ensures services.shards == old(services.shards) && services.queue == old(services.queue)
  {
    if key in services.counters {
      var w := Wrap(services, services.counters[key]);
      if w.Ok? {
        return Some(w.value);
      }
      return None;
    } else if shards > 0 {
      var counter := new ShardedCounter(services, name, shards);
      services.counters := services.counters[counter.ent.key := counter.ent];
      return Some(counter);
    } else {
      return None;
    }
  }

  /**
   * `counterByName(name, shards)` as written. Its lookup key never matches a stored counter, so
   * with `shards > 0` every call stores a fresh entity over the existing one, resetting its shard
   * count to `shards`, and with `shards <= 0` it always returns null.
   */
  method CounterByName(services: Services, name: string, shards: int) returns (r: Option<ShardedCounter>)
    requires services.Valid()
    modifies services
    ensures services.Valid()
    ensures r.Some? <==> shards > 0
    ensures r.Some? ==> services.counters == old(services.counters)[CounterKey(name) := CounterEntity(CounterKey(name), shards, name, 0)]
    ensures r.Some? ==> fresh(r.value) && r.value.Valid() && r.value.services == services
                        && r.value.ent == CounterEntity(CounterKey(name), shards, name, 0)
                        && services.cache == old(services.cache)[CACHE_SHARDS_PREFIX + CounterKey(name).name := shards]
                                                                [CACHE_ERROR_PREFIX + CounterKey(name).name := 0]
    ensures r.None? ==> services.counters == old(services.counters) && services.cache == old(services.cache)
    ensures services.shards == old(services.shards) && services.queue == old(services.queue)
  {
    LookupMissesStoredCounters(services, name);
    r := FindOrCreate(services, LookupKey(name), name, shards);
  }

  /**
   * `counterByName` looking the counter up under the key its constructor stores it: an existing
   * counter is returned with its shard count untouched, whatever `shards` is.
   */
  method CounterByNameIntended(services: Services, name: string, shards: int) returns (r: Option<ShardedCounter>)
    requires services.Valid()
    modifies services
    ensures services.Valid()
    ensures CounterKey(name) in old(services.counters) ==>
              var e := old(services.counters[CounterKey(name)]);
              r.Some? && r.value.ent == e
              && services.counters == old(services.counters)
              && services.cache == old(services.cache)[CACHE_SHARDS_PREFIX + CounterKey(name).name := e.shardCount]
                                                      [CACHE_ERROR_PREFIX + CounterKey(name).name := e.errorCount]
    ensures CounterKey(name) !in old(services.counters) ==>
              (r.Some? <==> shards > 0)
              && (r.Some? ==> services.counters == old(services.counters)[CounterKey(name) := CounterEntity(CounterKey(name), shards, name, 0)]
                              && r.value.ent == CounterEntity(CounterKey(name), shards, name, 0)
                              && services.cache == old(services.cache)[CACHE_SHARDS_PREFIX + CounterKey(name).name := shards]
                                                                      [CACHE_ERROR_PREFIX + CounterKey(name).name := 0])
    ensures r.None? ==> services.counters == old(services.counters) && services.cache == old(services.cache)
    ensures r.Some? ==> fresh(r.value) && r.value.Valid() && r.value.services == services
    ensures services.shards == old(services.shards) && services.queue == old(services.queue)
  {
    r := FindOrCreate(services, CounterKey(name), name, shards);
  }

  /**
   * `CounterGrowTask.run` as written: builds the counter from its stored entity, which rewrites the
   * cached tally with the stored `error-count`, only then reads the tally, adds `GrowthDelta` of it
   * as shards, and deletes the tally. A missing counter is logged and nothing changes.
   */
  method RunTask(services: Services, task: GrowTask)
    requires services.Valid()
    modifies services
    ensures services.Valid()
    ensures task.counterKey !in old(services.counters) ==>
              services.counters == old(services.counters) && services.cache == old(services.cache)
    ensures task.counterKey in old(services.counters) ==>
              var e := old(services.counters[task.counterKey]);
              var shardsKey := CACHE_SHARDS_PREFIX + task.counterKey.name;
              var errorKey := CACHE_ERROR_PREFIX + task.counterKey.name;
              var seen := old(services.cache)[shardsKey := e.shardCount][errorKey := e.errorCount];
              var grown := e.shardCount + GrowthDelta(TallyOr(seen, task.errorCountKey));
              && services.counters == old(services.counters)[task.counterKey := e.(shardCount := grown)]
              && services.cache == seen[shardsKey := grown] - {task.errorCountKey}
              && (task.errorCountKey == errorKey ==> grown == e.shardCount + GrowthDelta(e.errorCount))
    ensures services.shards == old(services.shards) && services.queue == old(services.queue)
  {
    var key := task.counterKey;
    if key !in services.counters {
      return;
    }
    var counter := new ShardedCounter.FromEntity(services, services.counters[key]);
    var errors := TallyOr(services.cache, task.errorCountKey);
    counter.AddShards(GrowthDelta(errors));
    services.cache := services.cache - {task.errorCountKey};
  }

  /**
   * `CounterGrowTask.run` reading the tally before building the counter, with the intended growth:
   * the shards added follow the conflicts counted since the task was enqueued.
   */
  method RunTaskIntended(services: Services, task: GrowTask)
    requires services.Valid()
    modifies services
    ensures services.Valid()
    ensures task.counterKey !in old(services.counters) ==>
              services.counters == old(services.counters) && services.cache == old(services.cache)
    ensures task.counterKey in old(services.counters) ==>
              var e := old(services.counters[task.counterKey]);
              var shardsKey := CACHE_SHARDS_PREFIX + task.counterKey.name;
              var errorKey := CACHE_ERROR_PREFIX + task.counterKey.name;
              var seen := old(services.cache)[shardsKey := e.shardCount][errorKey := e.errorCount];
              var grown := e.shardCount + IntendedGrowthDelta(TallyOr(old(services.cache), task.errorCountKey));
              && services.counters == old(services.counters)[task.counterKey := e.(shardCount := grown)]
              && services.cache == seen[shardsKey := grown] - {task.errorCountKey}
              && grown >= e.shardCount + 2
    ensures services.shards == old(services.shards) && services.queue == old(services.queue)
  {
    var key := task.counterKey;
    if key !in services.counters {
      return;
    }
    var errors := TallyOr(services.cache, task.errorCountKey);
    var counter := new ShardedCounter.FromEntity(services, services.counters[key]);
    IntendedGrowthDeltaProperties(errors, errors);
    counter.AddShards(IntendedGrowthDelta(errors));
    services.cache := services.cache - {task.errorCountKey};
  }
}
