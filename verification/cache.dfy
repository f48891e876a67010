/** The process-wide TTL cache: a map from string keys to values that carry
    an absolute expiration instant. Reads check expiry themselves and delete
    what they find expired; a periodic sweep deletes the rest.

    Time is an explicit parameter `now` (nanoseconds on the process clock),
    so that the boundaries of the two expiry checks can be stated: a read
    treats an entry as expired once `now >= expiration` (`Before` is strict),
    while the sweep deletes it only once `now > expiration` (`After` is strict). */
module TtlCache {
  import opened Wrappers
  import opened Clock

  /** The cache section of the configuration: read on every call, never changed. */
  datatype Config = Config(enabled: bool, ttl: Duration, cleanupInterval: Duration)

  /** One stored value with the instant it stops being valid. */
  datatype Item<V> = Item(value: V, expiration: Instant)

  /** The cache. `sweeping` records whether the background cleanup loop was started. */
  datatype Cache<V> = Cache(items: map<string, Item<V>>, config: Config, sweeping: bool)

  /** What `Get` returns together with the store it leaves behind. */
  datatype Lookup<V> = Lookup(value: Option<V>, cache: Cache<V>)

  /** Get's view: the entry may still be returned (`now.Before(expiration)`). */
  predicate Fresh<V>(item: Item<V>, now: Instant)
  {
    now < item.expiration
  }

  /** The sweep's view: the entry is deleted (`now.After(expiration)`). */
  predicate SweepDue<V>(item: Item<V>, now: Instant)
  {
    now > item.expiration
  }

  /** `GetCache` on first use: an empty store; the cleanup loop is started
      only when caching is enabled. */
  function New<V>(config: Config): (c: Cache<V>)
    ensures c.items == map[]
    ensures c.config == config
    ensures c.sweeping <==> config.enabled
  {
    Cache(map[], config, config.enabled)
  }

  /** `Set`: store `value` under `key` until `now + ttl`, replacing any
      previous entry; nothing happens when caching is disabled. */
  function Set<V>(c: Cache<V>, key: string, value: V, now: Instant): (c': Cache<V>)
    ensures c'.config == c.config && c'.sweeping == c.sweeping
    ensures !c.config.enabled ==> c' == c
    ensures c.config.enabled ==> key in c'.items && c'.items[key] == Item(value, now + c.config.ttl)
    ensures forall k :: k in c.items && k != key ==> k in c'.items && c'.items[k] == c.items[k]
    ensures forall k :: k in c'.items ==> k == key || k in c.items
  {
    if !c.config.enabled then c
    else c.(items := c.items[key := Item(value, now + c.config.ttl)])
  }

  /** `Get`: the value under `key` while it is fresh. An entry found expired
      is deleted; a disabled cache reports a miss without touching the store. */
  function Get<V>(c: Cache<V>, key: string, now: Instant): (r: Lookup<V>)
    ensures !c.config.enabled ==> r == Lookup(None, c)
    ensures r.value.Some? <==> c.config.enabled && key in c.items && Fresh(c.items[key], now)
    ensures r.value.Some? ==> r.value.value == c.items[key].value && r.cache == c
    ensures r.cache.config == c.config && r.cache.sweeping == c.sweeping
    ensures forall k :: k in c.items && k != key ==> k in r.cache.items && r.cache.items[k] == c.items[k]
    ensures key in r.cache.items <==> r.value.Some? || (!c.config.enabled && key in c.items)
    ensures forall k :: k in r.cache.items ==> k in c.items && r.cache.items[k] == c.items[k]
  {
    if !c.config.enabled then Lookup(None, c)
    else if key in c.items then
      if now < c.items[key].expiration then Lookup(Some(c.items[key].value), c)
      else Lookup(None, c.(items := c.items - {key}))
    else Lookup(None, c)
  }

  /** `Delete`: remove `key`, whether or not caching is enabled. */
  function Delete<V>(c: Cache<V>, key: string): (c': Cache<V>)
    ensures key !in c'.items
    ensures c'.config == c.config && c'.sweeping == c.sweeping
    ensures forall k :: k in c.items && k != key ==> k in c'.items && c'.items[k] == c.items[k]
    ensures forall k :: k in c'.items ==> k in c.items
    ensures key !in c.items ==> c' == c
  {
    c.(items := c.items - {key})
  }

  /** `Clear`: replace the store by an empty one. */
  function Clear<V>(c: Cache<V>): (c': Cache<V>)
    ensures |c'.items| == 0
    ensures c'.config == c.config && c'.sweeping == c.sweeping
  {
    c.(items := map[])
  }

  /** `cleanup`: one sweep at `now`, deleting exactly the entries whose
      expiration lies strictly before `now`. */
  function Cleanup<V>(c: Cache<V>, now: Instant): (c': Cache<V>)
    ensures forall k :: k in c'.items <==> k in c.items && !SweepDue(c.items[k], now)
    ensures forall k :: k in c'.items ==> c'.items[k] == c.items[k]
    ensures c'.config == c.config && c'.sweeping == c.sweeping
  {
    c.(items := map k | k in c.items && !(now > c.items[k].expiration) :: c.items[k])
  }

  /** One tick of `cleanupLoop`: a sweep, if the loop was started at all. */
  function Tick<V>(c: Cache<V>, now: Instant): (c': Cache<V>)
    ensures !c.sweeping ==> c' == c
    ensures c.sweeping ==> c' == Cleanup(c, now)
  {
    if c.sweeping then Cleanup(c, now) else c
  }

  /** `GetSize`: count the stored entries by walking the store, as `Range`
      does; expired entries not yet swept are counted too. */
  method GetSize<V>(c: Cache<V>) returns (size: nat)
    ensures size == |c.items|
  {
    size := 0;
    var unvisited := c.items.Keys;
    while unvisited != {}
      invariant unvisited <= c.items.Keys
      invariant size + |unvisited| == |c.items|
      decreases |unvisited|
    {
      var k :| k in unvisited;
      unvisited := unvisited - {k};
      size := size + 1;
    }
  }

  // ---------------------------------------------------------------------
  // Properties relating several operations
  // ---------------------------------------------------------------------

  /** A value set at `t` is returned by every `Get` strictly before `t + ttl`. */
  lemma SetThenGetHit<V>(c: Cache<V>, key: string, value: V, t: Instant, t': Instant)
    requires c.config.enabled
    requires t' < t + c.config.ttl
    ensures Get(Set(c, key, value, t), key, t').value == Some(value)
  {
  }

  /** From `t + ttl` on, the value is gone: `Get` misses and deletes the key. */
  lemma SetThenGetExpired<V>(c: Cache<V>, key: string, value: V, t: Instant, t': Instant)
    requires t' >= t + c.config.ttl
    ensures Get(Set(c, key, value, t), key, t').value == None
    ensures c.config.enabled ==> key !in Get(Set(c, key, value, t), key, t').cache.items
  {
  }

  /** A disabled cache never stores anything and never reports a hit. */
  lemma DisabledIsInert<V>(c: Cache<V>, key: string, value: V, t: Instant, t': Instant)
    requires !c.config.enabled
    ensures Set(c, key, value, t) == c
    ensures Get(Set(c, key, value, t), key, t') == Lookup(None, c)
  {
  }

  /** Clearing twice is the same as clearing once. */
  lemma ClearIdempotent<V>(c: Cache<V>)
    ensures Clear(Clear(c)) == Clear(c)
    ensures |Clear(Clear(c)).items| == 0
  {
  }

  /** An entry expiring exactly at `now` survives the sweep at `now`, yet a
      `Get` at `now` already treats it as expired and deletes it. */
  lemma SweepBoundary<V>(c: Cache<V>, key: string, now: Instant)
    requires c.config.enabled
    requires key in c.items && c.items[key].expiration == now
    ensures key in Cleanup(c, now).items
    ensures Get(c, key, now).value == None
    ensures key !in Get(c, key, now).cache.items
  {
  }

  /** Whatever the sweep deletes, `Get` would already have treated as expired. */
  lemma SweepDueIsExpired<V>(item: Item<V>, now: Instant)
    ensures SweepDue(item, now) ==> !Fresh(item, now)
  {
  }

  /** A sweep at `now` cannot be observed by any later `Get`: it answers the
      same with or without the sweep. */
  lemma CleanupInvisibleToGet<V>(c: Cache<V>, key: string, now: Instant, t: Instant)
    requires now <= t
    ensures Get(Cleanup(c, now), key, t).value == Get(c, key, t).value
  {
    if key in c.items && key !in Cleanup(c, now).items {
      assert SweepDue(c.items[key], now);
    }
  }

  /** A tick of the cleanup loop cannot be observed by any later `Get`, and
      it never makes the store larger. */
  lemma TickInvisibleToGet<V>(c: Cache<V>, key: string, now: Instant, t: Instant)
    requires now <= t
    ensures Get(Tick(c, now), key, t).value == Get(c, key, t).value
    ensures |Tick(c, now).items| <= |c.items|
  {
    if c.sweeping {
      CleanupInvisibleToGet(c, key, now, t);
      ShrinkingOperations(c, key, now);
    }
  }

  /** The deletion a `Get` performs cannot be observed by any later `Get`. */
  lemma EvictionInvisibleToGet<V>(c: Cache<V>, key: string, now: Instant, k: string, t: Instant)
    requires now <= t
    ensures Get(Get(c, key, now).cache, k, t).value == Get(c, k, t).value
  {
  }

  /** Sweeping and deleting never make the store larger; clearing empties it. */
  lemma ShrinkingOperations<V>(c: Cache<V>, key: string, now: Instant)
    ensures |Cleanup(c, now).items| <= |c.items|
    ensures |Delete(c, key).items| <= |c.items|
    ensures |Get(c, key, now).cache.items| <= |c.items|
    ensures |Clear(c).items| == 0
  {
    SubsetSize(Cleanup(c, now).items.Keys, c.items.Keys);
    SubsetSize(Delete(c, key).items.Keys, c.items.Keys);
    SubsetSize(Get(c, key, now).cache.items.Keys, c.items.Keys);
  }

  /** A subset is no larger than its superset. */
  lemma SubsetSize<K>(a: set<K>, b: set<K>)
    requires a <= b
    ensures |a| <= |b|
  {
    assert b == a + (b - a);
  }
}
