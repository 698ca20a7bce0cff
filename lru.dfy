/**
 * The bounded caches (`lru.Cache` of groupcache), as values. Only what the
 * client can observe is kept: the entries and the entry limit. Recency order
 * is not kept, so when a full cache takes a new key the model says only that
 * one other entry leaves, not which one.
 *
 * Limits follow the library: 0 means unbounded; after adding a new key the
 * oldest entry is dropped while the count exceeds a non-zero limit, so a
 * negative limit keeps the cache empty.
 */
module Lru {
  import opened Wrappers

  datatype Cache<V> = Cache(maxEntries: int, entries: map<string, V>) {

    ghost predicate Valid() {
      && (maxEntries > 0 ==> |entries| <= maxEntries)
      && (maxEntries < 0 ==> entries == map[])
    }

    /** `Len`: the number of entries. */
    function Len(): nat { |entries| }

    /** `Get`: the entry stored under `key`, if any. */
    function Get(key: string): Option<V> {
      if key in entries then Some(entries[key]) else None
    }

    /** `Clear`: every entry dropped, the limit kept. */
    function Cleared(): (c: Cache<V>)
      ensures c.Valid() && c.Len() == 0 && c.maxEntries == maxEntries
    {
      Cache(maxEntries, map[])
    }

    /** A cache of length 0 is already clear. */
    lemma LenZeroIsCleared()
      requires Len() == 0
      ensures this == Cleared()
    {
    }

    /** Adding `key` needs no eviction. */
    predicate HasRoom(key: string) {
      maxEntries == 0 || key in entries || |entries| < maxEntries
    }
  }

  /** `lru.New(maxEntries)`: an empty cache with that limit. */
  function New<V>(maxEntries: int): (c: Cache<V>)
    ensures c.Valid() && c.Len() == 0 && c.maxEntries == maxEntries
  {
    Cache(maxEntries, map[])
  }

  /**
   * `after` is `before` with `key` mapped to `value`: with room, nothing else
   * changes; when full, the new entry pushes out exactly one other entry.
   */
  ghost predicate Added<V>(before: Cache<V>, key: string, value: V, after: Cache<V>) {
    && after.maxEntries == before.maxEntries
    && if before.maxEntries < 0 then after.entries == map[]
       else if before.HasRoom(key) then after.entries == before.entries[key := value]
       else
         && key in after.entries && after.entries[key] == value
         && |after.entries| == before.maxEntries
         && after.entries.Keys <= before.entries.Keys + {key}
         && forall k :: k in after.entries && k != key ==> after.entries[k] == before.entries[k]
  }

  /** `Add`: store `value` under `key`, evicting one entry when over the limit. */
  method Add<V>(c: Cache<V>, key: string, value: V) returns (c': Cache<V>)
    requires c.Valid()
    ensures c'.Valid() && Added(c, key, value, c')
    ensures c.maxEntries >= 0 ==> c'.Get(key) == Some(value)
  {
    var m := c.entries[key := value];
    if key !in c.entries && c.maxEntries != 0 && |m| > c.maxEntries {
      if |m| > 1 {
        assert |m.Keys - {key}| == |m.Keys| - 1;
      }
      // the least recently used entry goes; recency is not modelled
      var victim :| victim in m && (victim != key || |m| == 1);
      m := m - {victim};
    }
    c' := Cache(c.maxEntries, m);
  }

  /** An entry added to an empty cache with a non-negative limit is all it holds. */
  lemma AddedToEmpty<V>(before: Cache<V>, key: string, value: V, after: Cache<V>)
    requires before.entries == map[] && before.maxEntries >= 0
    requires Added(before, key, value, after)
    ensures after.entries == map[key := value]
  {
  }
}
