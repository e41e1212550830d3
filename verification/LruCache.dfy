/** The in-memory response cache of cache/memory.py, and the lookup-then-store discipline of
    cache/manager.py around it.  A cache key stands for the digest of a request. */
module LruCache {
  import opened Subsequences
  import opened Wrappers

  type Key = string

  datatype Entry = Entry(data: int, createdAt: real, ttl: Option<int>)

  predicate IsExpired(e: Entry, now: real) {
    e.ttl.Some? && now - e.createdAt > e.ttl.value as real
  }

  /** An ordered dictionary: the keys from least to most recently used, and what they stand for. */
  datatype Cache = Cache(order: seq<Key>, entries: map<Key, Entry>) {
    ghost predicate Valid(maxSize: nat) {
      && Distinct(order) && |order| <= maxSize
      && forall k :: k in order <==> k in entries
    }
  }

  const EMPTY := Cache([], map[])

  // ---------------------------------------------------------------------
  // The operations of the backend
  // ---------------------------------------------------------------------

  function Dropped(c: Cache, k: Key): Cache {
    Cache(Without(c.order, k), c.entries - {k})
  }

  /** `get`: a live entry becomes the most recently used, an expired one is deleted. */
  function Got(c: Cache, k: Key, now: real): (Option<Entry>, Cache) {
    if k !in c.entries then (None, c)
    else if IsExpired(c.entries[k], now) then (None, Dropped(c, k))
    else (Some(c.entries[k]), c.(order := Without(c.order, k) + [k]))
  }

  /** Removal of the `n` least recently used entries. */
  function Evicted(c: Cache, n: nat): Cache
    requires n <= |c.order|
    decreases n
  {
    if n == 0 then c else Evicted(Cache(c.order[1..], c.entries - {c.order[0]}), n - 1)
  }

  function Overflow(maxSize: nat, size: nat): (n: nat)
    ensures n <= size && size - n <= maxSize && (n > 0 ==> size - n == maxSize)
  {
    if size > maxSize then size - maxSize else 0
  }

  /** `set`: the key becomes the most recently used, then the oldest keys go until the rest fits. */
  function Put(maxSize: nat, c: Cache, k: Key, e: Entry): Cache {
    var stored := Cache(Without(c.order, k) + [k], c.entries[k := e]);
    Evicted(stored, Overflow(maxSize, |stored.order|))
  }

  class InMemoryCacheBackend {
    const maxSize: nat
    const defaultTtl: Option<int>
    var order: seq<Key>
    var entries: map<Key, Entry>
    var hits: nat
    var misses: nat

    ghost function State(): Cache
      reads this
    {
      Cache(order, entries)
    }

    ghost predicate Valid()
      reads this
    {
      State().Valid(maxSize)
    }

    constructor (maxSize: nat, defaultTtl: Option<int>)
      ensures Valid() && State() == EMPTY && hits == misses == 0
      ensures this.maxSize == maxSize && this.defaultTtl == defaultTtl
    {
      this.maxSize, this.defaultTtl := maxSize, defaultTtl;
      order, entries, hits, misses := [], map[], 0, 0;
    }

    method Get(k: Key, now: real) returns (e: Option<Entry>)
      requires Valid()
      modifies this
      ensures Valid()
      ensures (e, State()) == Got(old(State()), k, now)
      ensures hits == old(hits) + (if e.Some? then 1 else 0) && hits + misses == old(hits + misses) + 1
    {
      WithoutDistinct(order, k);
      if k !in entries {
        misses := misses + 1;
        return None;
      }
      if IsExpired(entries[k], now) {
        order, entries := Without(order, k), entries - {k};
        misses := misses + 1;
        return None;
      }
      order := Without(order, k) + [k];
      hits := hits + 1;
      return Some(entries[k]);
    }

    /** The entry is given the effective time to live, and a creation time if it has none. */
    method Set(k: Key, value: Entry, ttl: Option<int>, now: real)
      requires Valid()
      modifies this`order, this`entries
      ensures Valid()
      ensures var createdAt := if value.createdAt == 0.0 then now else value.createdAt;
        State() == Put(maxSize, old(State()), k, Entry(value.data, createdAt, if ttl.Some? then ttl else defaultTtl))
    {
      var e := value.(ttl := if ttl.Some? then ttl else defaultTtl);
      if e.createdAt == 0.0 {
        e := e.(createdAt := now);
      }
      WithoutDistinct(order, k);
      if k in entries {
        order, entries := Without(order, k), entries - {k};
      } else {
        WithoutAbsent(order, k);
      }
      order, entries := order + [k], entries[k := e];
      assert entries == old(entries)[k := e];
      EvictOldest();
    }

    /** The eviction loop at the end of `set`. */
    method EvictOldest()
      requires Distinct(order) && forall k :: k in order <==> k in entries
      modifies this`order, this`entries
      ensures Valid() && State() == Evicted(old(State()), Overflow(maxSize, |old(order)|))
    {
      while |order| > maxSize
        invariant Distinct(order) && forall k :: k in order <==> k in entries
        invariant Evicted(State(), Overflow(maxSize, |order|)) == Evicted(old(State()), Overflow(maxSize, |old(order)|))
        decreases |order|
      {
        assert order == [order[0]] + order[1..];
        order, entries := order[1..], entries - {order[0]};
      }
    }

    method Delete(k: Key)
      requires Valid()
      modifies this`order, this`entries
      ensures Valid() && State() == Dropped(old(State()), k)
    {
      WithoutDistinct(order, k);
      order, entries := Without(order, k), entries - {k};
    }

    method Clear()
      modifies this
      ensures Valid() && State() == EMPTY && hits == misses == 0
    {
      order, entries, hits, misses := [], map[], 0, 0;
    }
  }
}
