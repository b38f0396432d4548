/** `TTLCache`: an in-memory dictionary whose entries expire a fixed number of
    seconds after they were stored. The clock is a parameter of every
    operation that reads it; the lock that serialises the operations is not
    modelled (operations run one after the other). */
module Cache {
  import opened Wrappers

  /** `CacheEntry`: a stored value and the instant it expires. */
  datatype CacheEntry<V> = CacheEntry(value: V, expiresAt: int) {
    /** `is_expired()`: strictly after the expiry instant, so an entry is
        still live exactly at `expiresAt`. */
    predicate IsExpired(now: int) {
      now > expiresAt
    }
  }

  /** `CacheEntry(value, ttl)` built at `now`. */
  function NewEntry<V>(value: V, ttl: int, now: int): (e: CacheEntry<V>)
    ensures e.value == value
    ensures !e.IsExpired(now + ttl) && e.IsExpired(now + ttl + 1)
  {
    CacheEntry(value, now + ttl)
  }

  /** What a lookup at `now` answers: the value of a live entry, nothing for
      a missing or expired one. */
  function Lookup<V>(entries: map<string, CacheEntry<V>>, key: string, now: int): Option<V> {
    if key in entries && !entries[key].IsExpired(now) then Some(entries[key].value) else None
  }

  /** The entries still live at `now`. */
  function Live<V>(entries: map<string, CacheEntry<V>>, now: int): (r: map<string, CacheEntry<V>>)
    ensures forall k :: k in r <==> k in entries && !entries[k].IsExpired(now)
    ensures forall k :: k in r ==> r[k] == entries[k]
  {
    map k | k in entries && !entries[k].IsExpired(now) :: entries[k]
  }

  class TTLCache<V> {
    var entries: map<string, CacheEntry<V>>

    constructor ()
      ensures entries == map[]
    {
      entries := map[];
    }

    /** `get(key)`: nothing for a missing key, which changes nothing; an
        expired entry is deleted and nothing is returned; a live entry's value
        is returned and nothing changes. */
    method Get(key: string, now: int) returns (r: Option<V>)
      modifies this
      ensures r == Lookup(old(entries), key, now)
      ensures key in old(entries) && old(entries)[key].IsExpired(now) ==> entries == old(entries) - {key}
      ensures !(key in old(entries) && old(entries)[key].IsExpired(now)) ==> entries == old(entries)
    {
      if key !in entries {
        return None;
      }
      var entry := entries[key];
      if entry.IsExpired(now) {
        entries := entries - {key};
        return None;
      }
      return Some(entry.value);
    }

    /** `set(key, value, ttl)`: the key's entry is replaced, every other key
        keeps its entry. */
    method Set(key: string, value: V, ttl: int, now: int)
      modifies this
      ensures entries == old(entries)[key := NewEntry(value, ttl, now)]
    {
      entries := entries[key := NewEntry(value, ttl, now)];
    }

    /** `delete(key)`: removes the key when present, does nothing otherwise. */
    method Delete(key: string)
      modifies this
      ensures entries == old(entries) - {key}
    {
      if key in entries {
        entries := entries - {key};
      }
    }

    /** `clear()`. */
    method Clear()
      modifies this
      ensures entries == map[]
    {
      entries := map[];
    }

    /** `cleanup_expired()`: the expired keys are collected first, then
        deleted one by one; exactly the live entries remain. */
    method CleanupExpired(now: int)
      modifies this
      ensures entries == Live(old(entries), now)
    {
      var expired := set k | k in entries && entries[k].IsExpired(now);
      ghost var start := entries;
      while expired != {}
        invariant expired <= start.Keys
        invariant forall k :: k in expired ==> start[k].IsExpired(now)
        invariant forall k :: k in entries <==> k in start && (!start[k].IsExpired(now) || k in expired)
        invariant forall k :: k in entries ==> entries[k] == start[k]
        decreases expired
      {
        var k :| k in expired;
        entries := entries - {k};
        expired := expired - {k};
      }
      assert entries == Live(start, now);
    }
  }

  // ---------------------------------------------------------------------------
  // Properties
  // ---------------------------------------------------------------------------

  /** A value stored at `t` with time to live `ttl` is found up to and
      including `t + ttl` and not after; other keys answer as before. */
  lemma LookupAfterSet<V>(entries: map<string, CacheEntry<V>>, key: string, value: V, ttl: int, t: int, k: string, now: int)
    ensures Lookup(entries[key := NewEntry(value, ttl, t)], k, now) ==
      if k == key then (if now <= t + ttl then Some(value) else None) else Lookup(entries, k, now)
  {
  }

  /** Dropping expired entries, whether by `get` or by `cleanup_expired`,
      never changes what a lookup at the same instant answers. */
  lemma ExpiryUnobservable<V>(entries: map<string, CacheEntry<V>>, key: string, k: string, now: int)
    ensures Lookup(Live(entries, now), k, now) == Lookup(entries, k, now)
    ensures key in entries && entries[key].IsExpired(now) ==> Lookup(entries - {key}, k, now) == Lookup(entries, k, now)
  {
  }

  /** Deleting twice is deleting once. */
  lemma DeleteIdempotent<V>(entries: map<string, CacheEntry<V>>, key: string)
    ensures (entries - {key}) - {key} == entries - {key}
  {
  }
}
