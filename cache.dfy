/**
 * The in-memory stand-in for the Redis cache: string keys mapped to a value
 * and an optional expiry instant. The clock is an argument.
 */
module Cache {
  import opened Wrappers
  import opened Entidades

  /** DateTime resolution: ticks of 100 ns. */
  const TicksPerSecond: int := 10_000_000

  /** DateTime.MaxValue in ticks; DateTime.MinValue is tick 0. */
  const MaxTicks: int := 3_155_378_975_999_999_999

  /** A DateTime, as its tick count. */
  type Instant = t: int | 0 <= t <= MaxTicks

  /** A 32-bit signed integer, the width of the TTL argument. */
  type Int32 = x: int | -MaxInt32 - 1 <= x <= MaxInt32

  /** A cache entry: the value and, when a TTL was given, the instant it expires. */
  datatype Entry = Entry(value: string, expires: Option<Instant>)

  /** An entry is expired strictly after its expiry instant. */
  predicate Expired(e: Entry, now: Instant)
  {
    e.expires.Some? && now > e.expires.value
  }

  /** DateTime.AddSeconds with a whole number of seconds: fails outside the DateTime range. */
  function AddSeconds(t: Instant, seconds: Int32): (r: Option<Instant>)
    ensures r.Some? <==> 0 <= t + seconds * TicksPerSecond <= MaxTicks
    ensures r.Some? ==> r.value - t == seconds * TicksPerSecond
  {
    var ticks := t + seconds * TicksPerSecond;
    if 0 <= ticks <= MaxTicks then Some(ticks) else None
  }

  /**
   * GetAsync: the value of a live entry; an expired entry is evicted and, like
   * a missing key, gives none. Every other entry is left as it was.
   */
  function CacheLookup(entries: map<string, Entry>, key: string, now: Instant): (r: (Option<string>, map<string, Entry>))
    ensures r.0.Some? <==> key in entries && !Expired(entries[key], now)
    ensures r.0.Some? ==> r.0.value == entries[key].value
    ensures forall k :: k in r.1 <==> k in entries && (k != key || r.0.Some?)
    ensures forall k :: k in r.1 ==> r.1[k] == entries[k]
  {
    if key in entries then
      if Expired(entries[key], now) then (None, entries - {key})
      else (Some(entries[key].value), entries)
    else (None, entries)
  }

  /**
   * SetAsync: stores the value under the key, replacing any previous entry;
   * with a TTL the entry expires TTL seconds after now. Fails, changing
   * nothing, when that instant is outside the DateTime range.
   */
  function CacheStore(entries: map<string, Entry>, key: string, value: string, ttlSeconds: Option<Int32>, now: Instant)
    : (r: Option<map<string, Entry>>)
    ensures r.None? <==> ttlSeconds.Some? && AddSeconds(now, ttlSeconds.value).None?
    ensures r.Some? ==> key in r.value && r.value[key].value == value
    ensures r.Some? ==> (r.value[key].expires.None? <==> ttlSeconds.None?)
    ensures r.Some? && ttlSeconds.Some? ==> r.value[key].expires == Some(now + ttlSeconds.value * TicksPerSecond)
    ensures r.Some? ==> forall k :: k != key ==> (k in r.value <==> k in entries)
    ensures r.Some? ==> forall k :: k != key && k in entries ==> r.value[k] == entries[k]
  {
    if ttlSeconds.None? then Some(entries[key := Entry(value, None)])
    else
      var expires := AddSeconds(now, ttlSeconds.value);
      if expires.None? then None
      else Some(entries[key := Entry(value, expires)])
  }

  /** RemoveAsync: the key is gone; every other entry is left as it was. */
  function CacheRemove(entries: map<string, Entry>, key: string): (r: map<string, Entry>)
    ensures key !in r
    ensures forall k :: k != key ==> (k in r <==> k in entries)
    ensures forall k :: k in r ==> r[k] == entries[k]
  {
    entries - {key}
  }

  /** A key that was never set, or was removed, gives none and changes nothing. */
  lemma LookupMissing(entries: map<string, Entry>, key: string, now: Instant)
    ensures key !in entries ==> CacheLookup(entries, key, now) == (None, entries)
    ensures CacheLookup(CacheRemove(entries, key), key, now) == (None, CacheRemove(entries, key))
  {
  }

  /** Without a TTL, a stored value is found at every instant. */
  lemma StoreWithoutTtlLasts(entries: map<string, Entry>, key: string, value: string, now: Instant, later: Instant)
    ensures CacheStore(entries, key, value, None, now).Some?
    ensures var stored := CacheStore(entries, key, value, None, now).value;
      CacheLookup(stored, key, later) == (Some(value), stored)
  {
  }

  /**
   * With a TTL, a stored value is found up to and including its expiry
   * instant now + ttl, and after it the lookup gives none and evicts the key.
   */
  lemma StoreWithTtlExpires(entries: map<string, Entry>, key: string, value: string, ttlSeconds: Int32, now: Instant, later: Instant)
    requires CacheStore(entries, key, value, Some(ttlSeconds), now).Some?
    ensures var stored := CacheStore(entries, key, value, Some(ttlSeconds), now).value;
      var expiry := now + ttlSeconds * TicksPerSecond;
      && stored[key].expires == Some(expiry)
      && (later <= expiry ==> CacheLookup(stored, key, later) == (Some(value), stored))
      && (later > expiry ==> CacheLookup(stored, key, later) == (None, CacheRemove(stored, key)))
  {
  }

  /** Storing over an existing key replaces both its value and its expiry. */
  lemma StoreOverwrites(entries: map<string, Entry>, key: string, v1: string, ttl1: Option<Int32>, t1: Instant,
                        v2: string, ttl2: Option<Int32>, t2: Instant)
    requires CacheStore(entries, key, v1, ttl1, t1).Some?
    requires CacheStore(CacheStore(entries, key, v1, ttl1, t1).value, key, v2, ttl2, t2).Some?
    ensures CacheStore(entries, key, v2, ttl2, t2).Some?
    ensures CacheStore(CacheStore(entries, key, v1, ttl1, t1).value, key, v2, ttl2, t2)
         == CacheStore(entries, key, v2, ttl2, t2)
  {
    var once := CacheStore(entries, key, v1, ttl1, t1).value;
    var twice := CacheStore(once, key, v2, ttl2, t2).value;
    var direct := CacheStore(entries, key, v2, ttl2, t2).value;
    assert twice[key] == direct[key];
    assert twice == direct;
  }

  /** Removing a key twice is the same as removing it once. */
  lemma RemoveIdempotent(entries: map<string, Entry>, key: string)
    ensures CacheRemove(CacheRemove(entries, key), key) == CacheRemove(entries, key)
  {
  }

  /**
   * RedisCacheService: the source keeps the map in a static dictionary
   * shared by every instance; one object stands for it here.
   */
  class RedisCacheService {
    var entries: map<string, Entry>

    constructor ()
      ensures entries == map[]
    {
      entries := map[];
    }

    /** GetAsync at instant now. */
    method Get(key: string, now: Instant) returns (r: Option<string>)
      modifies this
      ensures (r, entries) == CacheLookup(old(entries), key, now)
    {
      if key in entries {
        var entry := entries[key];
        if entry.expires.Some? && now > entry.expires.value {
          entries := entries - {key};
          return None;
        }
        return Some(entry.value);
      }
      return None;
    }

    /** SetAsync at instant now; stored is false when the expiry instant is out of range. */
    method Set(key: string, value: string, ttlSeconds: Option<Int32>, now: Instant) returns (stored: bool)
      modifies this
      ensures var r := CacheStore(old(entries), key, value, ttlSeconds, now);
        stored == r.Some? && entries == if r.Some? then r.value else old(entries)
    {
      var expires: Option<Instant> := None;
      if ttlSeconds.Some? {
        expires := AddSeconds(now, ttlSeconds.value);
        if expires.None? {
          return false;
        }
      }
      entries := entries[key := Entry(value, expires)];
      stored := true;
    }

    /** RemoveAsync. */
    method Remove(key: string)
      modifies this
      ensures entries == CacheRemove(old(entries), key)
    {
      entries := entries - {key};
    }
  }
}
