/**
 * The process-wide cache: entries keyed by name, each holding a value, the
 * time it was loaded and, optionally, a loader that is asked for a new value
 * once the entry is older than its expiration time.
 *
 * The clock is a parameter `now` (milliseconds), read once per call. The
 * loader is caller code: what it answers when asked is a parameter too
 * (`Ok(value)` or `Err` for a CacheException).
 */
module Cache {
  import opened Wrappers
  import opened JavaLang
  import opened ErrorChecker

  /** `CacheEntry.DEFAULT_EXPIRATION_TIME_SEC`. */
  const DefaultExpiration: int32 := 120

  /** The message of the argument error for a missing key. */
  const NoSuchKeyText := "No cache entry found for key"

  /** A `CacheLoader`: the callback object an entry keeps. Its behaviour is not part of this model. */
  class CacheLoader {
    constructor ()
    {
    }
  }

  class CacheEntry<V> {
    var value: V
    /** Load time, in milliseconds. */
    var dt: int
    const loader: CacheLoader?
    /** In seconds. */
    const expirationTime: int32

    constructor (value: V, creationDate: int, loader: CacheLoader?, expirationTime: int32)
      ensures this.value == value && dt == creationDate
      ensures this.loader == loader && this.expirationTime == expirationTime
    {
      this.value, dt, this.loader, this.expirationTime := value, creationDate, loader, expirationTime;
    }

    /**
     * `isValid`: an entry without loader never expires; otherwise it is valid
     * strictly before `expirationTime` seconds after its load time.
     */
    function IsValid(now: int): (r: bool)
      reads this
      ensures loader == null ==> r
      ensures loader != null ==> (r <==> now - dt < 1000 * expirationTime as int)
    {
      loader == null || now < dt + 1000 * expirationTime as int
    }

    /**
     * The effect of `getValue` at time `now`, where `refresh` is what the
     * loader answers if it is asked: a valid entry answers its value and
     * stays as it is; an expired one asks the loader, and either takes the
     * new value with load time `now` or, when the loader fails, stays as it
     * is and passes the failure on.
     */
    twostate predicate ReadBy(now: int, refresh: Result<V, Error>, new r: Result<V, Error>)
      reads this
    {
      if old(IsValid(now)) then
        r == Ok(old(value)) && value == old(value) && dt == old(dt)
      else if refresh.Err? then
        r == refresh && value == old(value) && dt == old(dt)
      else
        r == refresh && value == refresh.value && dt == now
    }

    /**
     * `getValue`. A successful read leaves an entry whose expiration time is
     * positive valid at `now`.
     */
    method GetValue(now: int, refresh: Result<V, Error>) returns (r: Result<V, Error>)
      modifies this
      ensures ReadBy(now, refresh, r)
      ensures r.Ok? && expirationTime > 0 ==> IsValid(now)
      ensures r.Ok? ==> r.value == value
    {
      if !IsValid(now) {
        if refresh.Err? {
          return refresh;
        }
        value, dt := refresh.value, now;
      }
      r := Ok(value);
    }

    /** `getNonRefreshedValue`. */
    function GetNonRefreshedValue(): (v: V)
      reads this
      ensures v == value
    {
      value
    }
  }

  /** The cache: the static map of `CacheManager`, held by one object. */
  class CacheManager<V> {
    var cache: map<string, CacheEntry<V>>

    constructor ()
      ensures cache == map[]
    {
      cache := map[];
    }

    /** `get(key)`: a missing key is an argument error; otherwise the entry's `getValue`. */
    method Get(key: string, now: int, refresh: Result<V, Error>) returns (r: Result<V, Error>)
      modifies if key in cache then {cache[key]} else {}
      ensures key !in cache ==> r == Err(IllegalArgument(NoSuchKeyText))
      ensures key in cache ==> cache[key].ReadBy(now, refresh, r)
    {
      if key !in cache {
        return Err(IllegalArgument(NoSuchKeyText));
      }
      r := cache[key].GetValue(now, refresh);
    }

    /** `put(key, value)`: a new entry without loader, which therefore never expires, replaces any old one. */
    method Put(key: string, value: V, now: int)
      modifies this
      ensures key in cache && fresh(cache[key]) && cache == old(cache)[key := cache[key]]
      ensures cache[key].value == value && cache[key].dt == now
      ensures cache[key].loader == null && cache[key].expirationTime == 0
      ensures forall t :: cache[key].IsValid(t)
    {
      var entry := new CacheEntry(value, now, null, 0);
      cache := cache[key := entry];
    }

    /** `getNoRefresh(key)`: a missing key is an argument error; otherwise the stored value, whatever its age. */
    function GetNoRefresh(key: string): (r: Result<V, Error>)
      reads this, if key in cache then {cache[key]} else {}
      ensures r.Err? <==> key !in cache
      ensures r.Err? ==> r.error == IllegalArgument(NoSuchKeyText)
      ensures r.Ok? ==> r.value == cache[key].value
    {
      if key in cache then Ok(cache[key].GetNonRefreshedValue()) else Err(IllegalArgument(NoSuchKeyText))
    }

    /**
     * `get(key, loader, expirationTime)`. A present key reads its entry
     * (`loader` is ignored, and may be null). A missing key with a null
     * `loader` is a null-pointer failure that leaves the cache as it was.
     * Otherwise a missing key asks `loader` (answer `first`):
     * a failure leaves the cache as it was and is passed on; a value is put
     * under `key` in a new entry loaded at `now`, which is then read like any
     * entry: expired at once when `expirationTime` is not positive, so the
     * loader is asked a second time (answer `again`). A failed refresh of a
     * present entry leaves the entry in the cache: the code removes nothing,
     * although the method's documentation says the entry is removed.
     */
    method GetWithLoaderAndExpiration(key: string, loader: CacheLoader?, expirationTime: int32, now: int,
                                      first: Result<V, Error>, again: Result<V, Error>)
      returns (r: Result<V, Error>)
      modifies this, if key in cache then {cache[key]} else {}
      ensures key in old(cache) ==> cache == old(cache) && cache[key].ReadBy(now, first, r)
      ensures key !in old(cache) && loader == null ==> cache == old(cache) && r == Err(NullPointer)
      ensures key !in old(cache) && loader != null && first.Err? ==> cache == old(cache) && r == first
      ensures key !in old(cache) && loader != null && first.Ok? ==>
        && key in cache && fresh(cache[key]) && cache == old(cache)[key := cache[key]]
        && cache[key].loader == loader && cache[key].expirationTime == expirationTime
      ensures key !in old(cache) && loader != null && first.Ok? && expirationTime > 0 ==>
        r == first && cache[key].value == first.value && cache[key].dt == now && cache[key].IsValid(now)
      ensures key !in old(cache) && loader != null && first.Ok? && expirationTime <= 0 && again.Err? ==>
        r == again && cache[key].value == first.value && cache[key].dt == now
      ensures key !in old(cache) && loader != null && first.Ok? && expirationTime <= 0 && again.Ok? ==>
        r == again && cache[key].value == again.value && cache[key].dt == now
    {
      if key in cache {
        r := cache[key].GetValue(now, first);
        return;
      }
      if loader == null {
        return Err(NullPointer);
      }
      if first.Err? {
        ClearCacheEntry(key);
        return first;
      }
      var entry := new CacheEntry(first.value, now, loader, expirationTime);
      cache := cache[key := entry];
      r := entry.GetValue(now, again);
    }

    /**
     * `get(key, loader)`: the same with the default expiration of 120 seconds,
     * so a new entry is valid when read back and the loader is asked once.
     */
    method GetWithLoader(key: string, loader: CacheLoader?, now: int, first: Result<V, Error>)
      returns (r: Result<V, Error>)
      modifies this, if key in cache then {cache[key]} else {}
      ensures key in old(cache) ==> cache == old(cache) && cache[key].ReadBy(now, first, r)
      ensures key !in old(cache) && loader == null ==> cache == old(cache) && r == Err(NullPointer)
      ensures key !in old(cache) && loader != null && first.Err? ==> cache == old(cache) && r == first
      ensures key !in old(cache) && loader != null && first.Ok? ==>
        && r == first && key in cache && fresh(cache[key]) && cache == old(cache)[key := cache[key]]
        && cache[key].loader == loader && cache[key].expirationTime == DefaultExpiration
        && cache[key].value == first.value && cache[key].IsValid(now)
    {
      r := GetWithLoaderAndExpiration(key, loader, DefaultExpiration, now, first, first);
    }

    /** `resetCache`. */
    method ResetCache()
      modifies this
      ensures cache == map[]
    {
      cache := map[];
    }

    /** `clearCacheEntry`: removes `key` if present. */
    method ClearCacheEntry(key: string)
      modifies this
      ensures cache == old(cache) - {key}
      ensures key !in cache
    {
      if key in cache {
        cache := cache - {key};
      }
    }
  }
}
