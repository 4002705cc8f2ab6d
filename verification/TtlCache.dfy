/** The generic TTL cache (internal/cache/cache.go) and the settings repository that reads and writes
    through it (internal/repository/settings_cached.go), in sequential use. */
module TtlCache {
  import opened Wrappers

  datatype Entry<+V> = Entry(value: V, expiresAt: int)

  class Cache<V> {
    const ttl: int
    var data: map<string, Entry<V>>

    constructor (ttl: int)
      ensures this.ttl == ttl && data == map[]
    {
      this.ttl := ttl;
      data := map[];
    }

    /** A hit until and including the expiry instant; an expired entry is dropped on the way. */
    method Get(key: string, now: int) returns (r: Option<V>)
      modifies this
      ensures r == Fresh(old(data), key, now)
      ensures r.Some? <==> key in old(data) && now <= old(data)[key].expiresAt
      ensures r.Some? ==> r.value == old(data)[key].value
      ensures data == if key in old(data) && r.None? then old(data) - {key} else old(data)
    {
      if key !in data {
        return None;
      }
      var entry := data[key];
      if now > entry.expiresAt {
        data := data - {key};
        return None;
      }
      return Some(entry.value);
    }

    method Set(key: string, value: V, now: int)
      modifies this
      ensures data == old(data)[key := Entry(value, now + ttl)]
    {
      data := data[key := Entry(value, now + ttl)];
    }

    method Invalidate(key: string)
      modifies this
      ensures data == old(data) - {key}
    {
      data := data - {key};
    }
  }

  /** The unexpired value under a key. */
  function Fresh<V>(data: map<string, Entry<V>>, key: string, now: int): Option<V> {
    if key in data && now <= data[key].expiresAt then Some(data[key].value) else None
  }

  /** Settings are opaque here: whatever the JSON column decodes to. */
  type Settings = string

  const TTL_SECONDS := 300

  datatype Reply = Value(settings: Settings) | Failed

  /** SettingsRepo.GetLocationSettings: an error for a location that is missing or deleted. */
  function ReadInner(locations: map<string, Settings>, id: string, dbFails: bool): Reply {
    if dbFails || id !in locations then Failed else Value(locations[id])
  }

  /** SettingsRepo.UpdateLocationSettings: no error when no row matches. */
  function WriteInner(locations: map<string, Settings>, id: string, s: Settings): map<string, Settings> {
    if id in locations then locations[id := s] else locations
  }

  class CachedSettingsRepo {
    var locations: map<string, Settings>
    const cache: Cache<Settings>

    /** Whatever is cached is what is stored. */
    ghost predicate Valid()
      reads this, cache
    {
      && cache.ttl == TTL_SECONDS
      && forall id :: id in cache.data ==> id in locations && cache.data[id].value == locations[id]
    }

    constructor (locations: map<string, Settings>)
      ensures Valid() && this.locations == locations && fresh(cache)
    {
      this.locations := locations;
      cache := new Cache(TTL_SECONDS);
    }

    /** With the database up, a read returns exactly what the uncached repository would; with the
        database down it returns that or an error. */
    method GetLocationSettings(id: string, now: int, dbFails: bool) returns (r: Reply)
      requires Valid()
      modifies cache
      ensures Valid()
      ensures !dbFails ==> r == ReadInner(locations, id, false)
      ensures r.Value? ==> r == ReadInner(locations, id, false)
      ensures r.Failed? ==> dbFails || id !in locations
      ensures r.Failed? ==> !(id in old(cache.data) && now <= old(cache.data)[id].expiresAt)
      ensures r.Value? ==> id in locations && r.settings == locations[id]
      ensures r.Value? ==> id in cache.data && now <= cache.data[id].expiresAt
      ensures r.Value? && !(id in old(cache.data) && now <= old(cache.data)[id].expiresAt) ==>
                cache.data[id].expiresAt == now + TTL_SECONDS
    {
      var hit := cache.Get(id, now);
      if hit.Some? {
        return Value(hit.value);
      }
      r := ReadInner(locations, id, dbFails);
      if r.Failed? {
        return;
      }
      cache.Set(id, r.settings, now);
    }

    method UpdateLocationSettings(id: string, s: Settings, dbFails: bool) returns (ok: bool)
      requires Valid()
      modifies this, cache
      ensures Valid() && (ok <==> !dbFails)
      ensures locations == if ok && id in old(locations) then old(locations)[id := s] else old(locations)
      ensures ok ==> id !in cache.data
    {
      if dbFails {
        return false;
      }
      locations := WriteInner(locations, id, s);
      cache.Invalidate(id);
      return true;
    }
  }
}
