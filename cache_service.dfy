/**
  The cache adapter of app/services/base_cache_service.py: get, set and
  delete over one shared key-value store. The JSON round trip through Redis
  is the identity on the values modelled here, and time-based expiry is not
  modelled, so an entry stays until it is overwritten or deleted.
*/
module CacheService {
  import opened Wrappers
  import opened Models

  /** A cached JSON value: one projected item or a list of them. */
  datatype Value = One(item: Read) | Many(items: seq<Read>)

  /** Python truthiness of the decoded value: an empty list is falsy, an item
      (a non-empty dict) never is. */
  predicate Truthy(v: Value): (b: bool)
    ensures b <==> v != Many([])
  {
    v.One? || |v.items| > 0
  }

  /** The value `get` decodes for `key`: None when the key is absent. */
  function Lookup(m: map<string, Value>, key: string): (r: Option<Value>)
    ensures r.Some? <==> key in m
    ensures r.Some? ==> r.value == m[key]
  {
    if key in m then Some(m[key]) else None
  }

  /** The store after `set(key, value)`: `key` reads back as `value`, an
      earlier value under it is overwritten, and no other key changes. */
  function Stored(m: map<string, Value>, key: string, value: Value): (m': map<string, Value>)
    ensures Lookup(m', key) == Some(value)
    ensures forall k | k != key :: Lookup(m', k) == Lookup(m, k)
    ensures m'.Keys == m.Keys + {key}
  {
    m[key := value]
  }

  /** The store after `delete(key)`: `key` reads back as None (also when it was
      already absent, so deleting twice is harmless) and no other key changes. */
  function Dropped(m: map<string, Value>, key: string): (m': map<string, Value>)
    ensures Lookup(m', key) == None
    ensures forall k | k != key :: Lookup(m', k) == Lookup(m, k)
    ensures key !in m ==> m' == m
  {
    m - {key}
  }

  /** The store after deleting every key of `keys`, in order. */
  function DroppedAll(m: map<string, Value>, keys: seq<string>): (m': map<string, Value>)
    ensures forall k | k in keys :: Lookup(m', k) == None
    ensures forall k | k !in keys :: Lookup(m', k) == Lookup(m, k)
  {
    if keys == [] then m
    else
      var init := keys[..|keys| - 1];
      assert keys == init + [keys[|keys| - 1]];
      Dropped(DroppedAll(m, init), keys[|keys| - 1])
  }

  /** `BaseCacheService`: a handle on the shared cache. */
  class Cache {
    var entries: map<string, Value>

    constructor ()
      ensures entries == map[]
    {
      entries := map[];
    }

    /** `set(key, value)`. */
    method Set(key: string, value: Value)
      modifies this
      ensures entries == Stored(old(entries), key, value)
    {
      entries := entries[key := value];
    }

    /** `get(key)`. */
    method Get(key: string) returns (r: Option<Value>)
      ensures r == Lookup(entries, key)
    {
      if key in entries {
        r := Some(entries[key]);
      } else {
        r := None;
      }
    }

    /** `delete(key)`. */
    method Delete(key: string)
      modifies this
      ensures entries == Dropped(old(entries), key)
    {
      entries := entries - {key};
    }
  }
}
