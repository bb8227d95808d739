/** The key-value cache the lookup consults: a map from keys to values with
    an absolute expiry time, as the cache store keeps them. */
module Cache {
  import opened Listings

  datatype Option<T> = None | Some(value: T)

  /** A stored value and the time from which it no longer reads back. */
  datatype Entry = Entry(value: seq<Row>, expiresAt: int)

  /** An entry is live strictly before its expiry time and expired from
      that instant on. */
  predicate Live(e: Entry, now: int)
  {
    now < e.expiresAt
  }

  /** `cache.get(key)` at time `now`: the value of a live entry; `None` for
      an absent or an expired one. */
  function Read(entries: map<string, Entry>, key: string, now: int): Option<seq<Row>>
  {
    if key in entries && Live(entries[key], now) then Some(entries[key].value) else None
  }

  /** `cache.set(key, value, timeout)` at time `now`. */
  function Write(entries: map<string, Entry>, key: string, value: seq<Row>, timeout: nat, now: int): map<string, Entry>
  {
    entries[key := Entry(value, now + timeout)]
  }

  /** Reading back after a write: the written key yields the written value
      until `timeout` seconds have passed and nothing afterwards; every other
      key reads as it did before. */
  lemma ReadAfterWrite(entries: map<string, Entry>, key: string, value: seq<Row>, timeout: nat, now: int, k: string, later: int)
    ensures Read(Write(entries, key, value, timeout, now), k, later) ==
      if k == key then (if later < now + timeout then Some(value) else None)
      else Read(entries, k, later)
  {
  }

  /** The shared cache store, whatever its backend. */
  class CacheStore {
    var entries: map<string, Entry>

    constructor ()
      ensures entries == map[]
    {
      entries := map[];
    }

    method Get(key: string, now: int) returns (v: Option<seq<Row>>)
      ensures v == Read(entries, key, now)
      ensures v.Some? <==> key in entries && now < entries[key].expiresAt
    {
      if key in entries && Live(entries[key], now) {
        v := Some(entries[key].value);
      } else {
        v := None;
      }
    }

    method Set(key: string, value: seq<Row>, timeout: nat, now: int)
      modifies this
      ensures entries == Write(old(entries), key, value, timeout, now)
      ensures key in entries && entries[key] == Entry(value, now + timeout)
    {
      entries := entries[key := Entry(value, now + timeout)];
    }
  }
}
