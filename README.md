# Cache-aside listing lookup

This project models `get_all_properties`, the read-through lookup of every
property listing. The lookup reads the fixed key `all_properties` from the
key-value cache. A truthy value is returned as it is. Otherwise the whole
listing table is projected to six fields (`id`, `title`, `description`,
`price`, `location`, `created_at`), written to the cache under the same key
for 3600 seconds, and returned.

- `listings.dfy` (module `Listings`): the projected `Row`, the stored
  `Property` record, the projection `Project`, and the data store `Store`,
  whose `ValuesAll` materialises the projected table eagerly.
- `cache.dfy` (module `Cache`): cache entries with absolute expiry times, the
  read rule (absent or expired reads as `None`), the write rule, and the
  cache object `CacheStore` with `Get` and `Set`.
- `property_utils.dfy` (module `PropertyUtils`): the lookup as a function of
  cache, table and clock (`GetAll`), the imperative lookup
  `GetAllProperties` proved equal to it, and the lemmas on hit/miss, the
  empty-list quirk, the frame, repeated calls and the lifetime boundary.

An entry written at time `T` with timeout `t` expires at `T + t`: it reads
back at times before `T + t` and is absent from `T + t` on. The clock is
passed in as the parameter `now`. Whether the data store was scanned is
reported by the ghost out-parameter `queried`; the source function returns
only the list.

## Model

| member | source | states |
|---|---|---|
| `Listings.ProjectAppend` | properties/utils.py:10-12 | projecting a table extended by one record appends that record's projection, so the rows can be collected one at a time |
| `Listings.ProjectAt` | properties/utils.py:10-12 | the projection has one row per record, in table order, each holding exactly the six named fields of its record |
| `Listings.ProjectLength` | properties/utils.py:10-12 | the projection has exactly as many rows as the table has records |
| `Listings.Store.ValuesAll` | properties/utils.py:10-12 | the eager scan returns exactly the projection of the whole table and changes nothing |
| `Cache.ReadAfterWrite` | properties/utils.py:7-14 | after a write with timeout `t` at time `T`, the written key reads back the written value before `T + t` and nothing from then on; every other key reads as before |
| `Cache.CacheStore.Get` | properties/utils.py:7 | the read yields the stored value exactly when the key is present and unexpired, and `None` otherwise |
| `Cache.CacheStore.Set` | properties/utils.py:14 | the write replaces the key's entry unconditionally with the value and expiry `now + timeout`, leaving all other keys alone |
| `PropertyUtils.QueriedIffMiss` | properties/utils.py:7-10 | the data store is scanned if and only if the cached entry is absent, expired or empty |
| `PropertyUtils.HitServesCache` | properties/utils.py:7-15 | on a hit the cached list is returned, the store is not scanned and the cache is unchanged |
| `PropertyUtils.MissReloads` | properties/utils.py:8-15 | on a miss the result is the whole table projected in order, and the cache holds it under the key with expiry `now + 3600` |
| `PropertyUtils.EmptyEntryIsMiss` | properties/utils.py:8 | a live entry holding the empty list is treated as a miss: the store is scanned again and the entry rewritten |
| `PropertyUtils.OnlyKeyWritten` | properties/utils.py:7-14 | only `all_properties` is written; every other cache entry keeps its value |
| `PropertyUtils.ResultIsCached` | properties/utils.py:7-15 | at the end of every call, hit or miss, the cache reads back exactly the returned list |
| `PropertyUtils.RepeatCall` | properties/utils.py:8-14 | a second call before expiry returns a non-empty first result again without scanning, even if the table changed; an empty first result makes the second call scan |
| `PropertyUtils.TtlBoundary` | properties/utils.py:13-14 | a non-empty entry written by a miss at `T` is a hit at every time before `T + 3600` and a miss from `T + 3600` on |
| `PropertyUtils.GetAllProperties` | properties/utils.py:5-15 | the imperative lookup returns, leaves in the cache and reports scanning exactly as `GetAll` does; the data store is not modified |

## Left out

- The HTTP view `property_list`, its 15-minute page cache and its JSON response (properties/views.py): framework glue outside the lookup.
- The cache backend's own behaviour: serialisation, network failures, eviction, and the removal of an expired entry when it is read. Expired entries stay in the map; they read as absent, which is all the lookup can observe.
- Cache values of other Python types under other keys: every entry holds a list of rows.
- Query and cache failures: the source does not catch them, so in the model they cannot occur.
- Concurrency between simultaneous requests (duplicate misses, last-writer-wins races): the source has no coordination to model.
- `price` and `created_at` are opaque text; no decimal or timestamp arithmetic is done on them.
- The listing table's full column set comes from a model file that is not part of this model; columns beyond the six projected ones are the `others` map of `Property`.
- Cache hit/miss metrics are not part of the lookup and are not modelled.
- GetAllProperties, GetAll: the call happens at one instant; one clock reading `now` serves both the read and the write, so the expiry is the start of the call plus 3600 rather than the time of the write plus 3600, and an entry read as live cannot expire before the call returns. The clock counts whole seconds, not fractional ones.
