/** `get_all_properties`: the cache-aside lookup of every listing. */
module PropertyUtils {
  import opened Listings
  import opened Cache

  /** The single fixed cache key. */
  const Key: string := "all_properties"

  /** Lifetime, in seconds, of the entry written on a miss. */
  const Timeout: nat := 3600

  /** Python's `not properties` on what `cache.get` returned: `None` and the
      empty list are both falsy. */
  predicate Falsy(v: Option<seq<Row>>)
  {
    v.None? || v.value == []
  }

  /** What one call yields: the returned list, the cache afterwards, and
      whether the data store was scanned. */
  datatype Call = Call(result: seq<Row>, entries: map<string, Entry>, queried: bool)

  /** The whole call as a function of the cache, the table and the clock. */
  function GetAll(entries: map<string, Entry>, table: seq<Property>, now: int): Call
  {
    var cached := Read(entries, Key, now);
    if !Falsy(cached) then
      Call(cached.value, entries, false)
    else
      var rows := Project(table);
      Call(rows, Write(entries, Key, rows, Timeout, now), true)
  }

  /** A hit: the live, non-empty entry under the key. */
  predicate Hit(entries: map<string, Entry>, now: int)
  {
    Key in entries && Live(entries[Key], now) && entries[Key].value != []
  }

  /** The data store is scanned exactly when the call is not a hit. */
  lemma QueriedIffMiss(entries: map<string, Entry>, table: seq<Property>, now: int)
    ensures GetAll(entries, table, now).queried <==> !Hit(entries, now)
  {
  }

  /** On a hit the cached list comes back and the cache is left as it was. */
  lemma HitServesCache(entries: map<string, Entry>, table: seq<Property>, now: int)
    requires Hit(entries, now)
    ensures GetAll(entries, table, now) == Call(entries[Key].value, entries, false)
  {
  }

  /** On a miss the table is projected, in order, and that list replaces the
      entry with a fresh lifetime of `Timeout` seconds. */
  lemma MissReloads(entries: map<string, Entry>, table: seq<Property>, now: int)
    requires !Hit(entries, now)
    ensures var c := GetAll(entries, table, now);
      && c.result == Project(table)
      && |c.result| == |table|
      && c.entries == entries[Key := Entry(c.result, now + 3600)]
  {
    ProjectLength(table);
  }

  /** A live entry holding the empty list does not count as cached: the table
      is scanned again and the entry rewritten. */
  lemma EmptyEntryIsMiss(entries: map<string, Entry>, table: seq<Property>, now: int)
    requires Key in entries && Live(entries[Key], now) && entries[Key].value == []
    ensures var c := GetAll(entries, table, now);
      c.queried && c.result == Project(table) && c.entries[Key] == Entry(c.result, now + Timeout)
  {
  }

  /** Only the fixed key is ever written: every other entry is untouched. */
  lemma OnlyKeyWritten(entries: map<string, Entry>, table: seq<Property>, now: int)
    ensures var c := GetAll(entries, table, now);
      && c.entries.Keys == entries.Keys + {Key}
      && forall k :: k in entries && k != Key ==> c.entries[k] == entries[k]
  {
  }

  /** After the call the cache reads back exactly the list that was returned. */
  lemma ResultIsCached(entries: map<string, Entry>, table: seq<Property>, now: int)
    ensures var c := GetAll(entries, table, now);
      Read(c.entries, Key, now) == Some(c.result)
  {
  }

  /** A second call before the entry expires: a non-empty first result is
      served again without scanning, even if the table has changed in
      between; an empty first result sends the second call to the table. */
  lemma RepeatCall(entries: map<string, Entry>, table: seq<Property>, table': seq<Property>, now: int, now': int)
    requires now <= now'
    requires now' < GetAll(entries, table, now).entries[Key].expiresAt
    ensures var first := GetAll(entries, table, now);
      var second := GetAll(first.entries, table', now');
      && (first.result != [] ==> second == Call(first.result, first.entries, false))
      && (first.result == [] ==> second.queried && second.result == Project(table'))
  {
  }

  /** The lifetime boundary: the entry a miss writes at time `now` is a hit
      for every later call strictly before `now + 3600` and a miss from then
      on, provided the list is non-empty. */
  lemma TtlBoundary(entries: map<string, Entry>, table: seq<Property>, table': seq<Property>, now: int, later: int)
    requires !Hit(entries, now)
    requires table != []
    ensures var written := GetAll(entries, table, now).entries;
      GetAll(written, table', later).queried <==> later >= now + 3600
  {
    ProjectLength(table);
  }

  /** The lookup itself. The clock is the parameter `now`; `queried` reports
      whether the data store was scanned. */
  method GetAllProperties(cache: CacheStore, store: Store, now: int) returns (properties: seq<Row>, ghost queried: bool)
    modifies cache
    ensures unchanged(store)
    ensures Call(properties, cache.entries, queried) == GetAll(old(cache.entries), store.records, now)
  {
    var cached := cache.Get(Key, now);
    if Falsy(cached) {
      properties := store.ValuesAll();
      cache.Set(Key, properties, Timeout, now);
      queried := true;
    } else {
      properties := cached.value;
      queried := false;
    }
  }
}
