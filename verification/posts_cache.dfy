/** The client's two-tier cache store (`myblog_app/src/api/posts.js`): an
    in-memory map in front of a `localStorage` namespace whose keys all start
    with `blog_cache_`.

    The store is a value, `Tiers`; every operation returns the new value. The
    clock (`Date.now()`) is the parameter `now`, and whether `localStorage`
    answers or throws is the parameter `storageUp`. */
module PostsCache {
  import opened Wrappers
  import Text

  /** Namespace of every durable cache key. */
  const CachePrefix: string := "blog_cache_"

  /** Five minutes, in milliseconds. */
  const CacheTtl: int := 5 * 60 * 1000

  /** A JSON value as the client sees it after `response.json()`. */
  datatype Json =
    | JNull
    | JBool(b: bool)
    | JNum(n: int)
    | JStr(s: string)
    | JArr(items: seq<Json>)
    | JObj(fields: seq<(string, Json)>)

  /** JavaScript truthiness of a JSON value: `null`, `false`, `0` and `""`
      are falsy; every array and object, even an empty one, is truthy. */
  predicate Truthy(j: Json) {
    match j
    case JNull => false
    case JBool(b) => b
    case JNum(n) => n != 0
    case JStr(s) => s != ""
    case JArr(_) => true
    case JObj(_) => true
  }

  /** `{ data, timestamp }`, the record `saveToCache` writes. */
  datatype Entry = Entry(data: Json, timestamp: int)

  /** A `localStorage` value: either the serialisation of a cache entry, or
      any other text (a password, a theme name, a corrupt payload) that
      `JSON.parse` does not turn into a cache entry. */
  datatype Stored = Plain(text: string) | Serialized(entry: Entry)

  /** Truthiness of the string `localStorage.getItem` returns; a serialised
      entry is never the empty string. */
  predicate StoredTruthy(v: Stored) {
    v.Serialized? || v.text != ""
  }

  /** Tier 1 (`memoryCache`) and the whole of `localStorage`, which is shared
      with keys outside the cache namespace. */
  datatype Tiers = Tiers(memory: map<string, Entry>, storage: map<string, Stored>)

  /** The durable key of a cache key. */
  function StorageKey(key: string): (k: string)
    ensures Text.StartsWith(k, CachePrefix)
    ensures k[|CachePrefix|..] == key
  {
    Text.StartsWithConcat(CachePrefix, key);
    CachePrefix + key
  }

  /** What `getFromCache` returns, and the store after it ran. */
  datatype Lookup = Lookup(found: Option<Entry>, tiers: Tiers)

  /** `getFromCache(key)`: Tier 1 first; on a miss, a parsable Tier-2 entry is
      copied into Tier 1 and returned. A missing or empty item, a payload that
      does not parse, or a throwing `localStorage` all read as absent. */
  function GetFromCache(t: Tiers, key: string, storageUp: bool): (r: Lookup)
    ensures key in t.memory ==> r == Lookup(Some(t.memory[key]), t)
    ensures r.tiers.storage == t.storage
    ensures key !in t.memory ==>
      (r.found.Some? <==>
        storageUp && StorageKey(key) in t.storage && t.storage[StorageKey(key)].Serialized?)
    ensures key !in t.memory && r.found.Some? ==>
      t.storage[StorageKey(key)] == Serialized(r.found.value)
      && r.tiers.memory == t.memory[key := r.found.value]
    ensures r.found.None? ==> r.tiers == t
  {
    if key in t.memory then
      Lookup(Some(t.memory[key]), t)
    else if !storageUp then
      Lookup(None, t)
    else if StorageKey(key) in t.storage && StoredTruthy(t.storage[StorageKey(key)]) then
      match t.storage[StorageKey(key)]
      case Serialized(e) => Lookup(Some(e), Tiers(t.memory[key := e], t.storage))
      case Plain(_) => Lookup(None, t)
    else
      Lookup(None, t)
  }

  /** `saveToCache(key, data)` at time `now`: Tier 1 is written
      unconditionally; the Tier-2 write happens only if storage accepts it. */
  function SaveToCache(t: Tiers, key: string, data: Json, now: int, storageUp: bool): (r: Tiers)
    ensures key in r.memory && r.memory[key] == Entry(data, now)
    ensures forall k :: k != key ==> (k in r.memory <==> k in t.memory)
    ensures forall k :: k in t.memory && k != key ==> r.memory[k] == t.memory[k]
    ensures storageUp ==>
      StorageKey(key) in r.storage && r.storage[StorageKey(key)] == Serialized(Entry(data, now))
    ensures forall k :: k != StorageKey(key) ==> (k in r.storage <==> k in t.storage)
    ensures forall k :: k in t.storage && k != StorageKey(key) ==> r.storage[k] == t.storage[k]
    ensures !storageUp ==> r.storage == t.storage
  {
    var entry := Entry(data, now);
    Tiers(t.memory[key := entry],
          if storageUp then t.storage[StorageKey(key) := Serialized(entry)] else t.storage)
  }

  /** `isCacheValid(cached)`: an entry exists, its timestamp is not 0, and it
      is younger than the TTL. */
  predicate IsCacheValid(cached: Option<Entry>, now: int) {
    cached.Some? && cached.value.timestamp != 0 && now - cached.value.timestamp < CacheTtl
  }

  /** An entry stamped at a non-zero time `written` is valid at exactly the
      instants before `written + TTL`. That includes every instant before the
      stamp itself: an entry stamped in the future (the clock was set back
      after the write) stays valid until the clock passes the stamp by the
      TTL, however long that takes. */
  lemma FreshnessWindow(data: Json, written: int, now: int)
    requires written != 0
    ensures IsCacheValid(Some(Entry(data, written)), now) <==> now < written + CacheTtl
    ensures now < written ==> IsCacheValid(Some(Entry(data, written)), now)
  {
  }

  /** An absent entry, and one stamped 0, are never valid. */
  lemma NeverValid(data: Json, now: int)
    ensures !IsCacheValid(None, now)
    ensures !IsCacheValid(Some(Entry(data, 0)), now)
  {
  }

  /** The storage left by `clearPostsCache` when `localStorage` answers:
      every key outside the namespace, with its value. */
  function WithoutNamespace(storage: map<string, Stored>): (r: map<string, Stored>)
    ensures forall k :: k in r <==> k in storage && !Text.StartsWith(k, CachePrefix)
    ensures forall k :: k in r ==> r[k] == storage[k]
  {
    map k | k in storage && !Text.StartsWith(k, CachePrefix) :: storage[k]
  }

  /** `clearPostsCache()`: Tier 1 is emptied; then, if storage answers, every
      namespaced key is removed and every other key kept. If storage throws,
      it is left as it was. */
  function ClearPostsCache(t: Tiers, storageUp: bool): (r: Tiers)
    ensures r.memory == map[]
    ensures storageUp ==> forall k :: k in r.storage ==> !Text.StartsWith(k, CachePrefix)
    ensures forall k :: k in t.storage && !Text.StartsWith(k, CachePrefix) ==>
      k in r.storage && r.storage[k] == t.storage[k]
    ensures forall k :: k in r.storage ==> k in t.storage && r.storage[k] == t.storage[k]
    ensures !storageUp ==> r.storage == t.storage
  {
    Tiers(map[], if storageUp then WithoutNamespace(t.storage) else t.storage)
  }

  /** The two passes of `clearPostsCache` over `localStorage`: collect every
      namespaced key, then remove them one by one. Key enumeration order is
      not modelled, so each pass picks any key not yet visited. */
  method ClearStorage(storage: map<string, Stored>) returns (r: map<string, Stored>)
    ensures r == WithoutNamespace(storage)
  {
    var toVisit := storage.Keys;
    var keysToRemove: set<string> := {};
    while toVisit != {}
      invariant toVisit <= storage.Keys
      invariant keysToRemove ==
        set k | k in storage.Keys - toVisit && Text.StartsWith(k, CachePrefix)
      decreases toVisit
    {
      var k :| k in toVisit;
      if Text.StartsWith(k, CachePrefix) {
        keysToRemove := keysToRemove + {k};
      }
      toVisit := toVisit - {k};
    }
    r := storage;
    var toRemove := keysToRemove;
    while toRemove != {}
      invariant toRemove <= keysToRemove
      invariant r == storage - (keysToRemove - toRemove)
      decreases toRemove
    {
      var k :| k in toRemove;
      r := r - {k};
      toRemove := toRemove - {k};
    }
    assert r.Keys == WithoutNamespace(storage).Keys;
  }

  /** A saved entry is read back at once, whether or not storage answered. */
  lemma SaveThenGet(t: Tiers, key: string, data: Json, now: int, upSave: bool, upGet: bool)
    ensures GetFromCache(SaveToCache(t, key, data, now, upSave), key, upGet).found
      == Some(Entry(data, now))
  {
  }

  /** After a page reload (Tier 1 lost), an entry whose durable write
      succeeded is recovered from Tier 2 and warms Tier 1 again. */
  lemma SaveSurvivesReload(t: Tiers, key: string, data: Json, now: int)
    ensures var reloaded := Tiers(map[], SaveToCache(t, key, data, now, true).storage);
      var r := GetFromCache(reloaded, key, true);
      r.found == Some(Entry(data, now)) && r.tiers.memory == map[key := Entry(data, now)]
  {
  }

  /** A second lookup of the same key sees what the first one returned and
      changes nothing more: warming Tier 1 is idempotent. */
  lemma GetIsIdempotent(t: Tiers, key: string, up1: bool, up2: bool)
    ensures var first := GetFromCache(t, key, up1);
      var second := GetFromCache(first.tiers, key, up2);
      first.found.Some? ==> second == Lookup(first.found, first.tiers)
  {
  }

  /** After a clear in which storage answered, every key misses. */
  lemma ClearedMissesEverywhere(t: Tiers, storageUp: bool, key: string, upGet: bool)
    requires storageUp
    ensures var c := ClearPostsCache(t, storageUp);
      GetFromCache(c, key, upGet) == Lookup(None, c)
  {
  }

  /** The cache key sets the client uses for post lists and single posts
      never meet the admin credential kept in the same storage, so clearing
      the cache never signs the administrator out. */
  lemma ClearKeepsCredential(t: Tiers, storageUp: bool)
    requires "admin_password" in t.storage
    ensures var c := ClearPostsCache(t, storageUp);
      "admin_password" in c.storage && c.storage["admin_password"] == t.storage["admin_password"]
  {
    assert !Text.StartsWith("admin_password", CachePrefix) by {
      assert "admin_password"[..|CachePrefix|] != CachePrefix by {
        assert "admin_password"[0] != CachePrefix[0];
      }
    }
  }
}
