/** `NewsCacheService`: cache keys derived from preference lists and search
    keywords, and the wrapped payloads stored under them in one TTL store.
    News entries live for the store's standard TTL (1800 s), search entries
    for 900 s. */
module CacheService {
  import opened JsValues
  import opened JsStrings
  import opened TtlStore

  /** `CACHE_TTL`: the store's standard TTL, in seconds. */
  const CACHE_TTL: Ttl := 1800
  /** The TTL `setCachedSearch` passes explicitly, in seconds. */
  const SEARCH_TTL: Ttl := 900

  /** `generateCacheKey(preferences)`: `news:` followed by the preferences,
      sorted, joined with commas. Duplicates are kept. */
  function NewsKey(preferences: seq<string>): string
  {
    "news:" + Join(SortSeq(preferences), ",")
  }

  /** `generateSearchCacheKey(keyword)`: `search:` followed by the keyword in lower case. */
  function SearchKey(keyword: string): string
  {
    "search:" + ToLower(keyword)
  }

  /** The object `setCachedNews` stores: the caller's fields, then `cachedAt`
      and `preferences`. `preferences` is the caller's array itself, which
      deriving the key has just sorted. */
  function NewsRecord(newsData: Payload, now: Instant, sortedPreferences: seq<string>): Payload
  {
    newsData["cachedAt" := Str(now.iso)]["preferences" := StrArray(sortedPreferences)]
  }

  /** The copy `getCachedNews` returns for a stored object. */
  function NewsView(cached: Payload): Payload
  {
    cached["fromCache" := Bool(true)]["cachedAt" := Field(cached, "cachedAt")]
  }

  /** The object `setCachedSearch` stores; `keyword` keeps the caller's case. */
  function SearchRecord(searchData: Payload, now: Instant, keyword: string): Payload
  {
    searchData["cachedAt" := Str(now.iso)]["keyword" := Str(keyword)]
  }

  /** What `getCachedNews(preferences)` returns from store state `st` at clock reading `now`. */
  function CachedNews(st: StoreState, preferences: seq<string>, now: int): Option<Payload>
  {
    match Lookup(st, NewsKey(preferences), now)
    case None => None
    case Some(cached) => Some(NewsView(cached))
  }

  // ---------------------------------------------------------------------
  // Keys.
  // ---------------------------------------------------------------------

  /** Two preference lists holding the same elements, in any order and with
      the same repetitions, share one news key. */
  lemma NewsKeyPermutation(p: seq<string>, q: seq<string>)
    requires multiset(p) == multiset(q)
    ensures NewsKey(p) == NewsKey(q)
  {
    SortSeqPermutation(p, q);
  }

  /** Sorting a three-element list with one value repeated. */
  lemma SortRepeated(c: string, m: string)
    requires LexLess(c, m)
    ensures SortSeq([m, c, m]) == [c, m, m]
  {
    LexLessAsymmetric(c, m);
    assert SortSeq([m]) == [m] by {
      assert [m][1..] == [];
    }
    assert SortSeq([c, m]) == [c, m] by {
      assert [c, m][1..] == [m];
    }
    assert Insert(m, [m]) == [m, m];
    assert Insert(m, [c, m]) == [c, m, m] by {
      assert [c, m][1..] == [m];
    }
    assert [m, c, m][1..] == [c, m];
  }

  /** For any two preferences, the order of the input does not show in the
      key, and a repeated preference is not removed. */
  lemma NewsKeyRepeated(c: string, m: string)
    requires LexLess(c, m)
    ensures NewsKey([m, c, m]) == "news:" + c + "," + m + "," + m
  {
    SortRepeated(c, m);
    assert Join([m, m], ",") == m + "," + m by {
      assert [m, m][1..] == [m];
    }
    assert [c, m, m][1..] == [m, m];
  }

  /** The key of a one-element list is `news:` and the element. */
  lemma SingletonNewsKey(preference: string)
    ensures NewsKey([preference]) == "news:" + preference
  {
    assert SortSeq([preference]) == Insert(preference, SortSeq([])) by {
      assert [preference][1..] == [];
    }
  }

  /** Different single preferences never share a key. */
  lemma SingletonNewsKeyInjective(a: string, b: string)
    requires NewsKey([a]) == NewsKey([b])
    ensures a == b
  {
    SingletonNewsKey(a);
    SingletonNewsKey(b);
    assert a == NewsKey([a])[5..] && b == NewsKey([b])[5..];
  }

  /** Two keywords share a search key exactly when they differ at most in
      the case of their letters. */
  lemma SearchKeyCaseInsensitive(a: string, b: string)
    ensures SearchKey(a) == SearchKey(b) <==> EqualIgnoringCase(a, b)
  {
    if SearchKey(a) == SearchKey(b) {
      assert ToLower(a) == SearchKey(a)[7..];
      assert ToLower(b) == SearchKey(b)[7..];
    }
    if EqualIgnoringCase(a, b) {
      assert ToLower(a) == ToLower(b);
    }
  }

  /** The two namespaces never meet: `news:` and `search:` differ in their first letter. */
  lemma NewsKeyNotSearchKey(preferences: seq<string>, keyword: string)
    ensures NewsKey(preferences) != SearchKey(keyword)
  {
    assert NewsKey(preferences)[0] == 'n';
    assert SearchKey(keyword)[0] == 's';
  }

  // ---------------------------------------------------------------------
  // Reading back what was stored.
  // ---------------------------------------------------------------------

  /** After `setCachedNews(p, d)` at `t`, `getCachedNews(q)` for any
      rearrangement `q` of `p` returns `d`'s fields together with `cachedAt`
      (the time of the write), `preferences` (the sorted list) and
      `fromCache = true` up to 1800 s after the write, and null after that. */
  lemma SetThenGetNews(st: StoreState, p: seq<string>, q: seq<string>, d: Payload, t: Instant, now: int)
    requires multiset(p) == multiset(q)
    ensures var r := CachedNews(Put(st, NewsKey(p), NewsRecord(d, t, SortSeq(p)), CACHE_TTL, t.ms), q, now);
      && (r.Some? <==> now <= t.ms + 1_800_000)
      && (r.Some? ==>
            && r.value.Keys == d.Keys + {"cachedAt", "preferences", "fromCache"}
            && r.value["cachedAt"] == Str(t.iso)
            && r.value["preferences"] == StrArray(SortSeq(q))
            && r.value["fromCache"] == Bool(true)
            && forall f :: f in d && f !in {"cachedAt", "preferences", "fromCache"} ==> r.value[f] == d[f])
  {
    NewsKeyPermutation(p, q);
    SortSeqPermutation(p, q);
    LookupAfterPut(st, NewsKey(p), NewsRecord(d, t, SortSeq(p)), CACHE_TTL, t.ms, NewsKey(q), now);
  }

  /** After `setCachedSearch(k, d)` at `t`, `getCachedSearch(k')` for any `k'`
      equal to `k` up to letter case returns the stored object (whose
      `keyword` is `k` as written) up to 900 s after the write, and nothing after that. */
  lemma SetThenGetSearch(st: StoreState, k: string, k': string, d: Payload, t: Instant, now: int)
    requires EqualIgnoringCase(k, k')
    ensures var r := Lookup(Put(st, SearchKey(k), SearchRecord(d, t, k), SEARCH_TTL, t.ms), SearchKey(k'), now);
      && (r.Some? <==> now <= t.ms + 900_000)
      && (r.Some? ==> r.value == SearchRecord(d, t, k))
      && (r.Some? ==> "keyword" in r.value && r.value["keyword"] == Str(k))
  {
    SearchKeyCaseInsensitive(k, k');
    LookupAfterPut(st, SearchKey(k), SearchRecord(d, t, k), SEARCH_TTL, t.ms, SearchKey(k'), now);
  }

  /** Writing a search entry never changes what `getCachedNews` returns. */
  lemma SearchWriteKeepsNews(st: StoreState, k: string, d: Payload, t: Instant, p: seq<string>, now: int)
    ensures CachedNews(Put(st, SearchKey(k), d, SEARCH_TTL, t.ms), p, now) == CachedNews(st, p, now)
  {
    NewsKeyNotSearchKey(p, k);
    LookupAfterPut(st, SearchKey(k), d, SEARCH_TTL, t.ms, NewsKey(p), now);
  }

  /** What `getCacheStats()` reports. */
  datatype CacheStats = CacheStats(keys: nat, hits: nat, misses: nat, keyspace: seq<string>)

  class NewsCacheService {
    const cache: TtlCache

    ghost predicate Valid()
      reads this, cache
    {
      cache.Valid() && cache.stdTtl == CACHE_TTL
    }

    constructor ()
      ensures Valid() && fresh(cache)
      ensures cache.State() == EmptyStore
    {
      cache := new TtlCache(CACHE_TTL);
    }

    /** `generateCacheKey(preferences)`: sorts the caller's array in place
        and returns the key of its contents. */
    static method GenerateCacheKey(preferences: array<string>) returns (key: string)
      modifies preferences
      ensures preferences[..] == SortSeq(old(preferences[..]))
      ensures multiset(preferences[..]) == multiset(old(preferences[..]))
      ensures key == NewsKey(old(preferences[..]))
    {
      SortInPlace(preferences);
      key := "news:" + Join(preferences[..], ",");
    }

    /** `getCachedNews(preferences)`. */
    method GetCachedNews(preferences: array<string>, now: Instant) returns (r: Option<Payload>)
      requires Valid()
      modifies cache, preferences
      ensures Valid()
      ensures preferences[..] == SortSeq(old(preferences[..]))
      ensures r == CachedNews(old(cache.State()), old(preferences[..]), now.ms)
      ensures cache.State() == AfterGet(old(cache.State()), NewsKey(old(preferences[..])), now.ms)
    {
      var key := GenerateCacheKey(preferences);
      var cachedData := cache.Get(key, now.ms);
      if cachedData.Some? {
        r := Some(NewsView(cachedData.value));
      } else {
        r := None;
      }
    }

    /** `setCachedNews(preferences, newsData)`: stores with the standard TTL. */
    method SetCachedNews(preferences: array<string>, newsData: Payload, now: Instant) returns (stored: Payload)
      requires Valid()
      modifies cache, preferences
      ensures Valid()
      ensures preferences[..] == SortSeq(old(preferences[..]))
      ensures stored == NewsRecord(newsData, now, SortSeq(old(preferences[..])))
      ensures cache.State() == Put(old(cache.State()), NewsKey(old(preferences[..])), stored, CACHE_TTL, now.ms)
    {
      var key := GenerateCacheKey(preferences);
      stored := NewsRecord(newsData, now, preferences[..]);
      cache.Set(key, stored, None, now.ms);
    }

    /** `getCachedSearch(keyword)`: the stored object itself. */
    method GetCachedSearch(keyword: string, now: Instant) returns (r: Option<Payload>)
      requires Valid()
      modifies cache
      ensures Valid()
      ensures r == Lookup(old(cache.State()), SearchKey(keyword), now.ms)
      ensures cache.State() == AfterGet(old(cache.State()), SearchKey(keyword), now.ms)
    {
      r := cache.Get(SearchKey(keyword), now.ms);
    }

    /** `setCachedSearch(keyword, searchData)`: stores for 900 s. */
    method SetCachedSearch(keyword: string, searchData: Payload, now: Instant) returns (stored: Payload)
      requires Valid()
      modifies cache
      ensures Valid()
      ensures stored == SearchRecord(searchData, now, keyword)
      ensures cache.State() == Put(old(cache.State()), SearchKey(keyword), stored, SEARCH_TTL, now.ms)
    {
      stored := SearchRecord(searchData, now, keyword);
      cache.Set(SearchKey(keyword), stored, Some(SEARCH_TTL), now.ms);
    }

    /** `invalidateCache(preferences)`: drops the one key; a missing key is no error. */
    method InvalidateCache(preferences: array<string>)
      requires Valid()
      modifies cache, preferences
      ensures Valid()
      ensures preferences[..] == SortSeq(old(preferences[..]))
      ensures cache.State() == Delete(old(cache.State()), NewsKey(old(preferences[..])))
      ensures NewsKey(old(preferences[..])) !in old(cache.data) ==> cache.State() == old(cache.State())
    {
      var key := GenerateCacheKey(preferences);
      cache.Del(key);
    }

    /** `getCacheStats()`. */
    method GetCacheStats() returns (stats: CacheStats)
      requires Valid()
      ensures stats.keys == |stats.keyspace| == |cache.data|
      ensures NoDup(stats.keyspace) && forall k :: k in stats.keyspace <==> k in cache.data
      ensures stats.hits == cache.hits && stats.misses == cache.misses
      ensures stats.keyspace == cache.order
    {
      var keyspace := cache.Keys();
      stats := CacheStats(|keyspace|, cache.hits, cache.misses, keyspace);
    }

    /** `clearAllCache()`. */
    method ClearAllCache()
      requires Valid()
      modifies cache
      ensures Valid()
      ensures cache.State() == EmptyStore
    {
      cache.FlushAll();
    }
  }
}
