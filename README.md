# News aggregator core: cache, background refresh, request validation

A Dafny model of the three parts of the news aggregator backend that hold its logic.

1. **The news cache service**, `NewsCacheService`.
   - It derives two kinds of cache key:
     - `news:` followed by the user's preferences, sorted and comma-joined;
     - `search:` followed by the lower-cased keyword.
   - It keeps wrapped payloads in a TTL key/value store:
     - news entries use the store's standard TTL of 1800 s;
     - search entries use 900 s.
   - It can read, write, invalidate, clear and report statistics.
2. **The background refresh service**, `BackgroundNewsService`. It is a start/stop switch guarding a timer handle. Each refresh cycle:
   - collects the distinct preferences of all users, in first-occurrence order;
   - runs one refresh task per preference;
   - counts the tasks that fulfilled and the tasks that rejected.

   A task:
   - asks for up to five English articles for its preference;
   - gives each article an id derived from its URL:
     - the UTF-8 bytes;
     - their Base64 text (RFC 4648, section 4);
     - letters and digits only;
     - the first 16 characters;
   - caches a one-category bundle under the key of `[preference]`.
3. **The request validators** for registration, login and preference updates. Each answers with one 400 response, chosen by the first check that fails, or passes the request on.

Modules, one file each:

- `JsValues`: JavaScript values, truthiness, object fields, the clock reading.
- `JsStrings`:
  - `join`;
  - the default string sort order;
  - a sort specification and the in-place sort;
  - `toLowerCase`, `trim`, and `length` in UTF-16 code units.
- `TtlStore`: the TTL store the cache is built on (the `node-cache` package, whose source is not part of this model).
  - It is a pure state with `Put`, `Delete`, `AfterGet` and `Lookup`.
  - It is also a class `TtlCache` whose methods are proved against those functions.
- `CacheService`: the keys, the stored and returned objects, and the class `NewsCacheService`.
- `ArticleIds`: UTF-8, Base64 and `generateArticleId`, with round-trip lemmas for both encodings.
- `BackgroundService`:
  - the preference collection;
  - the refresh task and the cycle;
  - the class `BackgroundNewsService`.
- `EmailPattern`: the registration email pattern.
  - `EmailRegex` states it sub-pattern by sub-pattern.
  - `EmailShape` is the direct check.
  - The two are proved equal.
- `Validation`: the three validators.

The model follows the code where the two could be read differently:

- **Stored preferences are sorted.** `setCachedNews` stores `preferences: preferences` after `generateCacheKey` has sorted that same array in place. So the stored and returned `preferences` are the sorted list, not the caller's order.
- **`flushAll` resets the counters.** It empties the store and also resets the hit and miss counters, as `node-cache` does, so `clearAllCache` zeroes the statistics.
- **A miss on an expired key deletes it.** A read that misses on an expired entry deletes that entry. A `keys()` listing can still include an expired key that no read or sweep has removed yet.
- **All `https://www.` URLs share one article id.** An id is the first 16 letters and digits of the URL's Base64 text. When the Base64 text of a URL's first 12 bytes has no `+` or `/`, the id is that text, so it depends only on those bytes (`ArticleIds.ArticleIdDeterminedByPrefix`). So every URL that starts with `https://www.` gets the id `aHR0cHM6Ly93d3cu` (`ArticleIds.WwwUrlsShareOneId`).

## Model

| member | source | states |
|---|---|---|
| `JsStrings.SortSeq` | services/cacheService.js:21 | the order `sort()` leaves the preferences in is sorted under string comparison and holds the same strings, repetitions included |
| `JsStrings.SortedUnique` | services/cacheService.js:21 | two sorted sequences holding the same multiset of strings are equal, so the sort result is determined by the elements alone |
| `JsStrings.SortSeqPermutation` | services/cacheService.js:21 | rearrangements of the same preferences sort to the same sequence |
| `JsStrings.SortInPlace` | services/cacheService.js:21 | `preferences.sort()` leaves the caller's array sorted, a permutation of what it held, and equal to the sort specification |
| `JsStrings.LexTrichotomy` | services/cacheService.js:21 | the sort comparison is total: of two different strings one is below the other |
| `JsStrings.LexLessTransitive` | services/cacheService.js:21 | the sort comparison is transitive |
| `JsStrings.LexLessIrreflexive` | services/cacheService.js:21 | no string sorts before itself |
| `JsStrings.LexLessAsymmetric` | services/cacheService.js:21 | of two strings at most one sorts before the other |
| `JsStrings.LexLeqTransitive` | services/cacheService.js:21 | "sorts no later than" is transitive |
| `JsStrings.LexLeqAntisymmetric` | services/cacheService.js:21 | two strings each sorting no later than the other are equal |
| `JsStrings.Insert` | services/cacheService.js:21 | inserting a string into a sorted list keeps it sorted and adds exactly that string |
| `JsStrings.SortedHeadLeast` | services/cacheService.js:21 | the head of a sorted list sorts no later than any of its elements, and its tail is sorted |
| `JsStrings.SiftDown` | services/cacheService.js:21 | one insertion step extends the sorted prefix of the array by one element and only rearranges it |
| `JsStrings.Swap` | services/cacheService.js:21 | exchanging two elements changes only them and keeps the same strings |
| `JsStrings.ToLower` | services/cacheService.js:27 | `toLowerCase` keeps the length, turns each ASCII capital into the letter 32 code points above it, keeps every other ASCII character, and leaves no ASCII capital in the result |
| `JsStrings.ToLowerIdempotent` | services/cacheService.js:27 | lower-casing a lower-cased keyword changes nothing |
| `JsStrings.TrimEmptyIff` | middlewares/validationMiddleware.js:5 | `s.trim() === ''` holds exactly when every character of `s` is ECMAScript white space |
| `JsStrings.TrimEnd` | middlewares/validationMiddleware.js:5 | what `trim` keeps is a prefix of its input, the dropped tail is white space, and the result is empty exactly when the input is all white space |
| `JsStrings.TrimStart` | middlewares/validationMiddleware.js:5 | what `trim` keeps is a suffix of its input with white space only dropped in front |
| `JsStrings.Utf16Length` | middlewares/validationMiddleware.js:9 | `password.length` counts between one and two code units per character |
| `JsStrings.Utf16LengthBmp` | middlewares/validationMiddleware.js:9 | a password of Basic Multilingual Plane characters has one code unit per character |
| `JsValues.StrArrayInjective` | services/cacheService.js:54 | the stored `preferences` array determines the string list it was built from |
| `TtlStore.Put` | services/cacheService.js:57 | `set` keeps the store well formed, adds the key, stores the value with expiry `now + ttl * 1000` and changes no other key or counter |
| `TtlStore.Delete` | services/cacheService.js:84 | `del` keeps the store well formed, removes exactly the key, and leaves the store as it was when the key was missing |
| `TtlStore.AfterGet` | services/cacheService.js:33 | `get` counts exactly one hit or miss, a hit exactly when the key holds a live entry; a miss on an expired entry deletes exactly that entry, and otherwise the keys and their order are unchanged; no surviving entry changes; the store stays well formed |
| `TtlStore.Remove` | services/cacheService.js:84 | removing a key from a key list without repeats drops exactly its one position, keeping every other key in order, and leaves the list unchanged when the key is absent |
| `TtlStore.LookupAfterPut` | services/cacheService.js:57 | after `set`, the key reads back the value up to its expiry and nothing afterwards; every other key reads as before |
| `TtlStore.LookupAfterDelete` | services/cacheService.js:84 | after `del` the key reads as absent and every other key as before |
| `TtlStore.LookupAfterGet` | services/cacheService.js:33 | a read changes what no later read returns, since the only entry it drops had already expired |
| `TtlStore.NoDupCardinality` | services/cacheService.js:91 | a key list without repeats has as many elements as distinct keys |
| `TtlStore.KeyCount` | services/cacheService.js:91 | in a well-formed store the listed keys number exactly the stored entries |
| `TtlStore.TtlCache.constructor` | services/cacheService.js:9-13 | a new store is empty, well formed and keeps the standard TTL given |
| `TtlStore.TtlCache.Get` | services/cacheService.js:33 | `get` returns the live value or nothing, and updates the store as `AfterGet` says |
| `TtlStore.TtlCache.Set` | services/cacheService.js:57 | `set` with an omitted TTL uses the standard TTL; the new state is `Put` of the old one |
| `TtlStore.TtlCache.Del` | services/cacheService.js:84 | `del` leaves the state `Delete` describes |
| `TtlStore.TtlCache.Keys` | services/cacheService.js:94 | `keys()` lists every stored key once, in the store's insertion order (as `set`, `del` and expiring reads keep it), and their number is the number of stored entries |
| `TtlStore.TtlCache.FlushAll` | services/cacheService.js:100 | `flushAll` leaves an empty store with both counters at zero |
| `CacheService.NewsKeyPermutation` | services/cacheService.js:20-23 | preference lists that are rearrangements of each other share one news key |
| `CacheService.SortRepeated` | services/cacheService.js:21 | for c sorting before m, `[m, c, m]` sorts to `[c, m, m]` |
| `CacheService.NewsKeyRepeated` | services/cacheService.js:20-23 | for c sorting before m, `[m, c, m]` gives `news:c,m,m`: sorted, comma-joined, the repetition kept |
| `CacheService.SingletonNewsKey` | services/cacheService.js:20-23 | the key of a one-element list is `news:` and that element |
| `CacheService.SingletonNewsKeyInjective` | services/cacheService.js:20-23 | different single preferences never share a key |
| `CacheService.SearchKeyCaseInsensitive` | services/cacheService.js:26-28 | two keywords share a search key exactly when they differ at most in letter case |
| `CacheService.NewsKeyNotSearchKey` | services/cacheService.js:22 | a news key never equals a search key |
| `CacheService.SetThenGetNews` | services/cacheService.js:31-60 | after `setCachedNews(p, d)` at time t, `getCachedNews` of any rearrangement of p returns d's fields, `cachedAt` = t, the sorted `preferences` and `fromCache = true` until 1800 s after t, and null afterwards |
| `CacheService.SetThenGetSearch` | services/cacheService.js:63-79 | after `setCachedSearch(k, d)`, `getCachedSearch` of any case variant of k returns the stored object with `keyword` = k until 900 s after the write, and nothing afterwards |
| `CacheService.SearchWriteKeepsNews` | services/cacheService.js:69-79 | writing a search entry never changes what `getCachedNews` returns |
| `CacheService.NewsCacheService.constructor` | services/cacheService.js:8-13 | a new service owns an empty store whose standard TTL is 1800 s |
| `CacheService.NewsCacheService.GenerateCacheKey` | services/cacheService.js:20-23 | the caller's array ends up sorted, holding the same elements, and the key is `news:` with the sorted list comma-joined |
| `CacheService.NewsCacheService.GetCachedNews` | services/cacheService.js:31-46 | the result is the stored object with `fromCache` and `cachedAt`, or null for an absent or expired key; the store records the hit or the miss |
| `CacheService.NewsCacheService.SetCachedNews` | services/cacheService.js:49-60 | stores and returns the caller's fields plus `cachedAt` and the sorted `preferences`, under the news key, with the standard TTL |
| `CacheService.NewsCacheService.GetCachedSearch` | services/cacheService.js:63-66 | returns the live entry under the search key, or nothing |
| `CacheService.NewsCacheService.SetCachedSearch` | services/cacheService.js:69-79 | stores and returns the caller's fields plus `cachedAt` and `keyword`, under the search key, for 900 s |
| `CacheService.NewsCacheService.InvalidateCache` | services/cacheService.js:82-86 | removes only the news key of the preferences, and changes nothing when that key is absent |
| `CacheService.NewsCacheService.GetCacheStats` | services/cacheService.js:89-96 | `keys` equals the length of `keyspace`, which lists every stored key once in the store's insertion order, and the counters are the store's |
| `CacheService.NewsCacheService.ClearAllCache` | services/cacheService.js:99-102 | leaves the store empty |
| `ArticleIds.EncodeChar` | services/backgroundService.js:134 | a character takes one to four UTF-8 bytes, one exactly for ASCII |
| `ArticleIds.Utf8Encode` | services/backgroundService.js:134 | `Buffer.from(url)` has at least one and at most four bytes per character |
| `ArticleIds.DecodeChar` | services/backgroundService.js:134 | a decoded character takes between one byte and the bytes available |
| `ArticleIds.DecodeEncodeChar` | services/backgroundService.js:134 | the UTF-8 bytes of a character decode to that character, whatever follows them |
| `ArticleIds.Utf8RoundTrip` | services/backgroundService.js:134 | decoding the UTF-8 bytes of a URL gives the URL back, so the byte step loses nothing |
| `ArticleIds.Utf8EncodeAppend` | services/backgroundService.js:134 | the bytes of a concatenation are the concatenated bytes |
| `ArticleIds.Utf8EncodeAscii` | services/backgroundService.js:134 | an ASCII string is its own UTF-8 encoding |
| `ArticleIds.SextetIndex` | services/backgroundService.js:134 | an alphabet character maps back to the 6-bit value that produces it |
| `ArticleIds.SextetIndexOfSextet` | services/backgroundService.js:134 | every 6-bit value is recovered from its alphabet character |
| `ArticleIds.Base64EncodeLength` | services/backgroundService.js:134 | the Base64 text has four characters per started group of three bytes |
| `ArticleIds.Base64RoundTrip` | services/backgroundService.js:134 | decoding the Base64 text of some bytes gives the bytes back |
| `ArticleIds.DecodeGroup` | services/backgroundService.js:134 | a full group of four characters decodes to its three bytes, followed by the rest |
| `ArticleIds.Recombine` | services/backgroundService.js:134 | the bit fields Base64 splits bytes into put the bytes back together |
| `ArticleIds.Base64RoundTripSingle` | services/backgroundService.js:134 | one trailing byte round-trips through its `==`-padded group |
| `ArticleIds.DecodePadded` | services/backgroundService.js:134 | three alphabet characters and one `=` decode to the two bytes their 18 bits hold |
| `ArticleIds.RecombinePair` | services/backgroundService.js:134 | the bit fields of two bytes put them back together |
| `ArticleIds.Base64RoundTripPair` | services/backgroundService.js:134 | two trailing bytes round-trip through their `=`-padded group |
| `ArticleIds.Base64EncodeSplit` | services/backgroundService.js:134 | whole groups of three bytes encode independently of what follows |
| `ArticleIds.Base64OfTwelve` | services/backgroundService.js:134 | twelve bytes encode as four independent groups |
| `ArticleIds.KeepAlnum` | services/backgroundService.js:134 | `replace(/[^a-zA-Z0-9]/g, '')` keeps only letters and digits and never lengthens the text |
| `ArticleIds.KeepAlnumAppend` | services/backgroundService.js:134 | the filter works piece by piece over a concatenation |
| `ArticleIds.KeepAlnumOfAlnum` | services/backgroundService.js:134 | text of letters and digits passes the filter unchanged |
| `ArticleIds.ArticleId` | services/backgroundService.js:133-135 | an id has at most 16 characters, all ASCII letters or digits |
| `ArticleIds.ArticleIdDeterminedByPrefix` | services/backgroundService.js:133-135 | URLs agreeing in their first 12 bytes, whose Base64 text has no `+` or `/`, get the same id |
| `ArticleIds.WwwUrlsShareOneId` | services/backgroundService.js:133-135 | every URL starting with `https://www.` gets the id `aHR0cHM6Ly93d3cu` |
| `ArticleIds.WwwPrefixBase64` | services/backgroundService.js:134 | `https://www.` is 12 bytes whose Base64 text is `aHR0cHM6Ly93d3cu` |
| `ArticleIds.WwwBytesBase64` | services/backgroundService.js:134 | the Base64 text of the bytes of `https://www.` |
| `ArticleIds.WwwIdIsAlnum` | services/backgroundService.js:134 | that text passes the letters-and-digits filter unchanged |
| `BackgroundService.DistinctPreferencesCharacterized` | services/backgroundService.js:55-64 | the collected list has no repeats; it holds exactly the preferences some user has, where a missing or empty list adds none; and it lists them in order of first occurrence, user after user |
| `BackgroundService.CollectPreferences` | services/backgroundService.js:55-64 | the `reduce`/`forEach`/`includes`/`push` loop yields the collected list, without repeats and holding every user's preferences |
| `BackgroundService.DedupCharacterized` | services/backgroundService.js:55-64 | keeping first occurrences gives each element once, in order of first occurrence |
| `BackgroundService.AddNewAppend` | services/backgroundService.js:57-61 | pushing the new elements of two lists one after the other is pushing those of their concatenation |
| `BackgroundService.AddNewIsDedup` | services/backgroundService.js:55-64 | pushing the new elements into an empty list keeps first occurrences |
| `BackgroundService.GatherIsAddNew` | services/backgroundService.js:55-64 | the `reduce` over users equals one pass over all their lists in turn |
| `BackgroundService.FlatElements` | services/backgroundService.js:55-64 | a preference occurs in the users' lists exactly when some user's contributed list holds it |
| `BackgroundService.FirstIndex` | services/backgroundService.js:58 | the first position of an element holds it and no earlier position does |
| `BackgroundService.FirstIndexAppend` | services/backgroundService.js:58 | appending leaves the first position of an element already present unchanged |
| `BackgroundService.FirstIndexLast` | services/backgroundService.js:58 | a newly appended element first occurs at the end |
| `BackgroundService.ShapeArticles` | services/backgroundService.js:107-115 | mapping the articles succeeds exactly when every `url` is a string, and then gives one shaped article per fetched one |
| `BackgroundService.StoredBundleShape` | services/backgroundService.js:104-120 | a fulfilled task's bundle has one category: `category` = the preference, `totalCategories` = 1, `failedCategories` = 0, `totalResults` as fetched, and one article per fetched article, shaped from it |
| `BackgroundService.ShapeArticleFields` | services/backgroundService.js:107-115 | an article with a string `url` keeps its `url`, `title`, `description`, `urlToImage` and `publishedAt`, gets an id of at most 16 letters and digits, and a truthy `source`: the source name when truthy, else `'Unknown'` |
| `BackgroundService.NoApiKeyNoFetch` | services/backgroundService.js:88-90 | with no API key a task rejects with "News API key not configured" whatever the upstream API would answer |
| `BackgroundService.Results` | services/backgroundService.js:73 | `Promise.allSettled` gives one result per preference |
| `BackgroundService.CountsAddUp` | services/backgroundService.js:75-76 | every settled result is counted once, as fulfilled or as rejected |
| `BackgroundService.CountFulfilledNone` | services/backgroundService.js:75-76 | when every task rejects, none counts as successful and all count as failed |
| `BackgroundService.CycleCountsEveryPreference` | services/backgroundService.js:69-76 | `successful + failed` equals the number of distinct preferences |
| `BackgroundService.NoApiKeyCycle` | services/backgroundService.js:88-90 | with no API key a cycle reports 0 successful and one failure per preference, and leaves the cache as it was |
| `BackgroundService.NoApiKeyRefresh` | services/backgroundService.js:126-129 | tasks that all reject write nothing |
| `BackgroundService.TaskStoreEffect` | services/backgroundService.js:123 | a task writes at most the key of its own preference, with the cycle's time and the standard TTL |
| `BackgroundService.RefreshedKeysSnoc` | services/backgroundService.js:69-71 | the keys a run of tasks writes grow by the last task's key when it fulfils |
| `BackgroundService.RefreshStoreCounters` | services/backgroundService.js:123 | a cycle keeps the store well formed and leaves the hit and miss counters alone |
| `BackgroundService.RefreshStoreFrame` | services/backgroundService.js:123 | a cycle adds exactly the keys of the fulfilled preferences and leaves every other key as it was |
| `BackgroundService.RefreshStoreWrites` | services/backgroundService.js:104-123 | after a cycle, the key of each fulfilled preference holds its bundle, stamped with the cycle's time, expiring 1800 s later |
| `BackgroundService.ReadBackAfterRefresh` | services/backgroundService.js:123 | after a cycle, `getCachedNews([preference])` returns the bundle's fields with `cachedAt`, `preferences` and `fromCache` until 1800 s after the cycle, and null afterwards |
| `BackgroundService.BackgroundNewsService.constructor` | services/backgroundService.js:6-11 | a new service is stopped, holds no timer and has an empty cache |
| `BackgroundService.BackgroundNewsService.Start` | services/backgroundService.js:14-30 | from stopped: running, holding the new timer, cache refreshed by one cycle; while running: nothing changes |
| `BackgroundService.BackgroundNewsService.Stop` | services/backgroundService.js:33-46 | afterwards the service is stopped and holds no timer, whichever state it was in |
| `BackgroundService.BackgroundNewsService.TriggerUpdate` | services/backgroundService.js:147-154 | while stopped, fails with "Background service is not running" and leaves the cache alone; while running, runs one cycle |
| `BackgroundService.BackgroundNewsService.GetStatus` | services/backgroundService.js:138-144 | reports whether the service runs (exactly when it holds a timer), the 30-minute interval, and the time of the call as `lastUpdate` |
| `BackgroundService.BackgroundNewsService.UpdateCachedNews` | services/backgroundService.js:49-83 | the logged counts and the new cache are those of the cycle over the distinct preferences; a failed user query changes nothing |
| `BackgroundService.BackgroundNewsService.UpdateNewsForPreference` | services/backgroundService.js:86-130 | settles as the task does, and a fulfilled task has written its bundle under the key of `[preference]` |
| `EmailPattern.EmailShapeIsRegex` | middlewares/validationMiddleware.js:18 | the direct check accepts exactly the strings the email pattern matches |
| `EmailPattern.ChainIff` | middlewares/validationMiddleware.js:18 | `\w+([.-]?\w+)*` matches exactly the word-character runs joined by single `.` or `-` |
| `EmailPattern.LinksToShape` | middlewares/validationMiddleware.js:18 | every match of `([.-]?\w+)*` is joined and ends in a word character |
| `EmailPattern.ShapeToLinks` | middlewares/validationMiddleware.js:18 | every joined string ending in a word character matches `([.-]?\w+)*` |
| `EmailPattern.LinksIff` | middlewares/validationMiddleware.js:18 | `([.-]?\w+)*` matches exactly the empty string and the joined strings ending in a word character |
| `EmailPattern.LinkShape` | middlewares/validationMiddleware.js:18 | a match of `[.-]?\w+` ends in a word character and has no two separators in a row |
| `EmailPattern.DotGroupsShape` | middlewares/validationMiddleware.js:18 | a match of `(\.\w{2,3})+` starts with `.` and ends in `.` and 2 or 3 word characters |
| `EmailPattern.DotGroupShape` | middlewares/validationMiddleware.js:18 | a match of `\.\w{2,3}` is a `.` and 2 or 3 word characters |
| `EmailPattern.DomainFromSplit` | middlewares/validationMiddleware.js:18 | a chain followed by dot groups is a chain ending in `.` and 2 or 3 word characters |
| `EmailPattern.SplitFromDomain` | middlewares/validationMiddleware.js:18 | such a domain splits into a chain and one dot group |
| `EmailPattern.RegexFromShape` | middlewares/validationMiddleware.js:18 | an address of the checked shape matches the pattern |
| `EmailPattern.ShapeFromRegex` | middlewares/validationMiddleware.js:18 | an address the pattern matches has the checked shape |
| `EmailPattern.EmailShapeOneAt` | middlewares/validationMiddleware.js:18 | an accepted address has exactly one `@` |
| `EmailPattern.JoinedAppend` | middlewares/validationMiddleware.js:18 | two joined strings concatenate into a joined string when a word character meets the junction |
| `EmailPattern.JoinedSlice` | middlewares/validationMiddleware.js:18 | a slice of a joined string is joined |
| `EmailPattern.EndsInDotGroupAppend` | middlewares/validationMiddleware.js:18 | a final dot group stays final when text is put in front |
| `Validation.MissingTextIff` | middlewares/validationMiddleware.js:5 | `!v \|\| typeof v !== 'string' \|\| v.trim() === ''` holds exactly when v is not a string with a non-space character |
| `Validation.ValidateUserRegistration` | middlewares/validationMiddleware.js:2-24 | every refusal has status 400 |
| `Validation.RegistrationAcceptsIff` | middlewares/validationMiddleware.js:2-24 | registration passes exactly when the email is text matching the pattern, the password is a string of at least 6 code units, and the name is text |
| `Validation.RegistrationFirstFailure` | middlewares/validationMiddleware.js:5-21 | each of the four messages is sent exactly when its check is the first to fail, in the order email, password, name, pattern |
| `Validation.BlankPasswordPassesRegistration` | middlewares/validationMiddleware.js:9-11 | a white-space password of 6 or more code units passes the registration length check, while login refuses it |
| `Validation.SixSpaces` | middlewares/validationMiddleware.js:9 | six spaces are such a password |
| `Validation.ExampleAddressMatches` | middlewares/validationMiddleware.js:18 | `ann@news.io` matches the pattern |
| `Validation.ShortTopLevelDomainFails` | middlewares/validationMiddleware.js:18 | `ann@news.c` does not: the last group needs 2 or 3 word characters |
| `Validation.ValidateUserLogin` | middlewares/validationMiddleware.js:26-38 | every refusal has status 400 |
| `Validation.LoginAcceptsIff` | middlewares/validationMiddleware.js:26-38 | login passes exactly when email and password are both text; a bad email is reported first |
| `Validation.PreferencesResponse` | middlewares/validationMiddleware.js:40-59 | every refusal has status 400 |
| `Validation.ValidateUserPreferences` | middlewares/validationMiddleware.js:40-59 | the scan that stops at the first bad element answers as the specification does |
| `Validation.PreferencesAcceptsIff` | middlewares/validationMiddleware.js:40-59 | preferences pass exactly when they form a non-empty array whose every element is text |
| `Validation.PreferencesRejections` | middlewares/validationMiddleware.js:43-56 | a missing or non-array value is refused as not an array, an empty array as empty, and an array with a non-text element as holding bad elements |

## Left out

- `node-cache` itself. Its source is not part of this model; `TtlStore` states the behaviour the service relies on (set, get with lazy expiry, del, keys, flushAll, hit and miss counters). Its periodic sweep every 600 s (`checkperiod`) is left out, which is why `keys()` may list expired keys.
- A TTL of 0, which `node-cache` reads as "never expires": no caller passes one, so `Ttl` excludes it.
- `useClones: false` aliasing: stored objects are values here, so a caller mutating an object after storing it is not modelled.
- The periodic cleanup timer of the cache (services/cacheService.js:105-113) only logs the key count; it and every `console.log` are left out. Its handle is discarded, so nothing ever clears it. `stop()` of the cache (services/cacheService.js:116-119) calls `close()` on the store, which stops the store's own `checkperiod` sweep; since the sweep is not modelled, neither is `stop()`.
- `setInterval`/`clearInterval`: the timer is an opaque handle passed to `Start`; the cycles the timer would run later are calls of `UpdateCachedNews`.
- BackgroundService.BackgroundNewsService.Start: runs its first cycle to completion before returning, whereas the source starts it without awaiting it.
- Concurrency of `Promise.allSettled`: the tasks run one after the other, in preference order; with concurrent tasks the order of the cache writes could differ, but each writes its own key.
- The user query (`User.find`) and the upstream HTTP call are parameters: the users (or `None` when the query throws) and a fetch oracle answering an article list with `totalResults`, or an error message. A response body without an `articles` array is represented as a failed fetch.
- The clock: `cachedAt`, expiry and `lastUpdate` come from an `Instant` parameter; one cycle uses one clock reading for all its tasks.
- BackgroundService.ShapeArticle: any `url` that is not a string makes the task reject. `Buffer.from` accepts arrays and array-like objects, which the model treats as rejections too; the exact TypeError message is not modelled.
- JsStrings.LexLess: compares code points, while JavaScript's default sort compares UTF-16 code units; the two orders differ only between characters outside the Basic Multilingual Plane and some characters from U+E000 to U+FFFF.
- JsStrings.LowerChar: covers ASCII, Latin-1, and the basic Greek and Cyrillic capitals; other scripts, and the special cases of full Unicode case mapping (for example final sigma or İ), are left unchanged.
- JavaScript numbers: `Num` holds integers only. Fractional numbers, NaN and infinities are left out. No result of the modelled code depends on them: a fractional number is, like a non-zero integer, a truthy non-string.
- JavaScript strings may hold a lone UTF-16 surrogate, which a Dafny `string` cannot; such strings are outside the model. For them `length` counts the surrogate as one unit, `Buffer.from` writes the bytes of U+FFFD in its place, and the sort compares the surrogate as a code unit.
- The request body is taken to be a parsed JSON object; a missing body, which makes the destructuring throw, is left out.
- controllers/, models/, routes/ and the end-to-end tests are not part of this model: they are HTTP wiring, password hashing, tokens and database schemas around the core.
