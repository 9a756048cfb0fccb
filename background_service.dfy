/** `BackgroundNewsService`: a start/stop switch guarding a timer handle, and
    the refresh cycle it runs every 30 minutes. A cycle collects the distinct
    preferences of all users in first-occurrence order, runs one refresh task
    per preference, and counts the tasks that fulfilled and that rejected. A
    task asks for up to five English articles for its preference and caches a
    one-category bundle under the key of `[preference]`.

    The user query, the upstream fetch and the clock are parameters: `users`
    is what `User.find` returned (`None` when the query failed) and an `Env`
    holds the configured API key, the fetch oracle and the time of the cycle. */
module BackgroundService {
  import opened JsValues
  import opened JsStrings
  import opened TtlStore
  import opened CacheService
  import opened ArticleIds

  /** `updateInterval`: 30 minutes, in ms. */
  const UPDATE_INTERVAL: nat := 1_800_000

  const NO_API_KEY := "News API key not configured"
  const NOT_RUNNING := "Background service is not running"
  /** The reason a task rejects with when `Buffer.from` refuses an article's `url`. */
  const INVALID_URL := "The first argument must be of type string or an instance of Buffer, ArrayBuffer, or Array or an Array-like Object."

  // ---------------------------------------------------------------------
  // Collecting the distinct preferences.
  // ---------------------------------------------------------------------

  /** A user document with only its `preferences` projected. */
  datatype UserRecord = UserRecord(preferences: Option<seq<string>>)

  /** The preferences a user adds to the cycle: a missing or empty list adds none. */
  function Contributed(u: UserRecord): seq<string>
  {
    if u.preferences.Some? && |u.preferences.value| > 0 then u.preferences.value else []
  }

  /** `prefs.forEach(pref => { if (!acc.includes(pref)) acc.push(pref) })`. */
  function AddNew(acc: seq<string>, prefs: seq<string>): seq<string>
    decreases |prefs|
  {
    if prefs == [] then acc
    else AddNew(if prefs[0] in acc then acc else acc + [prefs[0]], prefs[1..])
  }

  /** The `users.reduce(...)` from accumulator `acc` onwards. */
  function Gather(acc: seq<string>, users: seq<UserRecord>): seq<string>
    decreases |users|
  {
    if users == [] then acc else Gather(AddNew(acc, Contributed(users[0])), users[1..])
  }

  /** `allPreferences`. */
  function DistinctPreferences(users: seq<UserRecord>): seq<string>
  {
    Gather([], users)
  }

  /** All contributed preferences, user after user, repetitions included. */
  function Flat(users: seq<UserRecord>): seq<string>
  {
    if users == [] then [] else Contributed(users[0]) + Flat(users[1..])
  }

  /** The position of the first `x` in `s`. */
  ghost function FirstIndex(s: seq<string>, x: string): (k: nat)
    requires x in s
    ensures k < |s| && s[k] == x
    ensures forall m :: 0 <= m < k ==> s[m] != x
  {
    if s[0] == x then 0
    else
      var k := FirstIndex(s[1..], x);
      assert forall m :: 1 <= m < k + 1 ==> s[m] == s[1..][m - 1];
      1 + k
  }

  /** The first occurrence of every element of `s`, in the order they occur. */
  function Dedup(s: seq<string>): seq<string>
  {
    if s == [] then []
    else
      var d := Dedup(s[..|s| - 1]);
      if s[|s| - 1] in d then d else d + [s[|s| - 1]]
  }

  lemma FirstIndexAppend(s: seq<string>, y: string, x: string)
    requires x in s
    ensures FirstIndex(s + [y], x) == FirstIndex(s, x)
  {
    assert forall m :: 0 <= m < |s| ==> (s + [y])[m] == s[m];
  }

  lemma FirstIndexLast(s: seq<string>, x: string)
    requires x !in s
    ensures FirstIndex(s + [x], x) == |s|
  {
    assert forall m :: 0 <= m < |s| ==> (s + [x])[m] == s[m];
  }

  /** `Dedup(s)` holds each element of `s` once, and lists them in the order
      of their first occurrences in `s`. */
  lemma {:induction false} DedupCharacterized(s: seq<string>)
    ensures NoDup(Dedup(s))
    ensures forall x :: x in Dedup(s) <==> x in s
    ensures forall i, j :: 0 <= i < j < |Dedup(s)| ==> FirstIndex(s, Dedup(s)[i]) < FirstIndex(s, Dedup(s)[j])
  {
    if s != [] {
      var init, last := s[..|s| - 1], s[|s| - 1];
      assert s == init + [last];
      var d := Dedup(init);
      DedupCharacterized(init);
      forall x | x in init ensures FirstIndex(s, x) == FirstIndex(init, x) {
        FirstIndexAppend(init, last, x);
      }
      if last !in d {
        FirstIndexLast(init, last);
        var r := d + [last];
        forall i, j | 0 <= i < j < |r| ensures r[i] != r[j] {
          if j < |d| { assert r[i] == d[i] && r[j] == d[j]; }
        }
        forall i, j | 0 <= i < j < |r| ensures FirstIndex(s, r[i]) < FirstIndex(s, r[j]) {
          assert r[i] == d[i] && r[i] in init;
          if j < |d| { assert r[j] == d[j]; }
        }
      }
    }
  }

  lemma {:induction false} AddNewAppend(acc: seq<string>, a: seq<string>, b: seq<string>)
    ensures AddNew(acc, a + b) == AddNew(AddNew(acc, a), b)
    decreases |a|
  {
    if a != [] {
      assert (a + b)[0] == a[0] && (a + b)[1..] == a[1..] + b;
      AddNewAppend(if a[0] in acc then acc else acc + [a[0]], a[1..], b);
    } else {
      assert a + b == b;
    }
  }

  /** Adding the new elements of `s` to an empty list is `Dedup(s)`. */
  lemma {:induction false} AddNewIsDedup(s: seq<string>)
    ensures AddNew([], s) == Dedup(s)
  {
    if s != [] {
      var init, last := s[..|s| - 1], s[|s| - 1];
      assert s == init + [last];
      AddNewAppend([], init, [last]);
      AddNewIsDedup(init);
      assert [last][1..] == [];
    }
  }

  lemma {:induction false} GatherIsAddNew(acc: seq<string>, users: seq<UserRecord>)
    ensures Gather(acc, users) == AddNew(acc, Flat(users))
    decreases |users|
  {
    if users != [] {
      GatherIsAddNew(AddNew(acc, Contributed(users[0])), users[1..]);
      AddNewAppend(acc, Contributed(users[0]), Flat(users[1..]));
    }
  }

  lemma {:induction false} FlatElements(users: seq<UserRecord>)
    ensures forall x :: x in Flat(users) <==> exists i :: 0 <= i < |users| && x in Contributed(users[i])
  {
    if users != [] {
      FlatElements(users[1..]);
      forall x | x in Flat(users) ensures exists i :: 0 <= i < |users| && x in Contributed(users[i]) {
        if x !in Contributed(users[0]) {
          assert x in Flat(users[1..]);
          var i :| 0 <= i < |users[1..]| && x in Contributed(users[1..][i]);
          assert users[1..][i] == users[i + 1];
        }
      }
      forall x | exists i :: 0 <= i < |users| && x in Contributed(users[i]) ensures x in Flat(users) {
        var i :| 0 <= i < |users| && x in Contributed(users[i]);
        if i > 0 {
          assert users[1..][i - 1] == users[i];
        }
      }
    }
  }

  /** The collected preferences: no preference twice; exactly the
      preferences some user has (a user without a list or with an empty one
      adds none); and in the order in which they first occur, user after user. */
  lemma DistinctPreferencesCharacterized(users: seq<UserRecord>)
    ensures NoDup(DistinctPreferences(users))
    ensures forall x :: x in DistinctPreferences(users) <==> exists i :: 0 <= i < |users| && x in Contributed(users[i])
    ensures forall x :: x in DistinctPreferences(users) <==> x in Flat(users)
    ensures var r := DistinctPreferences(users);
      forall i, j :: 0 <= i < j < |r| ==> FirstIndex(Flat(users), r[i]) < FirstIndex(Flat(users), r[j])
  {
    GatherIsAddNew([], users);
    AddNewIsDedup(Flat(users));
    DedupCharacterized(Flat(users));
    FlatElements(users);
  }

  /** The `reduce` over the users, with its `forEach`/`includes`/`push`
      inner loop. */
  method CollectPreferences(users: seq<UserRecord>) returns (acc: seq<string>)
    ensures acc == DistinctPreferences(users)
    ensures NoDup(acc) && forall x :: x in acc <==> x in Flat(users)
  {
    acc := [];
    var i := 0;
    assert users[0..] == users;
    while i < |users|
      invariant 0 <= i <= |users|
      invariant Gather(acc, users[i..]) == DistinctPreferences(users)
    {
      var u := users[i];
      assert users[i..][1..] == users[i + 1..];
      if u.preferences.Some? && |u.preferences.value| > 0 {
        var prefs := u.preferences.value;
        var j := 0;
        assert prefs[0..] == prefs;
        while j < |prefs|
          invariant 0 <= j <= |prefs|
          invariant Gather(AddNew(acc, prefs[j..]), users[i + 1..]) == DistinctPreferences(users)
        {
          assert prefs[j..][1..] == prefs[j + 1..];
          if prefs[j] !in acc {
            acc := acc + [prefs[j]];
          }
          j := j + 1;
        }
      }
      i := i + 1;
    }
    DistinctPreferencesCharacterized(users);
  }

  // ---------------------------------------------------------------------
  // One refresh task.
  // ---------------------------------------------------------------------

  /** The request `axios.get` sends: endpoint, query parameters and timeout (ms). */
  datatype NewsQuery = NewsQuery(endpoint: string, q: string, apiKey: string, language: string,
                                 sortBy: string, pageSize: nat, timeoutMs: nat)

  function QueryFor(preference: string, apiKey: string): NewsQuery
  {
    NewsQuery("https://newsapi.org/v2/everything", preference, apiKey, "en", "publishedAt", 5, 15000)
  }

  /** An article as the upstream API returns it. */
  datatype RawArticle = RawArticle(url: JsValue, title: JsValue, description: JsValue,
                                   urlToImage: JsValue, publishedAt: JsValue, source: JsValue)

  /** What the fetch oracle answers: the articles and `totalResults` of the
      response body, or the message of the error it threw. */
  datatype FetchResult =
    | Fetched(articles: seq<RawArticle>, totalResults: JsValue)
    | FetchFailed(message: string)

  /** The world one cycle sees: `process.env.NEWS_API_KEY`, the upstream
      API, and the clock. */
  datatype Env = Env(apiKey: Option<string>, fetch: NewsQuery -> FetchResult, now: Instant)

  /** `!newsApiKey`: unset, or set to the empty string. */
  predicate NoApiKey(env: Env)
  {
    env.apiKey.None? || env.apiKey.value == ""
  }

  /** `article.source?.name`. */
  function SourceName(source: JsValue): JsValue
  {
    match source
    case Obj(fields) => Field(fields, "name")
    case _ => Undefined
  }

  /** One element of `response.data.articles.map(...)`, or `None` when
      `Buffer.from(article.url)` throws. */
  function ShapeArticle(a: RawArticle): Option<JsValue>
  {
    if !a.url.Str? then None
    else
      var name := SourceName(a.source);
      Some(Obj(map[
        "id" := Str(ArticleId(a.url.s)),
        "title" := a.title,
        "description" := a.description,
        "url" := a.url,
        "urlToImage" := a.urlToImage,
        "publishedAt" := a.publishedAt,
        "source" := if Truthy(name) then name else Str("Unknown")]))
  }

  /** `response.data.articles.map(...)`: fails at the first article that throws. */
  function ShapeArticles(articles: seq<RawArticle>): (r: Option<seq<JsValue>>)
    ensures r.Some? <==> forall i :: 0 <= i < |articles| ==> articles[i].url.Str?
    ensures r.Some? ==> |r.value| == |articles|
    ensures r.Some? ==> forall i :: 0 <= i < |articles| ==> ShapeArticle(articles[i]) == Some(r.value[i])
  {
    if articles == [] then Some([])
    else
      match ShapeArticle(articles[0])
      case None => None
      case Some(first) =>
        match ShapeArticles(articles[1..])
        case None =>
          assert forall i :: 1 <= i < |articles| ==> articles[i] == articles[1..][i - 1];
          None
        case Some(rest) =>
          assert forall i :: 1 <= i < |articles| ==> articles[i] == articles[1..][i - 1];
          Some([first] + rest)
  }

  /** `newsData`: one category holding the shaped articles. */
  function Bundle(preference: string, articles: seq<JsValue>, totalResults: JsValue): Payload
  {
    map[
      "news" := Arr([Obj(map["category" := Str(preference), "articles" := Arr(articles), "totalResults" := totalResults])]),
      "totalCategories" := Num(1),
      "failedCategories" := Num(0)]
  }

  /** How `updateNewsForPreference(preference)` settles: with the bundle it
      caches, or with the message of the error it rethrows. */
  datatype TaskOutcome = Stored(bundle: Payload) | Failed(reason: string)

  function RunTask(preference: string, env: Env): TaskOutcome
  {
    if NoApiKey(env) then Failed(NO_API_KEY)
    else
      match env.fetch(QueryFor(preference, env.apiKey.value))
      case FetchFailed(message) => Failed(message)
      case Fetched(articles, totalResults) =>
        match ShapeArticles(articles)
        case None => Failed(INVALID_URL)
        case Some(shaped) => Stored(Bundle(preference, shaped, totalResults))
  }

  /** The store after the task: a fulfilled task has done `setCachedNews([preference], newsData)`. */
  function TaskStore(st: StoreState, preference: string, env: Env): StoreState
  {
    match RunTask(preference, env)
    case Failed(_) => st
    case Stored(bundle) => Put(st, NewsKey([preference]), NewsRecord(bundle, env.now, [preference]), CACHE_TTL, env.now.ms)
  }

  /** What a shaped article keeps of the fetched one: its `url`, an id of
      at most 16 letters and digits, and a truthy `source`, the source's
      name when that is truthy and `'Unknown'` otherwise. */
  ghost predicate ShapedFrom(a: JsValue, raw: RawArticle)
  {
    && a.Obj? && raw.url.Str?
    && a.fields.Keys == {"id", "title", "description", "url", "urlToImage", "publishedAt", "source"}
    && a.fields["url"] == raw.url
    && a.fields["title"] == raw.title && a.fields["description"] == raw.description
    && a.fields["urlToImage"] == raw.urlToImage && a.fields["publishedAt"] == raw.publishedAt
    && a.fields["id"].Str? && |a.fields["id"].s| <= 16
    && (forall k :: 0 <= k < |a.fields["id"].s| ==> IsAlnum(a.fields["id"].s[k]))
    && Truthy(a.fields["source"])
    && (Truthy(SourceName(raw.source)) ==> a.fields["source"] == SourceName(raw.source))
    && (!Truthy(SourceName(raw.source)) ==> a.fields["source"] == Str("Unknown"))
  }

  /** An article with a string `url` is shaped as `ShapedFrom` says. */
  lemma ShapeArticleFields(raw: RawArticle)
    requires raw.url.Str?
    ensures ShapeArticle(raw).Some? && ShapedFrom(ShapeArticle(raw).value, raw)
  {
  }

  /** A task that fulfils caches one category, `category = preference`,
      `totalCategories = 1` and `failedCategories = 0`, with one article per
      fetched article, each shaped from it. */
  lemma StoredBundleShape(preference: string, env: Env)
    requires RunTask(preference, env).Stored?
    ensures var b := RunTask(preference, env).bundle;
      var f := env.fetch(QueryFor(preference, env.apiKey.value));
      && !NoApiKey(env) && f.Fetched?
      && b.Keys == {"news", "totalCategories", "failedCategories"}
      && b["totalCategories"] == Num(1) && b["failedCategories"] == Num(0)
      && b["news"].Arr? && |b["news"].items| == 1
      && var cat := b["news"].items[0];
      && cat.Obj? && cat.fields.Keys == {"category", "articles", "totalResults"}
      && cat.fields["category"] == Str(preference)
      && cat.fields["totalResults"] == f.totalResults
      && cat.fields["articles"].Arr? && |cat.fields["articles"].items| == |f.articles|
      && forall i :: 0 <= i < |f.articles| ==> ShapedFrom(cat.fields["articles"].items[i], f.articles[i])
  {
    var f := env.fetch(QueryFor(preference, env.apiKey.value));
    var shaped := ShapeArticles(f.articles).value;
    assert RunTask(preference, env).bundle == Bundle(preference, shaped, f.totalResults);
    forall i | 0 <= i < |f.articles| ensures ShapedFrom(shaped[i], f.articles[i]) {
      ShapeArticleFields(f.articles[i]);
    }
  }

  /** With no API key every task rejects with the same message, whatever the
      upstream API would have answered: nothing is fetched. */
  lemma NoApiKeyNoFetch(preference: string, env: Env, other: NewsQuery -> FetchResult)
    requires NoApiKey(env)
    ensures RunTask(preference, env) == Failed(NO_API_KEY)
    ensures RunTask(preference, env.(fetch := other)) == RunTask(preference, env)
  {
  }

  // ---------------------------------------------------------------------
  // One cycle.
  // ---------------------------------------------------------------------

  /** A `Promise.allSettled` result. */
  datatype Settled = Fulfilled | Rejected(reason: string)

  function Settle(o: TaskOutcome): Settled
  {
    match o
    case Stored(_) => Fulfilled
    case Failed(reason) => Rejected(reason)
  }

  /** The settled results of the tasks, one per preference, in order. */
  function Results(prefs: seq<string>, env: Env): (rs: seq<Settled>)
    ensures |rs| == |prefs|
  {
    seq(|prefs|, i requires 0 <= i < |prefs| => Settle(RunTask(prefs[i], env)))
  }

  /** `results.filter(r => r.status === 'fulfilled').length`. */
  function CountFulfilled(rs: seq<Settled>): nat
  {
    if rs == [] then 0 else (if rs[0].Fulfilled? then 1 else 0) + CountFulfilled(rs[1..])
  }

  /** `results.filter(r => r.status === 'rejected').length`. */
  function CountRejected(rs: seq<Settled>): nat
  {
    if rs == [] then 0 else (if rs[0].Rejected? then 1 else 0) + CountRejected(rs[1..])
  }

  /** Every settled result is counted exactly once. */
  lemma {:induction false} CountsAddUp(rs: seq<Settled>)
    ensures CountFulfilled(rs) + CountRejected(rs) == |rs|
  {
    if rs != [] {
      CountsAddUp(rs[1..]);
    }
  }

  lemma {:induction false} CountFulfilledNone(rs: seq<Settled>)
    requires forall i :: 0 <= i < |rs| ==> rs[i].Rejected?
    ensures CountFulfilled(rs) == 0 && CountRejected(rs) == |rs|
  {
    if rs != [] {
      CountFulfilledNone(rs[1..]);
    }
  }

  /** The numbers `updateCachedNews` logs. */
  datatype CycleSummary = CycleSummary(successful: nat, failed: nat)

  /** The summary of a cycle, or `None` when the user query failed (the error is only logged). */
  function CycleOutcome(users: Option<seq<UserRecord>>, env: Env): Option<CycleSummary>
  {
    if users.None? then None
    else
      var rs := Results(DistinctPreferences(users.value), env);
      Some(CycleSummary(CountFulfilled(rs), CountRejected(rs)))
  }

  /** The store after the tasks for `prefs` have run, one after the other. */
  function RefreshStore(st: StoreState, prefs: seq<string>, env: Env): StoreState
  {
    if prefs == [] then st
    else TaskStore(RefreshStore(st, prefs[..|prefs| - 1], env), prefs[|prefs| - 1], env)
  }

  /** The store after a cycle. */
  function CycleStore(st: StoreState, users: Option<seq<UserRecord>>, env: Env): StoreState
  {
    if users.None? then st else RefreshStore(st, DistinctPreferences(users.value), env)
  }

  /** Every distinct preference is counted once, as successful or as failed. */
  lemma CycleCountsEveryPreference(users: seq<UserRecord>, env: Env)
    ensures var s := CycleOutcome(Some(users), env).value;
      s.successful + s.failed == |DistinctPreferences(users)|
  {
    CountsAddUp(Results(DistinctPreferences(users), env));
  }

  /** With no API key a cycle reports no success, one failure per
      preference, and leaves the cache as it was. */
  lemma NoApiKeyCycle(st: StoreState, users: seq<UserRecord>, env: Env)
    requires NoApiKey(env)
    ensures CycleOutcome(Some(users), env) == Some(CycleSummary(0, |DistinctPreferences(users)|))
    ensures CycleStore(st, Some(users), env) == st
  {
    var prefs := DistinctPreferences(users);
    CountFulfilledNone(Results(prefs, env));
    NoApiKeyRefresh(st, prefs, env);
  }

  lemma {:induction false} NoApiKeyRefresh(st: StoreState, prefs: seq<string>, env: Env)
    requires NoApiKey(env)
    ensures RefreshStore(st, prefs, env) == st
  {
    if prefs != [] {
      NoApiKeyRefresh(st, prefs[..|prefs| - 1], env);
    }
  }

  /** The keys a cycle over `prefs` writes: `news:` and the preference, for
      each preference whose task fulfils. */
  ghost function RefreshedKeys(prefs: seq<string>, env: Env): set<string>
  {
    set p | p in prefs && RunTask(p, env).Stored? :: "news:" + p
  }

  /** One task writes at most the key of its own preference. */
  lemma TaskStoreEffect(st: StoreState, p: string, env: Env)
    ensures var r := TaskStore(st, p, env);
      && (WellFormed(st) ==> WellFormed(r))
      && r.hits == st.hits && r.misses == st.misses
      && r.data.Keys == st.data.Keys + (if RunTask(p, env).Stored? then {NewsKey([p])} else {})
      && (RunTask(p, env).Stored? ==>
            r.data[NewsKey([p])] == Entry(NewsRecord(RunTask(p, env).bundle, env.now, [p]), env.now.ms + 1_800_000))
      && (forall k :: k in st.data && k != NewsKey([p]) ==> r.data[k] == st.data[k])
  {
  }

  lemma RefreshedKeysSnoc(prefs: seq<string>, env: Env)
    requires prefs != []
    ensures var init, last := prefs[..|prefs| - 1], prefs[|prefs| - 1];
      RefreshedKeys(prefs, env) == RefreshedKeys(init, env) + (if RunTask(last, env).Stored? then {"news:" + last} else {})
  {
    assert prefs == prefs[..|prefs| - 1] + [prefs[|prefs| - 1]];
  }

  /** The tasks keep the store well formed and leave the hit and miss counters alone. */
  lemma {:induction false} RefreshStoreCounters(st: StoreState, prefs: seq<string>, env: Env)
    ensures var r := RefreshStore(st, prefs, env);
      && (WellFormed(st) ==> WellFormed(r))
      && r.hits == st.hits && r.misses == st.misses
  {
    if prefs != [] {
      var init := prefs[..|prefs| - 1];
      RefreshStoreCounters(st, init, env);
      TaskStoreEffect(RefreshStore(st, init, env), prefs[|prefs| - 1], env);
    }
  }

  /** After the tasks for `prefs`, the keys written are exactly those of the
      fulfilled preferences, and every other key holds what it held before. */
  lemma {:induction false} RefreshStoreFrame(st: StoreState, prefs: seq<string>, env: Env)
    ensures var r := RefreshStore(st, prefs, env);
      && r.data.Keys == st.data.Keys + RefreshedKeys(prefs, env)
      && (forall k :: k in st.data && k !in RefreshedKeys(prefs, env) ==> r.data[k] == st.data[k])
  {
    if prefs != [] {
      var init, last := prefs[..|prefs| - 1], prefs[|prefs| - 1];
      var mid := RefreshStore(st, init, env);
      var r := TaskStore(mid, last, env);
      var written := if RunTask(last, env).Stored? then {"news:" + last} else {};
      SingletonNewsKey(last);
      RefreshStoreFrame(st, init, env);
      TaskStoreEffect(mid, last, env);
      RefreshedKeysSnoc(prefs, env);
      assert r.data.Keys == mid.data.Keys + written;
      forall k | k in st.data && k !in RefreshedKeys(prefs, env) ensures r.data[k] == st.data[k] {
        assert k !in RefreshedKeys(init, env) && k !in written;
      }
    }
  }

  /** After the tasks for `prefs`, the key of each fulfilled preference holds
      that preference's bundle, stamped with the cycle's time and due to
      expire 1800 s later. */
  lemma {:induction false} RefreshStoreWrites(st: StoreState, prefs: seq<string>, env: Env, p: string)
    requires p in prefs && RunTask(p, env).Stored?
    ensures var r := RefreshStore(st, prefs, env);
      && NewsKey([p]) in r.data
      && r.data[NewsKey([p])] == Entry(NewsRecord(RunTask(p, env).bundle, env.now, [p]), env.now.ms + 1_800_000)
  {
    var init, last := prefs[..|prefs| - 1], prefs[|prefs| - 1];
    var mid := RefreshStore(st, init, env);
    TaskStoreEffect(mid, last, env);
    if p != last {
      assert prefs == init + [last];
      RefreshStoreWrites(st, init, env, p);
      if NewsKey([p]) == NewsKey([last]) {
        SingletonNewsKeyInjective(p, last);
      }
    }
  }

  /** Read back after a cycle: for a preference whose task fulfilled,
      `getCachedNews([preference])` answers until 1800 s after the cycle,
      and with null afterwards, with the bundle's fields, the cycle's time as
      `cachedAt`, `[preference]` as `preferences` and `fromCache = true`. */
  lemma ReadBackAfterRefresh(st: StoreState, prefs: seq<string>, env: Env, p: string, t: int)
    requires p in prefs && RunTask(p, env).Stored?
    ensures var r := CachedNews(RefreshStore(st, prefs, env), [p], t);
      var b := RunTask(p, env).bundle;
      && (r.Some? <==> t <= env.now.ms + 1_800_000)
      && (r.Some? ==>
            && r.value.Keys == b.Keys + {"cachedAt", "preferences", "fromCache"}
            && r.value["cachedAt"] == Str(env.now.iso)
            && r.value["preferences"] == StrArray([p])
            && r.value["fromCache"] == Bool(true)
            && forall f :: f in b && f !in {"cachedAt", "preferences", "fromCache"} ==> r.value[f] == b[f])
  {
    RefreshStoreWrites(st, prefs, env, p);
  }

  // ---------------------------------------------------------------------
  // The service object.
  // ---------------------------------------------------------------------

  /** What `setInterval` returns. */
  datatype TimerHandle = TimerHandle(id: nat)

  /** What `getStatus()` returns. */
  datatype Status = Status(isRunning: bool, updateInterval: nat, lastUpdate: string)

  /** How `triggerUpdate()` settles. */
  datatype TriggerResult = Triggered(summary: Option<CycleSummary>) | Refused(message: string)

  class BackgroundNewsService {
    const newsCache: NewsCacheService
    const updateInterval: nat
    var isRunning: bool
    var updateTimer: Option<TimerHandle>

    /** The timer is held exactly while the service runs. */
    ghost predicate Valid()
      reads this, newsCache, newsCache.cache
    {
      && newsCache.Valid()
      && updateInterval == UPDATE_INTERVAL
      && (isRunning <==> updateTimer.Some?)
    }

    constructor ()
      ensures Valid() && fresh(newsCache) && fresh(newsCache.cache)
      ensures !isRunning && updateTimer == None
      ensures newsCache.cache.State() == EmptyStore
    {
      newsCache := new NewsCacheService();
      updateInterval := UPDATE_INTERVAL;
      isRunning := false;
      updateTimer := None;
    }

    /** `start()`: from stopped, holds the timer `setInterval` returned
        (`handle`) and runs the first cycle; while running, changes nothing. */
    method Start(handle: TimerHandle, users: Option<seq<UserRecord>>, env: Env)
      requires Valid()
      modifies this, newsCache.cache
      ensures Valid() && isRunning
      ensures old(isRunning) ==> updateTimer == old(updateTimer) && newsCache.cache.State() == old(newsCache.cache.State())
      ensures !old(isRunning) ==> updateTimer == Some(handle)
      ensures !old(isRunning) ==> newsCache.cache.State() == CycleStore(old(newsCache.cache.State()), users, env)
    {
      if isRunning {
        return;
      }
      isRunning := true;
      updateTimer := Some(handle);
      var _ := UpdateCachedNews(users, env);
    }

    /** `stop()`: from running, releases the timer; while stopped, changes nothing. */
    method Stop()
      requires Valid()
      modifies this
      ensures Valid() && !isRunning && updateTimer == None
    {
      if !isRunning {
        return;
      }
      isRunning := false;
      if updateTimer.Some? {
        updateTimer := None;
      }
    }

    /** `triggerUpdate()`: refused while stopped, with nothing changed;
        otherwise one cycle. */
    method TriggerUpdate(users: Option<seq<UserRecord>>, env: Env) returns (r: TriggerResult)
      requires Valid()
      modifies newsCache.cache
      ensures Valid()
      ensures !isRunning ==> r == Refused(NOT_RUNNING) && newsCache.cache.State() == old(newsCache.cache.State())
      ensures isRunning ==> r == Triggered(CycleOutcome(users, env))
      ensures isRunning ==> newsCache.cache.State() == CycleStore(old(newsCache.cache.State()), users, env)
    {
      if !isRunning {
        return Refused(NOT_RUNNING);
      }
      var summary := UpdateCachedNews(users, env);
      r := Triggered(summary);
    }

    /** `getStatus()` at clock reading `now`: `lastUpdate` is the time of
        the call, not of the last cycle. */
    function GetStatus(now: Instant): (s: Status)
      requires Valid()
      reads this, newsCache, newsCache.cache
      ensures s.isRunning <==> updateTimer.Some?
      ensures s.updateInterval == 30 * 60 * 1000
      ensures s.lastUpdate == now.iso
    {
      Status(isRunning, updateInterval, now.iso)
    }

    /** `updateCachedNews()`: the tasks run one after the other. */
    method UpdateCachedNews(users: Option<seq<UserRecord>>, env: Env) returns (summary: Option<CycleSummary>)
      requires Valid()
      modifies newsCache.cache
      ensures Valid()
      ensures summary == CycleOutcome(users, env)
      ensures newsCache.cache.State() == CycleStore(old(newsCache.cache.State()), users, env)
    {
      if users.None? {
        return None;
      }
      var prefs := CollectPreferences(users.value);
      var results: seq<Settled> := [];
      var i := 0;
      while i < |prefs|
        invariant 0 <= i <= |prefs|
        invariant Valid()
        invariant results == Results(prefs[..i], env)
        invariant newsCache.cache.State() == RefreshStore(old(newsCache.cache.State()), prefs[..i], env)
      {
        var settled := UpdateNewsForPreference(prefs[i], env);
        assert prefs[..i + 1][..i] == prefs[..i];
        results := results + [settled];
        i := i + 1;
      }
      assert prefs[..|prefs|] == prefs;
      summary := Some(CycleSummary(CountFulfilled(results), CountRejected(results)));
    }

    /** `updateNewsForPreference(preference)`. */
    method UpdateNewsForPreference(preference: string, env: Env) returns (settled: Settled)
      requires Valid()
      modifies newsCache.cache
      ensures Valid()
      ensures settled == Settle(RunTask(preference, env))
      ensures newsCache.cache.State() == TaskStore(old(newsCache.cache.State()), preference, env)
    {
      if env.apiKey.None? || env.apiKey.value == "" {
        return Rejected(NO_API_KEY);
      }
      var response := env.fetch(QueryFor(preference, env.apiKey.value));
      if response.FetchFailed? {
        return Rejected(response.message);
      }
      var articles := ShapeArticles(response.articles);
      if articles.None? {
        return Rejected(INVALID_URL);
      }
      var newsData := Bundle(preference, articles.value, response.totalResults);
      var preferences := new string[] [preference];
      assert SortSeq([preference]) == [preference] by {
        assert [preference][1..] == [];
      }
      var _ := newsCache.SetCachedNews(preferences, newsData, env.now);
      settled := Fulfilled;
    }
  }
}
