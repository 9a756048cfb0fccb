/** The TTL key/value store the news cache is built on (the `node-cache`
    package, created with `stdTTL: 1800`, `checkperiod: 600` and
    `useClones: false`). The library itself is not part of this model; this
    module states the behaviour the cache service relies on:

    - `set(key, value, ttl?)` stores `value` until `now + ttl * 1000` ms,
      where an omitted `ttl` means the store's standard TTL; a new key is
      listed after the existing ones, a replaced key keeps its place;
    - `get(key)` returns the value while the clock has not passed its expiry;
      an expired entry is deleted by the read itself (lazy expiry); every
      read counts as one hit or one miss;
    - `del(key)` removes a key and ignores a missing one;
    - `keys()` lists the stored keys, expired ones the periodic sweep has not
      yet removed included;
    - `flushAll()` removes every entry and resets the counters. */
module TtlStore {
  import opened JsValues

  /** A stored value and the clock reading (ms) after which it has expired. */
  datatype Entry = Entry(value: Payload, expiresAt: int)

  /** Everything a caller can observe: the entries, their keys in the order
      `keys()` lists them, and the hit and miss counters. */
  datatype StoreState = StoreState(data: map<string, Entry>, order: seq<string>, hits: nat, misses: nat)

  const EmptyStore := StoreState(map[], [], 0, 0)

  /** A time-to-live in seconds. The store gives 0 the meaning "never
      expires"; no caller in this core passes 0, so it is excluded. */
  type Ttl = t: nat | t > 0 witness 1

  predicate NoDup(s: seq<string>)
  {
    forall i, j :: 0 <= i < j < |s| ==> s[i] != s[j]
  }

  /** The listed keys are exactly the stored keys, each once. */
  ghost predicate WellFormed(st: StoreState)
  {
    NoDup(st.order) && forall k :: k in st.order <==> k in st.data
  }

  predicate Live(e: Entry, now: int)
  {
    now <= e.expiresAt
  }

  /** What `get(key)` returns at clock reading `now`. */
  function Lookup(st: StoreState, key: string, now: int): Option<Payload>
  {
    if key in st.data && Live(st.data[key], now) then Some(st.data[key].value) else None
  }

  /** `order` without `key`. */
  function Remove(order: seq<string>, key: string): (r: seq<string>)
    ensures forall k :: k in r <==> k in order && k != key
    ensures NoDup(order) ==> NoDup(r)
    ensures key !in order ==> r == order
    ensures forall p :: 0 <= p < |order| && order[p] == key && NoDup(order) ==> r == order[..p] + order[p + 1..]
  {
    if order == [] then []
    else if order[0] == key then
      assert NoDup(order) ==> key !in order[1..] by {
        if NoDup(order) {
          forall j | 0 <= j < |order| - 1 ensures order[1..][j] != key {
            assert order[1..][j] == order[j + 1];
          }
        }
      }
      assert forall p :: 0 <= p < |order| && order[p] == key && NoDup(order) ==> p == 0;
      Remove(order[1..], key)
    else
      var rest := Remove(order[1..], key);
      assert forall p :: 0 < p < |order| ==> order[..p] + order[p + 1..] == [order[0]] + (order[1..][..p - 1] + order[1..][p..]);
      assert NoDup(order) ==> NoDup(order[1..]) && order[0] !in order[1..] by {
        if NoDup(order) {
          forall i, j | 0 <= i < j < |order| - 1 ensures order[1..][i] != order[1..][j] {
            assert order[1..][i] == order[i + 1] && order[1..][j] == order[j + 1];
          }
          forall j | 0 <= j < |order| - 1 ensures order[1..][j] != order[0] {
            assert order[1..][j] == order[j + 1];
          }
        }
      }
      [order[0]] + rest
  }

  /** The state after `del(key)`. */
  function Delete(st: StoreState, key: string): (r: StoreState)
    ensures WellFormed(st) ==> WellFormed(r)
    ensures r.data.Keys == st.data.Keys - {key}
    ensures forall k :: k in r.data ==> r.data[k] == st.data[k]
    ensures WellFormed(st) && key !in st.data ==> r == st
  {
    StoreState(st.data - {key}, Remove(st.order, key), st.hits, st.misses)
  }

  /** The state after `set(key, value, ttl)` at clock reading `now`. */
  function Put(st: StoreState, key: string, value: Payload, ttl: Ttl, now: int): (r: StoreState)
    ensures WellFormed(st) ==> WellFormed(r)
    ensures r.data.Keys == st.data.Keys + {key}
    ensures r.data[key] == Entry(value, now + ttl * 1000)
    ensures forall k :: k in st.data && k != key ==> r.data[k] == st.data[k]
    ensures r.hits == st.hits && r.misses == st.misses
  {
    var order := if key in st.data then st.order else st.order + [key];
    StoreState(st.data[key := Entry(value, now + ttl * 1000)], order, st.hits, st.misses)
  }

  /** The state after `get(key)` at clock reading `now`: a hit is counted, or
      a miss is counted and an expired entry is dropped. */
  function AfterGet(st: StoreState, key: string, now: int): (r: StoreState)
    ensures WellFormed(st) ==> WellFormed(r)
    ensures r.hits + r.misses == st.hits + st.misses + 1
    ensures r.hits == st.hits + 1 <==> Lookup(st, key, now).Some?
    ensures r.data.Keys == if key in st.data && !Live(st.data[key], now) then st.data.Keys - {key} else st.data.Keys
    ensures forall k :: k in r.data ==> r.data[k] == st.data[k]
    ensures !(key in st.data && !Live(st.data[key], now)) ==> r.order == st.order
  {
    if key in st.data && Live(st.data[key], now) then st.(hits := st.hits + 1)
    else if key in st.data then Delete(st, key).(misses := st.misses + 1)
    else st.(misses := st.misses + 1)
  }

  /** A value read back after `set` is the value stored, strictly up to its
      expiry and no later; every other key reads as before. */
  lemma LookupAfterPut(st: StoreState, key: string, value: Payload, ttl: Ttl, now: int, k: string, t: int)
    ensures Lookup(Put(st, key, value, ttl, now), k, t) ==
            if k == key then (if t <= now + ttl * 1000 then Some(value) else None)
            else Lookup(st, k, t)
  {
  }

  /** After `del(key)` the key reads as absent and every other key as before. */
  lemma LookupAfterDelete(st: StoreState, key: string, k: string, t: int)
    ensures Lookup(Delete(st, key), k, t) == if k == key then None else Lookup(st, k, t)
  {
  }

  /** A read changes what later reads return for no key: the only entry it
      drops had already expired, and stays expired as the clock moves on. */
  lemma LookupAfterGet(st: StoreState, key: string, now: int, k: string, t: int)
    requires now <= t
    ensures Lookup(AfterGet(st, key, now), k, t) == Lookup(st, k, t)
  {
    if key in st.data && !Live(st.data[key], now) {
      LookupAfterDelete(st, key, k, t);
    }
  }

  lemma {:induction false} NoDupCardinality(s: seq<string>)
    requires NoDup(s)
    ensures |(set x | x in s)| == |s|
  {
    if s != [] {
      var init := s[..|s| - 1];
      assert NoDup(init);
      NoDupCardinality(init);
      assert (set x | x in s) == (set x | x in init) + {s[|s| - 1]};
    }
  }

  /** The number of listed keys is the number of stored entries. */
  lemma KeyCount(st: StoreState)
    requires WellFormed(st)
    ensures |st.order| == |st.data|
  {
    NoDupCardinality(st.order);
    assert (set x | x in st.order) == st.data.Keys;
  }

  /** The store object the service holds as `this.cache`. */
  class TtlCache {
    const stdTtl: Ttl
    var data: map<string, Entry>
    var order: seq<string>
    var hits: nat
    var misses: nat

    function State(): StoreState
      reads this
    {
      StoreState(data, order, hits, misses)
    }

    ghost predicate Valid()
      reads this
    {
      WellFormed(State())
    }

    constructor (stdTtl: Ttl)
      ensures Valid()
      ensures this.stdTtl == stdTtl && State() == EmptyStore
    {
      this.stdTtl := stdTtl;
      data, order, hits, misses := map[], [], 0, 0;
    }

    /** `get(key)`. */
    method Get(key: string, now: int) returns (r: Option<Payload>)
      requires Valid()
      modifies this
      ensures Valid()
      ensures r == Lookup(old(State()), key, now)
      ensures State() == AfterGet(old(State()), key, now)
    {
      if key in data && now <= data[key].expiresAt {
        hits := hits + 1;
        r := Some(data[key].value);
      } else {
        if key in data {
          Del(key);
        }
        misses := misses + 1;
        r := None;
      }
    }

    /** `set(key, value)` with the standard TTL, or `set(key, value, ttl)`. */
    method Set(key: string, value: Payload, ttl: Option<Ttl>, now: int)
      requires Valid()
      modifies this
      ensures Valid()
      ensures State() == Put(old(State()), key, value, if ttl.Some? then ttl.value else stdTtl, now)
    {
      var seconds := if ttl.Some? then ttl.value else stdTtl;
      if key !in data {
        order := order + [key];
      }
      data := data[key := Entry(value, now + seconds * 1000)];
    }

    /** `del(key)`. */
    method Del(key: string)
      requires Valid()
      modifies this
      ensures Valid()
      ensures State() == Delete(old(State()), key)
    {
      data := data - {key};
      order := Remove(order, key);
    }

    /** `keys()`: each stored key once, live or not yet swept. */
    method Keys() returns (ks: seq<string>)
      requires Valid()
      ensures NoDup(ks) && forall k :: k in ks <==> k in data
      ensures |ks| == |data|
      ensures ks == order
    {
      ks := order;
      KeyCount(State());
    }

    /** `flushAll()`. */
    method FlushAll()
      requires Valid()
      modifies this
      ensures Valid()
      ensures State() == EmptyStore
    {
      data, order, hits, misses := map[], [], 0, 0;
    }
  }
}
