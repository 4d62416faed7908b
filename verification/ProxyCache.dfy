/**
 The query cache of proxy mode (internal/p2p/mode_proxy.go). Keys are JSON encodings of
 requests and so never empty; eviction relies on that, as it uses the empty key for "none yet".
 */
module ProxyCache {
  import opened Common

  type Key = string

  datatype QueryResult = QueryResult(payload: string, fromCache: bool)

  datatype Entry = Entry(result: QueryResult, expiresAt: int)

  type Cache = map<Key, Entry>

  datatype Config = Config(maxCacheSize: int, cacheTtl: int) {
    /** Zero stands for the default of 1000 entries. */
    function MaxSize(): int {
      if maxCacheSize == 0 then 1000 else maxCacheSize
    }

    /** Zero stands for the default of two minutes. */
    function Ttl(): int {
      if cacheTtl == 0 then 120 else cacheTtl
    }
  }

  function Lookup(c: Cache, key: Key, now: int): Option<QueryResult> {
    if key in c && now <= c[key].expiresAt then Some(c[key].result.(fromCache := true)) else None
  }

  ghost predicate Oldest(c: Cache, victim: Key) {
    victim in c && forall k :: k in c ==> c[victim].expiresAt <= c[k].expiresAt
  }

  /** One entry of least expiry goes; nothing happens to an empty cache. */
  ghost predicate Evicts(c: Cache, c': Cache) {
    if c == map[] then c' == c else exists victim :: Oldest(c, victim) && c' == c - {victim}
  }

  ghost predicate Puts(cfg: Config, c: Cache, key: Key, result: QueryResult, now: int, c': Cache) {
    var entry := Entry(result, now + cfg.Ttl());
    if |c| >= cfg.MaxSize() then exists mid :: Evicts(c, mid) && c' == mid[key := entry]
    else c' == c[key := entry]
  }

  function Unexpired(c: Cache, now: int): Cache {
    map k | k in c && now <= c[k].expiresAt :: c[k]
  }

  class ProxyHandler {
    const cfg: Config
    var cache: Cache

    ghost predicate Valid()
      reads this
    {
      "" !in cache
    }

    constructor (c: Config)
      ensures cfg == c && cache == map[] && Valid()
    {
      cfg := c;
      cache := map[];
    }

    method GetFromCache(key: Key, now: int) returns (r: Option<QueryResult>)
      ensures r == Lookup(cache, key, now)
    {
      if key !in cache {
        return None;
      }
      if now > cache[key].expiresAt {
        return None;
      }
      return Some(cache[key].result.(fromCache := true));
    }

    /** The range visits the entries in an arbitrary order. */
    method EvictOldest()
      requires Valid()
      modifies this
      ensures Valid() && Evicts(old(cache), cache)
    {
      var oldestKey, oldestTime := "", 0;
      var todo := cache.Keys;
      while todo != {}
        invariant todo <= cache.Keys
        invariant oldestKey == "" ==> todo == cache.Keys
        invariant oldestKey != "" ==> oldestKey in cache && cache[oldestKey].expiresAt == oldestTime
        invariant oldestKey != "" ==> forall k :: k in cache && k !in todo ==> oldestTime <= cache[k].expiresAt
      {
        var k :| k in todo;
        if oldestKey == "" || cache[k].expiresAt < oldestTime {
          oldestKey, oldestTime := k, cache[k].expiresAt;
        }
        todo := todo - {k};
      }
      if oldestKey != "" {
        assert Oldest(cache, oldestKey);
        cache := cache - {oldestKey};
      }
    }

    method PutInCache(key: Key, result: QueryResult, now: int)
      requires Valid() && key != ""
      modifies this
      ensures Valid() && Puts(cfg, old(cache), key, result, now, cache)
    {
      var maxSize := cfg.maxCacheSize;
      if maxSize == 0 {
        maxSize := 1000;
      }
      if |cache| >= maxSize {
        EvictOldest();
      }
      var ttl := cfg.cacheTtl;
      if ttl == 0 {
        ttl := 120;
      }
      cache := cache[key := Entry(result, now + ttl)];
    }

    method CleanupExpired(now: int)
      requires Valid()
      modifies this
      ensures Valid() && cache == Unexpired(old(cache), now)
      ensures forall k :: k in cache <==> k in old(cache) && now <= old(cache)[k].expiresAt
      ensures forall k :: k in cache ==> cache[k] == old(cache)[k]
    {
      var todo := cache.Keys;
      while todo != {}
        invariant todo <= cache.Keys
        invariant cache == map k | k in old(cache) && (k in todo || now <= old(cache)[k].expiresAt) :: old(cache)[k]
      {
        var k :| k in todo;
        if now > cache[k].expiresAt {
          cache := cache - {k};
        }
        todo := todo - {k};
      }
    }

    method ClearCache()
      modifies this
      ensures Valid() && cache == map[]
    {
      cache := map[];
    }
  }

  // ---------------------------------------------------------------------------------
  // Histories
  // ---------------------------------------------------------------------------------

  datatype Event = Put(key: Key, result: QueryResult, at: int) | Get(key: Key, at: int) | Cleanup(at: int) | Clear

  ghost predicate Step(cfg: Config, c: Cache, e: Event, c': Cache) {
    match e
    case Put(key, result, now) => Puts(cfg, c, key, result, now, c')
    case Get(_, _) => c' == c
    case Cleanup(now) => c' == Unexpired(c, now)
    case Clear => c' == map[]
  }

  /** `states` are the caches passed through while `events` happen, from an empty cache. */
  ghost predicate IsHistory(cfg: Config, states: seq<Cache>, events: seq<Event>) {
    && |states| == |events| + 1 && states[0] == map[]
    && forall i :: 0 <= i < |events| ==> Step(cfg, states[i], events[i], states[i + 1])
  }

  /** Event `p` put what the cache holds for `key` before event `k`, and nothing replaced it since. */
  ghost predicate LatestPut(events: seq<Event>, key: Key, p: nat, k: nat) {
    && p < k <= |events| && events[p].Put? && events[p].key == key
    && forall m :: p < m < k ==> !events[m].Clear? && !(events[m].Put? && events[m].key == key)
  }

  lemma StepKeepsOrPuts(cfg: Config, c: Cache, e: Event, c': Cache, key: Key)
    requires Step(cfg, c, e, c') && key in c'
    ensures if e.Put? && e.key == key then c'[key] == Entry(e.result, e.at + cfg.Ttl())
            else !e.Clear? && key in c && c'[key] == c[key]
  {
  }

  lemma {:induction false} EntryIsLatestPut(cfg: Config, states: seq<Cache>, events: seq<Event>, k: nat, key: Key)
    returns (p: nat)
    requires IsHistory(cfg, states, events) && k <= |events| && key in states[k]
    ensures LatestPut(events, key, p, k)
    ensures states[k][key] == Entry(events[p].result, events[p].at + cfg.Ttl())
  {
    hide Step;
    var e := events[k - 1];
    StepKeepsOrPuts(cfg, states[k - 1], e, states[k], key);
    if e.Put? && e.key == key {
      p := k - 1;
    } else {
      p := EntryIsLatestPut(cfg, states, events, k - 1, key);
    }
  }

  /** Every hit is the most recent result put for exactly that key, put at most the TTL ago. */
  lemma HitIsLatestPut(cfg: Config, states: seq<Cache>, events: seq<Event>, k: nat) returns (p: nat)
    requires IsHistory(cfg, states, events) && k < |events| && events[k].Get?
    requires Lookup(states[k], events[k].key, events[k].at).Some?
    ensures LatestPut(events, events[k].key, p, k)
    ensures Lookup(states[k], events[k].key, events[k].at) == Some(events[p].result.(fromCache := true))
    ensures events[k].at <= events[p].at + cfg.Ttl()
  {
    p := EntryIsLatestPut(cfg, states, events, k, events[k].key);
  }

  ghost function Bound(cfg: Config): int {
    if cfg.MaxSize() < 1 then 1 else cfg.MaxSize()
  }

  lemma StepKeepsSize(cfg: Config, c: Cache, e: Event, c': Cache)
    requires Step(cfg, c, e, c') && |c| <= Bound(cfg)
    ensures |c'| <= Bound(cfg)
  {
    match e
    case Put(key, result, now) =>
      var entry := Entry(result, now + cfg.Ttl());
      if |c| >= cfg.MaxSize() {
        var mid :| Evicts(c, mid) && c' == mid[key := entry];
        if c != map[] {
          var victim :| Oldest(c, victim) && mid == c - {victim};
          assert mid.Keys == c.Keys - {victim};
        }
        assert c'.Keys == mid.Keys + {key};
      } else {
        assert c'.Keys == c.Keys + {key};
      }
    case Get(_, _) =>
    case Cleanup(now) =>
      SubsetSize(c'.Keys, c.Keys);
    case Clear =>
  }

  lemma SubsetSize(a: set<Key>, b: set<Key>)
    requires a <= b
    ensures |a| <= |b|
  {
    assert b == a + (b - a);
  }

  /** The cache never outgrows its limit (a limit below one still admits the entry just put). */
  lemma {:induction false} SizeIsBounded(cfg: Config, states: seq<Cache>, events: seq<Event>, k: nat)
    requires IsHistory(cfg, states, events) && k <= |events|
    ensures |states[k]| <= Bound(cfg)
  {
    if k > 0 {
      hide Step;
      SizeIsBounded(cfg, states, events, k - 1);
      StepKeepsSize(cfg, states[k - 1], events[k - 1], states[k]);
    }
  }

  // ---------------------------------------------------------------------------------
  // How long a result is served
  // ---------------------------------------------------------------------------------

  /** A put into a full cache costs one oldest entry, even if it replaces an entry that is there. */
  lemma FullPutEvicts(cfg: Config, c: Cache, e: Event, c': Cache) returns (victim: Key)
    requires Step(cfg, c, e, c') && e.Put? && c != map[] && |c| >= cfg.MaxSize()
    ensures Oldest(c, victim) && c' == (c - {victim})[e.key := Entry(e.result, e.at + cfg.Ttl())]
    ensures e.key in c && e.key != victim ==> |c'| == |c| - 1
  {
    var mid :| Evicts(c, mid) && c' == mid[e.key := Entry(e.result, e.at + cfg.Ttl())];
    victim :| Oldest(c, victim) && mid == c - {victim};
    assert c'.Keys == c.Keys - {victim} + {e.key};
  }

  ghost predicate PutTimesIncrease(events: seq<Event>) {
    forall i, j :: 0 <= i < j < |events| && events[i].Put? && events[j].Put? ==> events[i].at < events[j].at
  }

  /** The number of puts after event `p` and before event `k`. */
  ghost function PutCount(events: seq<Event>, p: nat, k: nat): nat
    requires k <= |events|
  {
    if k <= p + 1 then 0 else PutCount(events, p, k - 1) + (if events[k - 1].Put? then 1 else 0)
  }

  /** The keys of those puts. */
  ghost function KeysPut(events: seq<Event>, p: nat, k: nat): set<Key>
    requires k <= |events|
  {
    if k <= p + 1 then {} else KeysPut(events, p, k - 1) + (if events[k - 1].Put? then {events[k - 1].key} else {})
  }

  lemma {:induction false} FewerKeysThanPuts(events: seq<Event>, p: nat, k: nat)
    requires k <= |events|
    ensures |KeysPut(events, p, k)| <= PutCount(events, p, k)
  {
    if k > p + 1 {
      FewerKeysThanPuts(events, p, k - 1);
    }
  }

  lemma {:induction false} KeysPutIff(events: seq<Event>, p: nat, k: nat, key: Key)
    requires k <= |events|
    ensures key in KeysPut(events, p, k) <==> exists m :: p < m < k && events[m].Put? && events[m].key == key
  {
    if k > p + 1 {
      KeysPutIff(events, p, k - 1, key);
    }
  }

  /** An entry becomes the next to go only when all others were put after it. */
  lemma OldestIsOvertaken(cfg: Config, states: seq<Cache>, events: seq<Event>, p: nat, k: nat)
    requires IsHistory(cfg, states, events) && PutTimesIncrease(events)
    requires p < k <= |events| && events[p].Put? && Oldest(states[k], events[p].key)
    requires states[k][events[p].key].expiresAt == events[p].at + cfg.Ttl()
    ensures |states[k]| <= PutCount(events, p, k) + 1
  {
    hide Step;
    var c, key := states[k], events[p].key;
    forall x | x in c && x != key ensures x in KeysPut(events, p, k) {
      var q := EntryIsLatestPut(cfg, states, events, k, x);
      assert c[key].expiresAt <= c[x].expiresAt;
      KeysPutIff(events, p, k, x);
    }
    SubsetSize(c.Keys - {key}, KeysPut(events, p, k));
    FewerKeysThanPuts(events, p, k);
  }

  lemma {:induction false} Survives(cfg: Config, states: seq<Cache>, events: seq<Event>, p: nat, k: nat, now: int)
    requires IsHistory(cfg, states, events) && PutTimesIncrease(events)
    requires p < k <= |events| && events[p].Put? && LatestPut(events, events[p].key, p, k)
    requires PutCount(events, p, k) < Bound(cfg)
    requires now <= events[p].at + cfg.Ttl() && forall m :: p < m < k && events[m].Cleanup? ==> events[m].at <= now
    ensures events[p].key in states[k]
    ensures states[k][events[p].key] == Entry(events[p].result, events[p].at + cfg.Ttl())
  {
    hide Step;
    var c, e := states[k - 1], events[k - 1];
    assert Step(cfg, c, e, states[k]);
    if p + 1 == k {
      PutIsThere(cfg, c, e, states[k]);
    } else {
      Survives(cfg, states, events, p, k - 1, now);
      if e.Put? && Oldest(c, events[p].key) {
        OldestIsOvertaken(cfg, states, events, p, k - 1);
      }
      StepKeepsEntry(cfg, c, e, states[k], events[p].key);
    }
  }

  /** An entry goes only by a new put, a clear, its expiry, or as the oldest of a full cache. */
  lemma StepKeepsEntry(cfg: Config, c: Cache, e: Event, c': Cache, key: Key)
    requires Step(cfg, c, e, c') && key in c
    requires !e.Clear? && !(e.Put? && e.key == key) && (e.Cleanup? ==> e.at <= c[key].expiresAt)
    requires e.Put? && |c| >= cfg.MaxSize() ==> !Oldest(c, key)
    ensures key in c' && c'[key] == c[key]
  {
  }

  /** No step takes the later of two entries and leaves the earlier, unless by putting it anew. */
  lemma StepKeepsLater(cfg: Config, c: Cache, e: Event, c': Cache, x: Key, y: Key)
    requires Step(cfg, c, e, c') && x in c && y in c && c[x].expiresAt < c[y].expiresAt
    requires x in c' && !(e.Put? && (e.key == x || e.key == y))
    ensures y in c' && c'[y] == c[y]
  {
  }

  /** As long as an entry is there, so is everything put after it. */
  lemma {:induction false} LaterPutsStay(cfg: Config, states: seq<Cache>, events: seq<Event>, p: nat, k: nat, x: Key)
    requires IsHistory(cfg, states, events) && PutTimesIncrease(events)
    requires p < k <= |events| && events[p].Put? && LatestPut(events, events[p].key, p, k)
    requires events[p].key in states[k] && x in KeysPut(events, p, k)
    ensures x in states[k] && states[k][x].expiresAt > events[p].at + cfg.Ttl()
  {
    hide Step;
    var c, e, key := states[k - 1], events[k - 1], events[p].key;
    assert Step(cfg, c, e, states[k]);
    if e.Put? && e.key == x {
      PutIsThere(cfg, c, e, states[k]);
    } else {
      StepKeepsOrPuts(cfg, c, e, states[k], key);
      LaterPutsStay(cfg, states, events, p, k - 1, x);
      EntryOfPut(cfg, states, events, p, k - 1);
      StepKeepsLater(cfg, c, e, states[k], key, x);
    }
  }

  lemma EntryOfPut(cfg: Config, states: seq<Cache>, events: seq<Event>, p: nat, k: nat)
    requires IsHistory(cfg, states, events)
    requires p < k <= |events| && events[p].Put? && LatestPut(events, events[p].key, p, k) && events[p].key in states[k]
    ensures states[k][events[p].key] == Entry(events[p].result, events[p].at + cfg.Ttl())
  {
    var q := EntryIsLatestPut(cfg, states, events, k, events[p].key);
    assert !(q < p) && !(p < q);
  }

  lemma PutIsThere(cfg: Config, c: Cache, e: Event, c': Cache)
    requires Step(cfg, c, e, c') && e.Put?
    ensures e.key in c' && c'[e.key] == Entry(e.result, e.at + cfg.Ttl())
  {
  }

  /**
   Within its lifetime the latest result put for a key is served as long as fewer puts than the cache
   has room for have followed, and it is gone once as many other keys were put.
   */
  lemma FreshPutHits(cfg: Config, states: seq<Cache>, events: seq<Event>, p: nat, k: nat)
    requires IsHistory(cfg, states, events) && PutTimesIncrease(events) && k < |events| && events[k].Get?
    requires LatestPut(events, events[k].key, p, k) && events[k].at <= events[p].at + cfg.Ttl()
    requires forall m :: p < m < k && events[m].Cleanup? ==> events[m].at <= events[k].at
    ensures PutCount(events, p, k) < Bound(cfg) ==>
              Lookup(states[k], events[k].key, events[k].at) == Some(events[p].result.(fromCache := true))
    ensures |KeysPut(events, p, k)| >= Bound(cfg) ==> Lookup(states[k], events[k].key, events[k].at) == None
  {
    hide Step;
    if PutCount(events, p, k) < Bound(cfg) {
      Survives(cfg, states, events, p, k, events[k].at);
    }
    var c, key := states[k], events[k].key;
    if key in c {
      forall x | x in KeysPut(events, p, k) ensures x in c.Keys - {key} {
        LaterPutsStay(cfg, states, events, p, k, x);
        KeysPutIff(events, p, k, key);
      }
      SubsetSize(KeysPut(events, p, k), c.Keys - {key});
      SizeIsBounded(cfg, states, events, k);
    }
  }

  /** The defaults: a result is served for two minutes while fewer than 1000 others are put. */
  lemma DefaultsServe(states: seq<Cache>, events: seq<Event>, p: nat, k: nat)
    requires IsHistory(Config(0, 0), states, events) && PutTimesIncrease(events) && k < |events| && events[k].Get?
    requires LatestPut(events, events[k].key, p, k) && events[k].at <= events[p].at + 120
    requires forall m :: p < m < k && events[m].Cleanup? ==> events[m].at <= events[k].at
    ensures PutCount(events, p, k) < 1000 ==>
              Lookup(states[k], events[k].key, events[k].at) == Some(events[p].result.(fromCache := true))
    ensures |KeysPut(events, p, k)| >= 1000 ==> Lookup(states[k], events[k].key, events[k].at) == None
  {
    FreshPutHits(Config(0, 0), states, events, p, k);
  }

  /** ... and not longer. */
  lemma DefaultsExpire(states: seq<Cache>, events: seq<Event>, p: nat, k: nat)
    requires IsHistory(Config(0, 0), states, events) && k < |events| && events[k].Get?
    requires LatestPut(events, events[k].key, p, k) && events[k].at > events[p].at + 120
    ensures Lookup(states[k], events[k].key, events[k].at) == None
  {
    if events[k].key in states[k] {
      EntryOfPut(Config(0, 0), states, events, p, k);
    }
  }
}
