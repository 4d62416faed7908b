/**
 Per-peer token buckets with garbage collection (internal/p2p/grpc_auth.go).

 Times and token counts are reals. `Allow` reads the clock twice, once when it creates a missing
 bucket and once when it refills, so it takes both readings. Each operation is one step.
 */
module RateLimit {

  type Peer = string

  datatype Config = Config(enabled: bool, requestsPerSecond: real, burstSize: int, cleanupInterval: real) {
    predicate Sensible() {
      requestsPerSecond >= 0.0 && burstSize >= 0 && cleanupInterval > 0.0
    }
  }

  datatype Bucket = Bucket(tokens: real, lastUpdate: real)

  type Buckets = map<Peer, Bucket>

  /** Tokens that come in during `elapsed` seconds. */
  function Earned(cfg: Config, elapsed: real): real {
    elapsed * cfg.requestsPerSecond
  }

  /** The tokens at time `now`, before the request is charged. */
  function Refilled(cfg: Config, b: Bucket, now: real): real {
    var tokens := b.tokens + Earned(cfg, now - b.lastUpdate);
    if tokens > cfg.burstSize as real then cfg.burstSize as real else tokens
  }

  function BucketOf(cfg: Config, m: Buckets, p: Peer, created: real): Bucket {
    if p in m then m[p] else Bucket(cfg.burstSize as real, created)
  }

  function Charge(tokens: real, now: real): Bucket {
    Bucket(if tokens >= 1.0 then tokens - 1.0 else tokens, now)
  }

  predicate Allows(cfg: Config, m: Buckets, p: Peer, created: real, now: real) {
    cfg.enabled ==> Refilled(cfg, BucketOf(cfg, m, p, created), now) >= 1.0
  }

  function AfterAllow(cfg: Config, m: Buckets, p: Peer, created: real, now: real): Buckets {
    if cfg.enabled then m[p := Charge(Refilled(cfg, BucketOf(cfg, m, p, created), now), now)] else m
  }

  predicate Stale(cfg: Config, b: Bucket, now: real) {
    b.lastUpdate < now - cfg.cleanupInterval * 2.0
  }

  function AfterCleanup(cfg: Config, m: Buckets, now: real): Buckets {
    map p | p in m && !Stale(cfg, m[p], now) :: m[p]
  }

  class RateLimiter {
    const cfg: Config
    var buckets: Buckets

    constructor (c: Config)
      ensures cfg == c && buckets == map[]
    {
      cfg := c;
      buckets := map[];
    }

    method Allow(p: Peer, created: real, now: real) returns (ok: bool)
      modifies this
      ensures ok == Allows(cfg, old(buckets), p, created, now)
      ensures buckets == AfterAllow(cfg, old(buckets), p, created, now)
    {
      if !cfg.enabled {
        return true;
      }
      if p !in buckets {
        buckets := buckets[p := Bucket(cfg.burstSize as real, created)];
      }
      var elapsed := now - buckets[p].lastUpdate;
      var tokens := buckets[p].tokens + elapsed * cfg.requestsPerSecond;
      if tokens > cfg.burstSize as real {
        tokens := cfg.burstSize as real;
      }
      assert tokens == Refilled(cfg, BucketOf(cfg, old(buckets), p, created), now);
      ok := tokens >= 1.0;
      if ok {
        tokens := tokens - 1.0;
      }
      buckets := buckets[p := Bucket(tokens, now)];
    }

    /** The range visits the buckets in an arbitrary order. */
    method Cleanup(now: real)
      modifies this
      ensures buckets == AfterCleanup(cfg, old(buckets), now)
    {
      var threshold := now - cfg.cleanupInterval * 2.0;
      var todo := buckets.Keys;
      while todo != {}
        invariant todo <= buckets.Keys
        invariant buckets ==
                  map p | p in old(buckets) && (p in todo || !Stale(cfg, old(buckets)[p], now)) :: old(buckets)[p]
      {
        var p :| p in todo;
        if buckets[p].lastUpdate < threshold {
          buckets := buckets - {p};
        }
        todo := todo - {p};
      }
    }
  }

  // ---------------------------------------------------------------------------------
  // Histories
  // ---------------------------------------------------------------------------------

  datatype Event = Request(peer: Peer, created: real, at: real) | Cleanup(at: real)

  /** Clock readings do not go back, starting from `now`. */
  ghost predicate Clocked(events: seq<Event>, now: real) {
    events == [] || (
      && now <= events[0].at
      && (events[0].Request? ==> now <= events[0].created <= events[0].at)
      && Clocked(events[1..], events[0].at))
  }

  ghost function Next(cfg: Config, m: Buckets, e: Event, gc: bool): Buckets {
    match e
    case Request(p, c, t) => AfterAllow(cfg, m, p, c, t)
    case Cleanup(t) => if gc then AfterCleanup(cfg, m, t) else m
  }

  /** The answers to the requests, with or without garbage collection. */
  ghost function Answers(cfg: Config, m: Buckets, events: seq<Event>, gc: bool): seq<bool>
    decreases events
  {
    if events == [] then [] else
    (if events[0].Request? then [Allows(cfg, m, events[0].peer, events[0].created, events[0].at)] else [])
    + Answers(cfg, Next(cfg, m, events[0], gc), events[1..], gc)
  }

  ghost predicate BucketsOk(cfg: Config, m: Buckets, now: real) {
    forall p :: p in m ==> 0.0 <= m[p].tokens <= cfg.burstSize as real && m[p].lastUpdate <= now
  }

  lemma EarnedLaws(cfg: Config, x: real, y: real)
    requires cfg.requestsPerSecond >= 0.0
    ensures Earned(cfg, x + y) == Earned(cfg, x) + Earned(cfg, y)
    ensures x >= 0.0 ==> Earned(cfg, x) >= 0.0
    ensures Earned(cfg, 0.0) == 0.0
  {
  }

  lemma RefilledRange(cfg: Config, b: Bucket, now: real)
    requires cfg.Sensible() && 0.0 <= b.tokens <= cfg.burstSize as real && b.lastUpdate <= now
    ensures b.tokens <= Refilled(cfg, b, now) <= cfg.burstSize as real
    ensures b.lastUpdate == now ==> Refilled(cfg, b, now) == b.tokens
    ensures b.tokens == cfg.burstSize as real ==> Refilled(cfg, b, now) == b.tokens
  {
    hide Earned;
    EarnedLaws(cfg, now - b.lastUpdate, 0.0);
    assert b.lastUpdate == now ==> now - b.lastUpdate == 0.0;
  }

  /** Token counts stay between zero and the burst size. */
  lemma NextKeepsOk(cfg: Config, m: Buckets, e: Event, gc: bool, now: real)
    requires cfg.Sensible() && BucketsOk(cfg, m, now) && Clocked([e], now)
    ensures BucketsOk(cfg, Next(cfg, m, e, gc), e.at)
  {
    hide Refilled, Stale;
    if e.Request? {
      RefilledRange(cfg, BucketOf(cfg, m, e.peer, e.created), e.at);
    }
  }

  // ---------------------------------------------------------------------------------
  // Garbage collection cannot be observed
  // ---------------------------------------------------------------------------------

  /** `a` forgot only buckets of `b` that have been idle for more than two intervals. */
  ghost predicate Forgot(cfg: Config, a: Buckets, b: Buckets, now: real) {
    && (forall p :: p in a ==> p in b && a[p] == b[p])
    && (forall p :: p in b && p !in a ==> b[p].lastUpdate + cfg.cleanupInterval * 2.0 < now)
  }

  ghost predicate RefillsInTime(cfg: Config) {
    Earned(cfg, cfg.cleanupInterval * 2.0) >= cfg.burstSize as real
  }

  /** A forgotten bucket would have been full again, which is what a new one is. */
  lemma SameRefill(cfg: Config, a: Buckets, b: Buckets, p: Peer, created: real, at: real, now: real)
    requires cfg.Sensible() && RefillsInTime(cfg) && BucketsOk(cfg, b, now) && Forgot(cfg, a, b, now)
    requires now <= created <= at
    ensures Refilled(cfg, BucketOf(cfg, a, p, created), at) == Refilled(cfg, BucketOf(cfg, b, p, created), at)
  {
    hide Earned;
    if p !in a && p in b {
      var idle := cfg.cleanupInterval * 2.0;
      EarnedLaws(cfg, at - b[p].lastUpdate - idle, idle);
      assert at - b[p].lastUpdate - idle + idle == at - b[p].lastUpdate;
      RefilledRange(cfg, BucketOf(cfg, a, p, created), at);
    }
  }

  lemma {:induction false} CleanupInvisible(cfg: Config, a: Buckets, b: Buckets, events: seq<Event>, now: real)
    requires cfg.Sensible() && RefillsInTime(cfg) && BucketsOk(cfg, b, now) && Forgot(cfg, a, b, now)
    requires Clocked(events, now)
    ensures Answers(cfg, a, events, true) == Answers(cfg, b, events, false)
    decreases events
  {
    hide Refilled;
    if events != [] {
      var e := events[0];
      if e.Request? {
        SameRefill(cfg, a, b, e.peer, e.created, e.at, now);
      }
      NextKeepsOk(cfg, b, e, false, now);
      CleanupInvisible(cfg, Next(cfg, a, e, true), Next(cfg, b, e, false), events[1..], e.at);
    }
  }

  // ---------------------------------------------------------------------------------
  // ... unless the bucket refills too slowly
  // ---------------------------------------------------------------------------------

  ghost function Requests(p: Peer, at: real, n: nat): seq<Event> {
    if n == 0 then [] else [Request(p, at, at)] + Requests(p, at, n - 1)
  }

  ghost predicate AllTrue(s: seq<bool>) {
    false !in s
  }

  /** The tokens peer `p` has at time `at`. */
  ghost function Level(cfg: Config, m: Buckets, p: Peer, at: real): real {
    Refilled(cfg, BucketOf(cfg, m, p, at), at)
  }

  ghost function After(cfg: Config, m: Buckets, events: seq<Event>, gc: bool): Buckets
    decreases events
  {
    if events == [] then m else After(cfg, Next(cfg, m, events[0], gc), events[1..], gc)
  }

  lemma {:induction false} AnswersConcat(cfg: Config, m: Buckets, u: seq<Event>, v: seq<Event>, gc: bool)
    ensures Answers(cfg, m, u + v, gc) == Answers(cfg, m, u, gc) + Answers(cfg, After(cfg, m, u, gc), v, gc)
    decreases u
  {
    hide Allows, Next;
    if u == [] {
      assert u + v == v;
    } else {
      assert (u + v)[0] == u[0] && (u + v)[1..] == u[1..] + v;
      AnswersConcat(cfg, Next(cfg, m, u[0], gc), u[1..], v, gc);
    }
  }

  /** One request among several at the same moment. */
  lemma RequestCost(cfg: Config, m: Buckets, p: Peer, at: real)
    requires cfg.Sensible() && cfg.enabled && 0.0 <= Level(cfg, m, p, at)
    ensures Allows(cfg, m, p, at, at) <==> Level(cfg, m, p, at) >= 1.0
    ensures var m' := AfterAllow(cfg, m, p, at, at);
            && m' == m[p := Charge(Level(cfg, m, p, at), at)]
            && Level(cfg, m', p, at) == m'[p].tokens
  {
    var m' := AfterAllow(cfg, m, p, at, at);
    RefilledRange(cfg, m'[p], at);
  }

  /** `n` requests at one moment all pass exactly when there are that many tokens. */
  lemma {:induction false} BurstPasses(cfg: Config, m: Buckets, p: Peer, at: real, n: nat, gc: bool)
    requires cfg.Sensible() && cfg.enabled && 0.0 <= Level(cfg, m, p, at)
    ensures AllTrue(Answers(cfg, m, Requests(p, at, n), gc)) <==> n as real <= Level(cfg, m, p, at)
    ensures 0.0 < n as real <= Level(cfg, m, p, at) ==>
              After(cfg, m, Requests(p, at, n), gc) == m[p := Bucket(Level(cfg, m, p, at) - n as real, at)]
    decreases n
  {
    if n > 0 {
      hide Level, Refilled, Allows, AfterAllow;
      RequestCost(cfg, m, p, at);
      var m' := AfterAllow(cfg, m, p, at, at);
      BurstPasses(cfg, m', p, at, n - 1, gc);
      var es, rest := Requests(p, at, n), Requests(p, at, n - 1);
      assert es[0] == Request(p, at, at) && es[1..] == rest;
      AllTrueCons(Allows(cfg, m, p, at, at), Answers(cfg, m', rest, gc));
    }
  }

  lemma AllTrueCons(b: bool, s: seq<bool>)
    ensures AllTrue([b] + s) <==> b && AllTrue(s)
  {
  }

  lemma {:induction false} ClockedConcat(u: seq<Event>, v: seq<Event>, now: real, mid: real)
    requires Clocked(u, now) && (forall e :: e in u ==> e.at <= mid) && now <= mid && Clocked(v, mid)
    ensures Clocked(u + v, now)
    decreases u
  {
    if u == [] {
      assert u + v == v;
    } else {
      assert (u + v)[0] == u[0] && (u + v)[1..] == u[1..] + v;
      ClockedConcat(u[1..], v, u[0].at, mid);
    }
  }

  lemma {:induction false} RequestsClocked(p: Peer, at: real, n: nat)
    ensures Clocked(Requests(p, at, n), at) && forall e :: e in Requests(p, at, n) ==> e.at == at
  {
    if n > 0 {
      RequestsClocked(p, at, n - 1);
      assert Requests(p, at, n)[1..] == Requests(p, at, n - 1);
    }
  }

  /** A moment after the bucket was forgotten at which it would not have been full yet. */
  lemma TooEarly(cfg: Config) returns (t: real)
    requires cfg.Sensible() && !RefillsInTime(cfg)
    ensures t > cfg.cleanupInterval * 2.0 && Earned(cfg, t) < cfg.burstSize as real
  {
    var rate, burst := cfg.requestsPerSecond, cfg.burstSize as real;
    var idle := cfg.cleanupInterval * 2.0;
    assert idle * rate < burst;
    if rate == 0.0 {
      t := idle + 1.0;
    } else {
      var gap := (burst - idle * rate) / (2.0 * rate);
      t := idle + gap;
      assert gap > 0.0;
      assert gap * rate == (burst - idle * rate) / 2.0;
    }
  }

  /** Drain a bucket, let it be forgotten too early, and drain it again. */
  ghost function Probe(cfg: Config, t: real): seq<Event>
    requires cfg.burstSize >= 0
  {
    Requests("peer", 0.0, cfg.burstSize) + ([Cleanup(t)] + Requests("peer", t, cfg.burstSize))
  }

  /** A burst of requests empties a new bucket. */
  lemma Drain(cfg: Config, gc: bool)
    requires cfg.Sensible() && cfg.enabled && cfg.burstSize > 0
    ensures AllTrue(Answers(cfg, map[], Requests("peer", 0.0, cfg.burstSize), gc))
    ensures After(cfg, map[], Requests("peer", 0.0, cfg.burstSize), gc) == map["peer" := Bucket(0.0, 0.0)]
  {
    RefilledRange(cfg, Bucket(cfg.burstSize as real, 0.0), 0.0);
    assert Level(cfg, map[], "peer", 0.0) == cfg.burstSize as real;
    BurstPasses(cfg, map[], "peer", 0.0, cfg.burstSize, gc);
  }

  lemma DrainedAnswers(cfg: Config, t: real, gc: bool) returns (m: Buckets)
    requires cfg.Sensible() && cfg.enabled && cfg.burstSize > 0 && t > cfg.cleanupInterval * 2.0
    ensures m == if gc then map[] else map["peer" := Bucket(0.0, 0.0)]
    ensures AllTrue(Answers(cfg, map[], Probe(cfg, t), gc)) <==>
            AllTrue(Answers(cfg, m, Requests("peer", t, cfg.burstSize), gc))
  {
    var first, last := Requests("peer", 0.0, cfg.burstSize), Requests("peer", t, cfg.burstSize);
    Drain(cfg, gc);
    var drained := After(cfg, map[], first, gc);
    AnswersConcat(cfg, map[], first, [Cleanup(t)] + last, gc);
    m := Next(cfg, drained, Cleanup(t), gc);
    assert ([Cleanup(t)] + last)[1..] == last;
    AllTrueConcat(Answers(cfg, map[], first, gc), Answers(cfg, m, last, gc));
  }

  lemma AllTrueConcat(a: seq<bool>, b: seq<bool>)
    requires AllTrue(a)
    ensures AllTrue(a + b) <==> AllTrue(b)
  {
  }

  lemma ProbeClocked(cfg: Config, t: real)
    requires cfg.burstSize >= 0 && t >= 0.0
    ensures Clocked(Probe(cfg, t), 0.0) && forall e :: e in Probe(cfg, t) ==> e.at <= t
  {
    hide Requests;
    var n := cfg.burstSize;
    RequestsClocked("peer", 0.0, n);
    RequestsClocked("peer", t, n);
    var tail := [Cleanup(t)] + Requests("peer", t, n);
    assert tail[0] == Cleanup(t) && tail[1..] == Requests("peer", t, n);
    ClockedConcat(Requests("peer", 0.0, n), tail, 0.0, 0.0);
  }

  lemma EarlyCleanupShows(cfg: Config, t: real)
    requires cfg.Sensible() && cfg.enabled && cfg.burstSize > 0
    requires t > cfg.cleanupInterval * 2.0 && Earned(cfg, t) < cfg.burstSize as real
    ensures Answers(cfg, map[], Probe(cfg, t), true) != Answers(cfg, map[], Probe(cfg, t), false)
  {
    hide Earned, Answers, Requests;
    var n := cfg.burstSize;
    var emptied := DrainedAnswers(cfg, t, true);
    var kept := DrainedAnswers(cfg, t, false);
    assert Level(cfg, kept, "peer", t) == Earned(cfg, t - 0.0);
    EarnedLaws(cfg, t, 0.0);
    RefilledRange(cfg, Bucket(n as real, t), t);
    BurstPasses(cfg, emptied, "peer", t, n, true);
    BurstPasses(cfg, kept, "peer", t, n, false);
  }

  /** A limiter that is switched off does not look at its buckets. */
  lemma {:induction false} DisabledAnswers(cfg: Config, a: Buckets, b: Buckets, events: seq<Event>)
    requires !cfg.enabled
    ensures Answers(cfg, a, events, true) == Answers(cfg, b, events, false)
    decreases events
  {
    if events != [] {
      DisabledAnswers(cfg, Next(cfg, a, events[0], true), Next(cfg, b, events[0], false), events[1..]);
    }
  }

  /**
   Forgetting idle peers changes no answer in any history exactly when an idle bucket is full
   again by the time it can be forgotten, or the limiter is switched off.
   */
  lemma CleanupInvisibleIff(cfg: Config)
    requires cfg.Sensible()
    ensures (forall events :: Clocked(events, 0.0) ==>
               Answers(cfg, map[], events, true) == Answers(cfg, map[], events, false))
            <==> !cfg.enabled || RefillsInTime(cfg)
  {
    if !cfg.enabled {
      forall events | Clocked(events, 0.0)
        ensures Answers(cfg, map[], events, true) == Answers(cfg, map[], events, false)
      {
        DisabledAnswers(cfg, map[], map[], events);
      }
    } else if RefillsInTime(cfg) {
      forall events | Clocked(events, 0.0)
        ensures Answers(cfg, map[], events, true) == Answers(cfg, map[], events, false)
      {
        CleanupInvisible(cfg, map[], map[], events, 0.0);
      }
    } else {
      var t := TooEarly(cfg);
      EarnedLaws(cfg, cfg.cleanupInterval * 2.0, 0.0);
      ProbeClocked(cfg, t);
      EarlyCleanupShows(cfg, t);
    }
  }

  // ---------------------------------------------------------------------------------
  // The rate bound
  // ---------------------------------------------------------------------------------

  ghost function Passed(cfg: Config, m: Buckets, events: seq<Event>, p: Peer, gc: bool): nat
    decreases events
  {
    if events == [] then 0 else
    var e := events[0];
    (if e.Request? && e.peer == p && Allows(cfg, m, p, e.created, e.at) then 1 else 0)
    + Passed(cfg, Next(cfg, m, e, gc), events[1..], p, gc)
  }

  /** What a peer may still spend at time `now`. */
  ghost function Credit(cfg: Config, m: Buckets, p: Peer, now: real): real {
    if p in m then Refilled(cfg, m[p], now) else cfg.burstSize as real
  }

  lemma RefillGrows(cfg: Config, b: Bucket, now: real, later: real)
    requires cfg.Sensible() && now <= later
    ensures Refilled(cfg, b, later) <= Refilled(cfg, b, now) + Earned(cfg, later - now)
  {
    hide Earned;
    EarnedLaws(cfg, later - now, now - b.lastUpdate);
    assert later - now + (now - b.lastUpdate) == later - b.lastUpdate;
  }

  lemma StaleIsFull(cfg: Config, b: Bucket, now: real)
    requires cfg.Sensible() && RefillsInTime(cfg) && 0.0 <= b.tokens && Stale(cfg, b, now)
    ensures Refilled(cfg, b, now) == cfg.burstSize as real
  {
    hide Earned;
    var idle := cfg.cleanupInterval * 2.0;
    EarnedLaws(cfg, now - b.lastUpdate - idle, idle);
    assert now - b.lastUpdate - idle + idle == now - b.lastUpdate;
  }

  /** Credit grows no faster than the configured rate, and each passed request costs one. */
  lemma CreditStep(cfg: Config, m: Buckets, e: Event, p: Peer, gc: bool, now: real)
    requires cfg.Sensible() && cfg.enabled && BucketsOk(cfg, m, now) && Clocked([e], now)
    requires gc ==> RefillsInTime(cfg)
    ensures var cost := if e.Request? && e.peer == p && Allows(cfg, m, p, e.created, e.at) then 1.0 else 0.0;
            cost + Credit(cfg, Next(cfg, m, e, gc), p, e.at) <= Credit(cfg, m, p, now) + Earned(cfg, e.at - now)
  {
    hide Earned, Refilled, RefillsInTime, Stale;
    EarnedLaws(cfg, e.at - now, 0.0);
    if p in m {
      RefillGrows(cfg, m[p], now, e.at);
      if gc && Stale(cfg, m[p], e.at) {
        StaleIsFull(cfg, m[p], e.at);
      }
    }
    if e.Request? && e.peer == p {
      RefilledRange(cfg, BucketOf(cfg, m, p, e.created), e.at);
      RefilledRange(cfg, AfterAllow(cfg, m, p, e.created, e.at)[p], e.at);
    }
  }

  lemma {:induction false} PassedBound(
    cfg: Config, m: Buckets, events: seq<Event>, p: Peer, gc: bool, now: real, end: real)
    requires cfg.Sensible() && cfg.enabled && BucketsOk(cfg, m, now) && Clocked(events, now) && now <= end
    requires (gc ==> RefillsInTime(cfg)) && forall e :: e in events ==> e.at <= end
    ensures Passed(cfg, m, events, p, gc) as real <= Credit(cfg, m, p, now) + Earned(cfg, end - now)
    decreases events
  {
    hide Earned, Refilled, Credit, Allows, RefillsInTime;
    if events == [] {
      EarnedLaws(cfg, end - now, 0.0);
      CreditRange(cfg, m, p, now);
    } else {
      var e := events[0];
      NextKeepsOk(cfg, m, e, gc, now);
      CreditStep(cfg, m, e, p, gc, now);
      PassedBound(cfg, Next(cfg, m, e, gc), events[1..], p, gc, e.at, end);
      EarnedLaws(cfg, end - e.at, e.at - now);
      assert end - e.at + (e.at - now) == end - now;
    }
  }

  lemma CreditRange(cfg: Config, m: Buckets, p: Peer, now: real)
    requires cfg.Sensible() && BucketsOk(cfg, m, now)
    ensures 0.0 <= Credit(cfg, m, p, now) <= cfg.burstSize as real
  {
    if p in m {
      RefilledRange(cfg, m[p], now);
    }
  }

  lemma {:induction false} HistoryKeepsOk(
    cfg: Config, m: Buckets, events: seq<Event>, gc: bool, now: real, end: real)
    requires cfg.Sensible() && BucketsOk(cfg, m, now) && Clocked(events, now) && now <= end
    requires forall e :: e in events ==> e.at <= end
    ensures BucketsOk(cfg, After(cfg, m, events, gc), end)
    decreases events
  {
    if events != [] {
      hide Next;
      NextKeepsOk(cfg, m, events[0], gc, now);
      HistoryKeepsOk(cfg, Next(cfg, m, events[0], gc), events[1..], gc, events[0].at, end);
    }
  }

  /** A history cut at time `start` into what came before and a window of the given length. */
  ghost predicate IsWindow(before: seq<Event>, window: seq<Event>, start: real, length: real) {
    && 0.0 <= start && 0.0 <= length
    && Clocked(before, 0.0) && (forall e :: e in before ==> e.at <= start)
    && Clocked(window, start) && (forall e :: e in window ==> e.at <= start + length)
  }

  /** In the window the peer gets at most a burst plus the rate times the window's length. */
  ghost predicate RateKept(cfg: Config, before: seq<Event>, window: seq<Event>, p: Peer, length: real, gc: bool) {
    Passed(cfg, After(cfg, map[], before, gc), window, p, gc) as real
    <= cfg.burstSize as real + length * cfg.requestsPerSecond
  }

  lemma WindowBound(
    cfg: Config, before: seq<Event>, window: seq<Event>, p: Peer, start: real, length: real, gc: bool)
    requires cfg.Sensible() && cfg.enabled && IsWindow(before, window, start, length)
    requires gc ==> RefillsInTime(cfg)
    ensures RateKept(cfg, before, window, p, length, gc)
  {
    hide Credit, After, Passed, Clocked, RefillsInTime;
    HistoryKeepsOk(cfg, map[], before, gc, 0.0, start);
    var m := After(cfg, map[], before, gc);
    PassedBound(cfg, m, window, p, gc, start, start + length);
    CreditRange(cfg, m, p, start);
    assert start + length - start == length;
  }

  // ---------------------------------------------------------------------------------
  // ... and when it fails
  // ---------------------------------------------------------------------------------

  lemma {:induction false} PassedConcat(cfg: Config, m: Buckets, u: seq<Event>, v: seq<Event>, p: Peer, gc: bool)
    ensures Passed(cfg, m, u + v, p, gc) == Passed(cfg, m, u, p, gc) + Passed(cfg, After(cfg, m, u, gc), v, p, gc)
    decreases u
  {
    hide Allows, Next;
    if u == [] {
      assert u + v == v;
    } else {
      assert (u + v)[0] == u[0] && (u + v)[1..] == u[1..] + v;
      PassedConcat(cfg, Next(cfg, m, u[0], gc), u[1..], v, p, gc);
    }
  }

  lemma {:induction false} AllPassed(cfg: Config, m: Buckets, p: Peer, at: real, n: nat, gc: bool)
    requires AllTrue(Answers(cfg, m, Requests(p, at, n), gc))
    ensures Passed(cfg, m, Requests(p, at, n), p, gc) == n
    decreases n
  {
    if n > 0 {
      hide Allows, Next;
      var es, rest := Requests(p, at, n), Requests(p, at, n - 1);
      assert es[0] == Request(p, at, at) && es[1..] == rest;
      var m' := Next(cfg, m, es[0], gc);
      AllTrueCons(Allows(cfg, m, p, at, at), Answers(cfg, m', rest, gc));
      AllPassed(cfg, m', p, at, n - 1, gc);
    }
  }

  /** A limiter that is switched off lets everything pass. */
  lemma {:induction false} DisabledPasses(cfg: Config, p: Peer, at: real, n: nat, gc: bool)
    requires !cfg.enabled
    ensures AllTrue(Answers(cfg, map[], Requests(p, at, n), gc))
  {
    if n > 0 {
      var es, rest := Requests(p, at, n), Requests(p, at, n - 1);
      assert es[0] == Request(p, at, at) && es[1..] == rest;
      DisabledPasses(cfg, p, at, n - 1, gc);
    }
  }

  /** Forgotten too early, a peer passes two bursts within time for less than one. */
  lemma ProbePassesTwice(cfg: Config, t: real)
    requires cfg.Sensible() && cfg.enabled && cfg.burstSize > 0 && t > cfg.cleanupInterval * 2.0
    ensures Passed(cfg, map[], Probe(cfg, t), "peer", true) == 2 * cfg.burstSize
  {
    hide Answers, Requests, Refilled;
    var n := cfg.burstSize;
    var first, last := Requests("peer", 0.0, n), Requests("peer", t, n);
    Drain(cfg, true);
    AllPassed(cfg, map[], "peer", 0.0, n, true);
    var rest := [Cleanup(t)] + last;
    PassedConcat(cfg, map[], first, rest, "peer", true);
    assert rest[0] == Cleanup(t) && rest[1..] == last;
    var drained := After(cfg, map[], first, true);
    assert Next(cfg, drained, Cleanup(t), true) == map[];
    RefilledRange(cfg, Bucket(n as real, t), t);
    BurstPasses(cfg, map[], "peer", t, n, true);
    AllPassed(cfg, map[], "peer", t, n, true);
  }

  lemma TooFast(cfg: Config) returns (window: seq<Event>, length: real)
    requires cfg.Sensible() && !(cfg.enabled && RefillsInTime(cfg))
    ensures IsWindow([], window, 0.0, length) && !RateKept(cfg, [], window, "peer", length, true)
  {
    hide Answers, Requests, Passed, Clocked;
    var burst := cfg.burstSize;
    NothingClocked();
    if cfg.enabled {
      length := TooEarly(cfg);
      EarnedLaws(cfg, cfg.cleanupInterval * 2.0, 0.0);
      window := Probe(cfg, length);
      ProbeClocked(cfg, length);
      ProbePassesTwice(cfg, length);
    } else {
      window, length := Requests("peer", 0.0, burst + 1), 0.0;
      RequestsClocked("peer", 0.0, burst + 1);
      DisabledPasses(cfg, "peer", 0.0, burst + 1, true);
      AllPassed(cfg, map[], "peer", 0.0, burst + 1, true);
    }
  }

  lemma NothingClocked()
    ensures Clocked([], 0.0)
  {
  }

  /**
   The limiter as it is, forgetting idle peers, keeps every peer to the rate in every window of
   every history exactly when it is switched on and idle buckets refill before they are forgotten.
   */
  lemma WindowBoundIff(cfg: Config)
    requires cfg.Sensible()
    ensures (forall before, window, p, start, length :: IsWindow(before, window, start, length) ==>
               RateKept(cfg, before, window, p, length, true))
            <==> cfg.enabled && RefillsInTime(cfg)
  {
    hide IsWindow, RateKept, RefillsInTime;
    if cfg.enabled && RefillsInTime(cfg) {
      forall before, window, p, start, length | IsWindow(before, window, start, length)
        ensures RateKept(cfg, before, window, p, length, true)
      {
        WindowBound(cfg, before, window, p, start, length, true);
      }
    } else {
      var window, length := TooFast(cfg);
    }
  }
}
