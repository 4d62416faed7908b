/**
 Exactly which requests the rate limiter (internal/p2p/grpc_auth.go) lets pass, and what refused
 requests leave behind.
 */
module RateLimitExact {
  import opened RateLimit

  function Capped(cfg: Config, x: real): real {
    if x > cfg.burstSize as real then cfg.burstSize as real else x
  }

  // ---------------------------------------------------------------------------------
  // Credit decides everything
  // ---------------------------------------------------------------------------------

  lemma CreditLater(cfg: Config, m: Buckets, p: Peer, now: real, later: real)
    requires cfg.Sensible() && BucketsOk(cfg, m, now) && now <= later
    ensures Credit(cfg, m, p, later) == Capped(cfg, Credit(cfg, m, p, now) + Earned(cfg, later - now))
  {
    hide Earned;
    EarnedLaws(cfg, later - now, 0.0);
    if p in m {
      EarnedLaws(cfg, later - now, now - m[p].lastUpdate);
      assert later - now + (now - m[p].lastUpdate) == later - m[p].lastUpdate;
    }
  }

  lemma CreditDecides(cfg: Config, m: Buckets, p: Peer, created: real, at: real)
    requires cfg.Sensible() && cfg.enabled && created <= at
    ensures Allows(cfg, m, p, created, at) <==> Credit(cfg, m, p, at) >= 1.0
  {
    RefilledRange(cfg, Bucket(cfg.burstSize as real, created), at);
  }

  /** What event `e` costs peer `p`. */
  ghost function Cost(cfg: Config, m: Buckets, e: Event, p: Peer): real {
    if e.Request? && e.peer == p && Allows(cfg, m, p, e.created, e.at) then 1.0 else 0.0
  }

  lemma CreditAfter(cfg: Config, m: Buckets, e: Event, p: Peer, gc: bool, now: real)
    requires cfg.Sensible() && cfg.enabled && BucketsOk(cfg, m, now) && Clocked([e], now)
    requires gc ==> RefillsInTime(cfg)
    ensures Credit(cfg, Next(cfg, m, e, gc), p, e.at) == Credit(cfg, m, p, e.at) - Cost(cfg, m, e, p)
  {
    hide Earned, RefillsInTime, Stale, Refilled;
    match e
    case Request(q, created, at) =>
      RefilledRange(cfg, Bucket(cfg.burstSize as real, created), at);
      if p == q {
        RefilledRange(cfg, BucketOf(cfg, m, p, created), at);
        RefilledRange(cfg, AfterAllow(cfg, m, p, created, at)[p], at);
      }
    case Cleanup(at) =>
      if gc && p in m && Stale(cfg, m[p], at) {
        StaleIsFull(cfg, m[p], at);
      }
  }

  ghost predicate SameCredit(cfg: Config, a: Buckets, b: Buckets, now: real) {
    forall p :: Credit(cfg, a, p, now) == Credit(cfg, b, p, now)
  }

  /** Limiters that owe every peer the same answer alike from then on. */
  lemma {:induction false} SameCreditSameAnswers(
    cfg: Config, a: Buckets, b: Buckets, events: seq<Event>, gc: bool, now: real)
    requires cfg.Sensible() && cfg.enabled && (gc ==> RefillsInTime(cfg)) && Clocked(events, now)
    requires BucketsOk(cfg, a, now) && BucketsOk(cfg, b, now) && SameCredit(cfg, a, b, now)
    ensures Answers(cfg, a, events, gc) == Answers(cfg, b, events, gc)
    decreases events
  {
    if events != [] {
      hide Credit, Earned, RefillsInTime, Allows, Next;
      var e := events[0];
      forall p
        ensures e.Request? ==> (Allows(cfg, a, p, e.created, e.at) <==> Allows(cfg, b, p, e.created, e.at))
        ensures Credit(cfg, Next(cfg, a, e, gc), p, e.at) == Credit(cfg, Next(cfg, b, e, gc), p, e.at)
      {
        CreditLater(cfg, a, p, now, e.at);
        CreditLater(cfg, b, p, now, e.at);
        if e.Request? {
          CreditDecides(cfg, a, p, e.created, e.at);
          CreditDecides(cfg, b, p, e.created, e.at);
        }
        CreditAfter(cfg, a, e, p, gc, now);
        CreditAfter(cfg, b, e, p, gc, now);
      }
      NextKeepsOk(cfg, a, e, gc, now);
      NextKeepsOk(cfg, b, e, gc, now);
      SameCreditSameAnswers(cfg, Next(cfg, a, e, gc), Next(cfg, b, e, gc), events[1..], gc, e.at);
    }
  }

  // ---------------------------------------------------------------------------------
  // Which requests pass
  // ---------------------------------------------------------------------------------

  ghost predicate IsBy(e: Event, p: Peer) {
    e.Request? && e.peer == p
  }

  /** How many requests of peer `p` passed from event `j` on. */
  ghost function PassedFrom(cfg: Config, h: seq<Event>, j: nat, p: Peer, gc: bool): nat
    requires j <= |h|
  {
    Passed(cfg, After(cfg, map[], h[..j], gc), h[j..], p, gc)
  }

  /** Window `j` begins at request `j` of the history and ends at time `t`: `x` more would fit into it. */
  ghost predicate Fits(cfg: Config, h: seq<Event>, j: nat, p: Peer, t: real, x: real, gc: bool)
    requires j < |h|
  {
    PassedFrom(cfg, h, j, p, gc) as real + x <= cfg.burstSize as real + (t - h[j].at) * cfg.requestsPerSecond
  }

  lemma FitsByEarned(cfg: Config, h: seq<Event>, j: nat, p: Peer, t: real, x: real, gc: bool)
    requires j < |h|
    ensures Fits(cfg, h, j, p, t, x, gc) <==>
            PassedFrom(cfg, h, j, p, gc) as real + x <= cfg.burstSize as real + Earned(cfg, t - h[j].at)
  {
    hide PassedFrom;
  }

  ghost predicate FitsAll(cfg: Config, h: seq<Event>, p: Peer, t: real, x: real, gc: bool) {
    forall j :: 0 <= j < |h| && IsBy(h[j], p) ==> Fits(cfg, h, j, p, t, x, gc)
  }

  ghost function EndTime(h: seq<Event>): real {
    if h == [] then 0.0 else h[|h| - 1].at
  }

  lemma {:induction false} ClockedSnoc(h: seq<Event>, e: Event, now: real)
    requires Clocked(h + [e], now)
    ensures Clocked(h, now)
    ensures var end := if h == [] then now else h[|h| - 1].at;
            now <= end && Clocked([e], end) && forall x :: x in h ==> x.at <= end
    decreases h
  {
    if h == [] {
      assert h + [e] == [e];
    } else {
      assert (h + [e])[0] == h[0] && (h + [e])[1..] == h[1..] + [e];
      ClockedSnoc(h[1..], e, h[0].at);
    }
  }

  lemma {:induction false} AfterConcat(cfg: Config, m: Buckets, u: seq<Event>, v: seq<Event>, gc: bool)
    ensures After(cfg, m, u + v, gc) == After(cfg, After(cfg, m, u, gc), v, gc)
    decreases u
  {
    hide Next;
    if u == [] {
      assert u + v == v;
    } else {
      assert (u + v)[0] == u[0] && (u + v)[1..] == u[1..] + v;
      AfterConcat(cfg, Next(cfg, m, u[0], gc), u[1..], v, gc);
    }
  }

  lemma PassedFromSnoc(cfg: Config, h: seq<Event>, e: Event, j: nat, p: Peer, gc: bool)
    requires j <= |h|
    ensures PassedFrom(cfg, h + [e], j, p, gc) as real
            == PassedFrom(cfg, h, j, p, gc) as real + Cost(cfg, After(cfg, map[], h, gc), e, p)
  {
    hide Next, Allows;
    var all := h + [e];
    assert all[..j] == h[..j] && all[j..] == h[j..] + [e] && h[..j] + h[j..] == h;
    AfterConcat(cfg, map[], h[..j], h[j..], gc);
    var m := After(cfg, map[], h[..j], gc);
    PassedConcat(cfg, m, h[j..], [e], p, gc);
    assert Passed(cfg, Next(cfg, After(cfg, m, h[j..], gc), e, gc), [e][1..], p, gc) == 0;
  }

  lemma FitsSnoc(cfg: Config, h: seq<Event>, e: Event, j: nat, p: Peer, t: real, x: real, gc: bool)
    requires cfg.Sensible() && j < |h|
    ensures var cost := Cost(cfg, After(cfg, map[], h, gc), e, p);
            Fits(cfg, h + [e], j, p, t, x, gc) <==> Fits(cfg, h, j, p, e.at, x + cost - Earned(cfg, t - e.at), gc)
  {
    hide PassedFrom, Cost, Earned, Fits;
    PassedFromSnoc(cfg, h, e, j, p, gc);
    FitsByEarned(cfg, h + [e], j, p, t, x, gc);
    FitsByEarned(cfg, h, j, p, e.at, x + Cost(cfg, After(cfg, map[], h, gc), e, p) - Earned(cfg, t - e.at), gc);
    EarnedLaws(cfg, t - e.at, e.at - h[j].at);
    assert t - e.at + (e.at - h[j].at) == t - h[j].at;
  }

  lemma FitsLast(cfg: Config, h: seq<Event>, e: Event, p: Peer, t: real, x: real, gc: bool)
    ensures Fits(cfg, h + [e], |h|, p, t, x, gc) <==>
            Cost(cfg, After(cfg, map[], h, gc), e, p) + x <= cfg.burstSize as real + Earned(cfg, t - e.at)
  {
    hide Earned, Cost, Fits;
    PassedFromSnoc(cfg, h, e, |h|, p, gc);
    FitsByEarned(cfg, h + [e], |h|, p, t, x, gc);
    assert h[|h|..] == [];
  }

  lemma FitsAllSnoc(cfg: Config, h: seq<Event>, e: Event, p: Peer, t: real, x: real, gc: bool)
    requires cfg.Sensible()
    ensures var y := x + Cost(cfg, After(cfg, map[], h, gc), e, p) - Earned(cfg, t - e.at);
            FitsAll(cfg, h + [e], p, t, x, gc) <==>
            FitsAll(cfg, h, p, e.at, y, gc) && (IsBy(e, p) ==> y <= cfg.burstSize as real)
  {
    hide Fits, Cost, Earned;
    var all := h + [e];
    forall j | 0 <= j < |h|
      ensures all[j] == h[j]
      ensures var y := x + Cost(cfg, After(cfg, map[], h, gc), e, p) - Earned(cfg, t - e.at);
              Fits(cfg, all, j, p, t, x, gc) <==> Fits(cfg, h, j, p, e.at, y, gc)
    {
      FitsSnoc(cfg, h, e, j, p, t, x, gc);
    }
    FitsLast(cfg, h, e, p, t, x, gc);
    assert all[|h|] == e;
  }

  /** A peer's credit is what fits into each of its windows, and at most a burst. */
  lemma {:induction false} CreditIsRoom(cfg: Config, h: seq<Event>, p: Peer, t: real, x: real, gc: bool)
    requires cfg.Sensible() && cfg.enabled && (gc ==> RefillsInTime(cfg))
    requires Clocked(h, 0.0) && EndTime(h) <= t
    ensures x <= Credit(cfg, After(cfg, map[], h, gc), p, t) <==>
            x <= cfg.burstSize as real && FitsAll(cfg, h, p, t, x, gc)
  {
    if h != [] {
      hide Credit, Earned, RefillsInTime, FitsAll, After, Next, Allows;
      var front, e := h[..|h| - 1], h[|h| - 1];
      assert h == front + [e];
      ClockedSnoc(front, e, 0.0);
      var end, m := EndTime(front), After(cfg, map[], front, gc);
      HistoryKeepsOk(cfg, map[], front, gc, 0.0, end);
      LastNext(cfg, front, e, gc);
      var m', cost := Next(cfg, m, e, gc), Cost(cfg, m, e, p);
      NextKeepsOk(cfg, m, e, gc, end);
      CreditAfter(cfg, m, e, p, gc, end);
      CreditLater(cfg, m', p, e.at, t);
      var y := x + cost - Earned(cfg, t - e.at);
      EarnedLaws(cfg, t - e.at, 0.0);
      CreditIsRoom(cfg, front, p, e.at, y, gc);
      FitsAllSnoc(cfg, front, e, p, t, x, gc);
    }
  }

  lemma LastNext(cfg: Config, h: seq<Event>, e: Event, gc: bool)
    ensures After(cfg, map[], h + [e], gc) == Next(cfg, After(cfg, map[], h, gc), e, gc)
  {
    hide Next;
    AfterConcat(cfg, map[], h, [e], gc);
    var m := After(cfg, map[], h, gc);
    assert After(cfg, Next(cfg, m, e, gc), [e][1..], gc) == Next(cfg, m, e, gc);
  }

  /**
   After every history, a request passes exactly if with it the peer stays within a burst plus the
   rate times the length in each window that begins at one of its earlier requests.
   */
  lemma PassesIff(cfg: Config, h: seq<Event>, p: Peer, created: real, t: real, gc: bool)
    requires cfg.Sensible() && cfg.enabled && (gc ==> RefillsInTime(cfg))
    requires Clocked(h, 0.0) && EndTime(h) <= created <= t
    ensures Allows(cfg, After(cfg, map[], h, gc), p, created, t) <==>
            1 <= cfg.burstSize && FitsAll(cfg, h, p, t, 1.0, gc)
  {
    hide Credit, After, Allows, RefillsInTime, FitsAll;
    CreditDecides(cfg, After(cfg, map[], h, gc), p, created, t);
    CreditIsRoom(cfg, h, p, t, 1.0, gc);
  }

  // ---------------------------------------------------------------------------------
  // Refused requests
  // ---------------------------------------------------------------------------------

  /** Request `e` is made and refused between `u` and `v`. */
  ghost predicate IsRefused(cfg: Config, u: seq<Event>, e: Event, v: seq<Event>, gc: bool) {
    && Clocked(u + [e] + v, 0.0) && e.Request?
    && !Allows(cfg, After(cfg, map[], u, gc), e.peer, e.created, e.at)
  }

  /** Without the request, all others are answered as with it. */
  ghost predicate ChangesNothing(cfg: Config, u: seq<Event>, e: Event, v: seq<Event>, gc: bool) {
    var before, after := Answers(cfg, map[], u, gc), Answers(cfg, After(cfg, map[], u, gc), v, gc);
    && Answers(cfg, map[], u + v, gc) == before + after
    && Answers(cfg, map[], u + [e] + v, gc) == before + ([false] + after)
  }

  lemma {:induction false} ClockedSplit(u: seq<Event>, v: seq<Event>, now: real)
    requires Clocked(u + v, now)
    ensures Clocked(u, now) && Clocked(v, if u == [] then now else u[|u| - 1].at)
    decreases u
  {
    if u == [] {
      assert u + v == v;
    } else {
      assert (u + v)[0] == u[0] && (u + v)[1..] == u[1..] + v;
      ClockedSplit(u[1..], v, u[0].at);
    }
  }

  lemma FirstAnswer(cfg: Config, m: Buckets, e: Event, v: seq<Event>, gc: bool)
    ensures Answers(cfg, m, [e] + v, gc) ==
            (if e.Request? then [Allows(cfg, m, e.peer, e.created, e.at)] else [])
            + Answers(cfg, Next(cfg, m, e, gc), v, gc)
  {
    hide Next, Allows;
    assert ([e] + v)[0] == e && ([e] + v)[1..] == v;
  }

  lemma AnswersAround(cfg: Config, u: seq<Event>, e: Event, v: seq<Event>, gc: bool)
    requires e.Request?
    ensures var m := After(cfg, map[], u, gc);
            && Answers(cfg, map[], u + v, gc) == Answers(cfg, map[], u, gc) + Answers(cfg, m, v, gc)
            && Answers(cfg, map[], u + [e] + v, gc) ==
               Answers(cfg, map[], u, gc)
               + ([Allows(cfg, m, e.peer, e.created, e.at)] + Answers(cfg, Next(cfg, m, e, gc), v, gc))
  {
    hide Next, Allows, After, Answers;
    AnswersConcat(cfg, map[], u, v, gc);
    assert u + [e] + v == u + ([e] + v);
    AnswersConcat(cfg, map[], u, [e] + v, gc);
    FirstAnswer(cfg, After(cfg, map[], u, gc), e, v, gc);
  }

  /** A refused request changes no other answer: it costs nothing, and saved tokens stay. */
  lemma RefusalChangesNothing(cfg: Config, u: seq<Event>, e: Event, v: seq<Event>, gc: bool)
    requires cfg.Sensible() && (gc ==> RefillsInTime(cfg)) && IsRefused(cfg, u, e, v, gc)
    ensures ChangesNothing(cfg, u, e, v, gc)
  {
    var m := After(cfg, map[], u, gc);
    assert cfg.enabled;
    ClockedSplit(u + [e], v, 0.0);
    ClockedSnoc(u, e, 0.0);
    AnswersAround(cfg, u, e, v, gc);
    hide Answers, After, Earned, Next, RefillsInTime, Clocked;
    HistoryKeepsOk(cfg, map[], u, gc, 0.0, EndTime(u));
    KeepsOkLater(cfg, m, u, e, gc);
    NextKeepsOk(cfg, m, e, gc, EndTime(u));
    forall p ensures Credit(cfg, Next(cfg, m, e, gc), p, e.at) == Credit(cfg, m, p, e.at) {
      CreditAfter(cfg, m, e, p, gc, EndTime(u));
    }
    SameCreditSameAnswers(cfg, Next(cfg, m, e, gc), m, v, gc, e.at);
  }

  lemma KeepsOkLater(cfg: Config, m: Buckets, u: seq<Event>, e: Event, gc: bool)
    requires BucketsOk(cfg, m, EndTime(u)) && Clocked([e], EndTime(u))
    ensures BucketsOk(cfg, m, e.at)
  {
  }

  /** A moment at which a drained bucket has no token yet, soon enough that two intervals later it is not full. */
  lemma ShortPause(cfg: Config) returns (s: real)
    requires cfg.Sensible() && !RefillsInTime(cfg)
    ensures s > 0.0 && Earned(cfg, s) < 1.0 && Earned(cfg, cfg.cleanupInterval * 2.0 + s) < cfg.burstSize as real
  {
    var rate, idle := cfg.requestsPerSecond, cfg.cleanupInterval * 2.0;
    var t := TooEarly(cfg);
    s := t - idle;
    if rate > 0.0 {
      var half := 0.5 / rate;
      assert half * rate == 0.5 && half > 0.0;
      if half < s {
        EarnedLaws(cfg, s - half, idle + half);
        s := half;
      } else {
        EarnedLaws(cfg, half - s, s);
      }
    }
  }

  lemma BusyBucketStays(cfg: Config, s: real, m: Buckets)
    requires cfg.Sensible() && cfg.enabled && cfg.burstSize > 0 && s > 0.0 && Earned(cfg, s) < 1.0
    requires Earned(cfg, cfg.cleanupInterval * 2.0 + s) < cfg.burstSize as real && m == map["peer" := Bucket(0.0, 0.0)]
    ensures !Allows(cfg, m, "peer", s, s)
    ensures var t, busy := cfg.cleanupInterval * 2.0 + s, Next(cfg, m, Request("peer", s, s), true);
            && Next(cfg, m, Cleanup(t), true) == map[]
            && Next(cfg, busy, Cleanup(t), true) == busy
            && 0.0 <= Level(cfg, busy, "peer", t) < cfg.burstSize as real
  {
    hide Earned;
    var idle := cfg.cleanupInterval * 2.0;
    EarnedLaws(cfg, s, idle);
    EarnedLaws(cfg, idle, 0.0);
    assert s - 0.0 == s && idle + s - s == idle && idle + s == s + idle;
  }

  /** Drain a bucket, have one request refused, and ask for another burst as soon as the idle bucket would be gone. */
  lemma RefusalShows(cfg: Config) returns (u: seq<Event>, e: Event, v: seq<Event>)
    requires cfg.Sensible() && cfg.enabled && !RefillsInTime(cfg)
    ensures IsRefused(cfg, u, e, v, true) && !ChangesNothing(cfg, u, e, v, true)
  {
    EarnedLaws(cfg, cfg.cleanupInterval * 2.0, 0.0);
    var s := ShortPause(cfg);
    var n, t := cfg.burstSize, cfg.cleanupInterval * 2.0 + s;
    var last := Requests("peer", t, n);
    u, e, v := Requests("peer", 0.0, n), Request("peer", s, s), [Cleanup(t)] + last;
    hide Answers, Requests, Next, Level, Allows, Earned;
    Drain(cfg, true);
    var m := map["peer" := Bucket(0.0, 0.0)];
    BusyBucketStays(cfg, s, m);
    ClockedAround(s, t, n);
    AnswersAround(cfg, u, e, v, true);
    FirstAnswer(cfg, m, Cleanup(t), last, true);
    FirstAnswer(cfg, Next(cfg, m, e, true), Cleanup(t), last, true);
    FullLevel(cfg, t);
    BurstPasses(cfg, map[], "peer", t, n, true);
    BurstPasses(cfg, Next(cfg, m, e, true), "peer", t, n, true);
    var a, b := Answers(cfg, m, v, true), Answers(cfg, Next(cfg, m, e, true), v, true);
    assert AllTrue(a) && !AllTrue(b);
    Different(Answers(cfg, map[], u, true), [false], a, b);
  }

  lemma FullLevel(cfg: Config, t: real)
    requires cfg.Sensible()
    ensures Level(cfg, map[], "peer", t) == cfg.burstSize as real
  {
    RefilledRange(cfg, Bucket(cfg.burstSize as real, t), t);
  }

  lemma Different(u: seq<bool>, v: seq<bool>, a: seq<bool>, b: seq<bool>)
    requires a != b
    ensures u + (v + a) != u + (v + b)
  {
    var k := |u + v|;
    assert (u + (v + a))[k..] == a && (u + (v + b))[k..] == b;
  }

  lemma ClockedAround(s: real, t: real, n: nat)
    requires 0.0 < s <= t
    ensures Clocked(Requests("peer", 0.0, n) + [Request("peer", s, s)] + ([Cleanup(t)] + Requests("peer", t, n)), 0.0)
  {
    hide Requests;
    var u, e, v := Requests("peer", 0.0, n), Request("peer", s, s), [Cleanup(t)] + Requests("peer", t, n);
    RequestsClocked("peer", 0.0, n);
    RequestsClocked("peer", t, n);
    assert v[0] == Cleanup(t) && v[1..] == Requests("peer", t, n);
    assert ([e] + v)[0] == e && ([e] + v)[1..] == v;
    ClockedConcat(u, [e] + v, 0.0, 0.0);
    assert u + [e] + v == u + ([e] + v);
  }

  /** With cleanups, refused requests change no other answer in any history exactly when idle buckets refill in time. */
  lemma RefusalChangesNothingIff(cfg: Config)
    requires cfg.Sensible()
    ensures (forall u, e, v :: IsRefused(cfg, u, e, v, true) ==> ChangesNothing(cfg, u, e, v, true)) <==>
            !cfg.enabled || RefillsInTime(cfg)
  {
    if !cfg.enabled {
      assert forall u, e, v :: !IsRefused(cfg, u, e, v, true);
    } else if RefillsInTime(cfg) {
      forall u, e, v | IsRefused(cfg, u, e, v, true) ensures ChangesNothing(cfg, u, e, v, true) {
        RefusalChangesNothing(cfg, u, e, v, true);
      }
    } else {
      var u, e, v := RefusalShows(cfg);
    }
  }
}
