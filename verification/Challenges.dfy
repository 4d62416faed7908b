/**
 One-time login challenges (internal/auth/challenge.go). Each operation happens at the clock
 reading it takes while it holds the lock; challenge IDs come from the random source and are
 assumed not to repeat within a history.
 */
module Challenges {
  import opened Common

  type Id = string

  datatype Challenge = Challenge(id: Id, publicKey: seq<bv8>, createdAt: int, expiresAt: int)

  type Store = map<Id, Challenge>

  predicate Expired(c: Challenge, now: int) {
    now > c.expiresAt
  }

  /** What is returned by both lookups. */
  function Valid(s: Store, id: Id, now: int): Option<Challenge> {
    if id in s && !Expired(s[id], now) then Some(s[id]) else None
  }

  function Unexpired(s: Store, now: int): Store {
    map id | id in s && !Expired(s[id], now) :: s[id]
  }

  class ChallengeStore {
    const ttl: int
    var challenges: Store

    constructor (t: int)
      ensures challenges == map[] && ttl == if t > 0 then t else 30
    {
      ttl := if t <= 0 then 30 else t;
      challenges := map[];
    }

    method Create(id: Id, publicKey: seq<bv8>, now: int) returns (c: Challenge)
      modifies this
      ensures c == Challenge(id, publicKey, now, now + ttl)
      ensures challenges == old(challenges)[id := c]
    {
      c := Challenge(id, publicKey, now, now + ttl);
      challenges := challenges[id := c];
    }

    /** Takes the challenge out of the store, expired or not. */
    method Get(id: Id, now: int) returns (r: Option<Challenge>)
      modifies this
      ensures r == Valid(old(challenges), id, now) && challenges == old(challenges) - {id}
    {
      if id !in challenges {
        assert challenges - {id} == challenges;
        return None;
      }
      var c := challenges[id];
      challenges := challenges - {id};
      return if Expired(c, now) then None else Some(c);
    }

    method Peek(id: Id, now: int) returns (r: Option<Challenge>)
      ensures r == Valid(challenges, id, now)
    {
      if id !in challenges || Expired(challenges[id], now) {
        return None;
      }
      return Some(challenges[id]);
    }

    method Delete(id: Id)
      modifies this
      ensures challenges == old(challenges) - {id}
    {
      challenges := challenges - {id};
    }

    /** The range visits the challenges in an arbitrary order. */
    method Cleanup(now: int)
      modifies this
      ensures challenges == Unexpired(old(challenges), now)
      ensures forall id :: id in challenges <==> id in old(challenges) && now <= old(challenges)[id].expiresAt
      ensures forall id :: id in challenges ==> challenges[id] == old(challenges)[id]
    {
      var todo := challenges.Keys;
      while todo != {}
        invariant todo <= challenges.Keys
        invariant challenges ==
                  map id | id in old(challenges) && (id in todo || !Expired(old(challenges)[id], now)) ::
                    old(challenges)[id]
      {
        var id :| id in todo;
        if now > challenges[id].expiresAt {
          challenges := challenges - {id};
        }
        todo := todo - {id};
      }
    }
  }

  // ---------------------------------------------------------------------------------
  // Histories
  // ---------------------------------------------------------------------------------

  datatype Event =
    | Create(id: Id, publicKey: seq<bv8>, at: int)
    | Get(id: Id, at: int)
    | Peek(id: Id, at: int)
    | Delete(id: Id, at: int)
    | Cleanup(at: int)

  function Next(s: Store, e: Event, ttl: int): Store {
    match e
    case Create(id, key, t) => s[id := Challenge(id, key, t, t + ttl)]
    case Get(id, _) => s - {id}
    case Peek(_, _) => s
    case Delete(id, _) => s - {id}
    case Cleanup(t) => Unexpired(s, t)
  }

  function After(h: seq<Event>, ttl: int): Store {
    if h == [] then map[] else Next(After(h[..|h| - 1], ttl), h[|h| - 1], ttl)
  }

  /** The answer to event `k`, if it is a lookup. */
  function Answer(h: seq<Event>, k: nat, ttl: int): Option<Challenge>
    requires k < |h|
  {
    if h[k].Get? || h[k].Peek? then Valid(After(h[..k], ttl), h[k].id, h[k].at) else None
  }

  ghost predicate FreshIds(h: seq<Event>) {
    forall i, j :: 0 <= i < j < |h| && h[i].Create? && h[j].Create? ==> h[i].id != h[j].id
  }

  ghost predicate Clocked(h: seq<Event>) {
    forall i, j :: 0 <= i < j < |h| ==> h[i].at <= h[j].at
  }

  /** A stored challenge was created by an event of the history, and not taken since. */
  lemma {:induction false} StoredIsCreated(h: seq<Event>, ttl: int, id: Id) returns (k: nat)
    requires id in After(h, ttl)
    ensures k < |h| && h[k].Create? && h[k].id == id
    ensures After(h, ttl)[id] == Challenge(id, h[k].publicKey, h[k].at, h[k].at + ttl)
    ensures forall m :: k < m < |h| ==> !((h[m].Get? || h[m].Delete?) && h[m].id == id)
  {
    var n := |h| - 1;
    if h[n].Create? && h[n].id == id {
      k := n;
    } else {
      k := StoredIsCreated(h[..n], ttl, id);
      assert forall m :: 0 <= m < n ==> h[..n][m] == h[m];
    }
  }

  /** A challenge is handed out at most once. */
  lemma OneTimeUse(h: seq<Event>, ttl: int, i: nat, j: nat)
    requires FreshIds(h) && i < j < |h| && h[i].Get? && h[j].Get? && h[i].id == h[j].id
    ensures Answer(h, i, ttl).None? || Answer(h, j, ttl).None?
  {
    var id := h[i].id;
    if id in After(h[..i], ttl) && id in After(h[..j], ttl) {
      var a := StoredIsCreated(h[..i], ttl, id);
      var b := StoredIsCreated(h[..j], ttl, id);
    }
  }

  /** Event `k` created the challenge, and before event `j` nobody took or deleted it. */
  ghost predicate Pending(h: seq<Event>, id: Id, k: nat, j: nat) {
    && k < j <= |h| && h[k].Create? && h[k].id == id
    && forall m :: k < m < j ==> !((h[m].Get? || h[m].Delete?) && h[m].id == id)
  }

  lemma {:induction false} PendingIsStored(h: seq<Event>, ttl: int, id: Id, k: nat, now: int)
    requires FreshIds(h) && Clocked(h) && Pending(h, id, k, |h|)
    requires (forall m :: 0 <= m < |h| ==> h[m].at <= now) && now <= h[k].at + ttl
    ensures id in After(h, ttl) && After(h, ttl)[id] == Challenge(id, h[k].publicKey, h[k].at, h[k].at + ttl)
  {
    var n := |h| - 1;
    if k < n {
      assert forall m :: 0 <= m < n ==> h[..n][m] == h[m];
      PendingIsStored(h[..n], ttl, id, k, now);
    }
  }

  /**
   A lookup succeeds exactly when the challenge was created, at most its time to live ago, and
   has been neither taken nor deleted since.
   */
  lemma AnswerIff(h: seq<Event>, ttl: int, j: nat)
    requires FreshIds(h) && Clocked(h) && j < |h| && (h[j].Get? || h[j].Peek?)
    ensures Answer(h, j, ttl).Some? <==> exists k: nat :: Pending(h, h[j].id, k, j) && h[j].at <= h[k].at + ttl
    ensures forall k: nat :: Pending(h, h[j].id, k, j) && h[j].at <= h[k].at + ttl ==>
              Answer(h, j, ttl) == Some(Challenge(h[j].id, h[k].publicKey, h[k].at, h[k].at + ttl))
  {
    var id := h[j].id;
    forall k: nat | Pending(h, id, k, j) && h[j].at <= h[k].at + ttl
      ensures Answer(h, j, ttl) == Some(Challenge(id, h[k].publicKey, h[k].at, h[k].at + ttl))
    {
      assert forall m :: 0 <= m < j ==> h[..j][m] == h[m];
      PendingIsStored(h[..j], ttl, id, k, h[j].at);
    }
    if Answer(h, j, ttl).Some? {
      var k := StoredIsCreated(h[..j], ttl, id);
      assert forall m :: 0 <= m < j ==> h[..j][m] == h[m];
      assert Pending(h, id, k, j);
    }
  }

  // ---------------------------------------------------------------------------------
  // Cleanup cannot be observed
  // ---------------------------------------------------------------------------------

  /** The answers, with the cleanup events taken or skipped. */
  ghost function Answers(s: Store, h: seq<Event>, ttl: int, cleaning: bool): seq<Option<Challenge>>
    decreases h
  {
    if h == [] then [] else
    (if h[0].Get? || h[0].Peek? then [Valid(s, h[0].id, h[0].at)] else [])
    + Answers(if h[0].Cleanup? && !cleaning then s else Next(s, h[0], ttl), h[1..], ttl, cleaning)
  }

  ghost predicate OnlyExpiredGone(a: Store, b: Store, now: int) {
    && (forall id :: id in a ==> id in b && a[id] == b[id])
    && (forall id :: id in b && id !in a ==> Expired(b[id], now))
  }

  lemma {:induction false} CleanupInvisible(a: Store, b: Store, h: seq<Event>, ttl: int, now: int)
    requires OnlyExpiredGone(a, b, now) && Clocked(h) && (h != [] ==> now <= h[0].at)
    ensures Answers(a, h, ttl, true) == Answers(b, h, ttl, false)
    decreases h
  {
    if h != [] {
      var e := h[0];
      var a', b' := Next(a, e, ttl), if e.Cleanup? then b else Next(b, e, ttl);
      CleanupInvisible(a', b', h[1..], ttl, e.at);
    }
  }
}
