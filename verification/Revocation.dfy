/**
 The certificate revocation list and its gossip (internal/certs/revocation.go). Saving to and
 reading from disk is taken as lossless.
 */
module Revocation {
  import opened Common

  /** `revokedAt` zero means that it was not set; `details` holds the remaining fields. */
  datatype Certificate = Certificate(fingerprint: string, revokedAt: int, details: string)

  /** The uint64 version counter. */
  type Version = v: int | 0 <= v < TWO_64

  datatype ListData = ListData(version: Version, entries: seq<Certificate>)

  type Entries = map<string, Certificate>

  /** The next version in 64 bits. */
  function Bump(version: Version): (next: Version)
    ensures next == if version + 1 < TWO_64 then version + 1 else 0
  {
    (version + 1) % TWO_64
  }

  ghost predicate Keyed(m: Entries) {
    forall f :: f in m ==> m[f].fingerprint == f
  }

  ghost function Fingerprints(cs: seq<Certificate>): set<string> {
    set c | c in cs :: c.fingerprint
  }

  function Stamped(c: Certificate, now: int): Certificate {
    if c.revokedAt == 0 then c.(revokedAt := now) else c
  }

  /** What is known already stays; of several new entries for one certificate the first counts. */
  function Merged(m: Entries, cs: seq<Certificate>): Entries {
    if cs == [] then m else
    var before := Merged(m, cs[..|cs| - 1]);
    var c := cs[|cs| - 1];
    if c.fingerprint in before then before else before[c.fingerprint := c]
  }

  function Loaded(m: Entries, cs: seq<Certificate>): Entries {
    if cs == [] then m else
    Loaded(m, cs[..|cs| - 1])[cs[|cs| - 1].fingerprint := cs[|cs| - 1]]
  }

  lemma {:induction false} MergedAdds(m: Entries, cs: seq<Certificate>)
    ensures Merged(m, cs).Keys == m.Keys + Fingerprints(cs)
    ensures forall f :: f in Merged(m, cs) ==> if f in m then Merged(m, cs)[f] == m[f] else Merged(m, cs)[f] in cs
    ensures Keyed(m) ==> Keyed(Merged(m, cs))
  {
    if cs != [] {
      var n := |cs| - 1;
      MergedAdds(m, cs[..n]);
      assert cs == cs[..n] + [cs[n]];
      assert Fingerprints(cs) == Fingerprints(cs[..n]) + {cs[n].fingerprint};
    }
  }

  /** Merging what is known already changes nothing. */
  lemma {:induction false} MergeKnown(m: Entries, cs: seq<Certificate>)
    requires Fingerprints(cs) <= m.Keys
    ensures Merged(m, cs) == m
  {
    if cs != [] {
      var n := |cs| - 1;
      assert forall c :: c in cs[..n] ==> c in cs;
      assert cs[n] in cs;
      MergeKnown(m, cs[..n]);
    }
  }

  /** A repeated merge adds nothing. */
  lemma MergeTwice(m: Entries, cs: seq<Certificate>)
    ensures Merged(Merged(m, cs), cs) == Merged(m, cs)
  {
    MergedAdds(m, cs);
    MergeKnown(Merged(m, cs), cs);
  }

  class RevocationList {
    var entries: Entries
    var version: Version

    constructor ()
      ensures entries == map[] && version == 0
    {
      entries, version := map[], 0;
    }

    method Revoke(c: Certificate, now: int)
      modifies this
      ensures entries == old(entries)[c.fingerprint := Stamped(c, now)]
      ensures entries[c.fingerprint] == c.(revokedAt := entries[c.fingerprint].revokedAt)
      ensures entries[c.fingerprint].revokedAt == if c.revokedAt == 0 then now else c.revokedAt
      ensures version == if old(version) + 1 < TWO_64 then old(version) + 1 else 0
    {
      entries := entries[c.fingerprint := if c.revokedAt == 0 then c.(revokedAt := now) else c];
      version := Bump(version);
    }

    method Merge(data: ListData) returns (added: nat)
      modifies this
      ensures entries == Merged(old(entries), data.entries)
      ensures entries.Keys == old(entries).Keys + Fingerprints(data.entries)
      ensures added == |entries| - |old(entries)|
      ensures version == if added == 0 then old(version) else if old(version) + 1 < TWO_64 then old(version) + 1 else 0
    {
      added := 0;
      for i := 0 to |data.entries|
        invariant entries == Merged(old(entries), data.entries[..i])
        invariant added == |entries| - |old(entries)|
        invariant version == old(version)
      {
        var c := data.entries[i];
        assert data.entries[..i + 1][..i] == data.entries[..i];
        if c.fingerprint !in entries {
          assert entries[c.fingerprint := c].Keys == entries.Keys + {c.fingerprint};
          entries := entries[c.fingerprint := c];
          added := added + 1;
        }
      }
      assert data.entries[..|data.entries|] == data.entries;
      MergedAdds(old(entries), data.entries);
      if added > 0 {
        version := Bump(version);
      }
    }

    /** The entries come out in an arbitrary order. */
    method Export() returns (data: ListData)
      ensures data.version == version
      ensures Keyed(entries) ==> Lists(entries, data.entries)
    {
      var list: seq<Certificate> := [];
      var todo := entries.Keys;
      while todo != {}
        invariant todo <= entries.Keys
        invariant forall c :: c in list ==> exists f :: f in entries && f !in todo && entries[f] == c
        invariant forall f :: f in entries && f !in todo ==> entries[f] in list
      {
        var f :| f in todo;
        list := list + [entries[f]];
        todo := todo - {f};
      }
      data := ListData(version, list);
    }

    method Load(data: ListData)
      modifies this
      ensures entries == Loaded(old(entries), data.entries) && version == data.version
    {
      version := data.version;
      for i := 0 to |data.entries|
        invariant entries == Loaded(old(entries), data.entries[..i]) && version == data.version
      {
        assert data.entries[..i + 1][..i] == data.entries[..i];
        entries := entries[data.entries[i].fingerprint := data.entries[i]];
      }
      assert data.entries[..|data.entries|] == data.entries;
    }
  }

  /** `cs` holds exactly the values of `m`, in some order, possibly with repeats. */
  ghost predicate Lists(m: Entries, cs: seq<Certificate>) {
    && (forall c :: c in cs ==> c.fingerprint in m && m[c.fingerprint] == c)
    && (forall f :: f in m ==> m[f] in cs)
  }

  lemma {:induction false} LoadedHas(cs: seq<Certificate>, m: Entries)
    requires forall c :: c in cs ==> c.fingerprint in m && m[c.fingerprint] == c
    ensures Loaded(map[], cs).Keys == Fingerprints(cs)
    ensures forall f :: f in Loaded(map[], cs) ==> f in m && Loaded(map[], cs)[f] == m[f]
  {
    if cs != [] {
      var n := |cs| - 1;
      assert cs == cs[..n] + [cs[n]];
      LoadedHas(cs[..n], m);
      assert Fingerprints(cs) == Fingerprints(cs[..n]) + {cs[n].fingerprint};
    }
  }

  /** Of several entries for one certificate the last is loaded, also over one that is there. */
  lemma {:induction false} LastLoadedWins(m: Entries, cs: seq<Certificate>, i: nat)
    requires i < |cs| && forall j :: i < j < |cs| ==> cs[j].fingerprint != cs[i].fingerprint
    ensures cs[i].fingerprint in Loaded(m, cs) && Loaded(m, cs)[cs[i].fingerprint] == cs[i]
  {
    var n := |cs| - 1;
    if i < n {
      LastLoadedWins(m, cs[..n], i);
    }
  }

  /** Export, in whatever order, then load into an empty list: the same entries come back. */
  lemma ExportLoadRoundTrip(m: Entries, cs: seq<Certificate>)
    requires Keyed(m) && Lists(m, cs)
    ensures Loaded(map[], cs) == m
  {
    LoadedHas(cs, m);
    forall f | f in m ensures f in Fingerprints(cs) {
      assert m[f] in cs && m[f].fingerprint == f;
    }
  }

  // ---------------------------------------------------------------------------------
  // Gossip between nodes
  // ---------------------------------------------------------------------------------

  type NodeId = nat

  /** One node revokes a certificate, or merges some export that another node made at any earlier time. */
  datatype Event =
    | Revoke(node: NodeId, cert: Certificate, at: int)
    | Gossip(node: NodeId, from: NodeId, sent: nat, entries: seq<Certificate>)

  type Network = map<NodeId, Entries>

  ghost function ListOf(w: Network, n: NodeId): Entries {
    if n in w then w[n] else map[]
  }

  ghost function Next(w: Network, e: Event): Network {
    match e
    case Revoke(n, c, at) => w[n := ListOf(w, n)[c.fingerprint := Stamped(c, at)]]
    case Gossip(n, _, _, cs) => w[n := Merged(ListOf(w, n), cs)]
  }

  ghost function After(h: seq<Event>): Network {
    if h == [] then map[] else Next(After(h[..|h| - 1]), h[|h| - 1])
  }

  /** Every gossip message is an export its sender really made. */
  ghost predicate Honest(h: seq<Event>) {
    forall i :: 0 <= i < |h| && h[i].Gossip? ==>
      h[i].sent <= i && Lists(ListOf(After(h[..h[i].sent]), h[i].from), h[i].entries)
  }

  ghost predicate RevokedSomewhere(h: seq<Event>, f: string) {
    exists i :: 0 <= i < |h| && h[i].Revoke? && h[i].cert.fingerprint == f
  }

  lemma HonestPrefix(h: seq<Event>, k: nat)
    requires Honest(h) && k <= |h|
    ensures Honest(h[..k])
  {
    forall i | 0 <= i < k && h[i].Gossip?
      ensures h[i].sent <= i && Lists(ListOf(After(h[..k][..h[i].sent]), h[i].from), h[i].entries)
    {
      assert h[..k][..h[i].sent] == h[..h[i].sent];
    }
  }

  /** Lists only grow. */
  lemma {:induction false} ListsGrow(h: seq<Event>, i: nat, n: NodeId)
    requires i <= |h|
    ensures ListOf(After(h[..i]), n).Keys <= ListOf(After(h), n).Keys
  {
    if i == |h| {
      assert h[..i] == h;
    } else {
      var front, e := h[..|h| - 1], h[|h| - 1];
      assert front[..i] == h[..i];
      ListsGrow(front, i, n);
      if e.Gossip? {
        MergedAdds(ListOf(After(front), e.node), e.entries);
      }
    }
  }

  lemma {:induction false} ListsAreKeyed(h: seq<Event>, n: NodeId)
    ensures Keyed(ListOf(After(h), n))
  {
    if h != [] {
      var front, e := h[..|h| - 1], h[|h| - 1];
      ListsAreKeyed(front, n);
      if e.Gossip? {
        MergedAdds(ListOf(After(front), n), e.entries);
      }
    }
  }

  /** An export names every entry of the list it was made from. */
  lemma ExportIsComplete(m: Entries, cs: seq<Certificate>)
    requires Keyed(m) && Lists(m, cs)
    ensures Fingerprints(cs) == m.Keys
  {
    forall f | f in m ensures f in Fingerprints(cs) {
      assert m[f] in cs && m[f].fingerprint == f;
    }
  }

  /** A merge tells a node everything its sender knew, whenever the message was sent. */
  lemma GossipInforms(h: seq<Event>, i: nat)
    requires Honest(h) && i < |h| && h[i].Gossip?
    ensures ListOf(After(h[..h[i].sent]), h[i].from).Keys <= ListOf(After(h[..i + 1]), h[i].node).Keys
  {
    hide Lists, Fingerprints;
    var e := h[i];
    assert h[..i + 1][..i] == h[..i];
    MergedAdds(ListOf(After(h[..i]), e.node), e.entries);
    var known := ListOf(After(h[..e.sent]), e.from);
    ListsAreKeyed(h[..e.sent], e.from);
    ExportIsComplete(known, e.entries);
  }

  // ---------------------------------------------------------------------------------
  // Versions
  // ---------------------------------------------------------------------------------

  /** The version of node `n`'s list, which `Revoke` always moves on and a merge only if it adds something. */
  ghost function VersionOf(h: seq<Event>, n: NodeId): Version {
    if h == [] then 0 else
    var front, e := h[..|h| - 1], h[|h| - 1];
    var before := VersionOf(front, n);
    if e.node == n && (e.Revoke? || Added(h, n) > 0) then Bump(before) else before
  }

  /** What the last event adds to the number of entries of node `n`. */
  ghost function Added(h: seq<Event>, n: NodeId): int
    requires h != []
  {
    |ListOf(After(h), n)| - |ListOf(After(h[..|h| - 1]), n)|
  }

  /** Event `i` is a revocation at node `n`, or gave its list a fingerprint. */
  ghost predicate Changes(h: seq<Event>, i: nat, n: NodeId) {
    && i < |h| && h[i].node == n
    && (h[i].Revoke? || ListOf(After(h[..i]), n).Keys != ListOf(After(h[..i + 1]), n).Keys)
  }

  /** How many events before event `k` changed the list of node `n`. */
  ghost function ChangeCount(h: seq<Event>, n: NodeId, k: nat): nat {
    if k == 0 then 0 else ChangeCount(h, n, k - 1) + (if Changes(h, k - 1, n) then 1 else 0)
  }

  lemma SizeTellsGrowth(a: set<string>, b: set<string>)
    requires a <= b
    ensures |a| <= |b| && (|a| == |b| <==> a == b)
  {
    assert b == a + (b - a);
  }

  lemma {:induction false} VersionCountsUpTo(h: seq<Event>, n: NodeId, k: nat)
    requires k <= |h|
    ensures VersionOf(h[..k], n) == ChangeCount(h, n, k) % TWO_64
  {
    if k > 0 {
      hide Changes, Added;
      VersionCountsUpTo(h, n, k - 1);
      assert h[..k][..k - 1] == h[..k - 1];
      ChangeIsAdded(h, n, k);
      NextRemainder(ChangeCount(h, n, k - 1));
    }
  }

  lemma ChangeIsAdded(h: seq<Event>, n: NodeId, k: nat)
    requires 0 < k <= |h|
    ensures Changes(h, k - 1, n) <==> h[k - 1].node == n && (h[k - 1].Revoke? || Added(h[..k], n) > 0)
  {
    hide After, ListOf;
    var now := h[..k];
    assert now[..k - 1] == h[..k - 1];
    ListsGrow(now, k - 1, n);
    var a, b := ListOf(After(h[..k - 1]), n), ListOf(After(now), n);
    SizeTellsGrowth(a.Keys, b.Keys);
    assert |a| == |a.Keys| && |b| == |b.Keys|;
  }

  lemma NextRemainder(count: nat)
    ensures (count + 1) % TWO_64 == if count % TWO_64 + 1 < TWO_64 then count % TWO_64 + 1 else 0
  {
    var q, r := count / TWO_64, count % TWO_64;
    if r + 1 == TWO_64 {
      assert count + 1 == (q + 1) * TWO_64;
    } else {
      assert count + 1 == q * TWO_64 + (r + 1);
    }
  }

  /** The version is the number of changes, as long as that fits in 64 bits. */
  lemma VersionCountsChanges(h: seq<Event>, n: NodeId)
    ensures VersionOf(h, n) == ChangeCount(h, n, |h|) % TWO_64
    ensures |h| < TWO_64 ==> VersionOf(h, n) == ChangeCount(h, n, |h|)
  {
    assert h[..|h|] == h;
    VersionCountsUpTo(h, n, |h|);
    CountIsMonotone(h, n, 0, |h|);
  }

  lemma {:induction false} CountIsMonotone(h: seq<Event>, n: NodeId, i: nat, k: nat)
    requires i <= k <= |h|
    ensures ChangeCount(h, n, i) <= ChangeCount(h, n, k) <= ChangeCount(h, n, i) + k - i
    ensures ChangeCount(h, n, i) == ChangeCount(h, n, k) <==> forall j :: i <= j < k ==> !Changes(h, j, n)
  {
    hide Changes;
    if i < k {
      CountIsMonotone(h, n, i, k - 1);
    }
  }

  lemma {:induction false} UnchangedStays(h: seq<Event>, n: NodeId, i: nat, k: nat)
    requires i <= k <= |h| && forall j :: i <= j < k ==> !Changes(h, j, n)
    ensures ListOf(After(h[..i]), n) == ListOf(After(h[..k]), n)
  {
    if i < k {
      UnchangedStays(h, n, i, k - 1);
      var e := h[k - 1];
      assert !Changes(h, k - 1, n);
      assert h[..k][..k - 1] == h[..k - 1];
      if e.node == n {
        MergedAdds(ListOf(After(h[..k - 1]), n), e.entries);
        MergeKnown(ListOf(After(h[..k - 1]), n), e.entries);
      }
    }
  }

  /**
   Two readings of a list's version, with fewer than 2^64 events between them, agree exactly when
   the node revoked nothing in between and its list is the same.
   */
  lemma VersionTellsChange(h: seq<Event>, n: NodeId, i: nat)
    requires i <= |h| < i + TWO_64
    ensures VersionOf(h[..i], n) == VersionOf(h, n) <==>
            && ListOf(After(h[..i]), n) == ListOf(After(h), n)
            && forall j :: i <= j < |h| ==> !(h[j].Revoke? && h[j].node == n)
  {
    hide After, ListOf, VersionOf, ChangeCount, Changes;
    var k := |h|;
    assert h[..k] == h;
    VersionCountsUpTo(h, n, i);
    VersionCountsUpTo(h, n, k);
    CountIsMonotone(h, n, i, k);
    SameRemainder(ChangeCount(h, n, i), ChangeCount(h, n, k));
    if forall j :: i <= j < k ==> !Changes(h, j, n) {
      UnchangedStays(h, n, i, k);
      forall j | i <= j < k ensures !(h[j].Revoke? && h[j].node == n) {
        RevokeChanges(h, j, n);
      }
    } else {
      var j :| i <= j < k && Changes(h, j, n);
      ChangeShows(h, n, i, j);
    }
  }

  lemma SameRemainder(a: nat, b: nat)
    requires a <= b < a + TWO_64
    ensures a % TWO_64 == b % TWO_64 <==> a == b
  {
  }

  lemma RevokeChanges(h: seq<Event>, j: nat, n: NodeId)
    requires j < |h|
    ensures h[j].Revoke? && h[j].node == n ==> Changes(h, j, n)
  {
  }

  lemma ChangeShows(h: seq<Event>, n: NodeId, i: nat, j: nat)
    requires i <= j < |h| && Changes(h, j, n)
    ensures (h[j].Revoke? && h[j].node == n) || ListOf(After(h[..i]), n) != ListOf(After(h), n)
  {
    hide After, ListOf;
    assert h[..j][..i] == h[..i] && h[..j + 1][..j] == h[..j];
    ListsGrow(h[..j], i, n);
    ListsGrow(h[..j + 1], j, n);
    ListsGrow(h, j + 1, n);
  }

  // ---------------------------------------------------------------------------------
  // Every entry is the revocation some node made
  // ---------------------------------------------------------------------------------

  /** `x` is the certificate that event `i` revoked, with the time it carried or else the time of the event. */
  ghost predicate Records(h: seq<Event>, i: nat, x: Certificate) {
    && i < |h| && h[i].Revoke?
    && x == h[i].cert.(revokedAt := x.revokedAt)
    && x.revokedAt == if h[i].cert.revokedAt == 0 then h[i].at else h[i].cert.revokedAt
  }

  ghost predicate Recorded(h: seq<Event>, x: Certificate) {
    exists i: nat :: Records(h, i, x)
  }

  lemma RecordedStays(h: seq<Event>, k: nat, x: Certificate)
    requires k <= |h| && Recorded(h[..k], x)
    ensures Recorded(h, x)
  {
    var i: nat :| Records(h[..k], i, x);
    assert Records(h, i, x);
  }

  lemma {:induction false} EntriesAreRevocations(h: seq<Event>, n: NodeId, f: string)
    requires Honest(h) && f in ListOf(After(h), n)
    ensures Recorded(h, ListOf(After(h), n)[f])
    decreases |h|
  {
    hide Recorded;
    var k := |h| - 1;
    var front, e, list := h[..k], h[k], ListOf(After(h), n);
    HonestPrefix(h, k);
    if f in ListOf(After(front), n) && list[f] == ListOf(After(front), n)[f] {
      EntriesAreRevocations(front, n, f);
      RecordedStays(h, k, list[f]);
    } else if e.Revoke? {
      RevocationRecorded(h, k, list[f]);
    } else {
      NewEntryIsSenders(h, n, f);
      HonestPrefix(h, e.sent);
      EntriesAreRevocations(h[..e.sent], e.from, f);
      RecordedStays(h, e.sent, list[f]);
    }
  }

  lemma NewEntryIsSenders(h: seq<Event>, n: NodeId, f: string)
    requires Honest(h) && h != [] && h[|h| - 1].Gossip? && f in ListOf(After(h), n)
    requires var before := ListOf(After(h[..|h| - 1]), n); f in before ==> before[f] != ListOf(After(h), n)[f]
    ensures var theirs := ListOf(After(h[..h[|h| - 1].sent]), h[|h| - 1].from);
            f in theirs && theirs[f] == ListOf(After(h), n)[f]
  {
    var e := h[|h| - 1];
    ListsAreKeyed(h, n);
    MergedAdds(ListOf(After(h[..|h| - 1]), n), e.entries);
    assert ListOf(After(h), n)[f] in e.entries;
  }

  /** A node's own last revocation of a certificate stands, whatever it merges later. */
  lemma {:induction false} LastRevocationStands(h: seq<Event>, r: nat)
    requires r < |h| && h[r].Revoke?
    requires forall i :: r < i < |h| ==>
               !(h[i].Revoke? && h[i].node == h[r].node && h[i].cert.fingerprint == h[r].cert.fingerprint)
    ensures var list := ListOf(After(h), h[r].node);
            h[r].cert.fingerprint in list && Records(h, r, list[h[r].cert.fingerprint])
  {
    var front, e := h[..|h| - 1], h[|h| - 1];
    if r < |h| - 1 {
      LastRevocationStands(front, r);
      if e.Gossip? {
        MergedAdds(ListOf(After(front), e.node), e.entries);
      }
    }
  }

  lemma RevocationRecorded(h: seq<Event>, i: nat, x: Certificate)
    requires i < |h| && h[i].Revoke? && x == Stamped(h[i].cert, h[i].at)
    ensures Recorded(h, x)
  {
    assert Records(h, i, x);
  }

  // ---------------------------------------------------------------------------------
  // A list is the union of what its node was told
  // ---------------------------------------------------------------------------------

  /** The fingerprints that event `e` brings to node `n`. */
  ghost function Told(e: Event, n: NodeId): set<string> {
    if e.node != n then {} else
    match e
    case Revoke(_, c, _) => {c.fingerprint}
    case Gossip(_, _, _, cs) => Fingerprints(cs)
  }

  ghost function Received(h: seq<Event>, n: NodeId): set<string> {
    set e, f | e in h && f in Told(e, n) :: f
  }

  lemma ReceivedGrows(h: seq<Event>, e: Event, n: NodeId)
    ensures Received(h + [e], n) == Received(h, n) + Told(e, n)
  {
    hide Told;
    forall f ensures f in Received(h + [e], n) <==> f in Received(h, n) + Told(e, n) {
      if f in Received(h, n) {
        var x :| x in h && f in Told(x, n);
        assert x in h + [e];
      } else if f in Told(e, n) {
        assert e in h + [e];
      }
    }
  }

  /** Whatever the messages are, honest or not. */
  lemma {:induction false} ListIsReceived(h: seq<Event>, n: NodeId)
    ensures ListOf(After(h), n).Keys == Received(h, n)
  {
    if h != [] {
      hide Received, Fingerprints;
      var front, e := h[..|h| - 1], h[|h| - 1];
      ListIsReceived(front, n);
      assert h == front + [e];
      ReceivedGrows(front, e, n);
      if e.Gossip? {
        MergedAdds(ListOf(After(front), n), e.entries);
      }
    } else {
      assert Received(h, n) == {};
    }
  }

  /** The order of a node's revocations and messages does not matter, nor do repeats or other nodes' events. */
  lemma OrderDoesNotMatter(h: seq<Event>, h': seq<Event>, n: NodeId)
    requires forall e: Event :: e.node == n ==> (e in h <==> e in h')
    ensures ListOf(After(h), n).Keys == ListOf(After(h'), n).Keys
  {
    ListIsReceived(h, n);
    ListIsReceived(h', n);
  }

  // ---------------------------------------------------------------------------------
  // Word of a revocation travels along chains of messages
  // ---------------------------------------------------------------------------------

  /** Event `i` passes on what its sender learnt at event `j`. */
  ghost predicate Relays(h: seq<Event>, j: nat, i: nat) {
    j < |h| && i < |h| && h[i].Gossip? && h[i].from == h[j].node && j < h[i].sent
  }

  /** Some node revoked `f` at event `chain[0]`; from there each event passes it on, up to node `n`. */
  ghost predicate IsChain(h: seq<Event>, chain: seq<nat>, n: NodeId, f: string) {
    && chain != [] && (forall i :: 0 <= i < |chain| ==> chain[i] < |h|)
    && h[chain[0]].Revoke? && h[chain[0]].cert.fingerprint == f
    && (forall i :: 0 < i < |chain| ==> Relays(h, chain[i - 1], chain[i]))
    && h[chain[|chain| - 1]].node == n
  }

  ghost predicate Reached(h: seq<Event>, n: NodeId, f: string) {
    exists chain :: IsChain(h, chain, n, f)
  }

  lemma RevokerKnows(h: seq<Event>, r: nat)
    requires r < |h| && h[r].Revoke?
    ensures h[r].cert.fingerprint in ListOf(After(h[..r + 1]), h[r].node)
  {
    assert h[..r + 1][..r] == h[..r];
  }

  lemma SentBefore(h: seq<Event>, i: nat)
    requires Honest(h) && i < |h| && h[i].Gossip?
    ensures h[i].sent <= i
  {
  }

  lemma RelayInforms(h: seq<Event>, j: nat, i: nat, f: string)
    requires Honest(h) && Relays(h, j, i) && f in ListOf(After(h[..j + 1]), h[j].node)
    ensures f in ListOf(After(h[..i + 1]), h[i].node)
  {
    hide Honest, After, ListOf;
    SentBefore(h, i);
    assert h[..h[i].sent][..j + 1] == h[..j + 1];
    ListsGrow(h[..h[i].sent], j + 1, h[j].node);
    GossipInforms(h, i);
  }

  lemma {:induction false} ChainInforms(h: seq<Event>, chain: seq<nat>, n: NodeId, f: string)
    requires Honest(h) && IsChain(h, chain, n, f)
    ensures f in ListOf(After(h[..chain[|chain| - 1] + 1]), n)
  {
    hide Honest, After, ListOf;
    var k := |chain| - 1;
    if k == 0 {
      RevokerKnows(h, chain[0]);
    } else {
      ChainInforms(h, chain[..k], h[chain[k - 1]].node, f);
      RelayInforms(h, chain[k - 1], chain[k], f);
    }
  }

  lemma ChainOfPrefix(h: seq<Event>, k: nat, chain: seq<nat>, n: NodeId, f: string)
    requires k <= |h| && IsChain(h[..k], chain, n, f)
    ensures IsChain(h, chain, n, f) && chain[|chain| - 1] < k
  {
    forall i | 0 < i < |chain| ensures Relays(h, chain[i - 1], chain[i]) {
      assert Relays(h[..k], chain[i - 1], chain[i]);
    }
  }

  lemma AppendRelay(h: seq<Event>, chain: seq<nat>, n: NodeId, f: string, i: nat)
    requires IsChain(h, chain, n, f) && Relays(h, chain[|chain| - 1], i)
    ensures IsChain(h, chain + [i], h[i].node, f)
  {
    var longer := chain + [i];
    forall j | 0 < j < |longer| ensures Relays(h, longer[j - 1], longer[j]) {
      if j < |chain| {
        assert longer[j] == chain[j];
      }
    }
  }

  lemma RevokeIsChain(h: seq<Event>, r: nat)
    requires r < |h| && h[r].Revoke?
    ensures IsChain(h, [r], h[r].node, h[r].cert.fingerprint)
  {
  }

  /** What a node lists came to it along a chain. */
  lemma {:induction false} FindChain(h: seq<Event>, n: NodeId, f: string) returns (chain: seq<nat>)
    requires Honest(h) && f in ListOf(After(h), n)
    ensures IsChain(h, chain, n, f)
    decreases |h|
  {
    var k := |h| - 1;
    var front, e := h[..k], h[k];
    if f in ListOf(After(front), n) {
      HonestPrefix(h, k);
      chain := FindChain(front, n, f);
      ChainOfPrefix(h, k, chain, n, f);
    } else if e.Revoke? {
      chain := [k];
      RevokeIsChain(h, k);
    } else {
      MergedAdds(ListOf(After(front), n), e.entries);
      HonestPrefix(h, e.sent);
      chain := FindChain(h[..e.sent], e.from, f);
      ChainOfPrefix(h, e.sent, chain, e.from, f);
      AppendRelay(h, chain, e.from, f, k);
      chain := chain + [k];
    }
  }

  /** A node lists a certificate exactly when word of a revocation reached it, directly or through others. */
  lemma ListedIffReached(h: seq<Event>, n: NodeId, f: string)
    requires Honest(h)
    ensures f in ListOf(After(h), n) <==> Reached(h, n, f)
  {
    hide After, ListOf, Honest;
    if Reached(h, n, f) {
      var chain :| IsChain(h, chain, n, f);
      ChainInforms(h, chain, n, f);
      ListsGrow(h, chain[|chain| - 1] + 1, n);
    }
    if f in ListOf(After(h), n) {
      var chain := FindChain(h, n, f);
    }
  }

  /** Nothing is listed that no node ever revoked. */
  lemma OnlyRevoked(h: seq<Event>, n: NodeId, f: string)
    requires Honest(h) && f in ListOf(After(h), n)
    ensures RevokedSomewhere(h, f)
  {
    var chain := FindChain(h, n, f);
  }

  /** Gossip has converged at a node exactly when word of everything that was revoked has reached it. */
  lemma Converges(h: seq<Event>, n: NodeId)
    requires Honest(h)
    ensures (forall f :: f in ListOf(After(h), n) <==> RevokedSomewhere(h, f)) <==>
            (forall f :: RevokedSomewhere(h, f) ==> Reached(h, n, f))
  {
    hide Honest, Reached, RevokedSomewhere, ListOf, After;
    forall f
      ensures f in ListOf(After(h), n) <==> Reached(h, n, f)
      ensures f in ListOf(After(h), n) ==> RevokedSomewhere(h, f)
    {
      ListedIffReached(h, n, f);
      if f in ListOf(After(h), n) {
        OnlyRevoked(h, n, f);
      }
    }
  }
}
