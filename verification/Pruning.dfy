/**
 Which peers to disconnect at the high watermark (internal/p2p/discovery.go,
 `GetPeersForPruning`): the connected peers other than bootstrap peers, worst scores first.
 Bootstrap membership and the peer store's scores are given as a set and a map.
 */
module Pruning {
  import opened Sequences

  type Peer = string

  datatype Scored = Scored(id: Peer, score: real)

  /** A peer the store does not know counts as zero. */
  function ScoreOf(scores: map<Peer, real>, p: Peer): real {
    if p in scores then scores[p] else 0.0
  }

  /** The peers that may be pruned, in the order they are connected. */
  function Candidates(connected: seq<Peer>, bootstrap: set<Peer>): seq<Peer> {
    if connected == [] then [] else
    var n := |connected| - 1;
    Candidates(connected[..n], bootstrap) + (if connected[n] in bootstrap then [] else [connected[n]])
  }

  lemma {:induction false} CandidatesAre(connected: seq<Peer>, bootstrap: set<Peer>)
    ensures forall p :: p in Candidates(connected, bootstrap) <==> p in connected && p !in bootstrap
    ensures Distinct(connected) ==> Distinct(Candidates(connected, bootstrap))
  {
    if connected != [] {
      var n := |connected| - 1;
      CandidatesAre(connected[..n], bootstrap);
      assert connected == connected[..n] + [connected[n]];
      assert forall i :: 0 <= i < n ==> connected[i] == connected[..n][i];
    }
  }

  function Ids(s: seq<Scored>): seq<Peer> {
    seq(|s|, i requires 0 <= i < |s| => s[i].id)
  }

  ghost predicate Ascending(s: seq<Scored>) {
    forall i, j :: 0 <= i < j < |s| ==> s[i].score <= s[j].score
  }

  /** The first `i` entries are in their final places. */
  ghost predicate Placed(s: seq<Scored>, i: nat) {
    forall k, m :: 0 <= k < i && k < m < |s| ==> s[k].score <= s[m].score
  }

  lemma SwapKeepsPlaced(s: seq<Scored>, i: nat, j: nat)
    requires Placed(s, i) && i < j < |s|
    ensures Placed(s[i := s[j]][j := s[i]], i)
  {
  }

  lemma PlaceNext(s: seq<Scored>, i: nat)
    requires Placed(s, i) && i < |s| && forall m :: i < m < |s| ==> s[i].score <= s[m].score
    ensures Placed(s, i + 1)
  {
  }

  /** Exchange sort on the slice, worst score first. */
  method SortByScore(a: array<Scored>)
    modifies a
    ensures Ascending(a[..]) && Permutation(old(a[..]), a[..])
  {
    hide Permutation, Placed;
    PermutesItself(a[..]);
    var n := a.Length;
    var i := 0;
    assert Placed(a[..], 0) by {
      NonePlaced(a[..]);
    }
    while i < n - 1
      invariant 0 <= i && (n > 0 ==> i <= n - 1)
      invariant Placed(a[..], i) && Permutation(old(a[..]), a[..])
    {
      var j := i + 1;
      while j < n
        invariant i + 1 <= j <= n
        invariant Placed(a[..], i) && Permutation(old(a[..]), a[..])
        invariant forall m :: i < m < j ==> a[i].score <= a[m].score
      {
        if a[i].score > a[j].score {
          ghost var s := a[..];
          SwapPermutes(old(a[..]), s, i, j);
          SwapKeepsPlaced(s, i, j);
          a[i], a[j] := a[j], a[i];
          assert a[..] == s[i := s[j]][j := s[i]];
        }
        j := j + 1;
      }
      PlaceNext(a[..], i);
      i := i + 1;
    }
    AllPlaced(a[..], i);
  }

  lemma NonePlaced(s: seq<Scored>)
    ensures Placed(s, 0)
  {
  }

  lemma AllPlaced(s: seq<Scored>, i: nat)
    requires Placed(s, i) && i >= |s| - 1
    ensures Ascending(s)
  {
  }

  lemma {:induction false} IdsPermute(s: seq<Scored>, t: seq<Scored>)
    requires multiset(s) == multiset(t)
    ensures multiset(Ids(s)) == multiset(Ids(t))
  {
    if s == [] {
      assert |multiset(t)| == 0;
    } else {
      var k := RemoveLast(s, t);
      var n := |s| - 1;
      var rest := t[..k] + t[k + 1..];
      IdsPermute(s[..n], rest);
      assert Ids(s) == Ids(s[..n]) + [s[n].id];
      assert Ids(t) == Ids(t[..k]) + ([t[k].id] + Ids(t[k + 1..]));
      assert Ids(rest) == Ids(t[..k]) + Ids(t[k + 1..]);
    }
  }

  /** The candidates with their scores. */
  method ScoreCandidates(connected: seq<Peer>, bootstrap: set<Peer>, scores: map<Peer, real>)
    returns (scored: seq<Scored>)
    ensures Ids(scored) == Candidates(connected, bootstrap)
    ensures forall x :: x in scored ==> x.score == ScoreOf(scores, x.id)
  {
    scored := [];
    for i := 0 to |connected|
      invariant Ids(scored) == Candidates(connected[..i], bootstrap)
      invariant forall x :: x in scored ==> x.score == ScoreOf(scores, x.id)
    {
      assert connected[..i + 1][..i] == connected[..i];
      if connected[i] !in bootstrap {
        var x := Scored(connected[i], ScoreOf(scores, connected[i]));
        assert Ids(scored + [x]) == Ids(scored) + [x.id];
        scored := scored + [x];
      }
    }
    assert connected[..|connected|] == connected;
  }

  method TakeWorst(slice: array<Scored>, count: nat) returns (result: seq<Peer>)
    ensures |result| == if count < slice.Length then count else slice.Length
    ensures result == Ids(slice[..|result|])
  {
    result := [];
    var i := 0;
    while i < slice.Length && i < count
      invariant 0 <= i <= slice.Length && i <= count
      invariant result == Ids(slice[..i])
    {
      result := result + [slice[i].id];
      i := i + 1;
    }
  }

  /** Nobody spared scores below anybody chosen, unknown peers counting as zero. */
  ghost predicate WorstChosen(scores: map<Peer, real>, chosen: seq<Peer>, spared: seq<Peer>) {
    forall p, q :: p in chosen && q in spared ==>
      (if p in scores then scores[p] else 0.0) <= (if q in scores then scores[q] else 0.0)
  }

  /** `spared` is what the result leaves connected, for the statement only. */
  method GetPeersForPruning(connected: seq<Peer>, bootstrap: set<Peer>, scores: map<Peer, real>, count: nat)
    returns (result: seq<Peer>, ghost spared: seq<Peer>)
    ensures multiset(result + spared) == multiset(Candidates(connected, bootstrap))
    ensures |result| == if count < |Candidates(connected, bootstrap)| then count else |Candidates(connected, bootstrap)|
    ensures WorstChosen(scores, result, spared)
    ensures forall p :: p in result ==> p in connected && p !in bootstrap
    ensures Distinct(connected) ==> Distinct(result) && forall p :: p in result ==> p !in spared
  {
    var scored := ScoreCandidates(connected, bootstrap, scores);
    var slice := new Scored[|scored|](i requires 0 <= i < |scored| => scored[i]);
    assert slice[..] == scored;
    SortByScore(slice);
    ghost var sorted := slice[..];
    IdsPermute(scored, sorted);
    result := TakeWorst(slice, count);
    ghost var i := |result|;
    spared := Ids(sorted[i..]);
    WorstFirst(scored, sorted, i, scores);
    assert slice[..i] == sorted[..i];
    IdsSplit(sorted, i);
    CandidatesAre(connected, bootstrap);
    ChosenFrom(Candidates(connected, bootstrap), result, spared);
  }

  lemma IdsSplit(s: seq<Scored>, i: nat)
    requires i <= |s|
    ensures Ids(s) == Ids(s[..i]) + Ids(s[i..])
  {
  }

  lemma WorstFirst(scored: seq<Scored>, sorted: seq<Scored>, i: nat, scores: map<Peer, real>)
    requires multiset(scored) == multiset(sorted) && Ascending(sorted) && i <= |sorted|
    requires forall x :: x in scored ==> x.score == ScoreOf(scores, x.id)
    ensures WorstChosen(scores, Ids(sorted[..i]), Ids(sorted[i..]))
  {
    forall k | 0 <= k < |sorted| ensures sorted[k].score == ScoreOf(scores, sorted[k].id) {
      assert sorted[k] in multiset(scored);
    }
  }

  /** A permutation of a list without repeats splits it into two disjoint parts. */
  lemma ChosenFrom(s: seq<Peer>, chosen: seq<Peer>, others: seq<Peer>)
    requires multiset(chosen + others) == multiset(s)
    ensures |chosen| + |others| == |s|
    ensures forall p :: p in chosen ==> p in s
    ensures Distinct(s) ==> Distinct(chosen) && forall p :: p in chosen ==> p !in others
  {
    assert |multiset(chosen + others)| == |chosen + others| && |multiset(s)| == |s|;
    forall p | p in chosen ensures p in s {
      assert p in multiset(chosen + others);
    }
    if Distinct(s) {
      DistinctPermutes(s, chosen + others);
      assert forall i :: 0 <= i < |chosen| ==> chosen[i] == (chosen + others)[i];
      assert forall j :: 0 <= j < |others| ==> others[j] == (chosen + others)[|chosen| + j];
    }
  }
}
