/**
 Lists of discovered nodes (internal/discovery/discovery.go): removal of duplicates, merging of
 results, and the in-place bubble sort by latency.

 A latency is a measured duration, so never negative; zero means that it was not measured.
 */
module Discovery {
  import opened Common
  import Sequences

  datatype Method = Local | MDNS | P2P | Manual | Public

  datatype Node = Node(address: string, foundBy: Method, latency: nat, info: string)

  datatype Result = Result(nodes: seq<Node>, errors: seq<string>, duration: nat, methodCounts: map<Method, nat>)

  /** `x` may stand before `y`: measured nodes come first, faster ones before slower ones. */
  predicate InOrder(x: Node, y: Node) {
    y.latency > 0 ==> 0 < x.latency <= y.latency
  }

  ghost predicate Sorted(s: seq<Node>) {
    forall i, j :: 0 <= i < j < |s| ==> InOrder(s[i], s[j])
  }

  /** The nodes with one given latency, in their order. */
  ghost function WithLatency(s: seq<Node>, l: nat): seq<Node> {
    if s == [] then [] else
    WithLatency(s[..|s| - 1], l) + (if s[|s| - 1].latency == l then [s[|s| - 1]] else [])
  }

  /** Same nodes, and nodes of equal latency in the same order: a stable permutation. */
  ghost predicate StablePermutation(s: seq<Node>, t: seq<Node>) {
    forall l: nat :: WithLatency(s, l) == WithLatency(t, l)
  }

  lemma {:induction false} WithLatencyConcat(s: seq<Node>, t: seq<Node>, l: nat)
    ensures WithLatency(s + t, l) == WithLatency(s, l) + WithLatency(t, l)
  {
    if t == [] {
      assert s + t == s;
    } else {
      assert (s + t)[..|s + t| - 1] == s + t[..|t| - 1];
      WithLatencyConcat(s, t[..|t| - 1], l);
    }
  }

  /** Swapping neighbours of different latency is a stable permutation. */
  lemma SwapIsStable(s: seq<Node>, j: nat)
    requires j + 1 < |s| && s[j].latency != s[j + 1].latency
    ensures StablePermutation(s, s[j := s[j + 1]][j + 1 := s[j]])
  {
    var t := s[j := s[j + 1]][j + 1 := s[j]];
    var x, y := s[j], s[j + 1];
    forall l: nat ensures WithLatency(s, l) == WithLatency(t, l) {
      var front, back := s[..j], s[j + 2..];
      assert s == front + [x, y] + back && t == front + [y, x] + back;
      WithLatencyConcat(front + [x, y], back, l);
      WithLatencyConcat(front + [y, x], back, l);
      WithLatencyConcat(front, [x, y], l);
      WithLatencyConcat(front, [y, x], l);
      assert [x, y][..1] == [x] && [y, x][..1] == [y];
      assert [x][..0] == [] && [y][..0] == [];
    }
  }

  /** The bubble sort, on the slice it is given. */
  method SortNodesByLatency(nodes: array<Node>)
    modifies nodes
    ensures Sorted(nodes[..]) && StablePermutation(old(nodes[..]), nodes[..])
  {
    var n := nodes.Length;
    var i := 0;
    while i < n - 1
      invariant 0 <= i && (n > 0 ==> i <= n - 1)
      invariant StablePermutation(old(nodes[..]), nodes[..])
      invariant forall m, k :: 0 <= m < k < n && n - i <= k ==> InOrder(nodes[m], nodes[k])
    {
      var j := 0;
      while j < n - i - 1
        invariant 0 <= j <= n - i - 1
        invariant StablePermutation(old(nodes[..]), nodes[..])
        invariant forall m, k :: 0 <= m < k < n && n - i <= k ==> InOrder(nodes[m], nodes[k])
        invariant forall m :: 0 <= m < j ==> InOrder(nodes[m], nodes[j])
      {
        if (nodes[j].latency == 0 && nodes[j + 1].latency > 0)
           || (nodes[j].latency > 0 && nodes[j + 1].latency > 0 && nodes[j].latency > nodes[j + 1].latency) {
          ghost var s := nodes[..];
          SwapIsStable(s, j);
          nodes[j], nodes[j + 1] := nodes[j + 1], nodes[j];
          assert nodes[..] == s[j := s[j + 1]][j + 1 := s[j]];
        }
        j := j + 1;
      }
      i := i + 1;
    }
  }

  // ---------------------------------------------------------------------------------
  // What a stable permutation is
  // ---------------------------------------------------------------------------------

  lemma {:induction false} WithLatencyCounts(s: seq<Node>, x: Node)
    ensures multiset(WithLatency(s, x.latency))[x] == multiset(s)[x]
  {
    if s != [] {
      var n := |s| - 1;
      WithLatencyCounts(s[..n], x);
      Sequences.SplitLast(s);
      if s[n].latency == x.latency {
        var w := WithLatency(s, x.latency);
        assert w == WithLatency(s[..n], x.latency) + [s[n]];
        assert multiset(w) == multiset(WithLatency(s[..n], x.latency)) + multiset{s[n]};
      } else {
        assert WithLatency(s, x.latency) == WithLatency(s[..n], x.latency);
      }
    }
  }

  lemma StableIsPermutation(s: seq<Node>, t: seq<Node>)
    requires StablePermutation(s, t)
    ensures multiset(s) == multiset(t)
  {
    forall x: Node ensures multiset(s)[x] == multiset(t)[x] {
      WithLatencyCounts(s, x);
      WithLatencyCounts(t, x);
    }
  }

  lemma LastHasSameLatency(s: seq<Node>, t: seq<Node>)
    requires Sorted(s) && Sorted(t) && multiset(s) == multiset(t) && s != [] && t != []
    ensures s[|s| - 1].latency == t[|t| - 1].latency
  {
    var x, y := s[|s| - 1], t[|t| - 1];
    assert x in multiset(t) && y in multiset(s);
    var i :| 0 <= i < |t| && t[i] == x;
    var j :| 0 <= j < |s| && s[j] == y;
  }

  lemma DropLast(s: seq<Node>, t: seq<Node>, l: nat)
    requires s != [] && t != [] && s[|s| - 1] == t[|t| - 1] && WithLatency(s, l) == WithLatency(t, l)
    ensures WithLatency(s[..|s| - 1], l) == WithLatency(t[..|t| - 1], l)
  {
    var u, v := WithLatency(s[..|s| - 1], l), WithLatency(t[..|t| - 1], l);
    var end := if s[|s| - 1].latency == l then [s[|s| - 1]] else [];
    assert WithLatency(s, l) == u + end && WithLatency(t, l) == v + end;
    assert u == (u + end)[..|u|] && v == (v + end)[..|v|] && |u + end| == |v + end|;
  }

  /** There is only one sorted stable permutation of a list, so the sort is fully described. */
  lemma {:induction false} StableSortIsUnique(s: seq<Node>, t: seq<Node>)
    requires Sorted(s) && Sorted(t) && StablePermutation(s, t)
    ensures s == t
  {
    StableIsPermutation(s, t);
    assert |s| == |multiset(s)| == |multiset(t)| == |t|;
    if s != [] {
      var n := |s| - 1;
      LastHasSameLatency(s, t);
      var a, b := WithLatency(s, s[n].latency), WithLatency(t, s[n].latency);
      assert a[|a| - 1] == s[n] && b[|b| - 1] == t[n] && a == b;
      forall l: nat ensures WithLatency(s[..n], l) == WithLatency(t[..n], l) {
        DropLast(s, t, l);
      }
      StableSortIsUnique(s[..n], t[..n]);
      assert s == s[..n] + [s[n]] && t == t[..n] + [t[n]];
    }
  }

  // ---------------------------------------------------------------------------------
  // Duplicates
  // ---------------------------------------------------------------------------------

  ghost predicate DistinctAddresses(s: seq<Node>) {
    forall i, j :: 0 <= i < j < |s| ==> s[i].address != s[j].address
  }

  /** Node `i` is the first of those for its address whose latency is the least measured one, or zero. */
  ghost predicate FirstBest(nodes: seq<Node>, i: nat) {
    i < |nodes| &&
    forall j :: 0 <= j < |nodes| && nodes[j].address == nodes[i].address ==>
      InOrder(nodes[i], nodes[j]) && (j < i ==> nodes[j].latency != nodes[i].latency)
  }

  ghost predicate Best(nodes: seq<Node>, r: Node) {
    exists i :: 0 <= i < |nodes| && nodes[i] == r && FirstBest(nodes, i)
  }

  /** Each address of `nodes` once, by the first of its fastest nodes. */
  ghost predicate Deduplicated(nodes: seq<Node>, result: seq<Node>) {
    && DistinctAddresses(result)
    && (forall r :: r in result ==> Best(nodes, r))
    && (forall n {:trigger Lists(result, n.address)} :: n in nodes ==> Lists(result, n.address))
  }

  ghost predicate Lists(result: seq<Node>, address: string) {
    exists r :: r in result && r.address == address
  }

  ghost predicate BestMap(nodes: seq<Node>, m: map<string, Node>) {
    && (forall a :: a in m ==> m[a].address == a && Best(nodes, m[a]))
    && (forall n :: n in nodes ==> n.address in m)
  }

  /** The update both loops make for one node. */
  method Consider(m: map<string, Node>, node: Node, ghost seen: seq<Node>) returns (m': map<string, Node>)
    requires BestMap(seen, m)
    ensures BestMap(seen + [node], m')
  {
    m' := m;
    if node.address in m {
      var existing := m[node.address];
      if node.latency > 0 && (existing.latency == 0 || node.latency < existing.latency) {
        m' := m[node.address := node];
      }
    } else {
      m' := m[node.address := node];
    }
    forall a | a in m' ensures Best(seen + [node], m'[a]) {
      if a in m {
        BestSoFar(seen, m[a], node);
      } else {
        assert FirstBest(seen + [node], |seen|);
      }
    }
  }

  /** What one more node changes for the best node of an address. */
  lemma BestSoFar(seen: seq<Node>, r: Node, node: Node)
    requires Best(seen, r)
    ensures if node.address == r.address && !InOrder(r, node) then Best(seen + [node], node) else Best(seen + [node], r)
  {
    var all := seen + [node];
    var i :| 0 <= i < |seen| && seen[i] == r && FirstBest(seen, i);
    if node.address == r.address && !InOrder(r, node) {
      assert all[|seen|] == node && FirstBest(all, |seen|);
    } else {
      assert all[i] == r && FirstBest(all, i);
    }
  }

  ghost predicate ListsMap(m: map<string, Node>, list: seq<Node>) {
    && DistinctAddresses(list)
    && (forall r :: r in list ==> r.address in m && m[r.address] == r)
    && (forall a :: a in m ==> m[a] in list)
  }

  /** The values of a map in an arbitrary order. */
  method Values(m: map<string, Node>) returns (list: seq<Node>)
    requires forall a :: a in m ==> m[a].address == a
    ensures ListsMap(m, list)
  {
    list := [];
    var todo := m.Keys;
    while todo != {}
      invariant todo <= m.Keys && DistinctAddresses(list)
      invariant forall r :: r in list ==> r.address in m && r.address !in todo && m[r.address] == r
      invariant forall a :: a in m && a !in todo ==> m[a] in list
    {
      var a :| a in todo;
      list := list + [m[a]];
      todo := todo - {a};
    }
  }

  lemma SortedListDeduplicates(nodes: seq<Node>, m: map<string, Node>, list: seq<Node>, result: seq<Node>)
    requires BestMap(nodes, m) && ListsMap(m, list) && StablePermutation(list, result)
    ensures Deduplicated(nodes, result)
  {
    StableIsPermutation(list, result);
    DistinctPermutes(list, result);
    assert forall r :: r in result <==> r in multiset(result);
    assert forall r :: r in list <==> r in multiset(list);
    forall n | n in nodes ensures Lists(result, n.address) {
      assert m[n.address] in result;
    }
  }

  method SortedList(list: seq<Node>, ghost m: map<string, Node>, ghost nodes: seq<Node>) returns (result: seq<Node>)
    requires BestMap(nodes, m) && ListsMap(m, list)
    ensures Deduplicated(nodes, result) && Sorted(result) && StablePermutation(list, result)
  {
    var slice := new Node[|list|](i requires 0 <= i < |list| => list[i]);
    assert slice[..] == list;
    SortNodesByLatency(slice);
    result := slice[..];
    SortedListDeduplicates(nodes, m, list, result);
  }

  lemma DistinctPermutes(s: seq<Node>, t: seq<Node>)
    requires DistinctAddresses(s) && multiset(s) == multiset(t)
    ensures DistinctAddresses(t)
  {
    Sequences.DistinctPermutes(s, t);
    forall i, j | 0 <= i < j < |t| ensures t[i].address != t[j].address {
      assert t[i] in multiset(s) && t[j] in multiset(s);
    }
  }

  method DeduplicateNodes(nodes: seq<Node>) returns (result: seq<Node>)
    ensures Deduplicated(nodes, result) && Sorted(result)
  {
    var nodeMap: map<string, Node> := map[];
    for i := 0 to |nodes|
      invariant BestMap(nodes[..i], nodeMap)
    {
      nodeMap := Consider(nodeMap, nodes[i], nodes[..i]);
      assert nodes[..i] + [nodes[i]] == nodes[..i + 1];
    }
    assert nodes[..|nodes|] == nodes;
    var list := Values(nodeMap);
    result := SortedList(list, nodeMap, nodes);
  }

  lemma BestIsUnique(nodes: seq<Node>, r: Node, r': Node)
    requires Best(nodes, r) && Best(nodes, r') && r.address == r'.address
    ensures r == r'
  {
    var i :| 0 <= i < |nodes| && nodes[i] == r && FirstBest(nodes, i);
    var j :| 0 <= j < |nodes| && nodes[j] == r' && FirstBest(nodes, j);
    assert i == j;
  }

  /** Which nodes are kept is determined by the nodes found, however the map is ranged over. */
  lemma KeptAreDetermined(nodes: seq<Node>, result: seq<Node>, result': seq<Node>, r: Node)
    requires Deduplicated(nodes, result) && Deduplicated(nodes, result') && r in result
    ensures r in result'
  {
    assert Best(nodes, r);
    assert Lists(result', r.address);
    var r' :| r' in result' && r'.address == r.address;
    BestIsUnique(nodes, r, r');
  }

  lemma BestIsFastest(nodes: seq<Node>, r: Node, n: Node)
    requires Best(nodes, r) && n in nodes && n.address == r.address
    ensures r in nodes && InOrder(r, n)
  {
  }

  /** The latency kept for an address depends on what was seen, not on the order or on repeats. */
  lemma OrderDoesNotMatter(nodes: seq<Node>, nodes': seq<Node>, result: seq<Node>, result': seq<Node>, r: Node)
    requires Deduplicated(nodes, result) && Deduplicated(nodes', result')
    requires forall n :: n in nodes <==> n in nodes'
    requires r in result
    ensures exists r' :: r' in result' && r'.address == r.address && r'.latency == r.latency
  {
    assert Best(nodes, r) && Lists(result', r.address);
    var r' :| r' in result' && r'.address == r.address;
    assert Best(nodes', r');
    BestIsFastest(nodes, r, r');
    BestIsFastest(nodes', r', r);
  }

  // ---------------------------------------------------------------------------------
  // Merging results
  // ---------------------------------------------------------------------------------

  ghost function AllNodes(results: seq<Option<Result>>): seq<Node> {
    if results == [] then [] else
    var last := results[|results| - 1];
    AllNodes(results[..|results| - 1]) + (if last.Some? then last.value.nodes else [])
  }

  ghost function AllErrors(results: seq<Option<Result>>): seq<string> {
    if results == [] then [] else
    var last := results[|results| - 1];
    AllErrors(results[..|results| - 1]) + (if last.Some? then last.value.errors else [])
  }

  ghost predicate IsLongest(results: seq<Option<Result>>, d: nat) {
    && (forall r :: r in results && r.Some? ==> r.value.duration <= d)
    && (d == 0 || exists r :: r in results && r.Some? && r.value.duration == d)
  }

  function CountOf(counts: map<Method, nat>, m: Method): nat {
    if m in counts then counts[m] else 0
  }

  ghost function Found(nodes: seq<Node>, m: Method): nat {
    if nodes == [] then 0 else
    Found(nodes[..|nodes| - 1], m) + (if nodes[|nodes| - 1].foundBy == m then 1 else 0)
  }

  /** Every node is counted for exactly one method. */
  lemma {:induction false} MethodCountsSum(nodes: seq<Node>)
    ensures Found(nodes, Local) + Found(nodes, MDNS) + Found(nodes, P2P) + Found(nodes, Manual) + Found(nodes, Public)
            == |nodes|
  {
    if nodes != [] {
      MethodCountsSum(nodes[..|nodes| - 1]);
    }
  }

  method CountMethods(nodes: seq<Node>) returns (counts: map<Method, nat>)
    ensures forall m :: CountOf(counts, m) == Found(nodes, m)
  {
    counts := map[];
    for i := 0 to |nodes|
      invariant forall m :: CountOf(counts, m) == Found(nodes[..i], m)
    {
      counts := counts[nodes[i].foundBy := CountOf(counts, nodes[i].foundBy) + 1];
      assert nodes[..i + 1][..i] == nodes[..i];
    }
    assert nodes[..|nodes|] == nodes;
  }

  lemma {:induction false} FoundConcat(s: seq<Node>, t: seq<Node>, m: Method)
    ensures Found(s + t, m) == Found(s, m) + Found(t, m)
  {
    if t == [] {
      assert s + t == s;
    } else {
      assert (s + t)[..|s + t| - 1] == s + t[..|t| - 1];
      FoundConcat(s, t[..|t| - 1], m);
    }
  }

  lemma {:induction false} FoundPermutes(s: seq<Node>, t: seq<Node>, m: Method)
    requires multiset(s) == multiset(t)
    ensures Found(s, m) == Found(t, m)
  {
    if s == [] {
      assert |multiset(t)| == 0;
    } else {
      var k := Sequences.RemoveLast(s, t);
      var n := |s| - 1;
      var u, v := t[..k], t[k + 1..];
      FoundPermutes(s[..n], u + v, m);
      FoundConcat(u, [t[k]] + v, m);
      FoundConcat([t[k]], v, m);
      FoundConcat(u, v, m);
      assert [t[k]][..0] == [];
    }
  }

  /** Nil results are skipped; the map is listed, counted and then sorted. */
  method MergeResults(results: seq<Option<Result>>) returns (merged: Result)
    ensures Deduplicated(AllNodes(results), merged.nodes) && Sorted(merged.nodes)
    ensures merged.errors == AllErrors(results) && IsLongest(results, merged.duration)
    ensures forall m :: CountOf(merged.methodCounts, m) == Found(merged.nodes, m)
  {
    hide Best;
    var nodeMap: map<string, Node> := map[];
    var errors: seq<string>, duration: nat := [], 0;
    for i := 0 to |results|
      invariant BestMap(AllNodes(results[..i]), nodeMap)
      invariant errors == AllErrors(results[..i]) && IsLongest(results[..i], duration)
    {
      assert results[..i + 1][..i] == results[..i];
      if results[i].Some? {
        var r := results[i].value;
        ghost var before := AllNodes(results[..i]);
        assert before + r.nodes[..0] == before;
        for j := 0 to |r.nodes|
          invariant BestMap(before + r.nodes[..j], nodeMap)
        {
          nodeMap := Consider(nodeMap, r.nodes[j], before + r.nodes[..j]);
          assert before + r.nodes[..j] + [r.nodes[j]] == before + r.nodes[..j + 1];
        }
        assert r.nodes[..|r.nodes|] == r.nodes;
        errors := errors + r.errors;
        ghost var was := duration;
        if r.duration > duration {
          duration := r.duration;
        }
        LongestGrows(results[..i], results[i], was, duration);
      } else {
        assert AllNodes(results[..i + 1]) == AllNodes(results[..i]);
      }
      assert results[..i + 1] == results[..i] + [results[i]];
    }
    assert results[..|results|] == results;
    var list := Values(nodeMap);
    var counts := CountMethods(list);
    var nodes := SortedList(list, nodeMap, AllNodes(results));
    StableIsPermutation(list, nodes);
    forall m ensures Found(list, m) == Found(nodes, m) {
      FoundPermutes(list, nodes, m);
    }
    merged := Result(nodes, errors, duration, counts);
  }

  lemma LongestGrows(results: seq<Option<Result>>, r: Option<Result>, d: nat, d': nat)
    requires IsLongest(results, d) && r.Some? && d' == if r.value.duration > d then r.value.duration else d
    ensures IsLongest(results + [r], d')
  {
    if d' == d && d != 0 {
      var x :| x in results && x.Some? && x.value.duration == d;
      assert x in results + [r];
    } else {
      assert r in results + [r];
    }
  }
}
