/**
 Job pipelines: the depth-first cycle check a pipeline must pass, and the rule that
 decides when one of its jobs may run (internal/domain/job.go).

 The check keeps two sets, `visited` and `recStack` (the keys the Go maps send to true).
 An ID that names no job of the pipeline is put on `recStack` and never taken off again,
 so meeting such an ID a second time also counts as a cycle. `ValidateDag` is proved
 against that exact rule, stated on the dependency graph alone.
 */
module JobDag {
  import opened Common
  import opened Sequences

  type JobId = string

  datatype JobStatus = Pending | Queued | Running | Completed | Failed | Cancelled | Waiting | Retrying

  datatype Job = Job(id: JobId, status: JobStatus, dependencies: seq<JobId>)

  type Graph = map<JobId, Job>

  /** One entry of one dependency list: the job and the position in its list. */
  type Occurrence = (JobId, nat)

  datatype Verdict = Accepted | CyclicDependency

  // ---------------------------------------------------------------------------------
  // The dependency graph
  // ---------------------------------------------------------------------------------

  /** The job map: a later job replaces an earlier one with the same ID. */
  function JobMap(jobs: seq<Job>): (g: Graph)
    ensures g.Keys == set i | 0 <= i < |jobs| :: jobs[i].id
  {
    if jobs == [] then map[] else
    var last := jobs[|jobs| - 1];
    JobMap(jobs[..|jobs| - 1])[last.id := last]
  }

  lemma {:induction false} LastJobWins(jobs: seq<Job>, i: nat)
    requires i < |jobs| && forall j :: i < j < |jobs| ==> jobs[j].id != jobs[i].id
    ensures JobMap(jobs)[jobs[i].id] == jobs[i]
  {
    var n := |jobs| - 1;
    if i < n {
      LastJobWins(jobs[..n], i);
    }
  }

  ghost predicate Edge(g: Graph, a: JobId, b: JobId) {
    a in g && b in g && b in g[a].dependencies
  }

  ghost predicate Walk(g: Graph, p: seq<JobId>) {
    && (forall i :: 0 <= i < |p| ==> p[i] in g)
    && (forall i :: 0 < i < |p| ==> Edge(g, p[i - 1], p[i]))
  }

  ghost predicate IsCycle(g: Graph, p: seq<JobId>) {
    |p| > 0 && Walk(g, p) && Edge(g, p[|p| - 1], p[0])
  }

  ghost predicate Cyclic(g: Graph) {
    exists p :: IsCycle(g, p)
  }

  ghost predicate Occurs(g: Graph, o: Occurrence) {
    o.0 in g && o.1 < |g[o.0].dependencies|
  }

  ghost function Target(g: Graph, o: Occurrence): JobId
    requires Occurs(g, o)
  {
    g[o.0].dependencies[o.1]
  }

  ghost predicate SameMissing(g: Graph, o: Occurrence, o': Occurrence) {
    Occurs(g, o) && Occurs(g, o') && Target(g, o) == Target(g, o') && Target(g, o) !in g
  }

  /** Some ID that names no job is listed at two places. */
  ghost predicate RepeatedMissing(g: Graph) {
    exists o, o' :: o != o' && SameMissing(g, o, o')
  }

  ghost predicate Resolved(g: Graph) {
    forall id, d :: id in g && d in g[id].dependencies ==> d in g
  }

  lemma ResolvedHasNoMissing(g: Graph)
    ensures Resolved(g) ==> !RepeatedMissing(g)
  {
  }

  ghost function Nodes(g: Graph): set<JobId> {
    g.Keys + set id, d | id in g && d in g[id].dependencies :: d
  }

  lemma DependencyIsNode(g: Graph, id: JobId, d: JobId)
    requires id in g && d in g[id].dependencies
    ensures d in Nodes(g)
  {
  }

  /** Every listed job comes after all the jobs it depends on. */
  ghost predicate DependenciesFirst(g: Graph, s: seq<JobId>) {
    forall i, d :: 0 <= i < |s| && s[i] in g && d in g[s[i]].dependencies && d in g ==> d in s[..i]
  }

  /** Along a walk, positions in a dependencies-first order never grow. */
  lemma {:induction false} WalkDescends(g: Graph, s: seq<JobId>, p: seq<JobId>, i: nat, j: nat)
    requires Distinct(s) && DependenciesFirst(g, s) && Walk(g, p) && |p| > 0
    requires i < |s| && s[i] == p[0] && j < |s| && s[j] == p[|p| - 1]
    ensures j <= i
  {
    if |p| > 1 {
      assert Edge(g, p[0], p[1]);
      assert p[1] in s[..i];
      var k :| 0 <= k < i && s[k] == p[1];
      var q := p[1..];
      assert forall m :: 0 < m < |q| ==> q[m - 1] == p[m] && q[m] == p[m + 1];
      WalkDescends(g, s, q, k, j);
    }
  }

  lemma OrderedIsAcyclic(g: Graph, s: seq<JobId>)
    requires Distinct(s) && DependenciesFirst(g, s) && (forall id :: id in g ==> id in s)
    ensures !Cyclic(g)
  {
    if Cyclic(g) {
      var p :| IsCycle(g, p);
      var i :| 0 <= i < |s| && s[i] == p[0];
      var j :| 0 <= j < |s| && s[j] == p[|p| - 1];
      assert p[0] in s[..j];
      WalkDescends(g, s, p, i, j);
    }
  }

  // ---------------------------------------------------------------------------------
  // The depth-first check
  // ---------------------------------------------------------------------------------

  /** What the search has done so far; only the proof looks at it. */
  datatype Trace = Trace(
    path: seq<JobId>,         // jobs whose dependency lists are being scanned
    order: seq<JobId>,        // jobs whose lists were scanned to the end, in that order
    scanned: set<Occurrence>  // list entries looked at so far
  )

  ghost predicate StackInv(g: Graph, visited: set<JobId>, recStack: set<JobId>, t: Trace) {
    && recStack <= visited
    && Walk(g, t.path) && Distinct(t.order) && DependenciesFirst(g, t.order)
    && (forall id :: id in visited <==> id in recStack || id in t.order)
    && (forall id :: id in t.order ==> id in g && id !in recStack)
    && (forall id :: id in recStack <==> id in t.path || (id in visited && id !in g))
  }

  ghost predicate ScanInv(g: Graph, visited: set<JobId>, t: Trace) {
    && (forall o :: o in t.scanned ==> Occurs(g, o) && o.0 in visited && Target(g, o) in visited)
    && (forall o :: Occurs(g, o) && o.0 in t.order ==> o in t.scanned)
    && (forall o, o' :: o in t.scanned && o' in t.scanned && SameMissing(g, o, o') ==> o == o')
    && (forall id :: id in visited && id !in g ==> exists o :: o in t.scanned && Target(g, o) == id)
  }

  ghost function Add(t: Trace, from: Option<Occurrence>): Trace {
    t.(scanned := t.scanned + if from.Some? then {from.value} else {})
  }

  ghost predicate LedBy(g: Graph, visited: set<JobId>, t: Trace, id: JobId, from: Option<Occurrence>) {
    && id !in visited
    && (t.path != [] ==> t.path[|t.path| - 1] in g && id in g[t.path[|t.path| - 1]].dependencies)
    && match from
       case None => id in g
       case Some(o) => Occurs(g, o) && o !in t.scanned && o.0 in visited && Target(g, o) == id
  }

  /** A call only adds to what was visited, ordered and scanned, and scans no list of an older job. */
  ghost predicate Grown(visited: set<JobId>, visited': set<JobId>, t: Trace, t': Trace, from: Option<Occurrence>) {
    && visited <= visited' && t.order <= t'.order && t.scanned <= t'.scanned
    && (from.Some? ==> from.value in t'.scanned)
    && (forall o :: o in t'.scanned ==> o in t.scanned || o.0 !in visited || from == Some(o))
  }

  /** Of the list of `id`, the entries before `i` were looked at and no later ones. */
  ghost predicate ScannedTo(g: Graph, id: JobId, i: nat, t: Trace) {
    && id in g && i <= |g[id].dependencies|
    && (forall k: nat :: k >= i ==> (id, k) !in t.scanned)
    && (forall k: nat :: k < i ==> (id, k) in t.scanned)
    && (forall k: nat :: k < i && g[id].dependencies[k] in g ==> g[id].dependencies[k] in t.order)
  }

  /** Moving past entry `i` of the list of `id` extends what the call has done. */
  lemma Advance(g: Graph, id: JobId, i: nat, from: Option<Occurrence>,
                v0: set<JobId>, t0: Trace, v1: set<JobId>, t1: Trace, v2: set<JobId>, t2: Trace)
    requires Grown(v0, v1, t0, t1, from) && Grown(v1, v2, t1, t2, Some((id, i)))
    requires id in v1 && id !in v0 && ScannedTo(g, id, i, t1) && i < |g[id].dependencies|
    requires g[id].dependencies[i] in g ==> g[id].dependencies[i] in t2.order
    ensures Grown(v0, v2, t0, t2, from) && ScannedTo(g, id, i + 1, t2)
  {
  }

  /** The search moves to a new ID. */
  lemma Enter(g: Graph, visited: set<JobId>, recStack: set<JobId>, t: Trace, id: JobId, from: Option<Occurrence>)
    requires StackInv(g, visited, recStack, t) && ScanInv(g, visited, t) && LedBy(g, visited, t, id, from)
    ensures var t' := Add(t, from).(path := if id in g then t.path + [id] else t.path);
            StackInv(g, visited + {id}, recStack + {id}, t') && ScanInv(g, visited + {id}, t')
    ensures var t' := Add(t, from).(path := if id in g then t.path + [id] else t.path);
            Grown(visited, visited + {id}, t, t', from) && (id in g ==> ScannedTo(g, id, 0, t'))
    ensures id !in t.path
  {
    var t' := Add(t, from).(path := if id in g then t.path + [id] else t.path);
    assert id in g ==> forall x :: x in t'.path <==> x in t.path || x == id;
    if id !in g {
      assert from.value in t'.scanned;
    }
    forall o, o' | o in t'.scanned && o' in t'.scanned && SameMissing(g, o, o') ensures o == o' {
      assert o in t.scanned ==> Target(g, o) in visited;
      assert o' in t.scanned ==> Target(g, o') in visited;
    }
  }

  /** The search passes over a dependency that was visited before and is not on the stack. */
  lemma Skip(g: Graph, visited: set<JobId>, recStack: set<JobId>, t: Trace, o: Occurrence)
    requires StackInv(g, visited, recStack, t) && ScanInv(g, visited, t)
    requires Occurs(g, o) && o.0 in visited && Target(g, o) in visited && Target(g, o) !in recStack
    ensures StackInv(g, visited, recStack, Add(t, Some(o))) && ScanInv(g, visited, Add(t, Some(o)))
    ensures Grown(visited, visited, t, Add(t, Some(o)), Some(o)) && Target(g, o) in t.order
  {
  }

  /** The search has scanned the whole list of the job on top of the stack. */
  lemma Leave(g: Graph, visited: set<JobId>, recStack: set<JobId>, t: Trace, id: JobId, below: seq<JobId>,
              v0: set<JobId>, t0: Trace, from: Option<Occurrence>)
    requires StackInv(g, visited, recStack, t) && ScanInv(g, visited, t)
    requires t.path == below + [id] && id !in below && id in g && ScannedTo(g, id, |g[id].dependencies|, t)
    ensures var t' := t.(path := below, order := t.order + [id]);
            StackInv(g, visited, recStack - {id}, t') && ScanInv(g, visited, t')
            && (Grown(v0, visited, t0, t, from) ==> Grown(v0, visited, t0, t', from))
  {
    var t' := t.(path := below, order := t.order + [id]);
    assert id == t.path[|below|];
    assert forall x :: x in t.path <==> x in below || x == id;
    assert forall x :: x in t'.order <==> x in t.order || x == id;
    assert forall i :: 0 <= i < |below| ==> below[i] == t.path[i];
    assert forall i :: 0 <= i < |t.order| ==> t'.order[..i] == t.order[..i];
    assert t'.order[..|t.order|] == t.order;
  }

  /** A dependency found on the stack is either the entry of a cycle or a repeated missing ID. */
  lemma Explain(g: Graph, visited: set<JobId>, recStack: set<JobId>, t: Trace, o: Occurrence)
    requires StackInv(g, visited, recStack, t) && ScanInv(g, visited, t)
    requires t.path != [] && t.path[|t.path| - 1] == o.0 && Occurs(g, o) && o !in t.scanned
    requires Target(g, o) in recStack
    ensures Cyclic(g) || RepeatedMissing(g)
  {
    var dep := Target(g, o);
    if dep in g {
      var k :| 0 <= k < |t.path| && t.path[k] == dep;
      var p := t.path[k..];
      forall m | 0 < m < |p| ensures Edge(g, p[m - 1], p[m]) {
        assert Edge(g, t.path[k + m - 1], t.path[k + m]);
      }
      assert IsCycle(g, p);
    } else {
      var first :| first in t.scanned && Target(g, first) == dep;
      assert SameMissing(g, first, o);
    }
  }

  /** Once every job was visited without a find, the graph is fully ordered. */
  lemma Finished(g: Graph, visited: set<JobId>, recStack: set<JobId>, t: Trace)
    requires StackInv(g, visited, recStack, t) && ScanInv(g, visited, t)
    requires t.path == [] && (forall id :: id in g ==> id in visited)
    ensures !Cyclic(g) && !RepeatedMissing(g)
  {
    OrderedIsAcyclic(g, t.order);
    forall o, o' | SameMissing(g, o, o') ensures o == o' {
      assert o in t.scanned && o' in t.scanned;
    }
  }

  class CycleSearch {
    const g: Graph
    var visited: set<JobId>
    var recStack: set<JobId>
    ghost var trace: Trace

    ghost predicate Inv()
      reads this
    {
      StackInv(g, visited, recStack, trace) && ScanInv(g, visited, trace)
    }

    constructor (jobMap: Graph)
      ensures g == jobMap && trace.path == [] && Inv()
    {
      g := jobMap;
      visited, recStack, trace := {}, {}, Trace([], [], {});
    }

    /** The recursive closure. `from` is the list entry that led here, if any. */
    method HasCycle(id: JobId, ghost from: Option<Occurrence>) returns (found: bool)
      requires Inv() && LedBy(g, visited, trace, id, from) && id in Nodes(g)
      modifies this
      ensures found ==> Cyclic(g) || RepeatedMissing(g)
      ensures !found ==> Inv() && Grown(old(visited), visited, old(trace), trace, from) && old(visited) <= visited
      ensures !found ==> id in visited && trace.path == old(trace.path) && (id in g ==> id in trace.order)
      decreases Nodes(g) - visited
    {
      hide StackInv, ScanInv, Cyclic, RepeatedMissing, Nodes, Grown, Walk;
      Enter(g, visited, recStack, trace, id, from);
      visited := visited + {id};
      recStack := recStack + {id};
      trace := Add(trace, from);
      if id !in g {
        return false;
      }
      trace := trace.(path := trace.path + [id]);
      var deps := g[id].dependencies;
      for i := 0 to |deps|
        invariant Inv() && Grown(old(visited), visited, old(trace), trace, from) && old(visited) <= visited
        invariant id in visited && trace.path == old(trace.path) + [id] && ScannedTo(g, id, i, trace)
      {
        ghost var v1, t1 := visited, trace;
        var dep := deps[i];
        if dep !in visited {
          DependencyIsNode(g, id, dep);
          var deeper := HasCycle(dep, Some((id, i)));
          if deeper {
            return true;
          }
        } else if dep in recStack {
          Explain(g, visited, recStack, trace, (id, i));
          return true;
        } else {
          Skip(g, visited, recStack, trace, (id, i));
          trace := Add(trace, Some((id, i)));
        }
        Advance(g, id, i, from, old(visited), old(trace), v1, t1, visited, trace);
      }
      Leave(g, visited, recStack, trace, id, old(trace.path), old(visited), old(trace), from);
      recStack := recStack - {id};
      trace := trace.(path := old(trace.path), order := trace.order + [id]);
      return false;
    }
  }

  /** The pipeline check rejects exactly the cyclic job maps and those with a repeated missing ID. */
  method ValidateDag(jobs: seq<Job>) returns (verdict: Verdict)
    ensures verdict == CyclicDependency <==> Cyclic(JobMap(jobs)) || RepeatedMissing(JobMap(jobs))
    ensures Resolved(JobMap(jobs)) ==> (verdict == CyclicDependency <==> Cyclic(JobMap(jobs)))
  {
    hide StackInv, ScanInv, Cyclic, RepeatedMissing, JobMap, Resolved;
    ResolvedHasNoMissing(JobMap(jobs));
    var search := new CycleSearch(JobMap(jobs));
    for i := 0 to |jobs|
      invariant search.g == JobMap(jobs) && search.Inv() && search.trace.path == []
      invariant forall k :: 0 <= k < i ==> jobs[k].id in search.visited
    {
      if jobs[i].id !in search.visited {
        var found := search.HasCycle(jobs[i].id, None);
        if found {
          return CyclicDependency;
        }
      }
    }
    Finished(search.g, search.visited, search.recStack, search.trace);
    return Accepted;
  }
}
