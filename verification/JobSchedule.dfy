/**
 Running the jobs of a pipeline (internal/domain/job.go): `CanRun`, and what an accepted
 pipeline promises about every greedy run. A run is the list of job IDs in the order the
 jobs were started and completed; each step may take any job that `CanRun` allows.
 */
module JobSchedule {
  import opened JobDag
  import opened Sequences

  predicate CanStart(status: JobStatus) {
    status == Pending || status == Queued || status == Waiting
  }

  ghost predicate Runnable(job: Job, completed: map<JobId, bool>) {
    CanStart(job.status) && forall d :: d in job.dependencies ==> d in completed && completed[d]
  }

  method CanRun(job: Job, completed: map<JobId, bool>) returns (r: bool)
    ensures r <==> Runnable(job, completed)
    ensures r <==>
            && job.status in {Pending, Queued, Waiting}
            && forall k :: 0 <= k < |job.dependencies| ==>
                 job.dependencies[k] in completed && completed[job.dependencies[k]]
  {
    if job.status != Pending && job.status != Queued && job.status != Waiting {
      return false;
    }
    for i := 0 to |job.dependencies|
      invariant forall k :: 0 <= k < i ==> job.dependencies[k] in completed && completed[job.dependencies[k]]
    {
      var dep := job.dependencies[i];
      if !(dep in completed && completed[dep]) {
        return false;
      }
    }
    return true;
  }

  // ---------------------------------------------------------------------------------
  // Runs
  // ---------------------------------------------------------------------------------

  ghost function CompletedMap(done: seq<JobId>): map<JobId, bool> {
    map id | id in done :: true
  }

  /** Job `id` can be run once the jobs in `done` have run; those jobs now have status Completed. */
  ghost predicate Step(g: Graph, done: seq<JobId>, id: JobId) {
    && id in g
    && Runnable(if id in done then g[id].(status := Completed) else g[id], CompletedMap(done))
  }

  ghost predicate IsRun(g: Graph, s: seq<JobId>) {
    forall i :: 0 <= i < |s| ==> Step(g, s[..i], s[i])
  }

  ghost predicate Complete(g: Graph, s: seq<JobId>) {
    forall id :: id in g ==> id in s
  }

  ghost predicate Ready(g: Graph) {
    forall id :: id in g ==> CanStart(g[id].status)
  }

  ghost predicate AcceptedMap(g: Graph) {
    !Cyclic(g) && !RepeatedMissing(g)
  }

  /** A run starts each job at most once, and only after everything it depends on. */
  lemma RunOrder(g: Graph, s: seq<JobId>)
    requires IsRun(g, s)
    ensures Distinct(s) && DependenciesFirst(g, s)
    ensures forall i :: 0 <= i < |s| ==> s[i] in g && forall d :: d in g[s[i]].dependencies ==> d in s[..i]
  {
    forall i, j | 0 <= i < j < |s| ensures s[i] != s[j] {
      assert Step(g, s[..j], s[j]);
      assert s[i] in s[..j];
    }
    forall i | 0 <= i < |s| ensures s[i] in g && forall d :: d in g[s[i]].dependencies ==> d in s[..i] {
      assert Step(g, s[..i], s[i]);
    }
  }

  lemma {:induction false} DistinctSize(s: seq<JobId>)
    requires Distinct(s)
    ensures |set x | x in s| == |s|
  {
    if s != [] {
      var n := |s| - 1;
      DistinctSize(s[..n]);
      assert (set x | x in s) == (set x | x in s[..n]) + {s[n]};
    }
  }

  /** A run never has more steps than the pipeline has jobs, and has as many exactly when all ran. */
  lemma RunLength(g: Graph, s: seq<JobId>)
    requires IsRun(g, s)
    ensures |s| <= |g| && (|s| == |g| <==> Complete(g, s))
  {
    RunOrder(g, s);
    DistinctSize(s);
    var ran := set x | x in s;
    assert ran <= g.Keys;
    assert g.Keys == ran + (g.Keys - ran);
    if |s| == |g| {
      assert g.Keys - ran == {};
      assert forall id :: id in g ==> id in ran;
    }
    if Complete(g, s) {
      assert g.Keys == ran;
    }
  }

  ghost predicate WaitsFor(g: Graph, waiting: set<JobId>, id: JobId) {
    id in g && exists d :: d in waiting && d in g[id].dependencies
  }

  /** If each of some nonempty set of jobs waits for another of them, they form a cycle. */
  lemma {:induction false} WaitingCycle(g: Graph, waiting: set<JobId>, p: seq<JobId>)
    requires waiting <= g.Keys
    requires forall id {:trigger WaitsFor(g, waiting, id)} :: id in waiting ==> WaitsFor(g, waiting, id)
    requires p != [] && Walk(g, p) && (forall id :: id in p ==> id in waiting)
    ensures Cyclic(g)
    decreases waiting - set id | id in p
  {
    var last := p[|p| - 1];
    assert WaitsFor(g, waiting, last);
    var d :| d in waiting && d in g[last].dependencies;
    if d in p {
      var k :| 0 <= k < |p| && p[k] == d;
      var c := p[k..];
      forall m | 0 < m < |c| ensures Edge(g, c[m - 1], c[m]) {
        assert Edge(g, p[k + m - 1], p[k + m]);
      }
      assert IsCycle(g, c);
    } else {
      assert (set id | id in p + [d]) == (set id | id in p) + {d};
      WaitingCycle(g, waiting, p + [d]);
    }
  }

  /** At every point of every run that is not over, some job can run. */
  lemma Progress(g: Graph, s: seq<JobId>)
    requires Ready(g) && Resolved(g) && !Cyclic(g) && IsRun(g, s) && !Complete(g, s)
    ensures exists id :: Step(g, s, id)
  {
    var first :| first in g && first !in s;
    var waiting := set id | id in g && id !in s;
    if id :| id in waiting && !WaitsFor(g, waiting, id) {
      assert Step(g, s, id);
    } else {
      WaitingCycle(g, waiting, [first]);
    }
  }

  lemma ExtendRun(g: Graph, s: seq<JobId>, id: JobId)
    requires IsRun(g, s) && Step(g, s, id)
    ensures IsRun(g, s + [id])
  {
    var t := s + [id];
    forall i | 0 <= i < |t| ensures Step(g, t[..i], t[i]) {
      assert t[..i] == s[..i];
      assert s[..|s|] == s;
    }
  }

  lemma {:induction false} FinishRun(g: Graph, s: seq<JobId>) returns (t: seq<JobId>)
    requires Ready(g) && Resolved(g) && !Cyclic(g) && IsRun(g, s)
    ensures s <= t && IsRun(g, t) && Complete(g, t)
    decreases |g| - |s|
  {
    RunLength(g, s);
    if Complete(g, s) {
      t := s;
    } else {
      Progress(g, s);
      var id :| Step(g, s, id);
      ExtendRun(g, s, id);
      RunLength(g, s + [id]);
      t := FinishRun(g, s + [id]);
    }
  }

  /** Greedy runs cannot get stuck: a run that no step extends has run every job, in |g| steps. */
  lemma GreedyRunsFinish(g: Graph, s: seq<JobId>)
    requires Ready(g) && Resolved(g) && AcceptedMap(g) && IsRun(g, s)
    ensures (forall id :: !Step(g, s, id)) <==> |s| == |g|
  {
    RunLength(g, s);
    if !Complete(g, s) {
      Progress(g, s);
    } else if exists id :: Step(g, s, id) {
      var id :| Step(g, s, id);
      ExtendRun(g, s, id);
      RunLength(g, s + [id]);
    }
  }

  /**
   A pipeline whose jobs all wait to start can be run to the end exactly when the check
   accepts it and every dependency names one of its jobs.
   */
  lemma CompletableIff(g: Graph)
    requires Ready(g)
    ensures (exists s :: IsRun(g, s) && Complete(g, s)) <==> AcceptedMap(g) && Resolved(g)
  {
    if exists s :: IsRun(g, s) && Complete(g, s) {
      var s :| IsRun(g, s) && Complete(g, s);
      RunOrder(g, s);
      OrderedIsAcyclic(g, s);
      forall id, d | id in g && d in g[id].dependencies ensures d in g {
        var i :| 0 <= i < |s| && s[i] == id;
        assert d in s[..i];
      }
    }
    if AcceptedMap(g) && Resolved(g) {
      var s := FinishRun(g, []);
    }
  }

  /** The check alone is not enough: a single dependency on an unknown ID is accepted and never runs. */
  lemma AcceptedButStuck()
    ensures var g := JobMap([Job("a", Pending, ["gone"])]);
            AcceptedMap(g) && Ready(g) && !exists s :: IsRun(g, s) && Complete(g, s)
  {
    var g := JobMap([Job("a", Pending, ["gone"])]);
    assert g == map["a" := Job("a", Pending, ["gone"])];
    assert "gone" in g["a"].dependencies && "gone" !in g;
    CompletableIff(g);
    forall p ensures !IsCycle(g, p) {
      assert |p| > 0 ==> !Edge(g, p[|p| - 1], p[0]);
    }
  }

  /** With unique job IDs the job map has one entry for each listed job. */
  lemma {:induction false} UniqueIds(jobs: seq<Job>)
    requires forall i, j :: 0 <= i < j < |jobs| ==> jobs[i].id != jobs[j].id
    ensures |JobMap(jobs)| == |jobs|
  {
    if jobs != [] {
      var n := |jobs| - 1;
      var front := jobs[..n];
      UniqueIds(front);
      assert jobs[n].id !in JobMap(front);
      assert JobMap(jobs).Keys == JobMap(front).Keys + {jobs[n].id};
    }
  }
}
