/**
 The replicated state machine of a cluster (internal/cluster/fsm.go) and the tables that
 mirror it (internal/cluster/storage.go).

 Commands arrive decoded; `Rejected` stands for data that does not decode and for an unknown
 command type, both of which `Apply` answers with an error and no effect. A table is a map from
 its primary key to the columns the statements write. Every write succeeds, except that
 inserting a join token twice violates the primary key.
 */
module Fsm {

  datatype CatalogEntry = CatalogEntry(
    topicId: string, datasetId: string, hash: string, size: int,
    chunkCount: int, ownerPeerId: string, updatedAt: int)

  datatype ReplicatedJob = ReplicatedJob(
    jobId: string, jobType: string, assignedNode: string, status: string,
    priority: int, celExpression: string, metadata: string)

  datatype JoinToken = JoinToken(token: string, clusterName: string, leaderAddr: string, expiresAt: int)

  datatype Command =
    | CatalogUpdate(entry: CatalogEntry)
    | CatalogDelete(topicId: string, datasetId: string)
    | JobCreate(job: ReplicatedJob)
    | JobUpdate(job: ReplicatedJob)
    | JobAssign(jobId: string, assignedNode: string)
    | ConfigSet(key: string, value: seq<bv8>)
    | ConfigDelete(key: string)
    | JoinTokenCreate(token: JoinToken)
    | Rejected

  /** The in-memory caches; also what a snapshot holds. */
  datatype Caches = Caches(
    catalog: map<string, CatalogEntry>,
    jobs: map<string, ReplicatedJob>,
    config: map<string, seq<bv8>>)

  datatype ConfigRow = ConfigRow(value: seq<bv8>, version: nat)

  datatype Tables = Tables(
    catalog: map<(string, string), CatalogEntry>,
    jobs: map<string, ReplicatedJob>,
    config: map<string, ConfigRow>,
    joinTokens: map<string, JoinToken>)

  const NO_CACHES := Caches(map[], map[], map[])
  const NO_TABLES := Tables(map[], map[], map[], map[])

  // ---------------------------------------------------------------------------------
  // Effect of one command on the caches
  // ---------------------------------------------------------------------------------

  function CacheKey(topicId: string, datasetId: string): string {
    topicId + "/" + datasetId
  }

  function Assign(job: ReplicatedJob, node: string): ReplicatedJob {
    job.(assignedNode := node, status := "assigned")
  }

  function CatalogEffect(m: map<string, CatalogEntry>, cmd: Command): map<string, CatalogEntry> {
    match cmd
    case CatalogUpdate(e) => m[CacheKey(e.topicId, e.datasetId) := e]
    case CatalogDelete(t, d) => m - {CacheKey(t, d)}
    case _ => m
  }

  function JobsEffect(m: map<string, ReplicatedJob>, cmd: Command): map<string, ReplicatedJob> {
    match cmd
    case JobCreate(j) => m[j.jobId := j]
    case JobUpdate(j) => m[j.jobId := j]
    case JobAssign(id, n) => if id in m then m[id := Assign(m[id], n)] else m
    case _ => m
  }

  function ConfigEffect(m: map<string, seq<bv8>>, cmd: Command): map<string, seq<bv8>> {
    match cmd
    case ConfigSet(k, v) => m[k := v]
    case ConfigDelete(k) => m - {k}
    case _ => m
  }

  function Effect(c: Caches, cmd: Command): Caches {
    Caches(CatalogEffect(c.catalog, cmd), JobsEffect(c.jobs, cmd), ConfigEffect(c.config, cmd))
  }

  function Replay(c: Caches, w: seq<Command>): Caches {
    if w == [] then c else Effect(Replay(c, w[..|w| - 1]), w[|w| - 1])
  }

  lemma {:induction false} ReplayConcat(c: Caches, u: seq<Command>, v: seq<Command>)
    ensures Replay(c, u + v) == Replay(Replay(c, u), v)
  {
    if v == [] {
      assert u + v == u;
    } else {
      assert (u + v)[..|u + v| - 1] == u + v[..|v| - 1];
      ReplayConcat(c, u, v[..|v| - 1]);
    }
  }

  // ---------------------------------------------------------------------------------
  // Replaying commands that are already in the state
  // ---------------------------------------------------------------------------------

  /** States that a command makes equal are still made equal by it after any other command. */
  lemma EffectCongruence(a: Caches, b: Caches, between: Command, cmd: Command)
    requires Effect(a, cmd) == Effect(b, cmd)
    ensures Effect(Effect(a, between), cmd) == Effect(Effect(b, between), cmd)
  {
    CatalogCongruence(a.catalog, b.catalog, between, cmd);
    JobsCongruence(a.jobs, b.jobs, between, cmd);
    ConfigCongruence(a.config, b.config, between, cmd);
  }

  lemma CatalogCongruence(a: map<string, CatalogEntry>, b: map<string, CatalogEntry>, between: Command, cmd: Command)
    requires CatalogEffect(a, cmd) == CatalogEffect(b, cmd)
    ensures CatalogEffect(CatalogEffect(a, between), cmd) == CatalogEffect(CatalogEffect(b, between), cmd)
  {
    var x, y := CatalogEffect(CatalogEffect(a, between), cmd), CatalogEffect(CatalogEffect(b, between), cmd);
    forall k: string ensures At(x, k) == At(y, k) {
      assert At(CatalogEffect(a, cmd), k) == At(CatalogEffect(b, cmd), k);
    }
    SameMap(x, y);
  }

  lemma JobsCongruence(a: map<string, ReplicatedJob>, b: map<string, ReplicatedJob>, between: Command, cmd: Command)
    requires JobsEffect(a, cmd) == JobsEffect(b, cmd)
    ensures JobsEffect(JobsEffect(a, between), cmd) == JobsEffect(JobsEffect(b, between), cmd)
  {
    var x, y := JobsEffect(JobsEffect(a, between), cmd), JobsEffect(JobsEffect(b, between), cmd);
    forall k: string ensures At(x, k) == At(y, k) {
      assert At(JobsEffect(a, cmd), k) == At(JobsEffect(b, cmd), k);
    }
    SameMap(x, y);
  }

  lemma ConfigCongruence(a: map<string, seq<bv8>>, b: map<string, seq<bv8>>, between: Command, cmd: Command)
    requires ConfigEffect(a, cmd) == ConfigEffect(b, cmd)
    ensures ConfigEffect(ConfigEffect(a, between), cmd) == ConfigEffect(ConfigEffect(b, between), cmd)
  {
    var x, y := ConfigEffect(ConfigEffect(a, between), cmd), ConfigEffect(ConfigEffect(b, between), cmd);
    forall k: string ensures At(x, k) == At(y, k) {
      assert At(ConfigEffect(a, cmd), k) == At(ConfigEffect(b, cmd), k);
    }
    SameMap(x, y);
  }

  datatype Cell<V> = Absent | Present(value: V)

  ghost function At<K, V>(m: map<K, V>, k: K): Cell<V> {
    if k in m then Present(m[k]) else Absent
  }

  lemma SameMap<V>(a: map<string, V>, b: map<string, V>)
    requires forall k: string :: At(a, k) == At(b, k)
    ensures a == b
  {
    forall k | k in a || k in b ensures k in a && k in b && a[k] == b[k] {
      assert At(a, k) == At(b, k);
    }
  }

  /** Hence a command may be dropped when the same command comes again later. */
  lemma {:induction false} LaterWins(a: Caches, b: Caches, between: seq<Command>, cmd: Command)
    requires Effect(a, cmd) == Effect(b, cmd)
    ensures Effect(Replay(a, between), cmd) == Effect(Replay(b, between), cmd)
  {
    if between != [] {
      var n := |between| - 1;
      LaterWins(a, b, between[..n], cmd);
      EffectCongruence(Replay(a, between[..n]), Replay(b, between[..n]), between[n], cmd);
    }
  }

  lemma ApplyTwice(c: Caches, cmd: Command)
    ensures Effect(Effect(c, cmd), cmd) == Effect(c, cmd)
  {
    assert JobsEffect(JobsEffect(c.jobs, cmd), cmd) == JobsEffect(c.jobs, cmd);
    assert CatalogEffect(CatalogEffect(c.catalog, cmd), cmd) == CatalogEffect(c.catalog, cmd);
    assert ConfigEffect(ConfigEffect(c.config, cmd), cmd) == ConfigEffect(c.config, cmd);
  }

  /** Applying a list of commands a second time changes nothing. */
  lemma {:induction false} ReplayTwice(c: Caches, w: seq<Command>)
    ensures Replay(Replay(c, w), w) == Replay(c, w)
  {
    if w != [] {
      hide Effect;
      var n := |w| - 1;
      var front, cmd := w[..n], w[n];
      var before := Replay(c, front);
      ReplayTwice(c, front);
      ApplyTwice(before, cmd);
      LaterWins(Effect(before, cmd), before, front, cmd);
    }
  }

  /** A state that already holds the first `m` commands may be fed again from any earlier point `i`. */
  lemma OverlapIsHarmless(c: Caches, w: seq<Command>, i: nat, m: nat)
    requires i <= m <= |w|
    ensures Replay(Replay(c, w[..m]), w[i..]) == Replay(c, w)
  {
    var seen, rest := w[i..m], w[m..];
    assert w[..m] == w[..i] + seen && w[i..] == seen + rest && w == w[..m] + rest;
    ReplayConcat(c, w[..i], seen);
    ReplayTwice(Replay(c, w[..i]), seen);
    ReplayConcat(Replay(c, w[..m]), seen, rest);
    ReplayConcat(c, w[..m], rest);
  }

  // ---------------------------------------------------------------------------------
  // What the replayed state is: the last write of each key
  // ---------------------------------------------------------------------------------

  predicate WritesConfig(cmd: Command, k: string) {
    (cmd.ConfigSet? || cmd.ConfigDelete?) && cmd.key == k
  }

  predicate WritesCatalog(cmd: Command, k: string) {
    || (cmd.CatalogUpdate? && CacheKey(cmd.entry.topicId, cmd.entry.datasetId) == k)
    || (cmd.CatalogDelete? && CacheKey(cmd.topicId, cmd.datasetId) == k)
  }

  predicate PutsJob(cmd: Command, id: string) {
    (cmd.JobCreate? || cmd.JobUpdate?) && cmd.job.jobId == id
  }

  predicate AssignsJob(cmd: Command, id: string) {
    cmd.JobAssign? && cmd.jobId == id
  }

  lemma {:induction false} LastConfigWrite(c: Caches, w: seq<Command>, k: string, p: nat)
    requires p < |w| && WritesConfig(w[p], k) && forall m :: p < m < |w| ==> !WritesConfig(w[m], k)
    ensures At(Replay(c, w).config, k) == if w[p].ConfigSet? then Present(w[p].value) else Absent
  {
    if p < |w| - 1 {
      LastConfigWrite(c, w[..|w| - 1], k, p);
    }
  }

  lemma {:induction false} LastCatalogWrite(c: Caches, w: seq<Command>, k: string, p: nat)
    requires p < |w| && WritesCatalog(w[p], k) && forall m :: p < m < |w| ==> !WritesCatalog(w[m], k)
    ensures At(Replay(c, w).catalog, k) == if w[p].CatalogUpdate? then Present(w[p].entry) else Absent
  {
    if p < |w| - 1 {
      LastCatalogWrite(c, w[..|w| - 1], k, p);
    }
  }

  // ---------------------------------------------------------------------------------
  // Which datasets share a catalog entry
  // ---------------------------------------------------------------------------------

  /** The topic `t` goes on where the topic `u` ends, and the dataset `e` makes up for it. */
  ghost predicate Shifted(t: string, d: string, u: string, e: string) {
    exists x: string :: t == u + "/" + x && e == x + "/" + d
  }

  lemma ShiftedShares(t: string, d: string, u: string, e: string)
    requires Shifted(t, d, u, e)
    ensures CacheKey(t, d) == CacheKey(u, e)
  {
    var x :| t == u + "/" + x && e == x + "/" + d;
    assert CacheKey(t, d) == u + "/" + x + "/" + d == CacheKey(u, e);
  }

  lemma LongerTopicShifted(t: string, d: string, u: string, e: string)
    requires CacheKey(t, d) == CacheKey(u, e) && |t| >= |u|
    ensures (t == u && d == e) || Shifted(t, d, u, e)
  {
    var key, n := CacheKey(t, d), |u|;
    assert key[..n] == u == t[..n] && key[n] == '/' && key[n + 1..] == e;
    assert key[|t|] == '/' && key[|t| + 1..] == d && key[..|t|] == t;
    if |t| > n {
      var x := t[n + 1..];
      assert t[n] == key[n];
      assert t == u + "/" + x;
      assert e == key[n + 1..|t|] + key[|t|..] && key[n + 1..|t|] == x && key[|t|..] == "/" + d;
      assert e == x + "/" + d;
    }
  }

  /** Two datasets share a key exactly if they are the same or a '/' in the longer topic can be read either way. */
  lemma SameKeyIff(t: string, d: string, u: string, e: string)
    ensures CacheKey(t, d) == CacheKey(u, e) <==> (t == u && d == e) || Shifted(t, d, u, e) || Shifted(u, e, t, d)
  {
    if CacheKey(t, d) == CacheKey(u, e) {
      if |t| >= |u| {
        LongerTopicShifted(t, d, u, e);
      } else {
        LongerTopicShifted(u, e, t, d);
      }
    } else if Shifted(t, d, u, e) {
      ShiftedShares(t, d, u, e);
    } else if Shifted(u, e, t, d) {
      ShiftedShares(u, e, t, d);
    }
  }

  type Dataset = (string, string)

  ghost function KeyOf(p: Dataset): string {
    CacheKey(p.0, p.1)
  }

  /** The catalog as it is meant: one entry for each topic and dataset. */
  ghost function ByDataset(w: seq<Command>): map<Dataset, CatalogEntry> {
    if w == [] then map[] else
    var before := ByDataset(w[..|w| - 1]);
    match w[|w| - 1]
    case CatalogUpdate(e) => before[(e.topicId, e.datasetId) := e]
    case CatalogDelete(t, d) => before - {(t, d)}
    case _ => before
  }

  ghost predicate Names(cmd: Command, p: Dataset) {
    || (cmd.CatalogUpdate? && (cmd.entry.topicId, cmd.entry.datasetId) == p)
    || (cmd.CatalogDelete? && (cmd.topicId, cmd.datasetId) == p)
  }

  /** All datasets that the log names are in `known`. */
  ghost predicate Within(w: seq<Command>, known: set<Dataset>) {
    forall cmd, p :: cmd in w && Names(cmd, p) ==> p in known
  }

  ghost predicate Confusable(p: Dataset, q: Dataset) {
    Shifted(p.0, p.1, q.0, q.1) || Shifted(q.0, q.1, p.0, p.1)
  }

  ghost predicate NoneConfused(known: set<Dataset>) {
    forall p, q :: p in known && q in known && p != q ==> !Confusable(p, q)
  }

  ghost predicate Separates(w: seq<Command>, known: set<Dataset>) {
    forall p :: p in known ==> At(Replay(NO_CACHES, w).catalog, KeyOf(p)) == At(ByDataset(w), p)
  }

  lemma {:induction false} UnconfusedIsSeparate(w: seq<Command>, known: set<Dataset>)
    requires Within(w, known) && NoneConfused(known)
    ensures Separates(w, known)
  {
    hide CacheKey, Shifted;
    if w != [] {
      var front, cmd := w[..|w| - 1], w[|w| - 1];
      UnconfusedIsSeparate(front, known);
      forall p | p in known ensures At(Replay(NO_CACHES, w).catalog, KeyOf(p)) == At(ByDataset(w), p) {
        if cmd.CatalogUpdate? || cmd.CatalogDelete? {
          var q := if cmd.CatalogUpdate? then (cmd.entry.topicId, cmd.entry.datasetId)
                   else (cmd.topicId, cmd.datasetId);
          assert Names(cmd, q);
          SameKey(known, p, q);
        }
      }
    }
  }

  lemma SameKey(known: set<Dataset>, p: Dataset, q: Dataset)
    requires NoneConfused(known) && p in known && q in known
    ensures KeyOf(p) == KeyOf(q) <==> p == q
  {
    SameKeyIff(p.0, p.1, q.0, q.1);
  }

  /**
   The cache holds one entry for each dataset, in every log over some set of datasets, exactly
   when no two of them can be confused.
   */
  lemma CatalogSeparatesIff(known: set<Dataset>)
    ensures (forall w :: Within(w, known) ==> Separates(w, known)) <==> NoneConfused(known)
  {
    if NoneConfused(known) {
      forall w | Within(w, known) ensures Separates(w, known) {
        UnconfusedIsSeparate(w, known);
      }
    } else {
      var p, q :| p in known && q in known && p != q && Confusable(p, q);
      SameKeyIff(p.0, p.1, q.0, q.1);
      var e := CatalogEntry(p.0, p.1, "", 0, 0, "", 0);
      OneUpdate(known, e, p, q);
    }
  }

  lemma OneUpdate(known: set<Dataset>, e: CatalogEntry, p: Dataset, q: Dataset)
    requires p in known && q in known && p != q && KeyOf(p) == KeyOf(q) && (e.topicId, e.datasetId) == p
    ensures Within([CatalogUpdate(e)], known) && !Separates([CatalogUpdate(e)], known)
  {
    hide CacheKey;
    var w := [CatalogUpdate(e)];
    assert w[..0] == [];
    assert Replay(NO_CACHES, w).catalog == map[KeyOf(p) := e];
    assert ByDataset(w) == map[p := e];
    assert At(Replay(NO_CACHES, w).catalog, KeyOf(q)) != At(ByDataset(w), q);
  }

  /** Topics without a '/' cannot be confused. */
  lemma PlainTopicsAreNotConfused(known: set<Dataset>)
    requires forall p :: p in known ==> '/' !in p.0
    ensures NoneConfused(known)
  {
    forall p, q | p in known && q in known && p != q ensures !Confusable(p, q) {
      NotShifted(p, q);
      NotShifted(q, p);
    }
  }

  lemma NotShifted(p: Dataset, q: Dataset)
    requires '/' !in p.0
    ensures !Shifted(p.0, p.1, q.0, q.1)
  {
    forall x: string ensures p.0 != q.0 + "/" + x {
      assert (q.0 + "/" + x)[|q.0|] == '/';
    }
  }

  ghost predicate LastPut(w: seq<Command>, id: string, p: nat) {
    p < |w| && PutsJob(w[p], id) && forall m :: p < m < |w| ==> !PutsJob(w[m], id)
  }

  /** A job is what was last put for it; assignments since touch only its node and status. */
  lemma {:induction false} LastJobPut(c: Caches, w: seq<Command>, id: string, p: nat)
    requires LastPut(w, id, p)
    ensures id in Replay(c, w).jobs
    ensures var job, put := Replay(c, w).jobs[id], w[p].job;
            && job == put.(assignedNode := job.assignedNode, status := job.status)
            && ((forall m :: p < m < |w| ==> !AssignsJob(w[m], id)) ==> job == put)
  {
    if p < |w| - 1 {
      LastJobPut(c, w[..|w| - 1], id, p);
    }
  }

  /** ... and the last assignment since decides both. */
  lemma {:induction false} LastJobAssign(c: Caches, w: seq<Command>, id: string, p: nat, q: nat)
    requires LastPut(w, id, p) && p < q < |w| && AssignsJob(w[q], id)
    requires forall m :: q < m < |w| ==> !AssignsJob(w[m], id)
    ensures id in Replay(c, w).jobs
    ensures Replay(c, w).jobs[id].assignedNode == w[q].assignedNode && Replay(c, w).jobs[id].status == "assigned"
  {
    var front := w[..|w| - 1];
    if q < |w| - 1 {
      LastJobAssign(c, front, id, p, q);
    } else {
      LastJobPut(c, front, id, p);
    }
  }

  /** A job nobody put does not exist, whatever was assigned. */
  lemma {:induction false} UnknownJob(w: seq<Command>, id: string)
    requires forall m :: 0 <= m < |w| ==> !PutsJob(w[m], id)
    ensures id !in Replay(NO_CACHES, w).jobs
  {
    if w != [] {
      UnknownJob(w[..|w| - 1], id);
    }
  }
}
