/**
 The state machine together with its tables: the command handlers and `Restore` as they update
 both (internal/cluster/fsm.go, internal/cluster/storage.go), and what stays true between the
 caches and the rows over every history, restores from other nodes' snapshots included.
 */
module FsmStorage {
  import opened Common
  import opened Fsm

  // ---------------------------------------------------------------------------------
  // Table updates
  // ---------------------------------------------------------------------------------

  type CatalogTable = map<(string, string), CatalogEntry>

  function RowKey(e: CatalogEntry): (string, string) {
    (e.topicId, e.datasetId)
  }

  /** The upsert of a job leaves job_type and cel_expression of an existing row alone. */
  function JobRow(rows: map<string, ReplicatedJob>, j: ReplicatedJob): ReplicatedJob {
    if j.jobId in rows
    then j.(jobType := rows[j.jobId].jobType, celExpression := rows[j.jobId].celExpression)
    else j
  }

  function NextConfigRow(rows: map<string, ConfigRow>, k: string, v: seq<bv8>): ConfigRow {
    ConfigRow(v, if k in rows then rows[k].version + 1 else 1)
  }

  function TableEffect(t: Tables, c: Caches, cmd: Command): Tables {
    match cmd
    case CatalogUpdate(e) => t.(catalog := t.catalog[RowKey(e) := e])
    case JobCreate(j) => t.(jobs := t.jobs[j.jobId := JobRow(t.jobs, j)])
    case JobUpdate(j) => t.(jobs := t.jobs[j.jobId := JobRow(t.jobs, j)])
    case JobAssign(id, n) =>
      if id in c.jobs then
        var j := Assign(c.jobs[id], n);
        t.(jobs := t.jobs[j.jobId := JobRow(t.jobs, j)])
      else t
    case ConfigSet(k, v) => t.(config := t.config[k := NextConfigRow(t.config, k, v)])
    case JoinTokenCreate(tok) =>
      if tok.token in t.joinTokens then t else t.(joinTokens := t.joinTokens[tok.token := tok])
    case _ => t
  }

  predicate Succeeds(t: Tables, cmd: Command) {
    !cmd.Rejected? && !(cmd.JoinTokenCreate? && cmd.token.token in t.joinTokens)
  }

  /** Snapshots are keyed the way the handlers key the caches. */
  ghost predicate WellKeyed(c: Caches) {
    && (forall k :: k in c.catalog ==> CacheKey(c.catalog[k].topicId, c.catalog[k].datasetId) == k)
    && (forall id :: id in c.jobs ==> c.jobs[id].jobId == id)
  }

  ghost predicate Covers(snap: map<string, CatalogEntry>, p: (string, string)) {
    CacheKey(p.0, p.1) in snap && RowKey(snap[CacheKey(p.0, p.1)]) == p
  }

  ghost function RestoredCatalog(rows: CatalogTable, snap: map<string, CatalogEntry>): CatalogTable {
    map p | p in rows.Keys + (set k | k in snap :: RowKey(snap[k])) && (p in rows || Covers(snap, p)) ::
      if Covers(snap, p) then snap[CacheKey(p.0, p.1)] else rows[p]
  }

  ghost function RestoredJobs(rows: map<string, ReplicatedJob>, snap: map<string, ReplicatedJob>)
    : map<string, ReplicatedJob>
  {
    map id | id in rows.Keys + snap.Keys ::
      if id in snap then (if id in rows
                          then snap[id].(jobType := rows[id].jobType, celExpression := rows[id].celExpression)
                          else snap[id])
      else rows[id]
  }

  ghost function RestoredConfig(rows: map<string, ConfigRow>, snap: map<string, seq<bv8>>): map<string, ConfigRow> {
    map k | k in rows.Keys + snap.Keys :: if k in snap then NextConfigRow(rows, k, snap[k]) else rows[k]
  }

  ghost function RestoredTables(t: Tables, snap: Caches): Tables {
    t.(catalog := RestoredCatalog(t.catalog, snap.catalog),
       jobs := RestoredJobs(t.jobs, snap.jobs),
       config := RestoredConfig(t.config, snap.config))
  }

  // ---------------------------------------------------------------------------------
  // The handlers
  // ---------------------------------------------------------------------------------

  class Storage {
    var tables: Tables

    constructor ()
      ensures tables == NO_TABLES
    {
      tables := NO_TABLES;
    }

    method StoreCatalogEntry(e: CatalogEntry)
      modifies this
      ensures tables == old(tables).(catalog := old(tables).catalog[RowKey(e) := e])
    {
      tables := tables.(catalog := tables.catalog[RowKey(e) := e]);
    }

    method StoreJob(j: ReplicatedJob)
      modifies this
      ensures tables == old(tables).(jobs := old(tables).jobs[j.jobId := JobRow(old(tables).jobs, j)])
    {
      if j.jobId in tables.jobs {
        var row := tables.jobs[j.jobId];
        tables := tables.(jobs := tables.jobs[j.jobId := ReplicatedJob(
          j.jobId, row.jobType, j.assignedNode, j.status, j.priority, row.celExpression, j.metadata)]);
      } else {
        tables := tables.(jobs := tables.jobs[j.jobId := j]);
      }
    }

    method StoreConfig(k: string, v: seq<bv8>)
      modifies this
      ensures tables == old(tables).(config := old(tables).config[k := NextConfigRow(old(tables).config, k, v)])
    {
      tables := tables.(config := tables.config[k := NextConfigRow(tables.config, k, v)]);
    }

    method StoreJoinToken(tok: JoinToken) returns (ok: bool)
      modifies this
      ensures ok == (tok.token !in old(tables).joinTokens)
      ensures tables == if ok then old(tables).(joinTokens := old(tables).joinTokens[tok.token := tok]) else old(tables)
    {
      ok := tok.token !in tables.joinTokens;
      if ok {
        tables := tables.(joinTokens := tables.joinTokens[tok.token := tok]);
      }
    }
  }

  class StateMachine {
    const storage: Storage
    var catalog: map<string, CatalogEntry>
    var jobs: map<string, ReplicatedJob>
    var config: map<string, seq<bv8>>

    function Cached(): Caches
      reads this
    {
      Caches(catalog, jobs, config)
    }

    constructor (s: Storage)
      ensures storage == s && Cached() == NO_CACHES
    {
      storage := s;
      catalog, jobs, config := map[], map[], map[];
    }

    method Apply(cmd: Command) returns (ok: bool)
      modifies this, storage
      ensures ok == Succeeds(old(storage.tables), cmd)
      ensures !ok <==> cmd.Rejected? || (cmd.JoinTokenCreate? && cmd.token.token in old(storage.tables).joinTokens)
      ensures Cached() == Effect(old(Cached()), cmd)
      ensures storage.tables == TableEffect(old(storage.tables), old(Cached()), cmd)
    {
      ok := true;
      match cmd
      case CatalogUpdate(e) =>
        storage.StoreCatalogEntry(e);
        catalog := catalog[CacheKey(e.topicId, e.datasetId) := e];
      case CatalogDelete(t, d) =>
        catalog := catalog - {CacheKey(t, d)};
      case JobCreate(j) =>
        storage.StoreJob(j);
        jobs := jobs[j.jobId := j];
      case JobUpdate(j) =>
        storage.StoreJob(j);
        jobs := jobs[j.jobId := j];
      case JobAssign(id, n) =>
        if id in jobs {
          jobs := jobs[id := Assign(jobs[id], n)];
          storage.StoreJob(jobs[id]);
        }
      case ConfigSet(k, v) =>
        storage.StoreConfig(k, v);
        config := config[k := v];
      case ConfigDelete(k) =>
        config := config - {k};
      case JoinTokenCreate(tok) =>
        ok := storage.StoreJoinToken(tok);
      case Rejected =>
        ok := false;
    }

    /** The snapshot of a machine that agrees with its tables can be restored anywhere. */
    method Snapshot() returns (snap: Caches)
      ensures snap == Cached()
      ensures Coherent(State(Cached(), storage.tables)) ==> WellKeyed(snap)
    {
      snap := Caches(catalog, jobs, config);
    }

    /** The three loops visit the maps in an arbitrary order. */
    method Restore(snap: Caches)
      requires WellKeyed(snap)
      modifies this, storage
      ensures Cached() == snap
      ensures storage.tables == RestoredTables(old(storage.tables), snap)
    {
      catalog, jobs, config := snap.catalog, snap.jobs, snap.config;
      RestoreCatalogRows();
      RestoreJobRows();
      RestoreConfigRows();
    }

    method RestoreCatalogRows()
      requires WellKeyed(Cached())
      modifies storage
      ensures storage.tables == old(storage.tables).(catalog := RestoredCatalog(old(storage.tables).catalog, catalog))
    {
      hide RestoredCatalog, CacheKey;
      ghost var rows := storage.tables.catalog;
      ghost var done: map<string, CatalogEntry> := map[];
      var todo := catalog.Keys;
      NothingRestored(rows);
      while todo != {}
        invariant todo <= catalog.Keys && done == map k | k in catalog && k !in todo :: catalog[k]
        invariant storage.tables == old(storage.tables).(catalog := RestoredCatalog(rows, done))
      {
        var k :| k in todo;
        RestoreOneEntry(rows, done, k, catalog[k]);
        storage.StoreCatalogEntry(catalog[k]);
        todo := todo - {k};
        done := done[k := catalog[k]];
      }
      assert done == catalog;
    }

    method RestoreJobRows()
      requires WellKeyed(Cached())
      modifies storage
      ensures storage.tables == old(storage.tables).(jobs := RestoredJobs(old(storage.tables).jobs, jobs))
    {
      ghost var rows := storage.tables.jobs;
      ghost var done: map<string, ReplicatedJob> := map[];
      var todo := jobs.Keys;
      assert RestoredJobs(rows, done) == rows;
      while todo != {}
        invariant todo <= jobs.Keys && done == map id | id in jobs && id !in todo :: jobs[id]
        invariant storage.tables == old(storage.tables).(jobs := RestoredJobs(rows, done))
      {
        var id :| id in todo;
        RestoreOneJob(rows, done, id, jobs[id]);
        storage.StoreJob(jobs[id]);
        todo := todo - {id};
        done := done[id := jobs[id]];
      }
      assert done == jobs;
    }

    method RestoreConfigRows()
      modifies storage
      ensures storage.tables == old(storage.tables).(config := RestoredConfig(old(storage.tables).config, config))
    {
      ghost var rows := storage.tables.config;
      ghost var done: map<string, seq<bv8>> := map[];
      var todo := config.Keys;
      assert RestoredConfig(rows, done) == rows;
      while todo != {}
        invariant todo <= config.Keys && done == map k | k in config && k !in todo :: config[k]
        invariant storage.tables == old(storage.tables).(config := RestoredConfig(rows, done))
      {
        var k :| k in todo;
        RestoreOneValue(rows, done, k, config[k]);
        storage.StoreConfig(k, config[k]);
        todo := todo - {k};
        done := done[k := config[k]];
      }
      assert done == config;
    }
  }

  lemma RestoredCatalogRow(rows: CatalogTable, snap: map<string, CatalogEntry>, p: (string, string))
    ensures p in RestoredCatalog(rows, snap) <==> p in rows || Covers(snap, p)
    ensures Covers(snap, p) ==> RestoredCatalog(rows, snap)[p] == snap[CacheKey(p.0, p.1)]
    ensures p in rows && !Covers(snap, p) ==> RestoredCatalog(rows, snap)[p] == rows[p]
  {
    if Covers(snap, p) {
      var k := CacheKey(p.0, p.1);
      assert k in snap && RowKey(snap[k]) == p;
    }
  }

  lemma NothingRestored(rows: CatalogTable)
    ensures RestoredCatalog(rows, map[]) == rows
  {
  }

  lemma RestoreOneEntry(rows: CatalogTable, done: map<string, CatalogEntry>, k: string, e: CatalogEntry)
    requires k !in done && CacheKey(e.topicId, e.datasetId) == k
    ensures RestoredCatalog(rows, done[k := e]) == RestoredCatalog(rows, done)[RowKey(e) := e]
  {
    hide RestoredCatalog, CacheKey;
    var x, y := RestoredCatalog(rows, done[k := e]), RestoredCatalog(rows, done)[RowKey(e) := e];
    forall p: (string, string) ensures (p in x <==> p in y) && (p in x ==> x[p] == y[p]) {
      RestoredCatalogRow(rows, done, p);
      RestoredCatalogRow(rows, done[k := e], p);
    }
  }

  lemma RestoreOneJob(rows: map<string, ReplicatedJob>, done: map<string, ReplicatedJob>, id: string, j: ReplicatedJob)
    requires id !in done && j.jobId == id
    ensures var r := RestoredJobs(rows, done);
            RestoredJobs(rows, done[id := j]) == r[id := JobRow(r, j)]
  {
  }

  lemma RestoreOneValue(rows: map<string, ConfigRow>, done: map<string, seq<bv8>>, k: string, v: seq<bv8>)
    requires k !in done
    ensures var r := RestoredConfig(rows, done);
            RestoredConfig(rows, done[k := v]) == r[k := NextConfigRow(r, k, v)]
  {
  }

  // ---------------------------------------------------------------------------------
  // Histories
  // ---------------------------------------------------------------------------------

  datatype State = State(caches: Caches, tables: Tables)

  /** A command, or a restore from the snapshot some node took after its own history. */
  datatype Event = Applied(cmd: Command) | RestoredFrom(history: seq<Event>)

  ghost function After(h: seq<Event>): State {
    if h == [] then State(NO_CACHES, NO_TABLES) else
    var s := After(h[..|h| - 1]);
    match h[|h| - 1]
    case Applied(cmd) => State(Effect(s.caches, cmd), TableEffect(s.tables, s.caches, cmd))
    case RestoredFrom(other) =>
      var snap := After(other).caches;
      State(snap, RestoredTables(s.tables, snap))
  }

  ghost predicate JobAgrees(cached: ReplicatedJob, row: ReplicatedJob) {
    cached == row.(jobType := cached.jobType, celExpression := cached.celExpression)
  }

  /** Each cached value is the stored one; a cached job may differ only in job_type and cel_expression. */
  ghost predicate Coherent(s: State) {
    && WellKeyed(s.caches)
    && (forall k :: k in s.caches.catalog ==>
          var e := s.caches.catalog[k]; RowKey(e) in s.tables.catalog && s.tables.catalog[RowKey(e)] == e)
    && (forall id :: id in s.caches.jobs ==>
          id in s.tables.jobs && JobAgrees(s.caches.jobs[id], s.tables.jobs[id]))
    && (forall k :: k in s.caches.config ==>
          k in s.tables.config && s.tables.config[k].value == s.caches.config[k])
  }

  lemma ApplyKeepsCoherent(s: State, cmd: Command)
    requires Coherent(s)
    ensures Coherent(State(Effect(s.caches, cmd), TableEffect(s.tables, s.caches, cmd)))
  {
  }

  lemma RestoreIsCoherent(t: Tables, snap: Caches)
    requires WellKeyed(snap)
    ensures Coherent(State(snap, RestoredTables(t, snap)))
  {
    forall k | k in snap.catalog ensures Covers(snap.catalog, RowKey(snap.catalog[k])) {
    }
  }

  lemma {:induction false} HistoriesAreCoherent(h: seq<Event>)
    ensures Coherent(After(h))
  {
    if h != [] {
      var n := |h| - 1;
      HistoriesAreCoherent(h[..n]);
      match h[n]
      case Applied(cmd) =>
        ApplyKeepsCoherent(After(h[..n]), cmd);
      case RestoredFrom(other) =>
        HistoriesAreCoherent(other);
        RestoreIsCoherent(After(h[..n]).tables, After(other).caches);
    }
  }

  /** No row is ever dropped, and a job row keeps the job_type and cel_expression it was created with. */
  ghost predicate RowsKept(t: Tables, t': Tables) {
    && t.catalog.Keys <= t'.catalog.Keys && t.config.Keys <= t'.config.Keys
    && (forall id :: id in t.jobs ==>
          && id in t'.jobs && t'.jobs[id].jobType == t.jobs[id].jobType
          && t'.jobs[id].celExpression == t.jobs[id].celExpression)
    && (forall k :: k in t.config ==> t.config[k].version <= t'.config[k].version)
  }

  lemma {:induction false} RowsPersist(h: seq<Event>, i: nat)
    requires i <= |h|
    ensures RowsKept(After(h[..i]).tables, After(h).tables)
  {
    if i == |h| {
      assert h[..i] == h;
    } else {
      var front := h[..|h| - 1];
      assert front[..i] == h[..i];
      RowsPersist(front, i);
      if h[|h| - 1].Applied? {
        StepKeepsRows(After(front), h[|h| - 1].cmd);
      }
    }
  }

  lemma StepKeepsRows(s: State, cmd: Command)
    ensures RowsKept(s.tables, TableEffect(s.tables, s.caches, cmd))
  {
  }

  // ---------------------------------------------------------------------------------
  // When a cached job is its stored row
  // ---------------------------------------------------------------------------------

  /** The columns that an update of a row leaves alone. */
  function Spec(j: ReplicatedJob): (string, string) {
    (j.jobType, j.celExpression)
  }

  ghost predicate Puts(e: Event, id: string) {
    e.Applied? && PutsJob(e.cmd, id)
  }

  /** Job type and CEL expression of job `id` as last put by the node, or by the one whose snapshot it restored last. */
  ghost function LastSpec(h: seq<Event>, id: string): Option<(string, string)> {
    if h == [] then None else
    var e := h[|h| - 1];
    if Puts(e, id) then Some(Spec(e.cmd.job))
    else if e.RestoredFrom? then LastSpec(e.history, id)
    else LastSpec(h[..|h| - 1], id)
  }

  /** The same as first put by the node, or as found in the first snapshot that had the job. */
  ghost function FirstSpec(h: seq<Event>, id: string): Option<(string, string)> {
    if h == [] then None else
    var e, before := h[|h| - 1], FirstSpec(h[..|h| - 1], id);
    if before.Some? then before
    else if Puts(e, id) then Some(Spec(e.cmd.job))
    else if e.RestoredFrom? then LastSpec(e.history, id)
    else None
  }

  ghost function SpecOf(jobs: map<string, ReplicatedJob>, id: string): Option<(string, string)> {
    if id in jobs then Some(Spec(jobs[id])) else None
  }

  lemma {:induction false} CachedSpec(h: seq<Event>, id: string)
    ensures SpecOf(After(h).caches.jobs, id) == LastSpec(h, id)
  {
    if h != [] {
      match h[|h| - 1]
      case Applied(cmd) =>
        CachedSpec(h[..|h| - 1], id);
      case RestoredFrom(other) =>
        CachedSpec(other, id);
    }
  }

  /** A command gives a row its job type and CEL expression only if it puts a job that has no row yet. */
  lemma StepSpec(s: State, cmd: Command, id: string)
    requires Coherent(s)
    ensures SpecOf(TableEffect(s.tables, s.caches, cmd).jobs, id) ==
            if id !in s.tables.jobs && PutsJob(cmd, id) then Some(Spec(cmd.job)) else SpecOf(s.tables.jobs, id)
  {
  }

  lemma {:induction false} StoredSpec(h: seq<Event>, id: string)
    ensures SpecOf(After(h).tables.jobs, id) == FirstSpec(h, id)
  {
    if h != [] {
      hide Coherent, TableEffect, Effect;
      var front := h[..|h| - 1];
      StoredSpec(front, id);
      match h[|h| - 1]
      case Applied(cmd) =>
        HistoriesAreCoherent(front);
        StepSpec(After(front), cmd, id);
      case RestoredFrom(other) =>
        CachedSpec(other, id);
    }
  }

  /** After every history, a cached job is its stored row exactly when it was last put as it was first put. */
  lemma JobRowIff(h: seq<Event>, id: string)
    requires id in After(h).caches.jobs
    ensures id in After(h).tables.jobs
    ensures After(h).caches.jobs[id] == After(h).tables.jobs[id] <==> LastSpec(h, id) == FirstSpec(h, id)
  {
    HistoriesAreCoherent(h);
    CachedSpec(h, id);
    StoredSpec(h, id);
  }

  /** A job that is created and then updated to another type is stored with the old one. */
  lemma StoredTypeLags(j: ReplicatedJob, jobType: string)
    requires jobType != j.jobType
    ensures var s := After([Applied(JobCreate(j)), Applied(JobUpdate(j.(jobType := jobType)))]);
            && s.caches.jobs == map[j.jobId := j.(jobType := jobType)]
            && s.tables.jobs == map[j.jobId := j]
  {
    var create, update := Applied(JobCreate(j)), Applied(JobUpdate(j.(jobType := jobType)));
    assert [create, update][..1] == [create] && [create][..0] == [];
    assert After([]) == State(NO_CACHES, NO_TABLES);
    assert After([create]).caches.jobs == map[j.jobId := j];
    assert After([create]).tables.jobs == map[j.jobId := j];
  }

  // ---------------------------------------------------------------------------------
  // Join tokens and config versions
  // ---------------------------------------------------------------------------------

  ghost predicate CreatesToken(e: Event, token: string) {
    e.Applied? && e.cmd.JoinTokenCreate? && e.cmd.token.token == token
  }

  /** Where join token `token` was first created, if it was. */
  ghost function FirstToken(h: seq<Event>, token: string): Option<JoinToken> {
    if h == [] then None
    else if CreatesToken(h[0], token) then Some(h[0].cmd.token)
    else FirstToken(h[1..], token)
  }

  lemma {:induction false} FirstTokenSnoc(h: seq<Event>, e: Event, token: string)
    ensures FirstToken(h + [e], token) ==
            if FirstToken(h, token).Some? then FirstToken(h, token)
            else if CreatesToken(e, token) then Some(e.cmd.token) else None
  {
    if h == [] {
      assert (h + [e])[1..] == [];
    } else {
      assert (h + [e])[1..] == h[1..] + [e];
      FirstTokenSnoc(h[1..], e, token);
    }
  }

  ghost function TokenOf(t: Tables, token: string): Option<JoinToken> {
    if token in t.joinTokens then Some(t.joinTokens[token]) else None
  }

  lemma TokenStep(s: State, cmd: Command, token: string)
    ensures TokenOf(TableEffect(s.tables, s.caches, cmd), token) ==
            if token !in s.tables.joinTokens && CreatesToken(Applied(cmd), token) then Some(cmd.token)
            else TokenOf(s.tables, token)
  {
  }

  /** The table holds each token ever created, as it was first created, and nothing else. */
  lemma {:induction false} TokensAreKept(h: seq<Event>, token: string)
    ensures TokenOf(After(h).tables, token) == FirstToken(h, token)
  {
    if h != [] {
      hide Effect, TableEffect, RestoredCatalog, RestoredJobs, RestoredConfig;
      var front, e := h[..|h| - 1], h[|h| - 1];
      TokensAreKept(front, token);
      assert h == front + [e];
      FirstTokenSnoc(front, e, token);
      if e.Applied? {
        TokenStep(After(front), e.cmd, token);
      }
    }
  }

  /** Creating a token succeeds exactly if none of that name was created before, restores or not. */
  lemma TokensAreCreatedOnce(h: seq<Event>, t: JoinToken)
    ensures Succeeds(After(h).tables, JoinTokenCreate(t)) <==> forall e :: e in h ==> !CreatesToken(e, t.token)
  {
    TokensAreKept(h, t.token);
    FirstTokenIff(h, t.token);
  }

  lemma {:induction false} FirstTokenIff(h: seq<Event>, token: string)
    ensures FirstToken(h, token) == None <==> forall e :: e in h ==> !CreatesToken(e, token)
  {
    if h != [] {
      FirstTokenIff(h[1..], token);
      assert h == [h[0]] + h[1..];
    }
  }

  /** How often config key `k` was set, or restored from a snapshot that has it. */
  ghost function ConfigWrites(h: seq<Event>, k: string): nat {
    if h == [] then 0 else
    var e := h[|h| - 1];
    ConfigWrites(h[..|h| - 1], k) +
    (if e.Applied? && e.cmd.ConfigSet? && e.cmd.key == k then 1
     else if e.RestoredFrom? && k in After(e.history).caches.config then 1
     else 0)
  }

  /** A config row is there once its key was written, and its version is the number of writes. */
  lemma {:induction false} VersionCountsWrites(h: seq<Event>, k: string)
    ensures k in After(h).tables.config <==> ConfigWrites(h, k) > 0
    ensures k in After(h).tables.config ==> After(h).tables.config[k].version == ConfigWrites(h, k)
  {
    if h != [] {
      hide Effect, RestoredCatalog, RestoredJobs;
      VersionCountsWrites(h[..|h| - 1], k);
    }
  }
}
