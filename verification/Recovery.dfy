/**
 Snapshots and log compaction of a cluster node (internal/cluster/raft.go) over the log and
 snapshot tables (internal/cluster/storage.go).

 The node is a state machine over the points where another goroutine can get in between:
 `TakeSnapshot` reads the applied index, then copies the caches, then writes the snapshot, then
 deletes log rows; the apply loop hands a command to the state machine and only later publishes
 its index, and not at all when the command failed. Any number of `TakeSnapshot` calls may
 overlap. Entry `i` of the committed log has index `i + 1`.

 The bound of the compaction is a uint64 difference and can wrap around. What a wrapped bound does
 depends on the store: one that takes the statement literally deletes up to it, one that refuses
 values with the high bit set deletes nothing, and `TakeSnapshot` ignores that error. Both are
 covered.
 */
module Recovery {
  import opened Common
  import opened Fsm
  import opened Sequences

  /** uint64 subtraction. */
  function Sub64(a: nat, b: nat): (r: nat)
    requires a < TWO_64 && b < TWO_64
    ensures r < TWO_64 && (b <= a ==> r == a - b) && (a < b ==> r == a - b + TWO_64)
  {
    (a - b) % TWO_64
  }

  type LogTable = map<nat, Command>

  /** Delete every row whose index lies between the bounds, both included. */
  function DeleteRange(rows: LogTable, min: nat, max: nat): LogTable {
    map i | i in rows && !(min <= i <= max) :: rows[i]
  }

  const TWO_63: nat := 0x8000_0000_0000_0000

  /** The configured number of trailing entries, and whether the store refuses bounds of 2^63 and above. */
  datatype Setup = Setup(trailing: nat, refusesHighBit: bool) {
    predicate Valid() {
      trailing < TWO_64
    }

    /** The most trailing entries with which no compaction can do harm. */
    function Limit(): nat {
      if refusesHighBit then TWO_63 else 0
    }

    predicate Refuses(index: nat)
      requires Valid() && index < TWO_64
    {
      refusesHighBit && Sub64(index, trailing) >= TWO_63
    }
  }

  /** The compaction at the end of `TakeSnapshot`; an error of the store is ignored. */
  function Compact(rows: LogTable, index: nat, cfg: Setup): LogTable
    requires index < TWO_64 && cfg.Valid()
  {
    if cfg.Refuses(index) then rows else DeleteRange(rows, 0, Sub64(index, cfg.trailing))
  }

  datatype Snapshot = Snapshot(index: nat, data: Caches)

  /** Where one `TakeSnapshot` call has got to. */
  datatype Call =
    | Labelled(index: nat)
    | Copied(index: nat, data: Caches)
    | Saved(index: nat)

  datatype Node = Node(
    log: seq<Command>,         // every committed command
    rows: LogTable,            // the raft_log table
    fed: nat,                  // how many commands the state machine has been given
    caches: Caches,
    appliedIndex: nat,
    calls: map<nat, Call>,     // TakeSnapshot calls under way
    snapshots: set<Snapshot>)

  datatype Step =
    | Commit(cmd: Command)     // a command is stored in the log
    | Feed                     // the apply loop gives the next command to the state machine
    | Publish                  // ... and records its index
    | ReadIndex(call: nat)
    | CopyCaches(call: nat)
    | SaveSnapshot(call: nat)
    | CompactLog(call: nat)
    | DropSnapshot(s: Snapshot)  // retention, which keeps the highest indices

  const START := Node([], map[], 0, NO_CACHES, 0, map[], {})

  ghost predicate Enabled(n: Node, step: Step) {
    match step
    case Commit(_) => |n.log| + 1 < TWO_64
    case Feed => n.fed < |n.log|
    case Publish => true
    case ReadIndex(c) => c !in n.calls
    case CopyCaches(c) => c in n.calls && n.calls[c].Labelled?
    case SaveSnapshot(c) => c in n.calls && n.calls[c].Copied?
    case CompactLog(c) => c in n.calls && n.calls[c].Saved? && n.calls[c].index < TWO_64
    case DropSnapshot(s) => s in n.snapshots && exists t :: t in n.snapshots && t != s && s.index <= t.index
  }

  ghost function Next(n: Node, step: Step, cfg: Setup): Node
    requires Enabled(n, step) && cfg.Valid()
  {
    match step
    case Commit(cmd) => n.(log := n.log + [cmd], rows := n.rows[|n.log| + 1 := cmd])
    case Feed => n.(fed := n.fed + 1, caches := Effect(n.caches, n.log[n.fed]))
    case Publish => if n.fed > n.appliedIndex then n.(appliedIndex := n.fed) else n
    case ReadIndex(c) => n.(calls := n.calls[c := Labelled(n.appliedIndex)])
    case CopyCaches(c) => n.(calls := n.calls[c := Copied(n.calls[c].index, n.caches)])
    case SaveSnapshot(c) =>
      n.(snapshots := n.snapshots + {Snapshot(n.calls[c].index, n.calls[c].data)},
         calls := n.calls[c := Saved(n.calls[c].index)])
    case CompactLog(c) =>
      n.(rows := Compact(n.rows, n.calls[c].index, cfg), calls := n.calls - {c})
    case DropSnapshot(s) => n.(snapshots := n.snapshots - {s})
  }

  /** A compaction at this index does not wrap around, or is refused. */
  ghost predicate Harmless(index: nat, cfg: Setup)
    requires index < TWO_64 && cfg.Valid()
  {
    cfg.trailing <= index || cfg.Refuses(index)
  }

  ghost predicate Safe(n: Node, step: Step, cfg: Setup)
    requires Enabled(n, step) && cfg.Valid()
  {
    step.CompactLog? ==> Harmless(n.calls[step.call].index, cfg)
  }

  /** `run` holds the states passed through when `steps` are taken from the start. */
  ghost predicate IsRun(run: seq<Node>, steps: seq<Step>, cfg: Setup) {
    && cfg.Valid()
    && |run| == |steps| + 1 && run[0] == START
    && forall i :: 0 <= i < |steps| ==> Enabled(run[i], steps[i]) && run[i + 1] == Next(run[i], steps[i], cfg)
  }

  ghost predicate SafeRun(run: seq<Node>, steps: seq<Step>, cfg: Setup) {
    && IsRun(run, steps, cfg)
    && forall i :: 0 <= i < |steps| ==> Safe(run[i], steps[i], cfg)
  }

  // ---------------------------------------------------------------------------------
  // Recovery
  // ---------------------------------------------------------------------------------

  /** The retained commands with indices above `low`, up to `high`, in index order. */
  ghost function Entries(rows: LogTable, low: nat, high: nat): seq<Command> {
    if high <= low then []
    else Entries(rows, low, high - 1) + (if high in rows then [rows[high]] else [])
  }

  /** Restore a snapshot, then replay the retained entries above `from`. */
  ghost function Recover(n: Node, s: Snapshot, from: nat): Caches {
    Replay(s.data, Entries(n.rows, from, |n.log|))
  }

  ghost predicate Latest(n: Node, s: Snapshot) {
    s in n.snapshots && forall t :: t in n.snapshots ==> t.index <= s.index
  }

  // ---------------------------------------------------------------------------------
  // Invariant
  // ---------------------------------------------------------------------------------

  /** Exactly the rows above `gone` are left, and they are the log's. */
  ghost predicate Retains(n: Node, gone: nat) {
    && gone <= |n.log|
    && (forall i :: i in n.rows <==> gone < i <= |n.log|)
    && (forall i :: i in n.rows ==> n.rows[i] == n.log[i - 1])
  }

  /** `data` is the state after some prefix of the log that includes everything up to `index`. */
  ghost predicate Covered(n: Node, index: nat, data: Caches) {
    exists m: nat :: index <= m <= |n.log| && data == Replay(NO_CACHES, n.log[..m])
  }

  ghost predicate HasSnapshotFrom(n: Node, index: nat) {
    exists s :: s in n.snapshots && index <= s.index
  }

  ghost predicate CallOk(n: Node, c: Call) {
    && c.index <= n.fed
    && match c
       case Labelled(i) => true
       case Copied(i, data) => Covered(n, i, data)
       case Saved(i) => HasSnapshotFrom(n, i)
  }

  ghost predicate LogInv(n: Node, gone: nat) {
    && n.appliedIndex <= n.fed <= |n.log| < TWO_64
    && n.caches == Replay(NO_CACHES, n.log[..n.fed])
    && Retains(n, gone)
  }

  ghost predicate SnapshotInv(n: Node) {
    && (forall c :: c in n.calls ==> CallOk(n, n.calls[c]))
    && (forall s :: s in n.snapshots ==> Covered(n, s.index, s.data))
  }

  ghost predicate Inv(n: Node, gone: nat) {
    LogInv(n, gone) && SnapshotInv(n) && (gone > 0 ==> HasSnapshotFrom(n, gone))
  }

  lemma CoveredStays(n: Node, step: Step, cfg: Setup, index: nat, data: Caches)
    requires Enabled(n, step) && cfg.Valid() && Covered(n, index, data)
    ensures Covered(Next(n, step, cfg), index, data)
  {
    hide Replay;
    var m: nat :| index <= m <= |n.log| && data == Replay(NO_CACHES, n.log[..m]);
    assert Next(n, step, cfg).log[..m] == n.log[..m];
  }

  /** Dropping a superseded snapshot still leaves one at least as new. */
  lemma SnapshotStays(n: Node, step: Step, cfg: Setup, index: nat)
    requires Enabled(n, step) && cfg.Valid() && HasSnapshotFrom(n, index)
    ensures HasSnapshotFrom(Next(n, step, cfg), index)
  {
    var n' := Next(n, step, cfg);
    var u :| u in n.snapshots && index <= u.index;
    if step == DropSnapshot(u) {
      var t :| t in n.snapshots && t != u && u.index <= t.index;
      assert t in n'.snapshots;
    } else {
      assert u in n'.snapshots;
    }
  }

  /** Retention takes away one superseded snapshot, and recovery still has one at least as new as any there was. */
  lemma {:induction false} RetentionKeepsNewest(
    run: seq<Node>, steps: seq<Step>, cfg: Setup, i: nat, j: nat, index: nat)
    requires IsRun(run, steps, cfg) && i <= j <= |steps| && HasSnapshotFrom(run[i], index)
    ensures HasSnapshotFrom(run[j], index)
    ensures j < |steps| && steps[j].DropSnapshot? ==>
              run[j + 1] == run[j].(snapshots := run[j].snapshots - {steps[j].s})
  {
    hide Enabled, Next, HasSnapshotFrom;
    if i < j {
      RetentionKeepsNewest(run, steps, cfg, i, j - 1, index);
      SnapshotStays(run[j - 1], steps[j - 1], cfg, index);
    }
    if j < |steps| {
      DropsOne(run[j], steps[j], cfg);
    }
  }

  lemma DropsOne(n: Node, step: Step, cfg: Setup)
    requires Enabled(n, step) && cfg.Valid()
    ensures step.DropSnapshot? ==> Next(n, step, cfg) == n.(snapshots := n.snapshots - {step.s})
  {
  }

  lemma CallStays(n: Node, step: Step, cfg: Setup, c: Call)
    requires Enabled(n, step) && cfg.Valid() && CallOk(n, c)
    ensures CallOk(Next(n, step, cfg), c)
  {
    match c
    case Labelled(_) =>
    case Copied(i, data) => CoveredStays(n, step, cfg, i, data);
    case Saved(i) => SnapshotStays(n, step, cfg, i);
  }

  /** How far the log is gone after a compaction at `index`. */
  ghost function GoneAfter(gone: nat, index: nat, cfg: Setup): nat
    requires index < TWO_64 && cfg.Valid() && Harmless(index, cfg)
  {
    if cfg.Refuses(index) || index - cfg.trailing <= gone then gone else index - cfg.trailing
  }

  lemma StepKeepsLogInv(n: Node, step: Step, cfg: Setup, gone: nat)
    requires LogInv(n, gone) && Enabled(n, step) && cfg.Valid() && Safe(n, step, cfg)
    requires step.CompactLog? ==> n.calls[step.call].index <= n.fed
    ensures var gone' := if step.CompactLog? then GoneAfter(gone, n.calls[step.call].index, cfg) else gone;
            LogInv(Next(n, step, cfg), gone')
  {
    hide Effect;
    var n' := Next(n, step, cfg);
    if step.Commit? {
      assert n'.log[..n.fed] == n.log[..n.fed];
    } else if step.Feed? {
      assert n'.log[..n'.fed][..n.fed] == n.log[..n.fed];
    }
  }

  lemma StepKeepsSnapshotInv(n: Node, step: Step, cfg: Setup)
    requires n.appliedIndex <= n.fed <= |n.log| && n.caches == Replay(NO_CACHES, n.log[..n.fed])
    requires SnapshotInv(n) && Enabled(n, step) && cfg.Valid()
    ensures SnapshotInv(Next(n, step, cfg))
  {
    hide Replay, Effect, Compact;
    var n' := Next(n, step, cfg);
    forall c | c in n'.calls ensures CallOk(n', n'.calls[c]) {
      if c in n.calls {
        CallStays(n, step, cfg, n.calls[c]);
      }
      if step == SaveSnapshot(c) {
        assert Snapshot(n.calls[c].index, n.calls[c].data) in n'.snapshots;
      }
    }
    forall s | s in n'.snapshots ensures Covered(n', s.index, s.data) {
      if s in n.snapshots {
        CoveredStays(n, step, cfg, s.index, s.data);
      } else {
        CoveredStays(n, step, cfg, n.calls[step.call].index, n.calls[step.call].data);
      }
    }
  }

  lemma StepKeepsInv(n: Node, step: Step, cfg: Setup, gone: nat) returns (gone': nat)
    requires Inv(n, gone) && Enabled(n, step) && cfg.Valid() && Safe(n, step, cfg)
    ensures Inv(Next(n, step, cfg), gone')
  {
    hide Replay, Effect, Compact, Retains, Covered, Next;
    gone' := gone;
    if step.CompactLog? {
      var c := n.calls[step.call];
      assert CallOk(n, c);
      SnapshotStays(n, step, cfg, c.index);
      gone' := GoneAfter(gone, c.index, cfg);
    }
    StepKeepsLogInv(n, step, cfg, gone);
    StepKeepsSnapshotInv(n, step, cfg);
    if gone > 0 {
      SnapshotStays(n, step, cfg, gone);
    }
  }

  lemma {:induction false} RunKeepsInv(run: seq<Node>, steps: seq<Step>, cfg: Setup, k: nat) returns (gone: nat)
    requires SafeRun(run, steps, cfg) && k < |run|
    ensures Inv(run[k], gone)
  {
    if k == 0 {
      gone := 0;
    } else {
      var g := RunKeepsInv(run, steps, cfg, k - 1);
      gone := StepKeepsInv(run[k - 1], steps[k - 1], cfg, g);
    }
  }

  lemma {:induction false} RetainedEntries(n: Node, gone: nat, low: nat, high: nat)
    requires Retains(n, gone) && low <= high <= |n.log|
    ensures Entries(n.rows, low, high) ==
            var from := if low < gone then gone else low; if from <= high then n.log[from..high] else []
  {
    if low < high {
      RetainedEntries(n, gone, low, high - 1);
      var from := if low < gone then gone else low;
      if from < high {
        SliceGrows(n.log, from, high);
      }
    }
  }

  lemma SnapshotRecovers(n: Node, gone: nat, s: Snapshot)
    requires Inv(n, gone) && s in n.snapshots && gone <= s.index
    ensures Recover(n, s, s.index) == Replay(NO_CACHES, n.log)
    ensures Recover(n, s, 0) == Replay(NO_CACHES, n.log)
  {
    hide Replay, Retains, Entries;
    assert Covered(n, s.index, s.data);
    var m: nat :| s.index <= m <= |n.log| && s.data == Replay(NO_CACHES, n.log[..m]);
    RetainedEntries(n, gone, s.index, |n.log|);
    RetainedEntries(n, gone, 0, |n.log|);
    OverlapIsHarmless(NO_CACHES, n.log, s.index, m);
    OverlapIsHarmless(NO_CACHES, n.log, gone, m);
    assert n.log[gone..|n.log|] == n.log[gone..] && n.log[s.index..|n.log|] == n.log[s.index..];
  }

  /**
   After any run whose compactions are harmless, the latest snapshot and the retained log rebuild the state
   that the whole log produces, whether the replay starts at the snapshot's own index or at the
   oldest retained entry.
   */
  lemma LatestSnapshotRecovers(run: seq<Node>, steps: seq<Step>, cfg: Setup, k: nat, s: Snapshot)
    requires SafeRun(run, steps, cfg) && k < |run| && Latest(run[k], s)
    ensures Recover(run[k], s, s.index) == Replay(NO_CACHES, run[k].log)
    ensures Recover(run[k], s, 0) == Replay(NO_CACHES, run[k].log)
  {
    hide Recover, Replay, LogInv, SnapshotInv, SafeRun;
    var gone := RunKeepsInv(run, steps, cfg, k);
    if gone > 0 {
      var t :| t in run[k].snapshots && gone <= t.index;
    }
    SnapshotRecovers(run[k], gone, s);
  }

  // ---------------------------------------------------------------------------------
  // The wrap-around
  // ---------------------------------------------------------------------------------

  /** Compaction spares every entry above the label exactly when there is none or it is harmless. */
  lemma CompactSparesSuffixIff(n: Node, gone: nat, index: nat, cfg: Setup)
    requires Retains(n, gone) && gone <= index <= |n.log| < TWO_64 && cfg.Valid()
    ensures (forall i :: index < i <= |n.log| ==> i in Compact(n.rows, index, cfg)) <==>
            Harmless(index, cfg) || index == |n.log|
  {
    if !Harmless(index, cfg) && index < |n.log| {
      assert index + 1 !in Compact(n.rows, index, cfg);
    }
  }

  /** Recovery from the latest snapshot works at the end of the run. */
  ghost predicate Recovers(n: Node) {
    forall s :: Latest(n, s) ==> Recover(n, s, s.index) == Replay(NO_CACHES, n.log)
  }

  /** Within the limit no compaction of any run can do harm. */
  lemma WithinLimitIsSafe(run: seq<Node>, steps: seq<Step>, cfg: Setup)
    requires IsRun(run, steps, cfg) && cfg.trailing <= cfg.Limit()
    ensures SafeRun(run, steps, cfg)
  {
    forall i | 0 <= i < |steps| ensures Safe(run[i], steps[i], cfg) {
      var step := steps[i];
      assert Enabled(run[i], step);
    }
  }

  /** Above the limit, a snapshot taken before anything is applied can lose a committed command. */
  lemma EarlySnapshotLosesLog(cfg: Setup, key: string) returns (run: seq<Node>, steps: seq<Step>)
    requires cfg.Valid() && cfg.trailing > cfg.Limit()
    ensures IsRun(run, steps, cfg) && !Recovers(run[|run| - 1])
  {
    hide Replay, Effect, Entries;
    var cmd := ConfigSet(key, []);
    var labelled, copied, saved := Labelled(0), Copied(0, NO_CACHES), Saved(0);
    var s := Snapshot(0, NO_CACHES);
    var n1 := START.(log := [cmd], rows := map[1 := cmd]);
    var n2 := n1.(calls := map[0 := labelled]);
    var n3 := n1.(calls := map[0 := copied]);
    var n4 := n1.(calls := map[0 := saved], snapshots := {s});
    var n5 := n1.(rows := map[], snapshots := {s});
    steps := [Commit(cmd), ReadIndex(0), CopyCaches(0), SaveSnapshot(0), CompactLog(0)];
    run := [START, n1, n2, n3, n4, n5];
    assert Next(n4, CompactLog(0), cfg) == n5 by {
      assert Compact(n4.rows, 0, cfg) == map[];
    }
    assert IsRun(run, steps, cfg);
    NothingRetained(cmd);
    assert Latest(n5, s) && Recover(n5, s, 0) != Replay(NO_CACHES, n5.log);
  }

  lemma NothingRetained(cmd: Command)
    requires cmd.ConfigSet?
    ensures Replay(NO_CACHES, Entries(map[], 0, 1)) != Replay(NO_CACHES, [cmd])
  {
    assert Entries(map[], 0, 1) == [];
    assert Replay(NO_CACHES, [cmd]) == Effect(Replay(NO_CACHES, [cmd][..0]), cmd);
    assert cmd.key in Replay(NO_CACHES, [cmd]).config;
  }

  /**
   Every run can be recovered exactly when no more trailing entries are configured than the store
   tolerates: none if it takes bounds literally, 2^63 if it refuses those with the high bit set.
   */
  lemma EveryRunRecoversIff(cfg: Setup)
    requires cfg.Valid()
    ensures (forall run: seq<Node>, steps :: IsRun(run, steps, cfg) ==> Recovers(run[|run| - 1])) <==>
            cfg.trailing <= cfg.Limit()
  {
    if cfg.trailing <= cfg.Limit() {
      forall run: seq<Node>, steps | IsRun(run, steps, cfg) ensures Recovers(run[|run| - 1]) {
        WithinLimitIsSafe(run, steps, cfg);
        forall s | Latest(run[|run| - 1], s)
          ensures Recover(run[|run| - 1], s, s.index) == Replay(NO_CACHES, run[|run| - 1].log)
        {
          LatestSnapshotRecovers(run, steps, cfg, |run| - 1, s);
        }
      }
    } else {
      var run, steps := EarlySnapshotLosesLog(cfg, "key");
    }
  }

  // ---------------------------------------------------------------------------------
  // Snapshots keep up with the log
  // ---------------------------------------------------------------------------------

  lemma {:induction false} AppliedIndexGrows(run: seq<Node>, steps: seq<Step>, cfg: Setup, i: nat, j: nat)
    requires IsRun(run, steps, cfg) && i <= j <= |steps|
    ensures run[i].appliedIndex <= run[j].appliedIndex
  {
    if i < j {
      AppliedIndexGrows(run, steps, cfg, i, j - 1);
      assert run[j] == Next(run[j - 1], steps[j - 1], cfg);
    }
  }

  /** A snapshot is labelled with at least what was published before it was begun, in every interleaving. */
  lemma LabelsKeepUp(run: seq<Node>, steps: seq<Step>, cfg: Setup, i: nat, j: nat)
    requires IsRun(run, steps, cfg) && i < j < |steps| && steps[i].Publish? && steps[j].ReadIndex?
    ensures steps[j].call in run[j + 1].calls && run[j + 1].calls[steps[j].call].index >= run[i].fed
  {
    assert run[i + 1] == Next(run[i], steps[i], cfg);
    AppliedIndexGrows(run, steps, cfg, i + 1, j);
    assert run[j + 1] == Next(run[j], steps[j], cfg);
  }

  /** One `TakeSnapshot` that nothing gets in between. */
  ghost function SnapshotTaken(n: Node, c: nat, cfg: Setup): Node
    requires c !in n.calls && n.appliedIndex < TWO_64 && cfg.Valid()
  {
    Next(Next(Next(Next(n, ReadIndex(c), cfg), CopyCaches(c), cfg), SaveSnapshot(c), cfg), CompactLog(c), cfg)
  }

  /** The rows of a log of which the first `gone` entries are gone. */
  ghost function RowsOf(log: seq<Command>, gone: nat): LogTable {
    map i: nat | gone < i <= |log| :: EntryAt(log, i)
  }

  ghost function EntryAt(log: seq<Command>, i: nat): Command
    requires 0 < i <= |log|
  {
    log[i - 1]
  }

  lemma CompactWhole(n: Node, gone: nat, cfg: Setup)
    requires Retains(n, gone) && |n.log| < TWO_64 && cfg.Valid()
    ensures var rows := Compact(n.rows, |n.log|, cfg);
            && (cfg.Refuses(|n.log|) ==> rows == n.rows)
            && (!cfg.Refuses(|n.log|) && cfg.trailing > |n.log| ==> rows == map[])
            && (!cfg.Refuses(|n.log|) && cfg.trailing <= |n.log| ==>
                  rows == RowsOf(n.log, if gone > |n.log| - cfg.trailing then gone else |n.log| - cfg.trailing))
  {
  }

  /**
   Taken while nothing is pending, a snapshot holds the state of the whole log under its last
   index, and of the log exactly the last `trailing` entries are left, or as many as there were.
   A bound that is refused leaves everything, one that wraps around leaves nothing.
   */
  lemma QuietSnapshot(n: Node, gone: nat, c: nat, cfg: Setup)
    requires LogInv(n, gone) && cfg.Valid() && c !in n.calls && n.appliedIndex == |n.log|
    ensures var s, n' := Snapshot(|n.log|, Replay(NO_CACHES, n.log)), SnapshotTaken(n, c, cfg);
            && n'.snapshots == n.snapshots + {s}
            && n' == n.(snapshots := n'.snapshots, rows := n'.rows)
            && (cfg.Refuses(|n.log|) ==> n'.rows == n.rows)
            && (!cfg.Refuses(|n.log|) && cfg.trailing > |n.log| ==> n'.rows == map[])
            && (!cfg.Refuses(|n.log|) && cfg.trailing <= |n.log| ==>
                  n'.rows == RowsOf(n.log, if gone > |n.log| - cfg.trailing then gone else |n.log| - cfg.trailing))
  {
    hide Replay, Compact, Retains, RowsOf;
    CompactWhole(n, gone, cfg);
    assert n.log[..n.fed] == n.log;
    assert n.calls[c := Saved(|n.log|)] - {c} == n.calls;
  }

  /** The node after it has stored, applied and published the commands of `log`. */
  ghost function CaughtUp(log: seq<Command>): Node {
    START.(log := log, rows := RowsOf(log, 0), fed := |log|, caches := Replay(NO_CACHES, log), appliedIndex := |log|)
  }

  lemma Extend(run: seq<Node>, steps: seq<Step>, cfg: Setup, n: Node, step: Step)
    returns (run': seq<Node>, steps': seq<Step>, n': Node)
    requires IsRun(run, steps, cfg) && run[|run| - 1] == n && Enabled(n, step)
    ensures IsRun(run', steps', cfg) && run'[|run'| - 1] == n' == Next(n, step, cfg)
  {
    hide Enabled, Next;
    n' := Next(n, step, cfg);
    run', steps' := run + [n'], steps + [step];
  }

  lemma {:induction false} CanCatchUp(log: seq<Command>, cfg: Setup) returns (run: seq<Node>, steps: seq<Step>)
    requires |log| < TWO_64 && cfg.Valid()
    ensures IsRun(run, steps, cfg) && run[|run| - 1] == CaughtUp(log)
  {
    hide IsRun, Effect;
    if log == [] {
      run, steps := [START], [];
      StartIsRun(cfg);
      assert RowsOf(log, 0) == map[];
    } else {
      var k := |log| - 1;
      var front, n := log[..k], CaughtUp(log[..k]);
      run, steps := CanCatchUp(front, cfg);
      run, steps, n := Extend(run, steps, cfg, n, Commit(log[k]));
      assert n.log == log && n.rows == RowsOf(log, 0);
      run, steps, n := Extend(run, steps, cfg, n, Feed);
      run, steps, n := Extend(run, steps, cfg, n, Publish);
    }
  }

  lemma StartIsRun(cfg: Setup)
    requires cfg.Valid()
    ensures IsRun([START], [], cfg)
  {
  }

  /** Every log can come to be covered whole by a snapshot, with only the trailing entries left. */
  lemma EveryLogCanBeCovered(log: seq<Command>, cfg: Setup) returns (run: seq<Node>, steps: seq<Step>)
    requires cfg.trailing <= |log| < TWO_64 && cfg.Valid() && !cfg.Refuses(|log|)
    ensures IsRun(run, steps, cfg) && run[|run| - 1].log == log
    ensures run[|run| - 1].snapshots == {Snapshot(|log|, Replay(NO_CACHES, log))}
    ensures run[|run| - 1].rows == RowsOf(log, |log| - cfg.trailing)
  {
    hide IsRun, Replay;
    run, steps := CanCatchUp(log, cfg);
    var n := CaughtUp(log);
    assert log[..|log|] == log;
    QuietSnapshot(n, 0, 0, cfg);
    run, steps, n := Extend(run, steps, cfg, n, ReadIndex(0));
    run, steps, n := Extend(run, steps, cfg, n, CopyCaches(0));
    run, steps, n := Extend(run, steps, cfg, n, SaveSnapshot(0));
    run, steps, n := Extend(run, steps, cfg, n, CompactLog(0));
  }
}
