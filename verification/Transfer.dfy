/**
 One download under the transfer manager (internal/p2p/transfer.go), as a state machine whose
 steps are the points where goroutines can interleave: the caller's resume, pause and cancel,
 the start and end of each `runDownload`, and each worker's receive, attempt and return.

 `Resume` may start a new run while an earlier, cancelled one is still winding down, so any
 number of runs can work on the same download record at once. Setting a chunk's bit is one
 step: the Go code takes no lock there, so this is an assumption. Chunks from peers, fetch
 errors and the choice of the reported error are free.
 */
module Transfer {
  import opened Common
  import B = Bitmap

  datatype Chunk = Chunk(data: seq<bv8>, hash: string)

  datatype Config = Config(maxConcurrentChunks: int, maxRetries: int)

  /** The hex SHA-256 digest, left uninterpreted. */
  type Sha = seq<bv8> -> string

  predicate VerifyChunk(sha: Sha, c: Chunk) {
    |c.data| > 0 && sha(c.data) == c.hash
  }

  datatype Status = Active | Paused | Completed | Failed

  datatype Download = Download(
    totalChunks: nat,
    bitmap: seq<bv8>,
    status: Status,
    error: Option<int>,         // the chunk named in the error message, if there is one
    received: map<int, Chunk>)  // the data behind each mark; only the proof looks at it

  datatype Worker = Idle | Busy(index: int, tried: nat) | Gone

  datatype Phase = Starting | Working | Checked | Ended

  datatype Run = Run(
    phase: Phase,
    hasPeers: bool,
    cancelled: bool,
    queue: seq<int>,            // what is left in the closed work channel
    workers: seq<Worker>,
    chunkErrors: set<int>,
    initial: seq<int>,          // the missing chunks the run began with
    takenBy: map<int, nat>,     // which worker received each index
    tries: map<int, nat>)       // attempts made for each index

  datatype State = State(download: Download, current: Option<nat>, runs: seq<Run>)

  datatype Step =
    | Resume(hasPeers: bool)
    | Pause
    | Cancel
    | Begin(run: nat)
    | Take(run: nat, worker: nat)
    | Leave(run: nat, worker: nat)
    | Attempt(run: nat, worker: nat, reply: Option<Chunk>)
    | NoPeer(run: nat, worker: nat)
    | GiveUp(run: nat, worker: nat)
    | Finish(run: nat, reported: int)
    | Remove(run: nat)

  function NewRun(hasPeers: bool): Run {
    Run(Starting, hasPeers, false, [], [], {}, [], map[], map[])
  }

  /** What `StartDownload` leaves behind. */
  function Start(totalChunks: nat, hasPeers: bool): State {
    var bitmap := seq((totalChunks + 7) / 8, _ => 0 as bv8);
    State(Download(totalChunks, bitmap, Active, None, map[]), Some(0), [NewRun(hasPeers)])
  }

  function WorkerCount(cfg: Config, missing: nat): nat {
    if cfg.maxConcurrentChunks > missing then missing
    else if cfg.maxConcurrentChunks > 0 then cfg.maxConcurrentChunks
    else 0
  }

  ghost function Missing(d: Download): seq<int> {
    B.Unmarked(B.Marked(d.bitmap), d.totalChunks)
  }

  ghost predicate IsComplete(d: Download) {
    B.Completed(B.Marked(d.bitmap), d.totalChunks) >= d.totalChunks > 0
  }

  // ---------------------------------------------------------------------------------
  // Steps
  // ---------------------------------------------------------------------------------

  ghost predicate AtWork(s: State, run: nat) {
    run < |s.runs| && s.runs[run].phase.Working?
  }

  ghost predicate HasWorker(s: State, run: nat, w: nat) {
    AtWork(s, run) && w < |s.runs[run].workers|
  }

  ghost predicate IsBusy(s: State, run: nat, w: nat) {
    HasWorker(s, run, w) && s.runs[run].workers[w].Busy?
  }

  ghost predicate Enabled(cfg: Config, s: State, step: Step) {
    match step
    case Resume(_) => true
    case Pause => true
    case Cancel => true
    case Begin(r) => r < |s.runs| && s.runs[r].phase.Starting?
    case Take(r, w) => HasWorker(s, r, w) && s.runs[r].workers[w].Idle? && s.runs[r].queue != []
    case Leave(r, w) => HasWorker(s, r, w) && s.runs[r].workers[w].Idle? && s.runs[r].queue == []
    case Attempt(r, w, _) => IsBusy(s, r, w) && s.runs[r].workers[w].tried < cfg.maxRetries && s.runs[r].hasPeers
    case NoPeer(r, w) => IsBusy(s, r, w) && s.runs[r].workers[w].tried < cfg.maxRetries && !s.runs[r].hasPeers
    case GiveUp(r, w) => IsBusy(s, r, w) && s.runs[r].workers[w].tried >= cfg.maxRetries
    case Finish(r, reported) =>
      && AtWork(s, r) && (forall x :: x in s.runs[r].workers ==> x.Gone?)
      && (s.runs[r].chunkErrors != {} ==> reported in s.runs[r].chunkErrors)
    case Remove(r) => r < |s.runs| && s.runs[r].phase.Checked?
  }

  function SetWorker(r: Run, w: nat, x: Worker): Run
    requires w < |r.workers|
  {
    r.(workers := r.workers[w := x])
  }

  /** The channel is closed: a worker takes the next index, unless the run turns out cancelled. */
  function TakeNext(r: Run, w: nat): Run
    requires w < |r.workers| && r.queue != []
  {
    var i := r.queue[0];
    SetWorker(r, w, if r.cancelled then Gone else Busy(i, 0))
      .(queue := r.queue[1..], takenBy := r.takenBy[i := w], tries := r.tries[i := 0])
  }

  /** One more attempt for the index in hand; on success the worker is free again. */
  function Tried(r: Run, w: nat, success: bool): Run
    requires w < |r.workers| && r.workers[w].Busy?
  {
    var Busy(i, n) := r.workers[w];
    SetWorker(r, w, if success then Idle else Busy(i, n + 1)).(tries := r.tries[i := n + 1])
  }

  /** The index in hand is given up; an error is recorded if there was one. */
  function Dropped(r: Run, w: nat, failed: bool): Run
    requires w < |r.workers| && r.workers[w].Busy?
  {
    SetWorker(r, w, Idle).(chunkErrors := r.chunkErrors + if failed then {r.workers[w].index} else {})
  }

  function BeginRun(cfg: Config, r: Run, missing: seq<int>): Run {
    if missing == [] then r.(phase := Ended) else
    r.(phase := Working, queue := missing, initial := missing,
       workers := seq(WorkerCount(cfg, |missing|), _ => Idle))
  }

  function MarkChunk(d: Download, i: int, c: Chunk): Download {
    if i < 0 then d else d.(bitmap := B.WithBit(d.bitmap, i), received := d.received[i := c])
  }

  ghost function FinishDownload(d: Download, r: Run, reported: int): Download {
    if IsComplete(d) then d.(status := Completed)
    else if !r.cancelled then
      d.(status := Failed, error := if r.chunkErrors == {} then d.error else Some(reported))
    else d
  }

  ghost function Next(cfg: Config, sha: Sha, s: State, step: Step): State
    requires Enabled(cfg, s, step)
  {
    match step
    case Resume(hasPeers) =>
      if s.current.Some? then s
      else s.(download := s.download.(status := Active, error := None),
              current := Some(|s.runs|), runs := s.runs + [NewRun(hasPeers)])
    case Pause =>
      if s.current.Some? then CancelCurrent(s).(download := s.download.(status := Paused)) else s
    case Cancel =>
      if s.current.Some? then CancelCurrent(s).(current := None) else s
    case Begin(r) =>
      var missing := Missing(s.download);
      s.(download := if missing == [] then s.download.(status := Completed) else s.download,
         runs := s.runs[r := BeginRun(cfg, s.runs[r], missing)])
    case Take(r, w) => s.(runs := s.runs[r := TakeNext(s.runs[r], w)])
    case Leave(r, w) => s.(runs := s.runs[r := SetWorker(s.runs[r], w, Gone)])
    case Attempt(r, w, reply) =>
      var good := reply.Some? && VerifyChunk(sha, reply.value);
      s.(download := if good then MarkChunk(s.download, s.runs[r].workers[w].index, reply.value) else s.download,
         runs := s.runs[r := Tried(s.runs[r], w, good)])
    case NoPeer(r, w) => s.(runs := s.runs[r := Dropped(s.runs[r], w, true)])
    case GiveUp(r, w) => s.(runs := s.runs[r := Dropped(s.runs[r], w, s.runs[r].workers[w].tried > 0)])
    case Finish(r, reported) =>
      s.(download := FinishDownload(s.download, s.runs[r], reported),
         runs := s.runs[r := s.runs[r].(phase := Checked)])
    case Remove(r) => s.(current := None, runs := s.runs[r := s.runs[r].(phase := Ended)])
  }

  /** Cancels the context of the run the manager has on record. */
  function CancelCurrent(s: State): State
    requires s.current.Some?
  {
    var r := s.current.value;
    if r < |s.runs| then s.(runs := s.runs[r := s.runs[r].(cancelled := true)]) else s
  }

  /** What `StartDownload` leaves behind, or a sound record, from storage say, that the manager does not know yet. */
  ghost predicate IsStart(sha: Sha, s: State) {
    || (exists total: nat, hasPeers :: s == Start(total, hasPeers))
    || (s.current.None? && s.runs == [] && DownloadOk(sha, s.download))
  }

  /** `trace` holds the states passed through when `steps` are taken. */
  ghost predicate IsTrace(cfg: Config, sha: Sha, trace: seq<State>, steps: seq<Step>) {
    && |trace| == |steps| + 1
    && IsStart(sha, trace[0])
    && (forall i :: 0 <= i < |steps| ==>
          Enabled(cfg, trace[i], steps[i]) && trace[i + 1] == Next(cfg, sha, trace[i], steps[i]))
  }

  // ---------------------------------------------------------------------------------
  // What every step keeps
  // ---------------------------------------------------------------------------------

  /** Every mark is a chunk of this download whose data passed the hash check. */
  ghost predicate MarksOk(sha: Sha, d: Download) {
    forall i :: i in B.Marked(d.bitmap) ==> i < d.totalChunks && i in d.received && VerifyChunk(sha, d.received[i])
  }

  ghost predicate DownloadOk(sha: Sha, d: Download) {
    && MarksOk(sha, d)
    && (d.status.Completed? ==> Missing(d) == [])
  }

  ghost predicate Ascending(s: seq<int>) {
    forall i, j :: 0 <= i < j < |s| ==> s[i] < s[j]
  }

  /** The channel holds a tail of the list, and what is before it has been taken. */
  ghost predicate QueueOk(r: Run, total: nat) {
    && Ascending(r.initial) && (forall i :: i in r.initial ==> 0 <= i < total)
    && |r.queue| <= |r.initial| && r.queue == r.initial[|r.initial| - |r.queue|..]
    && (forall i :: i in r.takenBy <==> i in r.initial[..|r.initial| - |r.queue|])
  }

  /** A worker holds only what it took itself, and counts its attempts. */
  ghost predicate HandsOk(cfg: Config, r: Run) {
    && (forall i :: i in r.takenBy ==>
          && r.takenBy[i] < |r.workers| && i in r.tries
          && (r.tries[i] > 0 ==> r.tries[i] <= cfg.maxRetries))
    && (forall w :: 0 <= w < |r.workers| && r.workers[w].Busy? ==>
          var Busy(i, n) := r.workers[w];
          i in r.takenBy && r.takenBy[i] == w && r.tries[i] == n)
  }

  ghost predicate Holds(r: Run, i: int) {
    i in r.takenBy && r.takenBy[i] < |r.workers| && r.workers[r.takenBy[i]].Busy? && r.workers[r.takenBy[i]].index == i
  }

  /** Unless cancelled, nothing that was taken is lost, and workers stop only at the end. */
  ghost predicate SettledOk(cfg: Config, r: Run, marked: set<nat>) {
    !r.cancelled ==>
      && (cfg.maxRetries >= 1 ==> forall i :: i in r.takenBy ==> Holds(r, i) || i in marked || i in r.chunkErrors)
      && (forall w :: 0 <= w < |r.workers| && r.workers[w].Gone? ==> r.queue == [])
  }

  ghost predicate RunOk(cfg: Config, r: Run, d: Download) {
    var marked := B.Marked(d.bitmap);
    if r.phase.Starting? then r == NewRun(r.hasPeers).(cancelled := r.cancelled)
    else
      && QueueOk(r, d.totalChunks) && HandsOk(cfg, r) && SettledOk(cfg, r, marked)
      && (forall i :: 0 <= i < d.totalChunks && i !in marked ==> i in r.initial)
      && (r.phase.Working? ==> |r.workers| == WorkerCount(cfg, |r.initial|) && r.initial != [])
  }

  ghost predicate Inv(cfg: Config, sha: Sha, s: State) {
    && DownloadOk(sha, s.download)
    && (forall r :: 0 <= r < |s.runs| ==> RunOk(cfg, s.runs[r], s.download))
  }

  // --- one run

  lemma BeginKeeps(cfg: Config, r: Run, d: Download)
    requires RunOk(cfg, r, d) && r.phase.Starting?
    ensures RunOk(cfg, BeginRun(cfg, r, Missing(d)), d)
  {
    B.UnmarkedIsComplement(B.Marked(d.bitmap), d.totalChunks);
    var r' := BeginRun(cfg, r, Missing(d));
    assert r'.initial[0..] == r'.initial;
  }

  lemma TakeKeeps(cfg: Config, r: Run, w: nat, d: Download)
    requires RunOk(cfg, r, d) && r.phase.Working? && w < |r.workers| && r.workers[w].Idle? && r.queue != []
    ensures RunOk(cfg, TakeNext(r, w), d) && r.queue[0] !in r.takenBy
  {
    var r' := TakeNext(r, w);
    var k := |r.initial| - |r.queue|;
    var i := r.queue[0];
    assert i == r.initial[k];
    assert r.initial[..k + 1] == r.initial[..k] + [i];
    assert i !in r.takenBy;
    forall j | j in r'.takenBy && !r.cancelled && cfg.maxRetries >= 1
      ensures Holds(r', j) || j in B.Marked(d.bitmap) || j in r'.chunkErrors
    {
      if j != i {
        assert Holds(r, j) ==> r.takenBy[j] != w;
      }
    }
  }

  lemma LeaveKeeps(cfg: Config, r: Run, w: nat, d: Download)
    requires RunOk(cfg, r, d) && r.phase.Working? && w < |r.workers| && r.workers[w].Idle? && r.queue == []
    ensures RunOk(cfg, SetWorker(r, w, Gone), d)
  {
    var r' := SetWorker(r, w, Gone);
    assert forall i :: Holds(r, i) ==> Holds(r', i);
  }

  /** Marks may grow under a run's feet: another run may work on the same download. */
  lemma MarksGrow(cfg: Config, r: Run, d: Download, d': Download)
    requires RunOk(cfg, r, d) && d'.totalChunks == d.totalChunks && B.Marked(d.bitmap) <= B.Marked(d'.bitmap)
    ensures RunOk(cfg, r, d')
  {
  }

  lemma TriedKeeps(cfg: Config, r: Run, w: nat, success: bool, d: Download)
    requires RunOk(cfg, r, d) && r.phase.Working? && w < |r.workers| && r.workers[w].Busy?
    requires r.workers[w].tried < cfg.maxRetries && (success ==> r.workers[w].index in B.Marked(d.bitmap))
    ensures RunOk(cfg, Tried(r, w, success), d)
  {
    var r' := Tried(r, w, success);
    assert forall i :: Holds(r, i) && i != r.workers[w].index ==> Holds(r', i);
  }

  lemma DroppedKeeps(cfg: Config, r: Run, w: nat, failed: bool, d: Download)
    requires RunOk(cfg, r, d) && r.phase.Working? && w < |r.workers| && r.workers[w].Busy?
    requires cfg.maxRetries >= 1 ==> failed
    ensures RunOk(cfg, Dropped(r, w, failed), d)
  {
    var r' := Dropped(r, w, failed);
    assert forall i :: Holds(r, i) && i != r.workers[w].index ==> Holds(r', i);
  }

  // --- the download record

  lemma NothingMissingIff(d: Download)
    ensures Missing(d) == [] <==> forall i :: 0 <= i < d.totalChunks ==> i in B.Marked(d.bitmap)
  {
    B.UnmarkedIsComplement(B.Marked(d.bitmap), d.totalChunks);
    assert Missing(d) != [] ==> Missing(d)[0] in Missing(d);
  }

  /** Being complete by the counter means that no chunk is missing. */
  lemma CompleteIsComplete(sha: Sha, d: Download)
    requires MarksOk(sha, d) && d.totalChunks > 0
    ensures IsComplete(d) <==> Missing(d) == []
  {
    B.IsCompleteIff(B.Marked(d.bitmap), d.totalChunks);
  }

  /** The index in a worker's hand is one of the download's chunks. */
  lemma HeldIsChunk(cfg: Config, r: Run, w: nat, d: Download)
    requires RunOk(cfg, r, d) && r.phase.Working? && w < |r.workers| && r.workers[w].Busy?
    ensures 0 <= r.workers[w].index < d.totalChunks
  {
    var taken := r.initial[..|r.initial| - |r.queue|];
    assert r.workers[w].index in taken;
    assert forall i :: i in taken ==> i in r.initial;
  }

  lemma MarkKeepsDownload(sha: Sha, d: Download, i: int, c: Chunk)
    requires DownloadOk(sha, d) && 0 <= i < d.totalChunks && VerifyChunk(sha, c)
    ensures DownloadOk(sha, MarkChunk(d, i, c))
    ensures B.Marked(MarkChunk(d, i, c).bitmap) == B.Marked(d.bitmap) + {i}
  {
    hide B.WithBit, B.Marked, B.Unmarked;
    B.WithBitMarks(d.bitmap, i);
    NothingMissingIff(d);
    NothingMissingIff(MarkChunk(d, i, c));
  }

  /** Bits are never cleared, and the record stays as promised. */
  lemma StepKeepsDownload(cfg: Config, sha: Sha, s: State, step: Step)
    requires Inv(cfg, sha, s) && Enabled(cfg, s, step)
    ensures var d, d' := s.download, Next(cfg, sha, s, step).download;
            DownloadOk(sha, d') && d'.totalChunks == d.totalChunks && B.Marked(d.bitmap) <= B.Marked(d'.bitmap)
  {
    hide B.WithBit, B.Marked, B.Unmarked, B.Completed, QueueOk, HandsOk, SettledOk;
    if step.Attempt? {
      var r := s.runs[step.run];
      HeldIsChunk(cfg, r, step.worker, s.download);
      if step.reply.Some? && VerifyChunk(sha, step.reply.value) {
        MarkKeepsDownload(sha, s.download, r.workers[step.worker].index, step.reply.value);
      }
    } else if step.Finish? && s.download.totalChunks > 0 {
      CompleteIsComplete(sha, s.download);
    }
  }

  lemma StepKeepsRun(cfg: Config, sha: Sha, s: State, step: Step, k: nat)
    requires Inv(cfg, sha, s) && Enabled(cfg, s, step) && k < |s.runs|
    ensures RunOk(cfg, Next(cfg, sha, s, step).runs[k], Next(cfg, sha, s, step).download)
  {
    hide B.WithBit, B.Marked, B.Unmarked, B.Completed, QueueOk, HandsOk, SettledOk, WorkerCount;
    StepKeepsDownload(cfg, sha, s, step);
    var r, d' := s.runs[k], Next(cfg, sha, s, step).download;
    MarksGrow(cfg, r, s.download, d');
    match step
    case Resume(_) =>
    case Pause => CancelKeeps(cfg, r, d');
    case Cancel => CancelKeeps(cfg, r, d');
    case Begin(m) => if k == m { BeginKeeps(cfg, r, d'); }
    case Take(m, w) => if k == m { TakeKeeps(cfg, r, w, d'); }
    case Leave(m, w) => if k == m { LeaveKeeps(cfg, r, w, d'); }
    case Attempt(m, w, reply) =>
      if k == m {
        var good := reply.Some? && VerifyChunk(sha, reply.value);
        if good {
          HeldIsChunk(cfg, r, w, s.download);
          MarkKeepsDownload(sha, s.download, r.workers[w].index, reply.value);
        }
        TriedKeeps(cfg, r, w, good, d');
      }
    case NoPeer(m, w) => if k == m { DroppedKeeps(cfg, r, w, true, d'); }
    case GiveUp(m, w) => if k == m { DroppedKeeps(cfg, r, w, r.workers[w].tried > 0, d'); }
    case Finish(m, _) => if k == m { PhaseKeeps(cfg, r, Checked, d'); }
    case Remove(m) => if k == m { PhaseKeeps(cfg, r, Ended, d'); }
  }

  lemma CancelKeeps(cfg: Config, r: Run, d: Download)
    requires RunOk(cfg, r, d)
    ensures RunOk(cfg, r.(cancelled := true), d)
  {
  }

  lemma PhaseKeeps(cfg: Config, r: Run, phase: Phase, d: Download)
    requires RunOk(cfg, r, d) && !r.phase.Starting? && (phase.Checked? || phase.Ended?)
    ensures RunOk(cfg, r.(phase := phase), d)
  {
    var r' := r.(phase := phase);
    assert forall i :: Holds(r, i) <==> Holds(r', i);
  }

  lemma StepKeepsInv(cfg: Config, sha: Sha, s: State, step: Step)
    requires Inv(cfg, sha, s) && Enabled(cfg, s, step)
    ensures Inv(cfg, sha, Next(cfg, sha, s, step))
  {
    hide RunOk, DownloadOk, Missing, IsComplete;
    StepKeepsDownload(cfg, sha, s, step);
    var s' := Next(cfg, sha, s, step);
    forall k | 0 <= k < |s'.runs| ensures RunOk(cfg, s'.runs[k], s'.download) {
      if k < |s.runs| {
        StepKeepsRun(cfg, sha, s, step, k);
      } else {
        NewRunOk(cfg, step.hasPeers, s'.download);
      }
    }
  }

  lemma NewRunOk(cfg: Config, hasPeers: bool, d: Download)
    ensures RunOk(cfg, NewRun(hasPeers), d)
  {
  }

  lemma StartOk(cfg: Config, sha: Sha, total: nat, hasPeers: bool)
    ensures Inv(cfg, sha, Start(total, hasPeers))
    ensures var s := Start(total, hasPeers);
            && B.Marked(s.download.bitmap) == {} && s.download.totalChunks == total && s.download.status.Active?
            && s.current == Some(0) && |s.runs| == 1 && s.runs[0].phase.Starting?
            && s.runs[0].hasPeers == hasPeers && !s.runs[0].cancelled
  {
    var d := Start(total, hasPeers).download;
    forall i: nat ensures i !in B.Marked(d.bitmap) {
      B.MarkedIff(d.bitmap, i);
    }
  }

  lemma TraceStep(cfg: Config, sha: Sha, trace: seq<State>, steps: seq<Step>, k: nat)
    requires IsTrace(cfg, sha, trace, steps) && k < |steps|
    ensures |trace| == |steps| + 1 && Enabled(cfg, trace[k], steps[k])
    ensures trace[k + 1] == Next(cfg, sha, trace[k], steps[k])
  {
  }

  lemma TraceStart(cfg: Config, sha: Sha, trace: seq<State>, steps: seq<Step>)
    requires IsTrace(cfg, sha, trace, steps)
    ensures |trace| == |steps| + 1 && Inv(cfg, sha, trace[0])
    ensures forall r :: 0 <= r < |trace[0].runs| ==> trace[0].runs[r] == NewRun(trace[0].runs[r].hasPeers)
  {
    if total: nat, hasPeers :| trace[0] == Start(total, hasPeers) {
      StartOk(cfg, sha, total, hasPeers);
    }
  }

  lemma {:induction false} TraceKeepsInv(cfg: Config, sha: Sha, trace: seq<State>, steps: seq<Step>, k: nat)
    requires IsTrace(cfg, sha, trace, steps) && k <= |steps|
    ensures Inv(cfg, sha, trace[k])
  {
    hide IsTrace, Inv, Enabled, Next;
    TraceStart(cfg, sha, trace, steps);
    if k > 0 {
      TraceStep(cfg, sha, trace, steps, k - 1);
      TraceKeepsInv(cfg, sha, trace, steps, k - 1);
      StepKeepsInv(cfg, sha, trace[k - 1], steps[k - 1]);
    }
  }

  // ---------------------------------------------------------------------------------
  // Main results
  // ---------------------------------------------------------------------------------

  /** At every point of every interleaving, marks are verified chunks and Completed means complete. */
  lemma OnlyVerifiedChunks(cfg: Config, sha: Sha, trace: seq<State>, steps: seq<Step>, k: nat)
    requires IsTrace(cfg, sha, trace, steps) && k <= |steps|
    ensures var d := trace[k].download;
            forall i :: i in B.Marked(d.bitmap) ==>
              && i < d.totalChunks && i in d.received
              && d.received[i].data != [] && sha(d.received[i].data) == d.received[i].hash
    ensures trace[k].download.status.Completed? ==>
              forall i :: 0 <= i < trace[k].download.totalChunks ==> i in B.Marked(trace[k].download.bitmap)
  {
    TraceKeepsInv(cfg, sha, trace, steps, k);
    NothingMissingIff(trace[k].download);
  }

  /** Marks survive pause, cancel and resume. */
  lemma {:induction false} MarksNeverCleared(cfg: Config, sha: Sha, trace: seq<State>, steps: seq<Step>, j: nat, k: nat)
    requires IsTrace(cfg, sha, trace, steps) && j <= k <= |steps|
    ensures B.Marked(trace[j].download.bitmap) <= B.Marked(trace[k].download.bitmap)
  {
    hide IsTrace, Inv, Enabled, Next, DownloadOk, B.Marked;
    TraceStart(cfg, sha, trace, steps);
    if j < k {
      TraceStep(cfg, sha, trace, steps, k - 1);
      MarksNeverCleared(cfg, sha, trace, steps, j, k - 1);
      TraceKeepsInv(cfg, sha, trace, steps, k - 1);
      StepKeepsDownload(cfg, sha, trace[k - 1], steps[k - 1]);
    }
  }

  /** Whenever a worker receives an index, no worker of that run had received it before. */
  lemma TakenOnce(cfg: Config, sha: Sha, trace: seq<State>, steps: seq<Step>, k: nat)
    requires IsTrace(cfg, sha, trace, steps) && k < |steps| && steps[k].Take?
    ensures var r := trace[k].runs[steps[k].run];
            r.queue[0] !in r.takenBy && r.queue[0] in r.initial
  {
    TraceKeepsInv(cfg, sha, trace, steps, k);
    var r := trace[k].runs[steps[k].run];
    TakeKeeps(cfg, r, steps[k].worker, trace[k].download);
    assert r.queue[0] == r.initial[|r.initial| - |r.queue|];
  }

  /** A run that may go to work at all and was not cancelled. */
  ghost predicate Sound(cfg: Config, r: Run) {
    cfg.maxConcurrentChunks >= 1 && cfg.maxRetries >= 1 && !r.cancelled
  }

  lemma SettledAtEnd(cfg: Config, r: Run, d: Download, i: int)
    requires RunOk(cfg, r, d) && r.phase.Working? && Sound(cfg, r) && (forall x :: x in r.workers ==> x.Gone?)
    requires i in r.initial
    ensures i in r.takenBy && i in r.tries && r.tries[i] <= cfg.maxRetries
    ensures i in B.Marked(d.bitmap) || i in r.chunkErrors
  {
    assert r.workers[0].Gone?;
    assert r.initial[..|r.initial|] == r.initial;
    assert i in r.takenBy;
    assert r.workers[r.takenBy[i]].Gone?;
  }

  /**
   When the workers of a run are done, each chunk that was missing at its start has been taken,
   was tried at most MaxRetries times, and is now either marked or listed with an error.
   */
  lemma NothingLost(cfg: Config, sha: Sha, trace: seq<State>, steps: seq<Step>, k: nat, i: int)
    requires IsTrace(cfg, sha, trace, steps) && k < |steps| && steps[k].Finish?
    requires Sound(cfg, trace[k].runs[steps[k].run]) && i in trace[k].runs[steps[k].run].initial
    ensures var r := trace[k].runs[steps[k].run];
            && i in r.takenBy && i in r.tries && r.tries[i] <= cfg.maxRetries
            && (i in B.Marked(trace[k].download.bitmap) || i in r.chunkErrors)
  {
    TraceKeepsInv(cfg, sha, trace, steps, k);
    SettledAtEnd(cfg, trace[k].runs[steps[k].run], trace[k].download, i);
  }

  ghost predicate FailureNamed(d: Download) {
    d.status.Failed? ==> d.error.Some?
  }

  lemma StepNamesFailure(cfg: Config, sha: Sha, s: State, step: Step)
    requires cfg.maxConcurrentChunks >= 1 && cfg.maxRetries >= 1
    requires Inv(cfg, sha, s) && Enabled(cfg, s, step) && FailureNamed(s.download)
    ensures FailureNamed(Next(cfg, sha, s, step).download)
  {
    hide B.WithBit, B.Marked, B.Unmarked, B.Completed, QueueOk, HandsOk, SettledOk, WorkerCount;
    if step.Finish? && !s.runs[step.run].cancelled && !IsComplete(s.download) {
      var r, d := s.runs[step.run], s.download;
      WorkMeansChunks(cfg, r, d);
      NothingMissingIff(d);
      CompleteIsComplete(sha, d);
      var i :| 0 <= i < d.totalChunks && i !in B.Marked(d.bitmap);
      SettledAtEnd(cfg, r, d, i);
    }
  }

  lemma WorkMeansChunks(cfg: Config, r: Run, d: Download)
    requires RunOk(cfg, r, d) && r.phase.Working?
    ensures d.totalChunks > 0
  {
    assert r.initial[0] in r.initial;
  }

  lemma {:induction false} FailuresAreNamed(cfg: Config, sha: Sha, trace: seq<State>, steps: seq<Step>, k: nat)
    requires cfg.maxConcurrentChunks >= 1 && cfg.maxRetries >= 1
    requires IsTrace(cfg, sha, trace, steps) && k <= |steps| && FailureNamed(trace[0].download)
    ensures FailureNamed(trace[k].download)
  {
    hide IsTrace, Inv, Enabled, Next;
    TraceStart(cfg, sha, trace, steps);
    if k > 0 {
      TraceStep(cfg, sha, trace, steps, k - 1);
      FailuresAreNamed(cfg, sha, trace, steps, k - 1);
      TraceKeepsInv(cfg, sha, trace, steps, k - 1);
      StepNamesFailure(cfg, sha, trace[k - 1], steps[k - 1]);
    }
  }

  /**
   A failed download says which chunk failed, in every interleaving, exactly for workable settings.
   (A stored record may say Failed from the start; it must then name a chunk itself.)
   */
  lemma FailuresAreNamedIff(cfg: Config, sha: Sha)
    ensures (forall trace: seq<State>, steps ::
               IsTrace(cfg, sha, trace, steps) && FailureNamed(trace[0].download) ==>
                 FailureNamed(trace[|trace| - 1].download)) <==>
            cfg.maxConcurrentChunks >= 1 && cfg.maxRetries >= 1
  {
    if cfg.maxConcurrentChunks >= 1 && cfg.maxRetries >= 1 {
      forall trace: seq<State>, steps | IsTrace(cfg, sha, trace, steps) && FailureNamed(trace[0].download)
        ensures FailureNamed(trace[|trace| - 1].download)
      {
        FailuresAreNamed(cfg, sha, trace, steps, |steps|);
      }
    } else {
      var trace, steps := SilentFailure(cfg, sha);
    }
  }

  lemma OneChunkMissing(d: Download)
    requires d.totalChunks == 1 && d.bitmap == [0]
    ensures Missing(d) == [0] && !IsComplete(d)
  {
    assert B.Marked([0]) == {} by {
      forall i: nat ensures i !in B.Marked([0]) {
        B.MarkedIff([0], i);
      }
    }
    assert B.Unmarked({}, 1) == [0];
  }

  lemma OneState(cfg: Config, sha: Sha, total: nat, hasPeers: bool)
    ensures IsTrace(cfg, sha, [Start(total, hasPeers)], [])
  {
  }

  lemma Extend(cfg: Config, sha: Sha, trace: seq<State>, steps: seq<Step>, s: State, step: Step)
    returns (trace': seq<State>, steps': seq<Step>, s': State)
    requires IsTrace(cfg, sha, trace, steps) && trace[|trace| - 1] == s && Enabled(cfg, s, step)
    ensures IsTrace(cfg, sha, trace', steps') && trace'[|trace'| - 1] == s' == Next(cfg, sha, s, step)
    ensures trace <= trace' && trace[0] == trace'[0] && steps' == steps + [step]
  {
    hide Enabled, Next;
    s' := Next(cfg, sha, s, step);
    trace', steps' := trace + [s'], steps + [step];
  }

  /** A download of one chunk whose run has gone to work. */
  ghost function OneChunkBegun(cfg: Config): State {
    State(Start(1, true).download, Some(0),
          [Run(Working, true, false, [0], if cfg.maxConcurrentChunks >= 1 then [Idle] else [], {}, [0], map[], map[])])
  }

  lemma BeginOneChunk(cfg: Config, sha: Sha) returns (trace: seq<State>, steps: seq<Step>)
    ensures IsTrace(cfg, sha, trace, steps) && steps == [Begin(0)] && trace[|trace| - 1] == OneChunkBegun(cfg)
    ensures trace[0].download.status.Active?
  {
    hide Missing, IsComplete, IsTrace;
    var s := Start(1, true);
    OneChunkMissing(s.download);
    OneState(cfg, sha, 1, true);
    trace, steps, s := Extend(cfg, sha, [s], [], s, Begin(0));
    assert s.runs[0].workers == OneChunkBegun(cfg).runs[0].workers;
  }

  /** One chunk, and either no worker to fetch it or no attempt allowed. */
  lemma SilentFailure(cfg: Config, sha: Sha) returns (trace: seq<State>, steps: seq<Step>)
    requires cfg.maxConcurrentChunks < 1 || cfg.maxRetries < 1
    ensures IsTrace(cfg, sha, trace, steps) && trace[0].download.status.Active?
    ensures !FailureNamed(trace[|trace| - 1].download)
  {
    hide Missing, IsComplete, IsTrace;
    trace, steps := BeginOneChunk(cfg, sha);
    var s := OneChunkBegun(cfg);
    OneChunkMissing(s.download);
    if cfg.maxConcurrentChunks >= 1 {
      trace, steps, s := Extend(cfg, sha, trace, steps, s, Take(0, 0));
      assert s.runs[0].workers == [Busy(0, 0)];
      trace, steps, s := Extend(cfg, sha, trace, steps, s, GiveUp(0, 0));
      assert s.runs[0].workers == [Idle] && s.runs[0].chunkErrors == {};
      trace, steps, s := Extend(cfg, sha, trace, steps, s, Leave(0, 0));
      assert s.runs[0].workers == [Gone];
    }
    trace, steps, s := Extend(cfg, sha, trace, steps, s, Finish(0, 0));
  }
}
