/**
 Every run of a download (internal/p2p/transfer.go) does a bounded amount of work, in every
 interleaving with callers and with other runs.
 */
module TransferProgress {
  import opened Common
  import opened Transfer
  import B = Bitmap

  ghost function Attempts(cfg: Config): nat {
    if cfg.maxRetries > 0 then cfg.maxRetries else 0
  }

  /** Steps a worker can still take with what it has in hand. */
  ghost function Cost(cfg: Config, x: Worker): nat {
    match x
    case Idle => 1
    case Busy(_, tried) => if tried < cfg.maxRetries then cfg.maxRetries - tried + 2 else 2
    case Gone => 0
  }

  ghost function CostAll(cfg: Config, ws: seq<Worker>): nat {
    if ws == [] then 0 else CostAll(cfg, ws[..|ws| - 1]) + Cost(cfg, ws[|ws| - 1])
  }

  lemma {:induction false} CostUpdate(cfg: Config, ws: seq<Worker>, w: nat, x: Worker)
    requires w < |ws|
    ensures CostAll(cfg, ws[w := x]) == CostAll(cfg, ws) - Cost(cfg, ws[w]) + Cost(cfg, x)
  {
    var n := |ws| - 1;
    if w == n {
      assert ws[w := x][..n] == ws[..n];
    } else {
      assert ws[w := x][..n] == ws[..n][w := x];
      CostUpdate(cfg, ws[..n], w, x);
    }
  }

  lemma {:induction false} CostOfIdle(cfg: Config, n: nat)
    ensures CostAll(cfg, seq(n, _ => Idle)) == n
  {
    if n > 0 {
      var ws := seq(n, _ => Idle);
      assert ws[..n - 1] == seq(n - 1, _ => Idle);
      CostOfIdle(cfg, n - 1);
    }
  }

  /** Everything a run with that many chunks to fetch can do. */
  ghost function FullWork(cfg: Config, chunks: nat): nat {
    3 + chunks * (Attempts(cfg) + 2) + chunks
  }

  ghost function WorkLeft(cfg: Config, r: Run, total: nat): nat {
    match r.phase
    case Starting => FullWork(cfg, total)
    case Working => 2 + |r.queue| * (Attempts(cfg) + 2) + CostAll(cfg, r.workers)
    case Checked => 1
    case Ended => 0
  }

  ghost function Remaining(cfg: Config, s: State, r: nat): nat {
    if r < |s.runs| then WorkLeft(cfg, s.runs[r], s.download.totalChunks)
    else FullWork(cfg, s.download.totalChunks)
  }

  ghost predicate Own(step: Step, r: nat) {
    !step.Resume? && !step.Pause? && !step.Cancel? && step.run == r
  }

  lemma BeginCosts(cfg: Config, r: Run, d: Download)
    requires r.phase.Starting?
    ensures WorkLeft(cfg, BeginRun(cfg, r, Missing(d)), d.totalChunks) < WorkLeft(cfg, r, d.totalChunks)
  {
    B.UnmarkedSize(B.Marked(d.bitmap), d.totalChunks);
    var n := |Missing(d)|;
    CostOfIdle(cfg, WorkerCount(cfg, n));
    ProductMono(n, d.totalChunks, Attempts(cfg) + 2);
  }

  lemma ProductMono(a: nat, b: nat, c: nat)
    requires a <= b
    ensures a * c <= b * c
  {
  }

  lemma TakeCosts(cfg: Config, r: Run, w: nat, total: nat)
    requires r.phase.Working? && w < |r.workers| && r.workers[w].Idle? && r.queue != []
    ensures WorkLeft(cfg, TakeNext(r, w), total) < WorkLeft(cfg, r, total)
  {
    CostUpdate(cfg, r.workers, w, TakeNext(r, w).workers[w]);
    var c := Attempts(cfg) + 2;
    assert |r.queue| * c == (|r.queue| - 1) * c + c;
  }

  /** One worker got cheaper. */
  lemma WorkerCosts(cfg: Config, r: Run, r': Run, w: nat, total: nat)
    requires r.phase.Working? && r'.phase.Working? && r'.queue == r.queue && w < |r.workers| == |r'.workers|
    requires r'.workers == r.workers[w := r'.workers[w]] && Cost(cfg, r'.workers[w]) < Cost(cfg, r.workers[w])
    ensures WorkLeft(cfg, r', total) < WorkLeft(cfg, r, total)
  {
    CostUpdate(cfg, r.workers, w, r'.workers[w]);
  }

  /** Each step a run takes uses up work; no other step adds to it. */
  lemma StepUsesWork(cfg: Config, sha: Sha, s: State, step: Step, r: nat)
    requires Enabled(cfg, s, step)
    ensures Remaining(cfg, Next(cfg, sha, s, step), r) + (if Own(step, r) then 1 else 0) <= Remaining(cfg, s, r)
  {
    hide CostAll, FullWork, Missing, IsComplete, B.WithBit;
    if Own(step, r) {
      var run, total := s.runs[r], s.download.totalChunks;
      match step
      case Begin(_) => BeginCosts(cfg, run, s.download);
      case Take(_, w) => TakeCosts(cfg, run, w, total);
      case Leave(_, w) => WorkerCosts(cfg, run, SetWorker(run, w, Gone), w, total);
      case Attempt(_, w, reply) =>
        var good := reply.Some? && VerifyChunk(sha, reply.value);
        WorkerCosts(cfg, run, Tried(run, w, good), w, total);
      case NoPeer(_, w) => WorkerCosts(cfg, run, Dropped(run, w, true), w, total);
      case GiveUp(_, w) => WorkerCosts(cfg, run, Dropped(run, w, run.workers[w].tried > 0), w, total);
      case Finish(_, _) =>
      case Remove(_) =>
    }
  }

  ghost function OwnSteps(steps: seq<Step>, r: nat): nat {
    if steps == [] then 0 else
    OwnSteps(steps[..|steps| - 1], r) + (if Own(steps[|steps| - 1], r) then 1 else 0)
  }

  /**
   In every interleaving, a run takes a bounded number of steps: at most MaxRetries + 3 for each
   chunk of the download, and three for itself.
   */
  lemma {:induction false} RunsAreBounded(cfg: Config, sha: Sha, trace: seq<State>, steps: seq<Step>, k: nat, r: nat)
    requires IsTrace(cfg, sha, trace, steps) && k <= |steps|
    ensures trace[k].download.totalChunks == trace[0].download.totalChunks
    ensures OwnSteps(steps[..k], r) + Remaining(cfg, trace[k], r) <= FullWork(cfg, trace[0].download.totalChunks)
  {
    hide IsTrace, Inv, Enabled, Next, FullWork, DownloadOk, B.Marked;
    TraceStart(cfg, sha, trace, steps);
    if k == 0 {
      StartCosts(cfg, sha, trace, steps, r);
    } else {
      RunsAreBounded(cfg, sha, trace, steps, k - 1, r);
      TraceStep(cfg, sha, trace, steps, k - 1);
      TraceKeepsInv(cfg, sha, trace, steps, k - 1);
      StepKeepsDownload(cfg, sha, trace[k - 1], steps[k - 1]);
      StepUsesWork(cfg, sha, trace[k - 1], steps[k - 1], r);
      assert steps[..k][..k - 1] == steps[..k - 1];
    }
  }

  lemma StartCosts(cfg: Config, sha: Sha, trace: seq<State>, steps: seq<Step>, r: nat)
    requires IsTrace(cfg, sha, trace, steps)
    ensures Remaining(cfg, trace[0], r) == FullWork(cfg, trace[0].download.totalChunks)
  {
  }

  /** A run that has not ended can always take a step of its own, so with the bound it must end. */
  lemma NeverStuck(cfg: Config, s: State, r: nat)
    requires r < |s.runs| && !s.runs[r].phase.Ended?
    ensures exists step :: Own(step, r) && Enabled(cfg, s, step)
  {
    var run := s.runs[r];
    if run.phase.Starting? {
      assert Own(Begin(r), r) && Enabled(cfg, s, Begin(r));
    } else if run.phase.Checked? {
      assert Own(Remove(r), r) && Enabled(cfg, s, Remove(r));
    } else if w: nat :| w < |run.workers| && !run.workers[w].Gone? {
      var step := if run.workers[w].Idle? then (if run.queue != [] then Take(r, w) else Leave(r, w))
                  else if run.workers[w].tried >= cfg.maxRetries then GiveUp(r, w)
                  else if run.hasPeers then Attempt(r, w, None) else NoPeer(r, w);
      assert Own(step, r) && Enabled(cfg, s, step);
    } else {
      var reported := if i :| i in run.chunkErrors then i else 0;
      assert Own(Finish(r, reported), r) && Enabled(cfg, s, Finish(r, reported));
    }
  }
}
