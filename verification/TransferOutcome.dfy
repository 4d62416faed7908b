/**
 What a run of a download achieves (internal/p2p/transfer.go): which chunks it fetches, when it
 completes or fails the download, what an error says, and what pausing and cancelling stop.
 */
module TransferOutcome {
  import opened Common
  import opened Transfer
  import B = Bitmap

  ghost predicate AllMarked(d: Download) {
    forall i :: 0 <= i < d.totalChunks ==> i in B.Marked(d.bitmap)
  }

  // ---------------------------------------------------------------------------------
  // The end of a run
  // ---------------------------------------------------------------------------------

  /**
   When the workers of a run are done, the download is Completed if and only if every chunk is
   there. Otherwise it is Failed, with one of the run's errors if there is one, unless the run was
   cancelled: then the record stays as it is.
   */
  lemma FinishDecides(cfg: Config, sha: Sha, trace: seq<State>, steps: seq<Step>, k: nat)
    requires IsTrace(cfg, sha, trace, steps) && k < |steps| && steps[k].Finish?
    ensures var d, d', r := trace[k].download, trace[k + 1].download, trace[k].runs[steps[k].run];
            && d'.bitmap == d.bitmap
            && (AllMarked(d) ==> d'.status.Completed?)
            && (!AllMarked(d) && r.cancelled ==> d' == d && !d'.status.Completed?)
            && (!AllMarked(d) && !r.cancelled ==>
                  d'.status.Failed? && (r.chunkErrors != {} ==> d'.error.Some? && d'.error.value in r.chunkErrors))
  {
    hide IsTrace, B.Marked, B.Unmarked, B.Completed, QueueOk, HandsOk, SettledOk, WorkerCount;
    TraceKeepsInv(cfg, sha, trace, steps, k);
    TraceStep(cfg, sha, trace, steps, k);
    var d := trace[k].download;
    WorkMeansChunks(cfg, trace[k].runs[steps[k].run], d);
    NothingMissingIff(d);
    CompleteIsComplete(sha, d);
  }

  /** A run fetches exactly the chunks missing when it begins; if there are none the download is Completed. */
  lemma BeginFetchesMissing(cfg: Config, sha: Sha, trace: seq<State>, steps: seq<Step>, k: nat)
    requires IsTrace(cfg, sha, trace, steps) && k < |steps| && steps[k].Begin?
    ensures var d, s' := trace[k].download, trace[k + 1];
            var r' := s'.runs[steps[k].run];
            && (AllMarked(d) ==> s'.download.status.Completed? && r'.phase.Ended? && r'.initial == [])
            && (!AllMarked(d) ==>
                  && s'.download == d && r'.phase.Working? && r'.queue == r'.initial
                  && (forall i :: i in r'.initial <==> 0 <= i < d.totalChunks && i !in B.Marked(d.bitmap))
                  && (forall x :: x in r'.workers ==> x.Idle?)
                  && |r'.workers| <= |r'.initial|
                  && (|r'.workers| < |r'.initial| && cfg.maxConcurrentChunks >= 0 ==>
                        |r'.workers| == cfg.maxConcurrentChunks)
                  && (|r'.workers| > cfg.maxConcurrentChunks ==> r'.workers == []))
  {
    hide IsTrace, B.Marked, B.Unmarked;
    TraceKeepsInv(cfg, sha, trace, steps, k);
    TraceStep(cfg, sha, trace, steps, k);
    var d := trace[k].download;
    assert RunOk(cfg, trace[k].runs[steps[k].run], d);
    NothingMissingIff(d);
    B.UnmarkedIsComplement(B.Marked(d.bitmap), d.totalChunks);
  }

  // ---------------------------------------------------------------------------------
  // Attempts
  // ---------------------------------------------------------------------------------

  /** An attempt marks the chunk in hand exactly if the reply is not empty and has the hash it claims. */
  lemma AttemptMarks(cfg: Config, sha: Sha, trace: seq<State>, steps: seq<Step>, k: nat)
    requires IsTrace(cfg, sha, trace, steps) && k < |steps| && steps[k].Attempt?
    ensures var d, d', reply := trace[k].download, trace[k + 1].download, steps[k].reply;
            var good := reply.Some? && reply.value.data != [] && sha(reply.value.data) == reply.value.hash;
            var i := trace[k].runs[steps[k].run].workers[steps[k].worker].index;
            && (forall j :: j in B.Marked(d'.bitmap) <==> j in B.Marked(d.bitmap) || (good && j == i))
            && (good ==> i in d'.received && d'.received[i] == reply.value)
  {
    hide IsTrace, B.Marked, B.Unmarked, B.WithBit, QueueOk, HandsOk, SettledOk, WorkerCount;
    TraceKeepsInv(cfg, sha, trace, steps, k);
    TraceStep(cfg, sha, trace, steps, k);
    var s, step := trace[k], steps[k];
    HeldIsChunk(cfg, s.runs[step.run], step.worker, s.download);
    var i := s.runs[step.run].workers[step.worker].index;
    if step.reply.Some? && VerifyChunk(sha, step.reply.value) {
      MarkKeepsDownload(sha, s.download, i, step.reply.value);
    }
  }

  /** The step is not an attempt of run `r`, or it gets what it asked for. */
  ghost predicate Answered(sha: Sha, step: Step, r: nat) {
    step.Attempt? && step.run == r ==>
      step.reply.Some? && step.reply.value.data != [] && sha(step.reply.value.data) == step.reply.value.hash
  }

  /** No attempt of the run has failed so far. */
  ghost predicate Flawless(r: Run) {
    r.hasPeers ==>
      && r.chunkErrors == {}
      && forall w :: 0 <= w < |r.workers| && r.workers[w].Busy? ==> r.workers[w].tried == 0
  }

  lemma StepKeepsFlawless(cfg: Config, sha: Sha, s: State, step: Step, r: nat)
    requires cfg.maxRetries >= 1 && Enabled(cfg, s, step) && Answered(sha, step, r)
    requires r < |s.runs| ==> Flawless(s.runs[r])
    ensures r < |Next(cfg, sha, s, step).runs| ==> Flawless(Next(cfg, sha, s, step).runs[r])
  {
    hide Missing, IsComplete, B.WithBit;
  }

  lemma {:induction false} AnsweredIsFlawless(
    cfg: Config, sha: Sha, trace: seq<State>, steps: seq<Step>, k: nat, r: nat)
    requires IsTrace(cfg, sha, trace, steps) && k <= |steps| && cfg.maxRetries >= 1
    requires forall i :: 0 <= i < k ==> Answered(sha, steps[i], r)
    ensures r < |trace[k].runs| ==> Flawless(trace[k].runs[r])
  {
    hide IsTrace, Inv, Enabled, Next, Answered;
    TraceStart(cfg, sha, trace, steps);
    if k > 0 {
      hide Flawless;
      TraceStep(cfg, sha, trace, steps, k - 1);
      AnsweredIsFlawless(cfg, sha, trace, steps, k - 1, r);
      StepKeepsFlawless(cfg, sha, trace[k - 1], steps[k - 1], r);
    }
  }

  /**
   A run that is not cancelled, has peers and gets a valid reply to each request completes the
   download, whatever callers and other runs do meanwhile.
   */
  lemma GoodRepliesComplete(cfg: Config, sha: Sha, trace: seq<State>, steps: seq<Step>, k: nat)
    requires IsTrace(cfg, sha, trace, steps) && k < |steps| && steps[k].Finish?
    requires Sound(cfg, trace[k].runs[steps[k].run]) && trace[k].runs[steps[k].run].hasPeers
    requires forall i :: 0 <= i < k ==> Answered(sha, steps[i], steps[k].run)
    ensures trace[k + 1].download.status.Completed?
  {
    var r, d := trace[k].runs[steps[k].run], trace[k].download;
    AnsweredIsFlawless(cfg, sha, trace, steps, k, steps[k].run);
    FinishDecides(cfg, sha, trace, steps, k);
    hide IsTrace, B.Marked, Enabled, QueueOk, HandsOk, SettledOk, WorkerCount;
    TraceKeepsInv(cfg, sha, trace, steps, k);
    forall i | 0 <= i < d.totalChunks ensures i in B.Marked(d.bitmap) {
      if i !in B.Marked(d.bitmap) {
        assert RunOk(cfg, r, d);
        NothingLost(cfg, sha, trace, steps, k, i);
      }
    }
  }

  // ---------------------------------------------------------------------------------
  // Errors
  // ---------------------------------------------------------------------------------

  /** A chunk has an error only if the run took it, used up its attempts (or had no peer), and let it go. */
  ghost predicate ErrorsEarned(cfg: Config, r: Run) {
    && (forall i :: i in r.chunkErrors ==>
          i in r.takenBy && i in r.tries && (r.hasPeers ==> cfg.maxRetries >= 1 && r.tries[i] == cfg.maxRetries))
    && (forall w :: 0 <= w < |r.workers| && r.workers[w].Busy? ==> r.workers[w].index !in r.chunkErrors)
  }

  lemma BeginEarns(cfg: Config, r: Run, d: Download, missing: seq<int>)
    requires RunOk(cfg, r, d) && r.phase.Starting?
    ensures ErrorsEarned(cfg, BeginRun(cfg, r, missing))
  {
  }

  lemma TakeEarns(cfg: Config, r: Run, w: nat, d: Download)
    requires RunOk(cfg, r, d) && r.phase.Working? && w < |r.workers| && r.workers[w].Idle? && r.queue != []
    requires ErrorsEarned(cfg, r)
    ensures ErrorsEarned(cfg, TakeNext(r, w))
  {
    hide SettledOk, WorkerCount, B.Marked;
    TakeKeeps(cfg, r, w, d);
  }

  lemma DropEarns(cfg: Config, r: Run, w: nat, failed: bool, d: Download)
    requires RunOk(cfg, r, d) && r.phase.Working? && w < |r.workers| && r.workers[w].Busy?
    requires failed && r.hasPeers ==> r.workers[w].tried >= cfg.maxRetries && r.workers[w].tried > 0
    requires ErrorsEarned(cfg, r)
    ensures ErrorsEarned(cfg, Dropped(r, w, failed))
  {
    hide QueueOk, SettledOk, WorkerCount, B.Marked;
  }

  lemma TryEarns(cfg: Config, r: Run, w: nat, success: bool)
    requires w < |r.workers| && r.workers[w].Busy? && ErrorsEarned(cfg, r)
    ensures ErrorsEarned(cfg, Tried(r, w, success))
  {
  }

  lemma StepEarns(cfg: Config, sha: Sha, s: State, step: Step, r: nat)
    requires Inv(cfg, sha, s) && Enabled(cfg, s, step) && (r < |s.runs| ==> ErrorsEarned(cfg, s.runs[r]))
    ensures r < |Next(cfg, sha, s, step).runs| ==> ErrorsEarned(cfg, Next(cfg, sha, s, step).runs[r])
  {
    hide Missing, IsComplete, B.WithBit, RunOk, DownloadOk;
    if !step.Resume? && !step.Pause? && !step.Cancel? && step.run == r {
      var run, d := s.runs[r], s.download;
      match step
      case Begin(_) => BeginEarns(cfg, run, d, Missing(d));
      case Take(_, w) => TakeEarns(cfg, run, w, d);
      case Leave(_, w) =>
      case Attempt(_, w, reply) => TryEarns(cfg, run, w, reply.Some? && VerifyChunk(sha, reply.value));
      case NoPeer(_, w) => DropEarns(cfg, run, w, true, d);
      case GiveUp(_, w) => DropEarns(cfg, run, w, run.workers[w].tried > 0, d);
      case Finish(_, _) =>
      case Remove(_) =>
    }
  }

  /** A chunk error means that the run asked for the chunk as often as allowed, or had nobody to ask. */
  lemma {:induction false} ErrorsAreEarned(cfg: Config, sha: Sha, trace: seq<State>, steps: seq<Step>, k: nat, r: nat)
    requires IsTrace(cfg, sha, trace, steps) && k <= |steps|
    ensures r < |trace[k].runs| ==> ErrorsEarned(cfg, trace[k].runs[r])
  {
    hide IsTrace, Inv, Enabled, Next;
    TraceStart(cfg, sha, trace, steps);
    if k > 0 {
      hide ErrorsEarned;
      TraceStep(cfg, sha, trace, steps, k - 1);
      TraceKeepsInv(cfg, sha, trace, steps, k - 1);
      ErrorsAreEarned(cfg, sha, trace, steps, k - 1, r);
      StepEarns(cfg, sha, trace[k - 1], steps[k - 1], r);
    }
  }

  // ---------------------------------------------------------------------------------
  // Pause, cancel and resume
  // ---------------------------------------------------------------------------------

  lemma {:induction false} RecordIsRun(cfg: Config, sha: Sha, trace: seq<State>, steps: seq<Step>, k: nat)
    requires IsTrace(cfg, sha, trace, steps) && k <= |steps|
    ensures trace[k].current.Some? ==> trace[k].current.value < |trace[k].runs|
  {
    if k > 0 {
      hide IsTrace, Missing, IsComplete;
      TraceStep(cfg, sha, trace, steps, k - 1);
      RecordIsRun(cfg, sha, trace, steps, k - 1);
    }
  }

  /** What the caller's operations do: stop the run on record, or start one if there is none. */
  lemma CallersDecide(cfg: Config, sha: Sha, trace: seq<State>, steps: seq<Step>, k: nat)
    requires IsTrace(cfg, sha, trace, steps) && k < |steps|
    requires steps[k].Pause? || steps[k].Cancel? || steps[k].Resume?
    ensures var s, s' := trace[k], trace[k + 1];
            && s'.download.bitmap == s.download.bitmap
            && (steps[k].Pause? && s.current.Some? ==>
                  && s'.download == s.download.(status := Paused) && s'.current == s.current
                  && s.current.value < |s'.runs| && s'.runs[s.current.value].cancelled)
            && (steps[k].Cancel? && s.current.Some? ==>
                  && s'.download == s.download && s'.current == None
                  && s.current.value < |s'.runs| && s'.runs[s.current.value].cancelled)
            && (steps[k].Resume? && s.current.None? ==>
                  && s'.download.status.Active? && s'.download.error == None && s'.current == Some(|s.runs|)
                  && |s'.runs| == |s.runs| + 1 && s'.runs[..|s.runs|] == s.runs
                  && s'.runs[|s.runs|].phase.Starting? && !s'.runs[|s.runs|].cancelled
                  && s'.runs[|s.runs|].hasPeers == steps[k].hasPeers)
            && ((steps[k].Resume? <==> s.current.Some?) ==> s' == s)
  {
    hide IsTrace;
    TraceStep(cfg, sha, trace, steps, k);
    RecordIsRun(cfg, sha, trace, steps, k);
  }

  /** What a worker has in hand now, it had in hand before. */
  ghost predicate NoNewChunk(was: seq<Worker>, now: seq<Worker>) {
    forall w :: 0 <= w < |now| && now[w].Busy? ==> w < |was| && was[w].Busy? && was[w].index == now[w].index
  }

  lemma StillNoNewChunk(first: seq<Worker>, mid: seq<Worker>, now: seq<Worker>)
    requires NoNewChunk(first, mid) && NoNewChunk(mid, now)
    ensures NoNewChunk(first, now)
  {
  }

  lemma CancelledStep(cfg: Config, sha: Sha, s: State, step: Step, r: nat)
    requires Enabled(cfg, s, step) && r < |s.runs| && s.runs[r].cancelled
    ensures r < |Next(cfg, sha, s, step).runs|
    ensures var r' := Next(cfg, sha, s, step).runs[r];
            r'.cancelled && NoNewChunk(s.runs[r].workers, r'.workers)
  {
    hide Missing, IsComplete, B.WithBit;
  }

  /** A cancelled run stays cancelled, and its workers start on no other chunk. */
  lemma {:induction false} CancelledStartsNothing(
    cfg: Config, sha: Sha, trace: seq<State>, steps: seq<Step>, j: nat, k: nat, r: nat)
    requires IsTrace(cfg, sha, trace, steps) && j <= k <= |steps| && r < |trace[j].runs| && trace[j].runs[r].cancelled
    ensures r < |trace[k].runs| && trace[k].runs[r].cancelled
    ensures NoNewChunk(trace[j].runs[r].workers, trace[k].runs[r].workers)
  {
    hide IsTrace, Inv, Enabled, Next;
    TraceStart(cfg, sha, trace, steps);
    if j < k {
      hide NoNewChunk;
      TraceStep(cfg, sha, trace, steps, k - 1);
      CancelledStartsNothing(cfg, sha, trace, steps, j, k - 1, r);
      CancelledStep(cfg, sha, trace[k - 1], steps[k - 1], r);
      StillNoNewChunk(trace[j].runs[r].workers, trace[k - 1].runs[r].workers, trace[k].runs[r].workers);
    }
  }

  lemma InitialStays(cfg: Config, sha: Sha, s: State, step: Step, r: nat)
    requires Enabled(cfg, s, step) && r < |s.runs| && !s.runs[r].phase.Starting?
    ensures r < |Next(cfg, sha, s, step).runs|
    ensures var r' := Next(cfg, sha, s, step).runs[r];
            !r'.phase.Starting? && r'.initial == s.runs[r].initial
  {
    hide Missing, IsComplete, B.WithBit;
  }

  lemma {:induction false} InitialKept(
    cfg: Config, sha: Sha, trace: seq<State>, steps: seq<Step>, b: nat, k: nat, r: nat)
    requires IsTrace(cfg, sha, trace, steps) && b <= k <= |steps|
    requires r < |trace[b].runs| && !trace[b].runs[r].phase.Starting?
    ensures r < |trace[k].runs| && !trace[k].runs[r].phase.Starting?
    ensures trace[k].runs[r].initial == trace[b].runs[r].initial
  {
    hide IsTrace, Inv, Enabled, Next;
    TraceStart(cfg, sha, trace, steps);
    if b < k {
      TraceStep(cfg, sha, trace, steps, k - 1);
      InitialKept(cfg, sha, trace, steps, b, k - 1, r);
      InitialStays(cfg, sha, trace[k - 1], steps[k - 1], r);
    }
  }

  /** A run never fetches a chunk that was there when it began: resuming goes on where the last run stopped. */
  lemma ResumeSkipsDone(
    cfg: Config, sha: Sha, trace: seq<State>, steps: seq<Step>, b: nat, k: nat, i: int)
    requires IsTrace(cfg, sha, trace, steps) && b < k <= |steps| && steps[b].Begin?
    requires steps[b].run < |trace[k].runs| && i in trace[k].runs[steps[b].run].takenBy
    ensures 0 <= i < trace[b].download.totalChunks && i !in B.Marked(trace[b].download.bitmap)
  {
    var r := steps[b].run;
    TraceStep(cfg, sha, trace, steps, b);
    BeginFetchesMissing(cfg, sha, trace, steps, b);
    hide IsTrace, B.Marked, Next, Enabled, HandsOk, SettledOk, WorkerCount;
    InitialKept(cfg, sha, trace, steps, b + 1, k, r);
    TraceKeepsInv(cfg, sha, trace, steps, k);
    TakenIsInitial(cfg, trace[k].runs[r], trace[k].download, i);
  }

  lemma TakenIsInitial(cfg: Config, r: Run, d: Download, i: int)
    requires RunOk(cfg, r, d) && !r.phase.Starting? && i in r.takenBy
    ensures i in r.initial
  {
  }
}
