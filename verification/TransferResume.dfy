/**
 When a download may be resumed (internal/p2p/transfer.go). A run deletes the manager's record by
 download ID on its way out, whichever run the record is then about, so resuming while an earlier
 run is still winding down can leave the new one without a record.
 */
module TransferResume {
  import opened Common
  import opened Transfer
  import opened TransferProgress
  import B = Bitmap

  ghost predicate Live(r: Run) {
    !r.cancelled && !r.phase.Ended?
  }

  /** Pause and cancel can reach every run that is still allowed to work. */
  ghost predicate Tracked(s: State) {
    forall r :: 0 <= r < |s.runs| && Live(s.runs[r]) ==> s.current == Some(r)
  }

  /** The run has ended, or will as soon as it looks for missing chunks; that end leaves the record alone. */
  ghost predicate Spent(s: State, r: nat) {
    r < |s.runs| ==> s.runs[r].phase.Ended? || (s.runs[r].phase.Starting? && Missing(s.download) == [])
  }

  ghost predicate AllSpent(s: State) {
    forall r :: 0 <= r < |s.runs| ==> Spent(s, r)
  }

  /** A download that is not on record is resumed only when its earlier runs are spent. */
  ghost predicate Patient(s: State, step: Step) {
    step.Resume? && s.current.None? ==> AllSpent(s)
  }

  /** The steps from number `low` on are patient. */
  ghost predicate PatientFrom(trace: seq<State>, steps: seq<Step>, low: nat) {
    |trace| == |steps| + 1 && forall i :: low <= i < |steps| ==> Patient(trace[i], steps[i])
  }

  // ---------------------------------------------------------------------------------
  // Patient callers lose no run
  // ---------------------------------------------------------------------------------

  ghost predicate OnlyLastLives(s: State) {
    && (forall r :: 0 <= r < |s.runs| - 1 ==> Spent(s, r))
    && (s.current.Some? ==> s.current.value == |s.runs| - 1)
    && Tracked(s)
  }

  lemma NothingMissingStays(cfg: Config, sha: Sha, s: State, step: Step)
    requires Inv(cfg, sha, s) && Enabled(cfg, s, step) && Missing(s.download) == []
    ensures Missing(Next(cfg, sha, s, step).download) == []
  {
    hide Inv, Enabled, Next, DownloadOk, B.Marked, Missing;
    StepKeepsDownload(cfg, sha, s, step);
    NothingMissingIff(s.download);
    NothingMissingIff(Next(cfg, sha, s, step).download);
  }

  lemma PatientStepKeepsTrack(cfg: Config, sha: Sha, s: State, step: Step)
    requires Inv(cfg, sha, s) && OnlyLastLives(s) && Enabled(cfg, s, step) && Patient(s, step)
    ensures OnlyLastLives(Next(cfg, sha, s, step))
  {
    hide Inv, Missing, IsComplete, B.WithBit;
    var s' := Next(cfg, sha, s, step);
    if Missing(s.download) == [] {
      NothingMissingStays(cfg, sha, s, step);
    }
    forall r | 0 <= r < |s'.runs| - 1 ensures Spent(s', r) {
      assert Spent(s, r);
    }
    assert step.Remove? ==> !Spent(s, step.run);
  }

  lemma {:induction false} PatientRunsAreTracked(cfg: Config, sha: Sha, trace: seq<State>, steps: seq<Step>, k: nat)
    requires IsTrace(cfg, sha, trace, steps) && k <= |steps| && PatientFrom(trace, steps, 0)
    ensures OnlyLastLives(trace[k])
  {
    if k > 0 {
      hide IsTrace, Enabled, Next, OnlyLastLives, Inv;
      TraceStep(cfg, sha, trace, steps, k - 1);
      TraceKeepsInv(cfg, sha, trace, steps, k - 1);
      PatientRunsAreTracked(cfg, sha, trace, steps, k - 1);
      PatientStepKeepsTrack(cfg, sha, trace[k - 1], steps[k - 1]);
    }
  }

  // ---------------------------------------------------------------------------------
  // Every other resume can lose one
  // ---------------------------------------------------------------------------------

  /** A step of an unspent run leads towards the removal of the record, and leaves the other runs alone. */
  lemma UnspentMovesOn(cfg: Config, sha: Sha, s: State, step: Step, r: nat, q: nat)
    requires Enabled(cfg, s, step) && Own(step, r) && r < |s.runs| && !Spent(s, r) && q < |s.runs| && q != r
    ensures var s' := Next(cfg, sha, s, step);
            && r < |s'.runs| == |s.runs| && s'.runs[q] == s.runs[q]
            && if s.runs[r].phase.Checked? then s'.current.None? else !Spent(s', r)
  {
    hide Missing, IsComplete, B.WithBit;
  }

  /** By its own steps alone, an unspent run takes the record away from a live one. */
  lemma {:induction false} UnspentRemovesRecord(
    cfg: Config, sha: Sha, trace: seq<State>, steps: seq<Step>, s: State, r: nat, q: nat)
    returns (trace': seq<State>, steps': seq<Step>)
    requires IsTrace(cfg, sha, trace, steps) && trace[|trace| - 1] == s
    requires r < |s.runs| && !Spent(s, r) && q < |s.runs| && q != r && Live(s.runs[q])
    ensures IsTrace(cfg, sha, trace', steps') && trace <= trace' && steps <= steps'
    ensures forall i :: |steps| <= i < |steps'| ==> Own(steps'[i], r)
    ensures !Tracked(trace'[|trace'| - 1])
    decreases Remaining(cfg, s, r)
  {
    hide IsTrace, Enabled, Next, Missing, Remaining;
    NeverStuck(cfg, s, r);
    var step :| Own(step, r) && Enabled(cfg, s, step);
    var s';
    trace', steps', s' := Extend(cfg, sha, trace, steps, s, step);
    StepUsesWork(cfg, sha, s, step, r);
    UnspentMovesOn(cfg, sha, s, step, r, q);
    if !s.runs[r].phase.Checked? {
      trace', steps' := UnspentRemovesRecord(cfg, sha, trace', steps', s', r, q);
    }
  }

  /** A continuation of `steps` that begins with a resume and is patient from then on. */
  ghost predicate ResumedFrom(
    cfg: Config, sha: Sha, steps: seq<Step>, hasPeers: bool, trace': seq<State>, steps': seq<Step>)
  {
    && IsTrace(cfg, sha, trace', steps') && PatientFrom(trace', steps', |steps| + 1)
    && steps + [Resume(hasPeers)] <= steps'
  }

  lemma UnspentLosesRun(cfg: Config, sha: Sha, trace: seq<State>, steps: seq<Step>, hasPeers: bool, r: nat)
    returns (trace': seq<State>, steps': seq<Step>)
    requires IsTrace(cfg, sha, trace, steps) && trace[|trace| - 1].current.None?
    requires r < |trace[|trace| - 1].runs| && !Spent(trace[|trace| - 1], r)
    ensures trace <= trace' && ResumedFrom(cfg, sha, steps, hasPeers, trace', steps')
    ensures !Tracked(trace'[|trace'| - 1])
  {
    hide IsTrace, B.Unmarked, B.Marked;
    TraceStart(cfg, sha, trace, steps);
    var s := trace[|trace| - 1];
    trace', steps', s := Extend(cfg, sha, trace, steps, s, Resume(hasPeers));
    trace', steps' := UnspentRemovesRecord(cfg, sha, trace', steps', s, r, |s.runs| - 1);
    TraceStart(cfg, sha, trace', steps');
  }

  /**
   After any patient trace, resuming a download that is not on record leaves every run within
   reach, whatever follows, exactly when all earlier runs are spent.
   */
  lemma ResumeIsSafeIff(cfg: Config, sha: Sha, trace: seq<State>, steps: seq<Step>, hasPeers: bool)
    requires IsTrace(cfg, sha, trace, steps) && PatientFrom(trace, steps, 0) && trace[|trace| - 1].current.None?
    ensures (forall trace', steps' :: trace <= trace' && ResumedFrom(cfg, sha, steps, hasPeers, trace', steps') ==>
               Tracked(trace'[|trace'| - 1])) <==>
            AllSpent(trace[|trace| - 1])
  {
    hide IsTrace, Spent, Tracked;
    var s := trace[|trace| - 1];
    if AllSpent(s) {
      forall trace', steps' | trace <= trace' && ResumedFrom(cfg, sha, steps, hasPeers, trace', steps')
        ensures Tracked(trace'[|trace'| - 1])
      {
        AllPatient(cfg, sha, trace, steps, hasPeers, trace', steps');
        PatientRunsAreTracked(cfg, sha, trace', steps', |steps'|);
      }
    } else {
      var r: nat :| r < |s.runs| && !Spent(s, r);
      var trace', steps' := UnspentLosesRun(cfg, sha, trace, steps, hasPeers, r);
    }
  }

  lemma AllPatient(cfg: Config, sha: Sha, trace: seq<State>, steps: seq<Step>, hasPeers: bool,
                   trace': seq<State>, steps': seq<Step>)
    requires PatientFrom(trace, steps, 0) && AllSpent(trace[|trace| - 1])
    requires trace <= trace' && ResumedFrom(cfg, sha, steps, hasPeers, trace', steps')
    ensures PatientFrom(trace', steps', 0)
  {
    hide IsTrace, Patient;
    forall i | 0 <= i < |steps'| ensures Patient(trace'[i], steps'[i]) {
      if i < |steps| {
        assert trace'[i] == trace[i] && steps'[i] == steps[i];
      } else if i == |steps| {
        assert trace'[i] == trace[i];
        SpentIsPatient(trace[i], steps'[i]);
      }
    }
  }

  lemma SpentIsPatient(s: State, step: Step)
    requires AllSpent(s)
    ensures Patient(s, step)
  {
  }

  /** The smallest case: one chunk, cancelled while being fetched and resumed before the run has removed itself. */
  lemma ImpatientResumeLosesRun(sha: Sha) returns (trace: seq<State>, steps: seq<Step>)
    ensures steps == [Begin(0), Cancel, Take(0, 0), Finish(0, 0), Resume(true), Remove(0)]
    ensures IsTrace(Config(4, 3), sha, trace, steps) && !Tracked(trace[|trace| - 1])
  {
    hide Missing, IsComplete, IsTrace;
    var cfg := Config(4, 3);
    trace, steps := BeginOneChunk(cfg, sha);
    var s := OneChunkBegun(cfg);
    trace, steps, s := Extend(cfg, sha, trace, steps, s, Cancel);
    trace, steps, s := Extend(cfg, sha, trace, steps, s, Take(0, 0));
    assert s.runs[0].workers == [Gone];
    trace, steps, s := Extend(cfg, sha, trace, steps, s, Finish(0, 0));
    trace, steps, s := Extend(cfg, sha, trace, steps, s, Resume(true));
    trace, steps, s := Extend(cfg, sha, trace, steps, s, Remove(0));
    assert Live(s.runs[1]) && s.current.None?;
  }
}
