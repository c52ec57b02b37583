/**
Who records a run's outcome, and what.

Three contenders race for one flag: the engine thread when its work ends, the signal task and the
staging task.  `Sys` follows each of them from the race to the process's exit.  For the check Job the
engine also records every step as it ends, each record behind a test of the flag that is a step of its
own, and moves the phase a stop will name.
*/
module Outcome {
  import opened Wrappers
  import opened Contenders

  // ----- the claim and the phase -----

  datatype Claimed = Claimed(flag: bool, won: bool)

  /** A swap of the flag: whoever finds it free wins, and it is taken from then on. */
  function TakeClaim(claimed: bool): Claimed {
    Claimed(true, !claimed)
  }

  class OutcomeClaim {
    var claimed: bool

    constructor ()
      ensures !claimed
    {
      claimed := false;
    }

    method Claim() returns (won: bool)
      modifies this
      ensures Claimed(claimed, won) == TakeClaim(old(claimed))
    {
      won := !claimed;
      claimed := true;
    }
  }

  datatype Phase = CheckPhase | PrunePhase | StatsPhase

  function Rank(p: Phase): nat {
    match p case CheckPhase => 0 case PrunePhase => 1 case StatsPhase => 2
  }

  // ----- the contenders -----

  datatype Mode = BackupJob | CheckJob

  /** What a stop writes to the status record: `NoRecord` when the step it would name is recorded already. */
  datatype StopRecord = BackupFailed | CheckFailed | PruneFailed | NoRecord

  function StopRecordFor(mode: Mode, phase: Phase): StopRecord {
    match mode
    case BackupJob => BackupFailed
    case CheckJob =>
      match phase case CheckPhase => CheckFailed case PrunePhase => PruneFailed case StatsPhase => NoRecord
  }

  datatype Stage = BackupWork | UnlockStage | CheckStage | PruneStage | StatsStage

  /** Where the engine thread is: at work, recording a step, moving the phase, or ending the run. */
  datatype Job =
    | Work(stage: Stage)
    | TestClaim(stage: Stage)
    | WriteStep(stage: Stage)
    | SetPhase(stage: Stage)
    | Claiming
    | Recording
    | Posting
    | Leaving
    | Parked

  datatype Task =
    | Watching
    | Lost
    | Stopping
    | Writing(record: StopRecord)
    | StopPosting
    | StopLeaving

  /** What reaches the outside as the run's outcome. */
  datatype Effect =
    | RunRecord(who: Contender)
    | StopRecorded(who: Contender, record: StopRecord)
    | Webhook(who: Contender)
    | Exit(who: Contender, code: int)

  /** `late` counts the engine's step records written after the outcome was claimed. */
  datatype Sys = Sys(
    mode: Mode,
    enforceCheck: bool,
    claimed: bool,
    winner: Option<Contender>,
    phase: Phase,
    job: Job,
    checkPassed: Option<bool>,
    workFailed: bool,
    late: nat,
    effects: seq<Effect>,
    signal: Task,
    staging: Task,
    exited: Option<int>)

  datatype Action =
    | WorkDone(ok: bool)
    | TestFlag
    | WriteStepRecord
    | MovePhase
    | EngineClaims
    | EngineRecords(written: bool)
    | EnginePosts(posted: bool)
    | EngineExits
    | Trigger(who: Stopper)
    | ReadPhase(who: Stopper)
    | StopWrites(who: Stopper, written: bool)
    | StopPosts(who: Stopper, posted: bool)
    | StopExits(who: Stopper)

  ghost predicate Init(s: Sys) {
    && !s.claimed && s.winner == None && s.phase == CheckPhase
    && s.job == Work(if s.mode == BackupJob then BackupWork else UnlockStage)
    && s.checkPassed == None && !s.workFailed && s.late == 0 && s.effects == []
    && s.signal == Watching && s.staging == Watching && s.exited == None
  }

  function TaskOf(s: Sys, who: Stopper): Task {
    match who case SignalTask => s.signal case StagingTask => s.staging
  }

  function WithTask(s: Sys, who: Stopper, t: Task): Sys {
    match who case SignalTask => s.(signal := t) case StagingTask => s.(staging := t)
  }

  /** The run's own verdict: its exit code, and whether it has a failure to post. */
  function EngineExitCode(s: Sys): int {
    match s.mode
    case BackupJob => if s.workFailed then 1 else 0
    case CheckJob => if s.checkPassed == Some(true) then 0 else 1
  }

  predicate EngineFailed(s: Sys) {
    s.workFailed || (s.mode == CheckJob && s.checkPassed != Some(true))
  }

  /** A stop ends the process with 1, a staging overrun with its own code. */
  function StopExitCode(who: Stopper): int {
    match who case SignalTask => 1 case StagingTask => 3
  }

  /** Where the engine goes once a step is recorded, or its record skipped. */
  function AfterRecord(s: Sys, stage: Stage): Job {
    match stage
    case CheckStage => if s.checkPassed == Some(true) then SetPhase(CheckStage) else Claiming
    case PruneStage => SetPhase(PruneStage)
    case _ => Claiming
  }

  predicate Enabled(s: Sys, a: Action) {
    s.exited.None? &&
    match a
    case WorkDone(_) => s.job.Work?
    case TestFlag => s.job.TestClaim?
    case WriteStepRecord => s.job.WriteStep?
    case MovePhase => s.job.SetPhase?
    case EngineClaims => s.job.Claiming?
    case EngineRecords(_) => s.job.Recording?
    case EnginePosts(posted) => s.job.Posting? && (posted ==> EngineFailed(s))
    case EngineExits => s.job.Leaving?
    case Trigger(w) => TaskOf(s, w).Watching?
    case ReadPhase(w) => TaskOf(s, w).Stopping?
    case StopWrites(w, written) => TaskOf(s, w).Writing? && (written ==> TaskOf(s, w).record != NoRecord)
    case StopPosts(w, _) => TaskOf(s, w).StopPosting?
    case StopExits(w) => TaskOf(s, w).StopLeaving?
  }

  predicate IsEngineAction(a: Action) {
    a.WorkDone? || a.TestFlag? || a.WriteStepRecord? || a.MovePhase? || a.EngineClaims? || a.EngineRecords? ||
    a.EnginePosts? || a.EngineExits?
  }

  function Apply(s: Sys, a: Action): Sys
    requires Enabled(s, a)
  {
    if IsEngineAction(a) then EngineStep(s, a) else StopStep(s, a)
  }

  function EngineStep(s: Sys, a: Action): Sys
    requires Enabled(s, a) && IsEngineAction(a)
  {
    match a
    case WorkDone(ok) =>
      (match s.job.stage
       case BackupWork => s.(workFailed := !ok, job := Claiming)
       case UnlockStage => s.(job := Work(CheckStage))
       case CheckStage => s.(checkPassed := Some(ok), job := TestClaim(CheckStage))
       case PruneStage => s.(workFailed := !ok, job := TestClaim(PruneStage))
       case StatsStage => s.(job := if ok then TestClaim(StatsStage) else Claiming))
    case TestFlag => s.(job := if s.claimed then AfterRecord(s, s.job.stage) else WriteStep(s.job.stage))
    case WriteStepRecord => s.(late := s.late + (if s.claimed then 1 else 0), job := AfterRecord(s, s.job.stage))
    case MovePhase =>
      if s.job.stage == CheckStage && s.enforceCheck then s.(phase := PrunePhase, job := Work(PruneStage))
      else s.(phase := StatsPhase, job := Work(StatsStage))
    case EngineClaims =>
      var c := TakeClaim(s.claimed);
      if c.won then
        s.(claimed := c.flag, winner := Some(Engine), job := if s.mode == BackupJob then Recording else Posting)
      else s.(claimed := c.flag, job := Parked)
    case EngineRecords(written) =>
      s.(effects := if written then s.effects + [RunRecord(Engine)] else s.effects, job := Posting)
    case EnginePosts(posted) =>
      s.(effects := if posted then s.effects + [Webhook(Engine)] else s.effects, job := Leaving)
    case EngineExits =>
      s.(effects := s.effects + [Exit(Engine, EngineExitCode(s))], exited := Some(EngineExitCode(s)))
  }

  function StopStep(s: Sys, a: Action): Sys
    requires Enabled(s, a) && !IsEngineAction(a)
  {
    match a
    case Trigger(w) =>
      var c := TakeClaim(s.claimed);
      if c.won then WithTask(s.(claimed := c.flag, winner := Some(Stop(w))), w, Stopping)
      else WithTask(s.(claimed := c.flag), w, Lost)
    case ReadPhase(w) => WithTask(s, w, Writing(StopRecordFor(s.mode, s.phase)))
    case StopWrites(w, written) =>
      WithTask(if written then s.(effects := s.effects + [StopRecorded(Stop(w), TaskOf(s, w).record)]) else s,
               w, StopPosting)
    case StopPosts(w, posted) =>
      WithTask(if posted then s.(effects := s.effects + [Webhook(Stop(w))]) else s, w, StopLeaving)
    case StopExits(w) =>
      s.(effects := s.effects + [Exit(Stop(w), StopExitCode(w))], exited := Some(StopExitCode(w)))
  }

  // ----- the invariant -----

  /** A contender that is past the race is the winner. */
  ghost predicate PastTheRace(s: Sys, who: Contender) {
    match who
    case Engine => s.job.Recording? || s.job.Posting? || s.job.Leaving?
    case Stop(w) => !TaskOf(s, w).Watching? && !TaskOf(s, w).Lost?
  }

  ghost predicate ClaimOk(s: Sys) {
    && (s.claimed <==> s.winner.Some?)
    && (PastTheRace(s, Engine) ==> s.winner == Some(Engine))
    && (PastTheRace(s, Stop(SignalTask)) ==> s.winner == Some(Stop(SignalTask)))
    && (PastTheRace(s, Stop(StagingTask)) ==> s.winner == Some(Stop(StagingTask)))
    && AllBy(s.effects, s.winner)
  }

  ghost predicate AllBy(effects: seq<Effect>, winner: Option<Contender>) {
    forall i :: 0 <= i < |effects| ==> winner == Some(effects[i].who)
  }

  /** Of the engine's records, only the one whose test came before the claim can be written after it. */
  ghost predicate LateOk(s: Sys) {
    && (s.late > 0 ==> s.claimed && !s.job.WriteStep?)
    && s.late <= 1
  }

  ghost predicate Passed(s: Sys) {
    s.checkPassed == Some(true)
  }

  /** The phase leaves `CheckPhase` only after a check that passed, and enters `PrunePhase` only to enforce. */
  ghost predicate PhaseOk(s: Sys) {
    && (s.phase != CheckPhase ==> Passed(s))
    && (s.phase == PrunePhase ==> s.enforceCheck)
    && (s.mode == BackupJob ==> s.phase == CheckPhase)
    && (match s.job
        case Work(st) => StageOk(s, st) && (st == CheckStage ==> s.checkPassed == None)
        case TestClaim(st) => StageOk(s, st) && (st == CheckStage ==> s.checkPassed.Some?)
        case WriteStep(st) => StageOk(s, st) && (st == CheckStage ==> s.checkPassed.Some?)
        case SetPhase(st) => StageOk(s, st) && Passed(s) && (st == CheckStage || st == PruneStage)
        case _ => true)
  }

  ghost predicate StageOk(s: Sys, st: Stage) {
    match st
    case BackupWork => s.mode == BackupJob
    case UnlockStage => s.mode == CheckJob && s.phase == CheckPhase && s.checkPassed == None
    case CheckStage => s.mode == CheckJob && s.phase == CheckPhase
    case PruneStage => s.mode == CheckJob && s.phase == PrunePhase && Passed(s)
    case StatsStage => s.mode == CheckJob && s.phase == StatsPhase && Passed(s)
  }

  /** What a stop has read, or written, names the prune only if this run's check passed under enforcement. */
  ghost predicate NamesThePrune(s: Sys, r: StopRecord) {
    r == PruneFailed ==> s.mode == CheckJob && s.enforceCheck && Passed(s)
  }

  ghost predicate RecordsOk(s: Sys) {
    && TaskNames(s, s.signal) && TaskNames(s, s.staging)
    && (forall i :: 0 <= i < |s.effects| ==> EffectNames(s, s.effects[i]))
  }

  ghost predicate TaskNames(s: Sys, t: Task) {
    t.Writing? ==> NamesThePrune(s, t.record)
  }

  ghost predicate EffectNames(s: Sys, e: Effect) {
    e.StopRecorded? ==> NamesThePrune(s, e.record)
  }

  /** The process ends once, with the winner's code. */
  ghost predicate ExitOk(s: Sys) {
    s.exited.Some? ==>
      && s.winner.Some?
      && s.exited.value == (match s.winner.value case Engine => EngineExitCode(s) case Stop(w) => StopExitCode(w))
      && (s.winner.value.Stop? ==> TaskOf(s, s.winner.value.who).StopLeaving?)
  }

  ghost predicate Inv(s: Sys) {
    ClaimOk(s) && LateOk(s) && PhaseOk(s) && RecordsOk(s) && ExitOk(s)
  }

  lemma InitInv(s: Sys)
    requires Init(s)
    ensures Inv(s)
  {
  }

  predicate IsWork(a: Action) {
    a.WorkDone? || a.TestFlag? || a.WriteStepRecord? || a.MovePhase?
  }

  /** Nothing the race is about is touched. */
  ghost predicate SameOutcome(s: Sys, s': Sys) {
    && s'.claimed == s.claimed && s'.winner == s.winner && s'.effects == s.effects && s'.exited == s.exited
    && s'.signal == s.signal && s'.staging == s.staging && !PastTheRace(s', Engine)
  }

  lemma WorkDoneLeavesOutcome(s: Sys, ok: bool)
    requires Enabled(s, WorkDone(ok))
    ensures SameOutcome(s, Apply(s, WorkDone(ok)))
  {
  }

  /** Until it claims, the engine touches nothing the race is about. */
  lemma WorkLeavesOutcome(s: Sys, a: Action)
    requires Enabled(s, a) && IsWork(a)
    ensures SameOutcome(s, Apply(s, a))
  {
    if a.WorkDone? {
      WorkDoneLeavesOutcome(s, a.ok);
    }
  }

  lemma EngineKeepsClaim(s: Sys, a: Action)
    requires ClaimOk(s) && Enabled(s, a) && IsEngineAction(a)
    ensures ClaimOk(Apply(s, a)) && ExitOk(Apply(s, a))
  {
    if IsWork(a) {
      WorkLeavesOutcome(s, a);
    } else if a.EngineClaims? {
      EngineClaimKeeps(s);
    } else {
      EngineEndKeeps(s, a);
    }
  }

  lemma EngineClaimKeeps(s: Sys)
    requires ClaimOk(s) && Enabled(s, EngineClaims)
    ensures ClaimOk(Apply(s, EngineClaims)) && ExitOk(Apply(s, EngineClaims))
  {
  }

  lemma EngineEndKeeps(s: Sys, a: Action)
    requires ClaimOk(s) && Enabled(s, a) && IsEngineAction(a) && !IsWork(a) && !a.EngineClaims?
    ensures ClaimOk(Apply(s, a)) && ExitOk(Apply(s, a))
  {
    assert PastTheRace(s, Engine);
  }

  lemma StopKeepsClaim(s: Sys, a: Action)
    requires ClaimOk(s) && Enabled(s, a) && !IsEngineAction(a)
    ensures ClaimOk(Apply(s, a)) && ExitOk(Apply(s, a))
  {
    match a.who
    case SignalTask => assert PastTheRace(s, Stop(SignalTask)) ==> s.winner == Some(Stop(SignalTask));
    case StagingTask => assert PastTheRace(s, Stop(StagingTask)) ==> s.winner == Some(Stop(StagingTask));
  }

  /** A stop's step leaves the engine's side alone. */
  lemma StopLeavesEngine(s: Sys, a: Action)
    requires Enabled(s, a) && !IsEngineAction(a)
    ensures var s' := Apply(s, a);
            && s'.mode == s.mode && s'.enforceCheck == s.enforceCheck && s'.phase == s.phase && s'.job == s.job
            && s'.checkPassed == s.checkPassed && s'.workFailed == s.workFailed && s'.late == s.late
            && (s.claimed ==> s'.claimed)
  {
  }

  /** The engine's step leaves the stops alone and forgets nothing a stop's record rests on. */
  lemma EngineLeavesStops(s: Sys, a: Action)
    requires PhaseOk(s) && Enabled(s, a) && IsEngineAction(a)
    ensures var s' := Apply(s, a);
            && s'.mode == s.mode && s'.enforceCheck == s.enforceCheck
            && s'.signal == s.signal && s'.staging == s.staging && (Passed(s) ==> Passed(s'))
  {
  }

  lemma EngineKeepsPhase(s: Sys, a: Action)
    requires PhaseOk(s) && Enabled(s, a) && IsEngineAction(a)
    ensures PhaseOk(Apply(s, a))
  {
  }

  lemma PhaseStays(s: Sys, s': Sys)
    requires PhaseOk(s) && s'.mode == s.mode && s'.enforceCheck == s.enforceCheck && s'.phase == s.phase
    requires s'.job == s.job && s'.checkPassed == s.checkPassed
    ensures PhaseOk(s')
  {
  }

  lemma StepKeepsPhase(s: Sys, a: Action)
    requires PhaseOk(s) && Enabled(s, a)
    ensures PhaseOk(Apply(s, a))
  {
    if IsEngineAction(a) {
      EngineKeepsPhase(s, a);
    } else {
      StopLeavesEngine(s, a);
      PhaseStays(s, Apply(s, a));
    }
  }

  lemma StepKeepsLate(s: Sys, a: Action)
    requires LateOk(s) && Enabled(s, a)
    ensures LateOk(Apply(s, a))
  {
    if !IsEngineAction(a) {
      StopLeavesEngine(s, a);
    }
  }

  /** What a step adds to the outside, at most one effect. */
  ghost predicate Adds(s: Sys, s': Sys) {
    || s'.effects == s.effects
    || exists e :: s'.effects == s.effects + [e] && EffectNames(s', e)
  }

  lemma RecordsStay(s: Sys, s': Sys)
    requires RecordsOk(s) && Adds(s, s') && (NamesThePrune(s, PruneFailed) ==> NamesThePrune(s', PruneFailed))
    requires TaskNames(s', s'.signal) && TaskNames(s', s'.staging)
    ensures RecordsOk(s')
  {
    forall i | 0 <= i < |s'.effects|
      ensures EffectNames(s', s'.effects[i])
    {
      if i < |s.effects| {
        assert s'.effects[i] == s.effects[i] && EffectNames(s, s.effects[i]);
      }
    }
  }

  lemma EngineAdds(s: Sys, a: Action)
    requires Enabled(s, a) && IsEngineAction(a)
    ensures Adds(s, Apply(s, a))
  {
    var s' := Apply(s, a);
    if s'.effects != s.effects {
      var e := s'.effects[|s'.effects| - 1];
      assert s'.effects == s.effects + [e] && EffectNames(s', e);
    }
  }

  lemma StopAdds(s: Sys, a: Action)
    requires Enabled(s, a) && !IsEngineAction(a) && TaskNames(s, TaskOf(s, a.who))
    ensures Adds(s, Apply(s, a))
  {
    var s' := Apply(s, a);
    if s'.effects != s.effects {
      var e := s'.effects[|s'.effects| - 1];
      assert s'.effects == s.effects + [e] && EffectNames(s', e);
    }
  }

  lemma StopTasksName(s: Sys, a: Action, w: Stopper)
    requires PhaseOk(s) && Enabled(s, a) && !IsEngineAction(a) && TaskNames(s, TaskOf(s, w))
    ensures TaskNames(s, TaskOf(Apply(s, a), w))
  {
    if a.who != w {
      OtherTaskStays(s, a, w);
    }
  }

  lemma OtherTaskStays(s: Sys, a: Action, w: Stopper)
    requires Enabled(s, a) && !IsEngineAction(a) && a.who != w
    ensures TaskOf(Apply(s, a), w) == TaskOf(s, w)
  {
  }

  lemma StepKeepsRecords(s: Sys, a: Action)
    requires PhaseOk(s) && RecordsOk(s) && Enabled(s, a)
    ensures RecordsOk(Apply(s, a))
  {
    if IsEngineAction(a) {
      EngineLeavesStops(s, a);
      EngineAdds(s, a);
    } else {
      StopLeavesEngine(s, a);
      StopAdds(s, a);
      StopTasksName(s, a, SignalTask);
      StopTasksName(s, a, StagingTask);
    }
    RecordsStay(s, Apply(s, a));
  }

  lemma StepKeepsInv(s: Sys, a: Action)
    requires Inv(s) && Enabled(s, a)
    ensures Inv(Apply(s, a))
  {
    if IsEngineAction(a) {
      EngineKeepsClaim(s, a);
    } else {
      StopKeepsClaim(s, a);
    }
    StepKeepsPhase(s, a);
    StepKeepsLate(s, a);
    StepKeepsRecords(s, a);
  }

  /** The phase never moves back, and a passed check stays passed. */
  lemma PhaseMovesOn(s: Sys, a: Action)
    requires Inv(s) && Enabled(s, a)
    ensures Rank(s.phase) <= Rank(Apply(s, a).phase)
    ensures Passed(s) ==> Passed(Apply(s, a))
  {
    if !IsEngineAction(a) {
      StopLeavesEngine(s, a);
    }
  }

  /** The winner stays the winner, and what has reached the outside stays there. */
  lemma OutcomeStays(s: Sys, a: Action)
    requires Inv(s) && Enabled(s, a)
    ensures s.winner.Some? ==> Apply(s, a).winner == s.winner
    ensures s.effects <= Apply(s, a).effects
  {
    if IsEngineAction(a) {
      EngineOutcomeStays(s, a);
    } else {
      StopOutcomeStays(s, a);
    }
  }

  lemma EngineOutcomeStays(s: Sys, a: Action)
    requires ClaimOk(s) && Enabled(s, a) && IsEngineAction(a)
    ensures s.winner.Some? ==> Apply(s, a).winner == s.winner
    ensures s.effects <= Apply(s, a).effects
  {
    if IsWork(a) {
      WorkLeavesOutcome(s, a);
    }
  }

  lemma StopOutcomeStays(s: Sys, a: Action)
    requires ClaimOk(s) && Enabled(s, a) && !IsEngineAction(a)
    ensures s.winner.Some? ==> Apply(s, a).winner == s.winner
    ensures s.effects <= Apply(s, a).effects
  {
  }

  lemma ModeStays(s: Sys, a: Action)
    requires Enabled(s, a)
    ensures Apply(s, a).mode == s.mode && Apply(s, a).enforceCheck == s.enforceCheck
  {
    if !IsEngineAction(a) {
      StopLeavesEngine(s, a);
    }
  }

  predicate PastReading(t: Task) {
    t.Writing? || t.StopPosting? || t.StopLeaving?
  }

  /** A task comes past reading the phase only by reading it. */
  lemma TasksMoveInOrder(s: Sys, a: Action, w: Stopper)
    requires Enabled(s, a)
    ensures PastReading(TaskOf(Apply(s, a), w)) ==> PastReading(TaskOf(s, w)) || a == ReadPhase(w)
  {
  }

  /** The engine is in the prune, from its work to moving the phase on. */
  predicate InPrune(job: Job) {
    (job.Work? || job.TestClaim? || job.WriteStep? || job.SetPhase?) && job.stage == PruneStage
  }

  // ----- the record that may come late -----

  /**
  `s` is after a claim made at `c`.  If the engine stood ready to write a record at the claim, either it still
  does, or it has written that one; otherwise it writes none.
  */
  ghost predicate LateSince(c: Sys, s: Sys) {
    if c.job.WriteStep? && s.job == c.job then s.late == 0
    else !s.job.WriteStep? && s.late == if c.job.WriteStep? then 1 else 0
  }

  lemma ClaimStartsLateSince(s: Sys, a: Action)
    requires LateOk(s) && Enabled(s, a) && !s.claimed && Apply(s, a).claimed
    ensures LateSince(s, Apply(s, a))
  {
    if !IsEngineAction(a) {
      StopLeavesEngine(s, a);
    }
  }

  lemma StepKeepsLateSince(c: Sys, s: Sys, a: Action)
    requires LateSince(c, s) && s.claimed && Enabled(s, a)
    ensures LateSince(c, Apply(s, a)) && Apply(s, a).claimed
  {
    if !IsEngineAction(a) {
      StopLeavesEngine(s, a);
    }
  }
}
