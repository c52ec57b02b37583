/**
The stop of a run, as one system: the engine thread, the signal task and the staging task over the
helper-pod list, the restic children and the outcome claim.

Each component has its own steps and its own invariant; here their steps are interleaved under the
control flow that ties them together.  The engine is one thread, so it is in at most one helper or
restic call at a time, and only while it is at work.  A stop's two halves start only once its task has
won the claim, and it reads the phase only once both are done.  When the process exits nothing of it
moves any more, but the apiserver and the kernel do: a PATCH already sent may still take effect.
*/
module StopProtocol {
  import opened Wrappers
  import opened Contenders
  import Runs
  import H = HelperPods
  import R = ResticChildren
  import O = Outcome

  /** `pruneCalls` counts the restic runs the engine started while it was pruning. */
  datatype State = State(h: H.Sys, r: R.Sys, o: O.Sys, pruneCalls: nat)

  datatype Action =
    | OnHelpers(ha: H.Action)
    | OnRestic(ra: R.Action)
    | OnOutcome(oa: O.Action)

  ghost predicate Init(s: State) {
    H.Init(s.h) && R.Init(s.r) && O.Init(s.o) && s.pruneCalls == 0
  }

  predicate HelperStepAllowed(s: State, a: H.Action) {
    match a
    case PatchEffect => true
    case PodGone(_) => true
    case StartCall(_) => s.o.exited.None? && s.o.job == O.Work(O.BackupWork) && s.r.call.Idle?
    case CloseList(w) => s.o.exited.None? && O.TaskOf(s.o, w).Stopping?
    case _ => s.o.exited.None?
  }

  predicate ResticStepAllowed(s: State, a: R.Action) {
    match a
    case ChildExits(_) => true
    case OtherStarts(_) => true
    case OtherEnds(_) => true
    case StartCall => s.o.exited.None? && s.o.job.Work? && s.h.call.Idle?
    case CloseSet(w) => s.o.exited.None? && O.TaskOf(s.o, w).Stopping?
    // The check's own restic run is consumed by the end of its stage; the unlock's too.
    case Return => s.o.exited.None? && s.o.job.Work? && s.o.job.stage != O.UnlockStage && s.o.job.stage != O.CheckStage
    case _ => s.o.exited.None?
  }

  predicate OutcomeStepAllowed(s: State, a: O.Action) {
    match a
    case WorkDone(ok) =>
      && s.h.call.Idle?
      && (s.o.job.Work? && s.o.job.stage == O.UnlockStage ==> s.r.call.Finished?)
      && (s.o.job.Work? && s.o.job.stage == O.CheckStage ==> s.r.call == R.Finished(ok))
      && (s.o.job.Work? && s.o.job.stage != O.UnlockStage && s.o.job.stage != O.CheckStage ==> s.r.call.Idle?)
    case ReadPhase(w) => H.HalfOf(s.h, w).Done? && R.HalfOf(s.r, w).Done?
    case _ => true
  }

  predicate Enabled(s: State, a: Action) {
    match a
    case OnHelpers(ha) => H.Enabled(s.h, ha) && HelperStepAllowed(s, ha)
    case OnRestic(ra) => R.Enabled(s.r, ra) && ResticStepAllowed(s, ra)
    case OnOutcome(oa) => O.Enabled(s.o, oa) && OutcomeStepAllowed(s, oa)
  }

  function Apply(s: State, a: Action): State
    requires Enabled(s, a)
  {
    match a
    case OnHelpers(ha) => s.(h := H.Apply(s.h, ha))
    case OnRestic(ra) =>
      s.(r := R.Apply(s.r, ra),
         pruneCalls := s.pruneCalls + if ra.StartCall? && s.o.job == O.Work(O.PruneStage) then 1 else 0)
    case OnOutcome(oa) =>
      s.(o := O.Apply(s.o, oa),
         r := if oa.WorkDone? && s.r.call.Finished? then R.Apply(s.r, R.Return) else s.r)
  }

  ghost predicate Next(s: State, s': State) {
    exists a :: Enabled(s, a) && s' == Apply(s, a)
  }

  /** A run of the whole system, whatever the schedule and however every request is answered. */
  ghost predicate IsRun(run: seq<State>) {
    Runs.IsRun(Init, Next, run)
  }

  // ----- the invariant -----

  /** A stop acts only as the winner, and records only once both of its halves are done. */
  ghost predicate StopLinked(s: State, w: Stopper) {
    && (!H.HalfOf(s.h, w).Unstarted? || !R.HalfOf(s.r, w).Unstarted? ==> s.o.winner == Some(Stop(w)))
    && (var t := O.TaskOf(s.o, w);
        O.PastReading(t) ==> H.HalfOf(s.h, w).Done? && R.HalfOf(s.r, w).Done?)
  }

  /** Nothing is refused unless a stop owns the outcome; restic prunes only under an enforced, passed check. */
  ghost predicate Linked(s: State) {
    && StopLinked(s, SignalTask) && StopLinked(s, StagingTask)
    && (s.h.live.stopping || s.r.list.stopping ==> s.o.winner.Some? && s.o.winner.value.Stop?)
    && (s.pruneCalls > 0 ==> s.o.mode == O.CheckJob && s.o.enforceCheck && O.Passed(s.o))
  }

  ghost predicate Inv(s: State) {
    H.Inv(s.h) && R.Inv(s.r) && O.Inv(s.o) && Linked(s)
  }

  lemma InitInv(s: State)
    requires Init(s)
    ensures Inv(s)
  {
    H.InitInv(s.h);
    R.InitInv(s.r);
    O.InitInv(s.o);
  }

  /** Outside its first step a half changes nothing the links depend on. */
  lemma HelperStepLinks(s: State, ha: H.Action)
    requires Inv(s) && Enabled(s, OnHelpers(ha))
    ensures Linked(Apply(s, OnHelpers(ha)))
  {
    H.DoneStaysAll(s.h, ha);
    assert O.PastTheRace(s.o, Stop(SignalTask)) ==> s.o.winner == Some(Stop(SignalTask));
    assert O.PastTheRace(s.o, Stop(StagingTask)) ==> s.o.winner == Some(Stop(StagingTask));
  }

  lemma ResticStepLinks(s: State, ra: R.Action)
    requires Inv(s) && Enabled(s, OnRestic(ra))
    ensures Linked(Apply(s, OnRestic(ra)))
  {
    R.DoneStaysAll(s.r, ra);
    assert O.PastTheRace(s.o, Stop(SignalTask)) ==> s.o.winner == Some(Stop(SignalTask));
    assert O.PastTheRace(s.o, Stop(StagingTask)) ==> s.o.winner == Some(Stop(StagingTask));
  }

  lemma OutcomeStepLinks(s: State, oa: O.Action)
    requires Inv(s) && Enabled(s, OnOutcome(oa))
    ensures Linked(Apply(s, OnOutcome(oa)))
  {
    O.PhaseMovesOn(s.o, oa);
    O.OutcomeStays(s.o, oa);
    O.ModeStays(s.o, oa);
    O.TasksMoveInOrder(s.o, oa, SignalTask);
    O.TasksMoveInOrder(s.o, oa, StagingTask);
  }

  lemma StepKeepsInv(s: State, a: Action)
    requires Inv(s) && Enabled(s, a)
    ensures Inv(Apply(s, a))
  {
    match a
    case OnHelpers(ha) =>
      H.StepKeepsInv(s.h, ha);
      HelperStepLinks(s, ha);
    case OnRestic(ra) =>
      R.StepKeepsInv(s.r, ra);
      ResticStepLinks(s, ra);
    case OnOutcome(oa) =>
      O.StepKeepsInv(s.o, oa);
      OutcomeStepLinks(s, oa);
      if oa.WorkDone? && s.r.call.Finished? {
        R.StepKeepsInv(s.r, R.Return);
      }
  }

  lemma {:induction false} RunKeepsInv(run: seq<State>, i: nat)
    requires IsRun(run) && i < |run|
    ensures Inv(run[i])
  {
    if i == 0 {
      InitInv(run[0]);
    } else {
      RunKeepsInv(run, i - 1);
      assert Next(run[i - 1], run[i - 1 + 1]);
      var a :| Enabled(run[i - 1], a) && run[i] == Apply(run[i - 1], a);
      StepKeepsInv(run[i - 1], a);
    }
  }

  /** What can only grow or stay along a run. */
  ghost predicate Before(s: State, s': State) {
    && (s.o.winner.Some? ==> s'.o.winner == s.o.winner)
    && s.o.effects <= s'.o.effects
    && O.Rank(s.o.phase) <= O.Rank(s'.o.phase)
    && (s.r.list.stopping ==> s'.r.list.stopping && s'.r.spawned == s.r.spawned)
    && (forall w :: H.HalfOf(s.h, w).Done? ==> H.HalfOf(s'.h, w) == H.HalfOf(s.h, w))
    && (forall w :: R.HalfOf(s.r, w).Done? ==> R.HalfOf(s'.r, w) == R.HalfOf(s.r, w))
    && (forall w :: !R.HalfOf(s.r, w).Unstarted? ==> !R.HalfOf(s'.r, w).Unstarted?)
  }

  lemma StepIsBefore(s: State, a: Action)
    requires Inv(s) && Enabled(s, a)
    ensures Before(s, Apply(s, a))
  {
    match a
    case OnHelpers(ha) => H.DoneStaysAll(s.h, ha);
    case OnRestic(ra) =>
      R.DoneStaysAll(s.r, ra);
      if s.r.list.stopping {
        R.StepStartsNothing(s.r, ra);
      }
    case OnOutcome(oa) =>
      O.PhaseMovesOn(s.o, oa);
      O.OutcomeStays(s.o, oa);
  }

  lemma {:induction false} RunIsBefore(run: seq<State>, i: nat, j: nat)
    requires IsRun(run) && i <= j < |run|
    ensures Before(run[i], run[j])
  {
    if i < j {
      RunIsBefore(run, i, j - 1);
      RunKeepsInv(run, j - 1);
      assert Next(run[j - 1], run[j - 1 + 1]);
      var a :| Enabled(run[j - 1], a) && run[j] == Apply(run[j - 1], a);
      StepIsBefore(run[j - 1], a);
    }
  }

  // ----- the promises -----

  /**
  Once a stop's settle loop has ended with no apply in flight and its deletes have gone through, no
  helper pod this run began to apply runs, then or at any later moment, a leftover's replacement
  included.  The one exception is a pod whose own best-effort delete had failed, and that was off the list
  for it, by the time the stop took the list.
  */
  lemma NoHelperPodLeft(run: seq<State>, w: Stopper, i: nat, j: nat)
    requires IsRun(run) && i <= j < |run|
    requires H.Ended(H.HalfOf(run[i].h, w), true, true)
    ensures var spared := H.HalfOf(run[i].h, w).spared;
            && spared <= run[i].h.leaked
            && forall p :: p in run[j].h.begun && H.IsRunning(run[j].h, p) ==> p in spared
  {
    RunIsBefore(run, i, j);
    RunKeepsInv(run, i);
    assert H.HalfOk(run[i].h, H.HalfOf(run[i].h, w));
    RunKeepsInv(run, j);
    assert H.HalfOk(run[j].h, H.HalfOf(run[j].h, w));
  }

  /** At every moment of every run, a pid the stop may signal next is an unreaped child of the runner. */
  lemma SignalsReachOwnChildren(run: seq<State>, i: nat, w: Stopper, pid: R.Pid)
    requires IsRun(run) && i < |run|
    requires R.Enabled(run[i].r, R.Send(w, pid)) || R.Enabled(run[i].r, R.SendKill(w, pid))
    ensures R.IsChild(run[i].r, pid)
    ensures !run[i].r.misdirected
  {
    RunKeepsInv(run, i);
    assert R.HalfOk(run[i].r, R.HalfOf(run[i].r, w));
  }

  /**
  Every restic start is refused or was listed before the close: none starts after it, and whoever still
  runs, bar a child whose wait has failed, was listed at the close.  When the restic half is done, every
  child listed then has been signalled, and each has left the set since or been killed.
  */
  lemma EveryListedChildIsSignalled(run: seq<State>, w: Stopper, i: nat, j: nat)
    requires IsRun(run) && i <= j < |run|
    requires !R.HalfOf(run[i].r, w).Unstarted?
    ensures run[j].r.spawned == run[i].r.spawned
    ensures !R.HalfOf(run[j].r, w).Unstarted?
    ensures forall p :: R.IsRunningChild(run[j].r, p) && p !in run[j].r.lost ==> p in R.HalfOf(run[j].r, w).listed
    ensures R.HalfOf(run[j].r, w).Done? ==>
              var half := R.HalfOf(run[j].r, w);
              && half.sent == half.listed
              && (half.how.NoneRunning? <==> half.listed == {})
              && (half.how.Exited? ==> run[j].r.list.pids == {})
              && forall p :: p in half.listed ==> p !in run[j].r.list.pids || p in half.killed
  {
    RunKeepsInv(run, i);
    RunIsBefore(run, i, j);
    RunKeepsInv(run, j);
    assert R.HalfOk(run[i].r, R.HalfOf(run[i].r, w));
    assert R.HalfOk(run[j].r, R.HalfOf(run[j].r, w));
    R.OnlyListedRun(run[j].r, w);
  }

  /**
  At every moment after a stop has reported the set empty: whoever still runs is a child whose wait has
  failed, so that no restic of the run is running exactly if none of those is.
  */
  lemma EmptyMeansExited(run: seq<State>, w: Stopper, i: nat, j: nat)
    requires IsRun(run) && i <= j < |run|
    requires R.HalfOf(run[i].r, w).Done? && !R.HalfOf(run[i].r, w).how.Killed?
    ensures forall p :: R.IsRunningChild(run[j].r, p) ==> p in run[j].r.lost
    ensures (forall p :: !R.IsRunningChild(run[j].r, p)) <==>
            (forall p :: p in run[j].r.lost ==> !R.IsRunningChild(run[j].r, p))
  {
    RunIsBefore(run, i, j);
    RunKeepsInv(run, j);
    R.EmptyMeansExited(run[j].r, w);
  }

  /**
  At most one contender wins, over the whole run; everything recorded, posted and exited with is the
  winner's, and the exit code is the one the winner's outcome calls for.
  */
  lemma OneOutcome(run: seq<State>, i: nat, j: nat)
    requires IsRun(run) && i <= j < |run|
    ensures run[i].o.winner.Some? ==> run[j].o.winner == run[i].o.winner
    ensures forall e :: e in run[j].o.effects ==> run[j].o.winner == Some(e.who)
    ensures run[j].o.exited.Some? ==>
              && run[j].o.winner.Some?
              && run[j].o.exited.value == match run[j].o.winner.value
                                          case Engine => O.EngineExitCode(run[j].o)
                                          case Stop(w) => O.StopExitCode(w)
  {
    RunIsBefore(run, i, j);
    RunKeepsInv(run, j);
  }

  lemma {:induction false} LateAlong(run: seq<State>, c: O.Sys, b: nat, j: nat)
    requires IsRun(run) && b <= j < |run| && run[b].o.claimed && O.LateSince(c, run[b].o)
    ensures O.LateSince(c, run[j].o)
    decreases j - b
  {
    if b < j {
      assert Next(run[b], run[b + 1]);
      var a :| Enabled(run[b], a) && run[b + 1] == Apply(run[b], a);
      if a.OnOutcome? {
        O.StepKeepsLateSince(c, run[b].o, a.oa);
      }
      LateAlong(run, c, b + 1, j);
    }
  }

  /**
  After the claim, at whatever moment `c` it came: a step record is late exactly if the engine had tested the
  flag before the claim, stood ready to write, and has moved on since; the only record ever left to write is
  that one.
  */
  lemma LateIff(run: seq<State>, c: nat, j: nat)
    requires IsRun(run) && c < j < |run| && !run[c].o.claimed && run[c + 1].o.claimed
    ensures run[j].o.late == 1 <==> run[c].o.job.WriteStep? && run[j].o.job != run[c].o.job
    ensures run[j].o.late == 0 || run[j].o.late == 1
    ensures run[j].o.job.WriteStep? ==> run[j].o.job == run[c].o.job && run[j].o.late == 0
  {
    RunKeepsInv(run, c);
    assert Next(run[c], run[c + 1]);
    var a :| Enabled(run[c], a) && run[c + 1] == Apply(run[c], a);
    O.ClaimStartsLateSince(run[c].o, a.oa);
    LateAlong(run, run[c].o, c + 1, j);
  }

  /** Over a whole run at most one of the engine's step records is written after the outcome was claimed. */
  lemma AtMostOneLateRecord(run: seq<State>, i: nat)
    requires IsRun(run) && i < |run|
    ensures run[i].o.late <= 1 && (run[i].o.late > 0 ==> run[i].o.claimed)
  {
    RunKeepsInv(run, i);
  }

  /** Whenever the outcome is claimed there is one moment it was claimed at. */
  lemma {:induction false} ClaimMoment(run: seq<State>, j: nat) returns (c: nat)
    requires IsRun(run) && j < |run| && run[j].o.claimed
    ensures c < j && !run[c].o.claimed && run[c + 1].o.claimed
  {
    if run[j - 1].o.claimed {
      c := ClaimMoment(run, j - 1);
    } else {
      c := j - 1;
    }
  }

  /** An outcome the run records itself is never the stop's own doing: no stop refused or signalled anything. */
  lemma RunOutcomeIsItsOwn(run: seq<State>, i: nat)
    requires IsRun(run) && i < |run|
    requires run[i].o.winner == Some(Engine)
    ensures !run[i].h.live.stopping && !run[i].r.list.stopping
    ensures forall w :: H.HalfOf(run[i].h, w).Unstarted? && R.HalfOf(run[i].r, w).Unstarted?
  {
    RunKeepsInv(run, i);
    assert StopLinked(run[i], SignalTask) && StopLinked(run[i], StagingTask);
  }

  /**
  In every check run: the phase only moves forward; while the check has not passed it stays at the
  check, so that a stop reading it then records a failed check; and the prune is not entered, no restic of
  it started and none ever recorded as stopped, unless this run's check passed under `enforce: check`.
  */
  lemma PruneOnlyAfterAPass(run: seq<State>, i: nat, j: nat, w: Stopper)
    requires IsRun(run) && i <= j < |run|
    ensures run[i].o.phase == O.PrunePhase ==> run[j].o.phase != O.CheckPhase
    ensures run[i].o.phase == O.StatsPhase ==> run[j].o.phase == O.StatsPhase
    ensures !O.Passed(run[j].o) ==> run[j].o.phase == O.CheckPhase
    ensures !O.Passed(run[j].o) && run[j].o.mode == O.CheckJob && Enabled(run[j], OnOutcome(O.ReadPhase(w))) ==>
              O.TaskOf(Apply(run[j], OnOutcome(O.ReadPhase(w))).o, w) == O.Writing(O.CheckFailed)
    ensures run[j].o.phase == O.PrunePhase || O.InPrune(run[j].o.job) ==>
              O.Passed(run[j].o) && run[j].o.enforceCheck && run[j].o.mode == O.CheckJob
    ensures run[j].pruneCalls > 0 ||
            (exists e :: e in run[j].o.effects && e.StopRecorded? && e.record == O.PruneFailed) ==>
              O.Passed(run[j].o) && run[j].o.enforceCheck && run[j].o.mode == O.CheckJob
  {
    RunIsBefore(run, i, j);
    RunKeepsInv(run, j);
    if e :| e in run[j].o.effects && e.StopRecorded? && e.record == O.PruneFailed {
      var k :| 0 <= k < |run[j].o.effects| && run[j].o.effects[k] == e;
      assert O.EffectNames(run[j].o, run[j].o.effects[k]);
    }
  }

  /**
  What a stop leaves behind when it ends the process, for every later moment: its own code as the exit
  code; no restic started since, every child listed at the close signalled and off the list or killed, and
  none running that was not listed then, bar one whose wait had failed; and, if its list settled and its
  deletes went through, no helper pod of this run but one whose delete had failed before the list was taken.
  */
  lemma StoppedRunLeavesNothing(run: seq<State>, w: Stopper, i: nat, j: nat)
    requires IsRun(run) && i <= j < |run|
    requires run[i].o.exited.Some? && run[i].o.winner == Some(Stop(w))
    ensures run[i].o.exited.value == O.StopExitCode(w)
    ensures R.HalfOf(run[j].r, w).Done? && H.HalfOf(run[j].h, w).Done?
    ensures run[j].r.spawned == run[i].r.spawned
    ensures var half := R.HalfOf(run[j].r, w);
            && half.sent == half.listed
            && (forall p :: p in half.listed ==> p !in run[j].r.list.pids || p in half.killed)
            && (forall p :: R.IsRunningChild(run[j].r, p) && p !in run[j].r.lost ==> p in half.listed)
    ensures H.Ended(H.HalfOf(run[i].h, w), true, true) ==>
              forall p :: p in run[j].h.begun && H.IsRunning(run[j].h, p) ==> p in H.HalfOf(run[i].h, w).spared
  {
    ExitedStopIsDone(run, w, i);
    RunIsBefore(run, i, j);
    EveryListedChildIsSignalled(run, w, i, j);
    RunKeepsInv(run, j);
    assert H.HalfOk(run[j].h, H.HalfOf(run[j].h, w));
    OneOutcome(run, i, i);
  }

  lemma {:induction false} ExitedStopIsDone(run: seq<State>, w: Stopper, i: nat)
    requires IsRun(run) && i < |run|
    requires run[i].o.exited.Some? && run[i].o.winner == Some(Stop(w))
    ensures H.HalfOf(run[i].h, w).Done? && R.HalfOf(run[i].r, w).Done?
  {
    RunKeepsInv(run, i);
    assert StopLinked(run[i], w);
    assert O.ExitOk(run[i].o);
  }
}
