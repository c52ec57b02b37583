/**
What a run's end says of what was done in it: the runs of the whole system again, with the action each step
took, and the outcome accounted for from those actions.
*/
module StopHistory {
  import opened Wrappers
  import opened Contenders
  import opened StopProtocol
  import Runs
  import H = HelperPods
  import R = ResticChildren
  import O = Outcome

  /** A run and the actions it took, one between any two moments. */
  datatype Trace = Trace(states: seq<State>, acts: seq<Action>)

  ghost predicate StepAt(t: Trace, i: int) {
    && 0 <= i < |t.acts| && i + 1 < |t.states|
    && Enabled(t.states[i], t.acts[i]) && t.states[i + 1] == Apply(t.states[i], t.acts[i])
  }

  ghost predicate IsTrace(t: Trace) {
    |t.states| == |t.acts| + 1 && Init(t.states[0]) && forall i :: 0 <= i < |t.acts| ==> StepAt(t, i)
  }

  lemma TraceIsRun(t: Trace)
    requires IsTrace(t)
    ensures IsRun(t.states)
  {
    forall i | 0 <= i < |t.states| - 1
      ensures Next(t.states[i], t.states[i + 1])
    {
      assert StepAt(t, i);
    }
  }

  /** Every run has its actions. */
  lemma {:induction false} RunIsTrace(run: seq<State>, n: nat) returns (acts: seq<Action>)
    requires IsRun(run) && n < |run|
    ensures IsTrace(Trace(run[..n + 1], acts))
  {
    if n == 0 {
      acts := [];
    } else {
      var before := RunIsTrace(run, n - 1);
      assert Next(run[n - 1], run[n - 1 + 1]);
      var a :| Enabled(run[n - 1], a) && run[n] == Apply(run[n - 1], a);
      acts := before + [a];
      var t, t0 := Trace(run[..n + 1], acts), Trace(run[..n], before);
      forall i | 0 <= i < |acts|
        ensures StepAt(t, i)
      {
        if i < n - 1 {
          assert StepAt(t0, i);
        }
      }
    }
  }

  // ----- the work that was done -----

  /** A stage of the engine's work, and whether it went well. */
  datatype Did = Did(stage: O.Stage, ok: bool)

  /** The engine's work up to `j`: each stage that ended, and how. */
  ghost function Works(t: Trace, j: nat): seq<Did>
    requires j <= |t.acts| < |t.states|
  {
    if j == 0 then []
    else
      var before := Works(t, j - 1);
      match t.acts[j - 1]
      case OnOutcome(oa) =>
        var job := t.states[j - 1].o.job;
        if oa.WorkDone? && job.Work? then before + [Did(job.stage, oa.ok)] else before
      case _ => before
  }

  /**
  A check run's whole work: the unlock and a check that failed, or a check that passed, the prune if it is
  this Job's to run, and the figures.
  */
  ghost predicate WholeCheck(ws: seq<Did>, enforce: bool) {
    || (|ws| == 2 && ws[0].stage == O.UnlockStage && ws[1] == Did(O.CheckStage, false))
    || (|ws| == 3 && !enforce && ws[0].stage == O.UnlockStage && ws[1] == Did(O.CheckStage, true)
        && ws[2].stage == O.StatsStage)
    || (|ws| == 4 && enforce && ws[0].stage == O.UnlockStage && ws[1] == Did(O.CheckStage, true)
        && ws[2].stage == O.PruneStage && ws[3].stage == O.StatsStage)
  }

  ghost predicate WholeBackup(ws: seq<Did>) {
    |ws| == 1 && ws[0].stage == O.BackupWork
  }

  /** The engine has ended its work, and goes on to claim, to report and to leave. */
  predicate IsEnding(job: O.Job) {
    job.Claiming? || job.Recording? || job.Posting? || job.Leaving? || job.Parked?
  }

  /** What the engine has done, by where it stands. */
  ghost predicate Accounts(o: O.Sys, ws: seq<Did>) {
    && (o.mode == O.BackupJob ==>
          if o.job == O.Work(O.BackupWork) then ws == []
          else IsEnding(o.job) && WholeBackup(ws) && o.workFailed == !ws[0].ok)
    && (o.mode == O.CheckJob ==>
          && o.checkPassed == (if |ws| >= 2 then Some(ws[1].ok) else None)
          && (if |ws| == 4 then o.workFailed == !ws[2].ok
              else if |ws| == 3 && ws[2].stage == O.PruneStage then o.workFailed == !ws[2].ok else !o.workFailed)
          && CheckAccounts(o.job, o.enforceCheck, ws))
  }

  ghost predicate CheckAccounts(job: O.Job, enforce: bool, ws: seq<Did>) {
    match job
    case Work(st) =>
      (match st
       case BackupWork => false
       case UnlockStage => ws == []
       case CheckStage => |ws| == 1 && ws[0].stage == O.UnlockStage
       case PruneStage => enforce && Passed(ws) && |ws| == 2
       case StatsStage => Passed(ws) && Pruned(ws, enforce) && |ws| == (if enforce then 3 else 2))
    case TestClaim(st) => RecordAccounts(st, enforce, ws)
    case WriteStep(st) => RecordAccounts(st, enforce, ws)
    case SetPhase(st) => RecordAccounts(st, enforce, ws) && st != O.StatsStage && Passed(ws)
    case _ => WholeCheck(ws, enforce)
  }

  ghost predicate RecordAccounts(st: O.Stage, enforce: bool, ws: seq<Did>) {
    match st
    case CheckStage => |ws| == 2 && ws[0].stage == O.UnlockStage && ws[1].stage == O.CheckStage
    case PruneStage => enforce && Passed(ws) && Pruned(ws, enforce) && |ws| == 3
    case StatsStage => WholeCheck(ws, enforce) && Passed(ws)
    case _ => false
  }

  ghost predicate Passed(ws: seq<Did>) {
    |ws| >= 2 && ws[0].stage == O.UnlockStage && ws[1] == Did(O.CheckStage, true)
  }

  ghost predicate Pruned(ws: seq<Did>, enforce: bool) {
    enforce ==> |ws| >= 3 && ws[2].stage == O.PruneStage
  }

  lemma WorkAccounts(o: O.Sys, ok: bool, ws: seq<Did>)
    requires Accounts(o, ws) && O.Enabled(o, O.WorkDone(ok))
    ensures Accounts(O.Apply(o, O.WorkDone(ok)), ws + [Did(o.job.stage, ok)])
  {
  }

  lemma OtherAccounts(o: O.Sys, a: O.Action, ws: seq<Did>)
    requires Accounts(o, ws) && O.Enabled(o, a) && O.IsEngineAction(a) && !a.WorkDone?
    ensures Accounts(O.Apply(o, a), ws)
  {
  }

  lemma SameAccounts(o: O.Sys, o': O.Sys, ws: seq<Did>)
    requires Accounts(o, ws) && o'.mode == o.mode && o'.enforceCheck == o.enforceCheck && o'.job == o.job
    requires o'.checkPassed == o.checkPassed && o'.workFailed == o.workFailed
    ensures Accounts(o', ws)
  {
  }

  /** At every moment the engine's work so far is what its place in the program calls for. */
  lemma {:induction false} WorkIsAccounted(t: Trace, j: nat)
    requires IsTrace(t) && j <= |t.acts|
    ensures Accounts(t.states[j].o, Works(t, j))
  {
    if j > 0 {
      WorkIsAccounted(t, j - 1);
      assert StepAt(t, j - 1);
      var o := t.states[j - 1].o;
      match t.acts[j - 1]
      case OnHelpers(_) =>
      case OnRestic(_) =>
      case OnOutcome(a) =>
        if a.WorkDone? {
          WorkAccounts(o, a.ok, Works(t, j - 1));
        } else if O.IsEngineAction(a) {
          OtherAccounts(o, a, Works(t, j - 1));
        } else {
          O.StopLeavesEngine(o, a);
          SameAccounts(o, O.Apply(o, a), Works(t, j - 1));
        }
    }
  }

  // ----- what reached the outside -----

  /** The winner's record of the outcome: the backup run's own, or the stop's. */
  predicate IsRecord(e: O.Effect, who: Contender, mode: O.Mode) {
    match who
    case Engine => mode == O.BackupJob && e == O.RunRecord(Engine)
    case Stop(_) => e.StopRecorded? && e.who == who && e.record != O.NoRecord
  }

  /** At most the record. */
  ghost predicate UpToRecord(es: seq<O.Effect>, who: Contender, mode: O.Mode) {
    es == [] || (|es| == 1 && IsRecord(es[0], who, mode))
  }

  /** At most the record and then the webhook. */
  ghost predicate UpToPost(es: seq<O.Effect>, who: Contender, mode: O.Mode) {
    || UpToRecord(es, who, mode)
    || (|es| > 0 && es[|es| - 1] == O.Webhook(who) && UpToRecord(es[..|es| - 1], who, mode))
  }

  /** The whole: at most the record, at most the webhook, and the exit. */
  ghost predicate UpToExit(es: seq<O.Effect>, who: Contender, mode: O.Mode, code: int) {
    |es| > 0 && es[|es| - 1] == O.Exit(who, code) && UpToPost(es[..|es| - 1], who, mode)
  }

  ghost predicate EngineReports(o: O.Sys) {
    && (o.exited.None? && o.job.Recording? ==> o.mode == O.BackupJob && o.effects == [])
    && (o.exited.None? && o.job.Posting? ==> UpToRecord(o.effects, Engine, o.mode))
    && (o.exited.None? && o.job.Leaving? ==> UpToPost(o.effects, Engine, o.mode))
    && (o.exited.None? ==> o.job.Recording? || o.job.Posting? || o.job.Leaving?)
    && (o.exited.Some? ==> o.job.Leaving? && UpToExit(o.effects, Engine, o.mode, o.exited.value))
    && (O.Webhook(Engine) in o.effects ==> O.EngineFailed(o))
  }

  ghost predicate StopReports(o: O.Sys, w: Stopper) {
    var t := O.TaskOf(o, w);
    && (o.exited.None? && (t.Stopping? || t.Writing?) ==> o.effects == [])
    && (o.exited.None? && t.StopPosting? ==> UpToRecord(o.effects, Stop(w), o.mode))
    && (o.exited.None? && t.StopLeaving? ==> UpToPost(o.effects, Stop(w), o.mode))
    && (o.exited.None? ==> t.Stopping? || t.Writing? || t.StopPosting? || t.StopLeaving?)
    && (o.exited.Some? ==> t.StopLeaving? && UpToExit(o.effects, Stop(w), o.mode, o.exited.value))
  }

  ghost predicate Reports(o: O.Sys) {
    match o.winner
    case None => o.effects == [] && o.exited.None?
    case Some(c) => match c case Engine => EngineReports(o) case Stop(w) => StopReports(o, w)
  }

  lemma OneMore<T>(s: seq<T>, x: T)
    ensures (s + [x])[|s|] == x && (s + [x])[..|s|] == s && |s + [x]| == |s| + 1
  {
  }

  lemma WorkReports(o: O.Sys, a: O.Action)
    requires O.Inv(o) && Reports(o) && O.Enabled(o, a) && O.IsWork(a)
    ensures Reports(O.Apply(o, a))
  {
    O.WorkLeavesOutcome(o, a);
    if o.winner.Some? && o.winner.value.Stop? {
      assert O.TaskOf(O.Apply(o, a), o.winner.value.who) == O.TaskOf(o, o.winner.value.who);
      O.ModeStays(o, a);
    }
  }

  lemma ClaimReports(o: O.Sys)
    requires O.Inv(o) && Reports(o) && O.Enabled(o, O.EngineClaims)
    ensures Reports(O.Apply(o, O.EngineClaims))
  {
    var o' := O.Apply(o, O.EngineClaims);
    if o.winner.Some? && o.winner.value.Stop? {
      assert O.TaskOf(o', o.winner.value.who) == O.TaskOf(o, o.winner.value.who);
    }
  }

  lemma RecordReports(o: O.Sys, written: bool)
    requires o.winner == Some(Engine) && EngineReports(o) && O.Enabled(o, O.EngineRecords(written))
    ensures Reports(O.Apply(o, O.EngineRecords(written)))
  {
    assert o.effects == [];
    var o' := O.Apply(o, O.EngineRecords(written));
    assert o'.effects == if written then [O.RunRecord(Engine)] else [];
  }

  lemma EnginePostReports(o: O.Sys, posted: bool)
    requires o.winner == Some(Engine) && EngineReports(o) && O.Enabled(o, O.EnginePosts(posted))
    ensures Reports(O.Apply(o, O.EnginePosts(posted)))
  {
    OneMore(o.effects, O.Webhook(Engine));
  }

  lemma EngineExitReports(o: O.Sys)
    requires o.winner == Some(Engine) && EngineReports(o) && O.Enabled(o, O.EngineExits)
    ensures Reports(O.Apply(o, O.EngineExits))
  {
    OneMore(o.effects, O.Exit(Engine, O.EngineExitCode(o)));
  }

  lemma EndReports(o: O.Sys, a: O.Action)
    requires O.Inv(o) && Reports(o) && O.Enabled(o, a) && O.IsEngineAction(a) && !O.IsWork(a)
    ensures Reports(O.Apply(o, a))
  {
    assert !a.EngineClaims? ==> O.PastTheRace(o, Engine);
    match a
    case EngineClaims => ClaimReports(o);
    case EngineRecords(written) => RecordReports(o, written);
    case EnginePosts(posted) => EnginePostReports(o, posted);
    case EngineExits => EngineExitReports(o);
  }

  lemma TriggerReports(o: O.Sys, w: Stopper)
    requires O.Inv(o) && Reports(o) && O.Enabled(o, O.Trigger(w))
    ensures Reports(O.Apply(o, O.Trigger(w)))
  {
    var o' := O.Apply(o, O.Trigger(w));
    if o.winner.Some? && o.winner.value.Stop? && o.winner.value.who != w {
      O.OtherTaskStays(o, O.Trigger(w), o.winner.value.who);
    }
  }

  lemma ReadReports(o: O.Sys, w: Stopper)
    requires o.winner == Some(Stop(w)) && StopReports(o, w) && O.Enabled(o, O.ReadPhase(w))
    ensures Reports(O.Apply(o, O.ReadPhase(w)))
  {
  }

  lemma WriteReports(o: O.Sys, w: Stopper, written: bool)
    requires o.winner == Some(Stop(w)) && StopReports(o, w) && O.Enabled(o, O.StopWrites(w, written))
    ensures Reports(O.Apply(o, O.StopWrites(w, written)))
  {
    assert o.effects == [];
    WriteAdds(o, w, written);
    PostingReports(O.Apply(o, O.StopWrites(w, written)), w);
  }

  lemma WriteAdds(o: O.Sys, w: Stopper, written: bool)
    requires o.effects == [] && o.winner == Some(Stop(w)) && O.Enabled(o, O.StopWrites(w, written))
    ensures var o' := O.Apply(o, O.StopWrites(w, written));
            && o'.winner == o.winner && o'.exited == o.exited && O.TaskOf(o', w).StopPosting?
            && o'.effects == if written then [O.StopRecorded(Stop(w), O.TaskOf(o, w).record)] else []
  {
  }

  lemma PostingReports(o: O.Sys, w: Stopper)
    requires o.winner == Some(Stop(w)) && o.exited.None? && O.TaskOf(o, w).StopPosting?
    requires UpToRecord(o.effects, Stop(w), o.mode)
    ensures Reports(o)
  {
  }

  lemma PostReports(o: O.Sys, w: Stopper, posted: bool)
    requires o.winner == Some(Stop(w)) && StopReports(o, w) && O.Enabled(o, O.StopPosts(w, posted))
    ensures Reports(O.Apply(o, O.StopPosts(w, posted)))
  {
    PostAdds(o, w, posted);
    OneMore(o.effects, O.Webhook(Stop(w)));
    LeavingReports(O.Apply(o, O.StopPosts(w, posted)), w);
  }

  lemma PostAdds(o: O.Sys, w: Stopper, posted: bool)
    requires o.winner == Some(Stop(w)) && O.Enabled(o, O.StopPosts(w, posted))
    ensures var o' := O.Apply(o, O.StopPosts(w, posted));
            && o'.winner == o.winner && o'.exited == o.exited && o'.mode == o.mode && O.TaskOf(o', w).StopLeaving?
            && o'.effects == if posted then o.effects + [O.Webhook(Stop(w))] else o.effects
  {
  }

  lemma LeavingReports(o: O.Sys, w: Stopper)
    requires o.winner == Some(Stop(w)) && o.exited.None? && O.TaskOf(o, w).StopLeaving?
    requires UpToPost(o.effects, Stop(w), o.mode)
    ensures Reports(o)
  {
  }

  lemma ExitReports(o: O.Sys, w: Stopper)
    requires o.winner == Some(Stop(w)) && StopReports(o, w) && O.Enabled(o, O.StopExits(w))
    ensures Reports(O.Apply(o, O.StopExits(w)))
  {
    OneMore(o.effects, O.Exit(Stop(w), O.StopExitCode(w)));
  }

  lemma StopStepReports(o: O.Sys, a: O.Action)
    requires O.Inv(o) && Reports(o) && O.Enabled(o, a) && !O.IsEngineAction(a)
    ensures Reports(O.Apply(o, a))
  {
    var w := a.who;
    assert O.PastTheRace(o, Stop(w)) ==> o.winner == Some(Stop(w));
    match a
    case Trigger(_) => TriggerReports(o, w);
    case ReadPhase(_) => ReadReports(o, w);
    case StopWrites(_, written) => WriteReports(o, w, written);
    case StopPosts(_, posted) => PostReports(o, w, posted);
    case StopExits(_) => ExitReports(o, w);
  }

  lemma {:induction false} EffectsAreReports(t: Trace, j: nat)
    requires IsTrace(t) && j <= |t.acts|
    ensures Reports(t.states[j].o)
  {
    if j > 0 {
      EffectsAreReports(t, j - 1);
      assert StepAt(t, j - 1);
      TraceIsRun(t);
      RunKeepsInv(t.states, j - 1);
      var o := t.states[j - 1].o;
      match t.acts[j - 1]
      case OnHelpers(_) =>
      case OnRestic(_) =>
      case OnOutcome(a) =>
        if O.IsWork(a) {
          WorkReports(o, a);
        } else if O.IsEngineAction(a) {
          EndReports(o, a);
        } else {
          StopStepReports(o, a);
        }
    }
  }

  // ----- the exit -----

  /** Whether the run failed, from its work: the backup, the check, or the prune after it. */
  ghost predicate WorkFailed(ws: seq<Did>, mode: O.Mode) {
    match mode
    case BackupJob => ws == [Did(O.BackupWork, false)]
    case CheckJob => Did(O.CheckStage, false) in ws || Did(O.PruneStage, false) in ws
  }

  /**
  The process's end, in full.  It ends with whoever won.  If that is the engine, its work was whole, and the code is 0
  exactly if the backup went well, or the check did; if it is a stop, the code is the stop's.  And all that ever
  reached the outside is the winner's record, its webhook, which the engine posts only of a failure, and that exit.
  */
  lemma EndIsAccounted(t: Trace, j: nat)
    requires IsTrace(t) && j <= |t.acts| && t.states[j].o.exited.Some?
    ensures var o, ws, code := t.states[j].o, Works(t, j), t.states[j].o.exited.value;
            && o.winner.Some?
            && (o.winner == Some(Stop(SignalTask)) ==> code == 1)
            && (o.winner == Some(Stop(StagingTask)) ==> code == 3)
            && (o.winner == Some(Engine) && o.mode == O.BackupJob ==>
                  WholeBackup(ws) && code == if ws == [Did(O.BackupWork, true)] then 0 else 1)
            && (o.winner == Some(Engine) && o.mode == O.CheckJob ==>
                  WholeCheck(ws, o.enforceCheck) && code == if ws[1] == Did(O.CheckStage, true) then 0 else 1)
            && UpToExit(o.effects, o.winner.value, o.mode, code)
            && (O.Webhook(Engine) in o.effects ==> WorkFailed(ws, o.mode))
  {
    var o := t.states[j].o;
    EffectsAreReports(t, j);
    WorkIsAccounted(t, j);
    TraceIsRun(t);
    RunKeepsInv(t.states, j);
    EngineEnd(o, Works(t, j));
  }

  lemma EngineEnd(o: O.Sys, ws: seq<Did>)
    requires O.Inv(o) && Reports(o) && Accounts(o, ws) && o.exited.Some?
    ensures o.winner == Some(Engine) && o.mode == O.BackupJob ==>
              WholeBackup(ws) && o.exited.value == if ws == [Did(O.BackupWork, true)] then 0 else 1
    ensures o.winner == Some(Engine) && o.mode == O.CheckJob ==>
              WholeCheck(ws, o.enforceCheck) && o.exited.value == if ws[1] == Did(O.CheckStage, true) then 0 else 1
    ensures O.Webhook(Engine) in o.effects ==> WorkFailed(ws, o.mode)
  {
    if O.Webhook(Engine) in o.effects {
      assert o.winner == Some(Engine);
      assert |ws| == 1 ==> ws == [ws[0]];
      assert |ws| >= 2 && !ws[1].ok ==> ws[1] in ws;
      assert |ws| >= 3 && !ws[2].ok ==> ws[2] in ws;
    }
    if o.winner == Some(Engine) {
      assert |ws| == 1 ==> ws == [ws[0]];
    }
  }

  // ----- the steps that were recorded -----

  /** The engine's step records up to `j`, in order. */
  ghost function Records(t: Trace, j: nat): seq<O.Stage>
    requires j <= |t.acts| < |t.states|
  {
    if j == 0 then []
    else
      var before, job := Records(t, j - 1), t.states[j - 1].o.job;
      if t.acts[j - 1] == OnOutcome(O.WriteStepRecord) && job.WriteStep? then before + [job.stage] else before
  }

  /** What there is to record of the work: the check, the prune, and figures that could be read. */
  ghost function ToRecord(ws: seq<Did>): seq<O.Stage> {
    if ws == [] then []
    else
      var last := ws[|ws| - 1];
      ToRecord(ws[..|ws| - 1]) + if IsForTheRecord(last) then [last.stage] else []
  }

  predicate IsForTheRecord(d: Did) {
    d.stage == O.CheckStage || d.stage == O.PruneStage || (d.stage == O.StatsStage && d.ok)
  }

  /** Unclaimed, or claimed by the engine itself, every step is recorded but the one being recorded. */
  ghost predicate Recorded(o: O.Sys, ws: seq<Did>, done: seq<O.Stage>) {
    o.winner == None || o.winner == Some(Engine) ==>
      ToRecord(ws) == if o.job.TestClaim? || o.job.WriteStep? then done + [o.job.stage] else done
  }

  lemma ToRecordNext(ws: seq<Did>, stage: O.Stage, ok: bool)
    ensures ToRecord(ws + [Did(stage, ok)]) == ToRecord(ws) +
            if IsForTheRecord(Did(stage, ok)) then [stage] else []
  {
    assert (ws + [Did(stage, ok)])[..|ws|] == ws;
  }

  lemma EngineRecordsAll(o: O.Sys, a: O.Action, ws: seq<Did>, done: seq<O.Stage>)
    requires O.ClaimOk(o) && Reports(o) && Recorded(o, ws, done)
    requires O.Enabled(o, a) && O.IsEngineAction(a) && !a.WorkDone?
    ensures Recorded(O.Apply(o, a), ws, if a.WriteStepRecord? then done + [o.job.stage] else done)
  {
    if a.EngineRecords? || a.EnginePosts? || a.EngineExits? {
      assert O.PastTheRace(o, Engine);
    }
  }

  lemma WorkToRecord(o: O.Sys, ok: bool, ws: seq<Did>, done: seq<O.Stage>)
    requires Recorded(o, ws, done) && O.Enabled(o, O.WorkDone(ok))
    ensures Recorded(O.Apply(o, O.WorkDone(ok)), ws + [Did(o.job.stage, ok)], done)
  {
    AfterWork(o, ok);
    ToRecordNext(ws, o.job.stage, ok);
  }

  /** Work there is a record of goes on to its record, any other past it. */
  lemma AfterWork(o: O.Sys, ok: bool)
    requires O.Enabled(o, O.WorkDone(ok))
    ensures var o' := O.Apply(o, O.WorkDone(ok));
            && o'.winner == o.winner && !o'.job.WriteStep?
            && (o'.job.TestClaim? <==> IsForTheRecord(Did(o.job.stage, ok)))
            && (o'.job.TestClaim? ==> o'.job.stage == o.job.stage)
  {
  }

  lemma StopRecordsNothing(o: O.Sys, a: O.Action, ws: seq<Did>, done: seq<O.Stage>)
    requires O.ClaimOk(o) && Recorded(o, ws, done) && O.Enabled(o, a) && !O.IsEngineAction(a)
    ensures Recorded(O.Apply(o, a), ws, done)
  {
    O.StopLeavesEngine(o, a);
    O.StopOutcomeStays(o, a);
    assert !a.Trigger? ==> O.PastTheRace(o, Stop(a.who));
  }

  lemma {:induction false} StepsAreRecorded(t: Trace, j: nat)
    requires IsTrace(t) && j <= |t.acts|
    ensures Recorded(t.states[j].o, Works(t, j), Records(t, j))
  {
    if j > 0 {
      StepsAreRecorded(t, j - 1);
      assert StepAt(t, j - 1);
      TraceIsRun(t);
      RunKeepsInv(t.states, j - 1);
      EffectsAreReports(t, j - 1);
      StepIsRecorded(t, j - 1);
    }
  }

  lemma StepIsRecorded(t: Trace, j: nat)
    requires |t.states| == |t.acts| + 1 && j < |t.acts| && StepAt(t, j)
    requires O.Inv(t.states[j].o) && Reports(t.states[j].o)
    requires Recorded(t.states[j].o, Works(t, j), Records(t, j))
    ensures Recorded(t.states[j + 1].o, Works(t, j + 1), Records(t, j + 1))
  {
    match t.acts[j]
    case OnHelpers(_) =>
    case OnRestic(_) =>
    case OnOutcome(a) => OneRecordMore(t.states[j].o, a, Works(t, j), Records(t, j));
  }

  lemma OneRecordMore(o: O.Sys, a: O.Action, ws: seq<Did>, done: seq<O.Stage>)
    requires O.Inv(o) && Reports(o) && Recorded(o, ws, done) && O.Enabled(o, a)
    ensures Recorded(O.Apply(o, a),
                     if a.WorkDone? then ws + [Did(o.job.stage, a.ok)] else ws,
                     if a.WriteStepRecord? then done + [o.job.stage] else done)
  {
    if a.WorkDone? {
      WorkToRecord(o, a.ok, ws, done);
    } else if O.IsEngineAction(a) {
      EngineRecordsAll(o, a, ws, done);
    } else {
      StopRecordsNothing(o, a, ws, done);
    }
  }

  /** A run that ends by itself has recorded every step there was to record, each once and in order. */
  lemma AWonRunIsRecorded(t: Trace, j: nat)
    requires IsTrace(t) && j <= |t.acts| && t.states[j].o.winner == Some(Engine)
    ensures Records(t, j) == ToRecord(Works(t, j))
  {
    StepsAreRecorded(t, j);
    EffectsAreReports(t, j);
  }
}
