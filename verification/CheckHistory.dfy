/**
What a passed check rests on: in every run, one restic of this run's check stage that was started, was seen to exit,
and was reaped with success, nothing else of the engine's having happened to it or instead of it.
*/
module CheckHistory {
  import opened Wrappers
  import opened Contenders
  import opened StopProtocol
  import opened StopHistory
  import R = ResticChildren
  import O = Outcome

  ghost predicate InCheck(t: Trace, j: int) {
    0 <= j < |t.states| && t.states[j].o.job == O.Work(O.CheckStage)
  }

  // ----- the steps of the call -----

  ghost predicate SpawnsAt(t: Trace, k: int, p: R.Pid) {
    0 <= k < |t.acts| && InCheck(t, k) && t.acts[k] == OnRestic(R.Spawn(p))
  }

  ghost predicate ExitsAt(t: Trace, k: int, p: R.Pid) {
    0 <= k < |t.acts| && InCheck(t, k) && t.acts[k] == OnRestic(R.WaitSeesExit) && t.states[k].r.call == R.Waiting(p)
  }

  ghost predicate ReapsAt(t: Trace, k: int, p: R.Pid) {
    0 <= k < |t.acts| && InCheck(t, k) && t.acts[k] == OnRestic(R.Reap(true)) && t.states[k].r.call == R.Reaping(p)
  }

  ghost predicate EndsAt(t: Trace, k: int) {
    0 <= k < |t.acts| && InCheck(t, k) && t.acts[k] == OnOutcome(O.WorkDone(true))
  }

  /** A step that is not the engine's, or one of a call that goes well: nothing is started, refused, lost or failed. */
  predicate GoesWell(a: Action) {
    match a
    case OnRestic(ra) =>
      (match ra
       case StartCall => false
       case TakeLock => false
       case Refuse => false
       case SpawnFails => false
       case Spawn(_) => false
       case WaitFails => false
       case Reap(ok) => ok
       case ReapFails => false
       case Return => false
       case _ => true)
    case OnHelpers(_) => true
    case OnOutcome(oa) => !oa.WorkDone?
  }

  ghost predicate AllWell(t: Trace, i: int, j: int) {
    forall k :: i < k < j && 0 <= k < |t.acts| ==> GoesWell(t.acts[k]) && InCheck(t, k)
  }

  // ----- how far the call has come -----

  ghost predicate Spawned(t: Trace, j: int, p: R.Pid, k: int) {
    k < j && SpawnsAt(t, k, p) && AllWell(t, k, j)
  }

  ghost predicate Exited(t: Trace, j: int, p: R.Pid, k: int, m: int) {
    Spawned(t, j, p, k) && k < m < j && ExitsAt(t, m, p)
  }

  ghost predicate Reaped(t: Trace, j: int, p: R.Pid, k: int, m: int, n: int) {
    Exited(t, j, p, k, m) && m < n < j && ReapsAt(t, n, p)
  }

  ghost predicate CallSoFar(t: Trace, j: int)
    requires 0 <= j < |t.states|
  {
    var r := t.states[j].r;
    match r.call
    case Listing(p) => p !in r.lost && exists k :: Spawned(t, j, p, k)
    case Waiting(p) => p !in r.lost && exists k :: Spawned(t, j, p, k)
    case Unlisting(p) => p in r.lost || exists k, m :: Exited(t, j, p, k, m)
    case Reaping(p) => p in r.lost || exists k, m :: Exited(t, j, p, k, m)
    case Finished(ok) => ok ==> exists p, k, m, n :: Reaped(t, j, p, k, m, n)
    case _ => true
  }

  /** The check's restic started, seen to exit, reaped with success, and the stage ended by it. */
  ghost predicate PassedBy(t: Trace, j: int, p: R.Pid, k: int, m: int, n: int, e: int) {
    e < j && EndsAt(t, e) && Reaped(t, e, p, k, m, n)
  }

  ghost predicate HasPassed(t: Trace, j: int) {
    exists p, k, m, n, e :: PassedBy(t, j, p, k, m, n, e)
  }

  ghost predicate Justified(t: Trace, j: int)
    requires 0 <= j < |t.states|
  {
    && (InCheck(t, j) ==> CallSoFar(t, j))
    && (O.Passed(t.states[j].o) ==> HasPassed(t, j))
  }

  // ----- one step further -----

  lemma WellFurther(t: Trace, i: int, j: int)
    requires AllWell(t, i, j) && (i < j ==> 0 <= j < |t.acts| ==> GoesWell(t.acts[j]) && InCheck(t, j))
    ensures AllWell(t, i, j + 1)
  {
  }

  lemma SpawnedFurther(t: Trace, j: int, p: R.Pid, k: int)
    requires Spawned(t, j, p, k) && 0 <= j < |t.acts| && GoesWell(t.acts[j]) && InCheck(t, j)
    ensures Spawned(t, j + 1, p, k)
  {
    WellFurther(t, k, j);
  }

  lemma ExitedFurther(t: Trace, j: int, p: R.Pid, k: int, m: int)
    requires Exited(t, j, p, k, m) && 0 <= j < |t.acts| && GoesWell(t.acts[j]) && InCheck(t, j)
    ensures Exited(t, j + 1, p, k, m)
  {
    SpawnedFurther(t, j, p, k);
  }

  lemma ReapedFurther(t: Trace, j: int, p: R.Pid, k: int, m: int, n: int)
    requires Reaped(t, j, p, k, m, n) && 0 <= j < |t.acts| && GoesWell(t.acts[j]) && InCheck(t, j)
    ensures Reaped(t, j + 1, p, k, m, n)
  {
    ExitedFurther(t, j, p, k, m);
  }

  /** A step that leaves the call where it is and goes well. */
  lemma SameCall(t: Trace, j: int)
    requires 0 <= j < |t.acts| && j + 1 < |t.states| && CallSoFar(t, j) && InCheck(t, j) && GoesWell(t.acts[j])
    requires t.states[j + 1].r.call == t.states[j].r.call && t.states[j + 1].r.lost == t.states[j].r.lost
    ensures CallSoFar(t, j + 1)
  {
    var r := t.states[j].r;
    match r.call
    case Listing(p) =>
      var k :| Spawned(t, j, p, k);
      SpawnedFurther(t, j, p, k);
    case Waiting(p) =>
      var k :| Spawned(t, j, p, k);
      SpawnedFurther(t, j, p, k);
    case Unlisting(p) =>
      if p !in r.lost {
        var k, m :| Exited(t, j, p, k, m);
        ExitedFurther(t, j, p, k, m);
      }
    case Reaping(p) =>
      if p !in r.lost {
        var k, m :| Exited(t, j, p, k, m);
        ExitedFurther(t, j, p, k, m);
      }
    case Finished(ok) =>
      if ok {
        var p, k, m, n :| Reaped(t, j, p, k, m, n);
        ReapedFurther(t, j, p, k, m, n);
      }
    case _ =>
  }

  lemma ListStep(t: Trace, j: int)
    requires 0 <= j < |t.acts| && StepAt(t, j) && t.acts[j] == OnRestic(R.List) && CallSoFar(t, j) && InCheck(t, j)
    ensures CallSoFar(t, j + 1)
  {
    var p := t.states[j].r.call.pid;
    var k :| Spawned(t, j, p, k);
    SpawnedFurther(t, j, p, k);
  }

  lemma ExitStep(t: Trace, j: int)
    requires 0 <= j < |t.acts| && StepAt(t, j) && t.acts[j] == OnRestic(R.WaitSeesExit)
    requires CallSoFar(t, j) && InCheck(t, j)
    ensures CallSoFar(t, j + 1)
  {
    var p := t.states[j].r.call.pid;
    var k :| Spawned(t, j, p, k);
    SpawnedFurther(t, j, p, k);
    assert Exited(t, j + 1, p, k, j);
  }

  lemma UnlistStep(t: Trace, j: int)
    requires 0 <= j < |t.acts| && StepAt(t, j) && t.acts[j] == OnRestic(R.Unlist) && CallSoFar(t, j) && InCheck(t, j)
    ensures CallSoFar(t, j + 1)
  {
    var r := t.states[j].r;
    if r.call.pid !in r.lost {
      var k, m :| Exited(t, j, r.call.pid, k, m);
      ExitedFurther(t, j, r.call.pid, k, m);
    }
  }

  lemma ReapStep(t: Trace, j: int, ok: bool)
    requires 0 <= j < |t.acts| && StepAt(t, j) && t.acts[j] == OnRestic(R.Reap(ok)) && CallSoFar(t, j) && InCheck(t, j)
    ensures CallSoFar(t, j + 1)
  {
    var r := t.states[j].r;
    if ok && r.call.pid !in r.lost {
      var k, m :| Exited(t, j, r.call.pid, k, m);
      ExitedFurther(t, j, r.call.pid, k, m);
      assert Reaped(t, j + 1, r.call.pid, k, m, j);
    }
  }

  lemma SpawnStep(t: Trace, j: int, p: R.Pid)
    requires 0 <= j < |t.acts| && StepAt(t, j) && t.acts[j] == OnRestic(R.Spawn(p)) && InCheck(t, j)
    requires R.Inv(t.states[j].r)
    ensures CallSoFar(t, j + 1)
  {
    assert SpawnsAt(t, j, p);
    assert Spawned(t, j + 1, p, j);
  }

  /** A step of the call itself. */
  lemma CallStep(t: Trace, j: int, a: R.Action)
    requires 0 <= j < |t.acts| && StepAt(t, j) && t.acts[j] == OnRestic(a) && R.Inv(t.states[j].r)
    requires CallSoFar(t, j) && InCheck(t, j)
    requires !R.IsStopAction(a) && !a.ChildExits? && !a.OtherStarts? && !a.OtherEnds?
    ensures CallSoFar(t, j + 1)
  {
    match a
    case Spawn(p) => SpawnStep(t, j, p);
    case List => ListStep(t, j);
    case WaitSeesExit => ExitStep(t, j);
    case Unlist => UnlistStep(t, j);
    case Reap(ok) => ReapStep(t, j, ok);
    case _ =>
  }

  /** A step of the kernel's or of a stop's. */
  lemma OthersLeaveCall(s: R.Sys, a: R.Action)
    requires R.Enabled(s, a) && (R.IsStopAction(a) || a.ChildExits? || a.OtherStarts? || a.OtherEnds?)
    ensures R.Apply(s, a).call == s.call && R.Apply(s, a).lost == s.lost
  {
    if R.IsStopAction(a) {
      R.StopLeavesChildren(s, a);
    }
  }

  lemma ResticStep(t: Trace, j: int, a: R.Action)
    requires 0 <= j < |t.acts| && StepAt(t, j) && t.acts[j] == OnRestic(a) && R.Inv(t.states[j].r)
    requires CallSoFar(t, j) && InCheck(t, j)
    ensures CallSoFar(t, j + 1)
  {
    if R.IsStopAction(a) || a.ChildExits? || a.OtherStarts? || a.OtherEnds? {
      OthersLeaveCall(t.states[j].r, a);
      SameCall(t, j);
    } else {
      CallStep(t, j, a);
    }
  }

  lemma OutcomeStep(t: Trace, j: int, a: O.Action)
    requires 0 <= j < |t.acts| && StepAt(t, j) && t.acts[j] == OnOutcome(a) && !a.WorkDone?
    requires InCheck(t, j) ==> CallSoFar(t, j)
    ensures InCheck(t, j + 1) ==> CallSoFar(t, j + 1)
    ensures t.states[j + 1].o.checkPassed == t.states[j].o.checkPassed
  {
    var o := t.states[j].o;
    if !O.IsEngineAction(a) {
      O.StopLeavesEngine(o, a);
    }
    if InCheck(t, j + 1) {
      assert InCheck(t, j);
      SameCall(t, j);
    }
  }

  lemma WorkStep(t: Trace, j: int, ok: bool)
    requires 0 <= j < |t.acts| && StepAt(t, j) && t.acts[j] == OnOutcome(O.WorkDone(ok))
    requires InCheck(t, j) ==> CallSoFar(t, j)
    ensures InCheck(t, j + 1) ==> CallSoFar(t, j + 1)
    ensures InCheck(t, j) && ok ==> HasPassed(t, j + 1)
    ensures t.states[j + 1].o.checkPassed == if InCheck(t, j) then Some(ok) else t.states[j].o.checkPassed
  {
    if InCheck(t, j) && ok {
      assert t.states[j].r.call == R.Finished(true);
      var p, k, m, n :| Reaped(t, j, p, k, m, n);
      assert PassedBy(t, j + 1, p, k, m, n, j);
    }
  }

  lemma PassedStays(t: Trace, j: int)
    requires 0 <= j && HasPassed(t, j)
    ensures HasPassed(t, j + 1)
  {
    var p, k, m, n, e :| PassedBy(t, j, p, k, m, n, e);
    assert PassedBy(t, j + 1, p, k, m, n, e);
  }

  lemma StepJustified(t: Trace, j: int)
    requires 0 <= j < |t.acts| && StepAt(t, j) && R.Inv(t.states[j].r) && Justified(t, j)
    ensures Justified(t, j + 1)
  {
    if HasPassed(t, j) {
      PassedStays(t, j);
    }
    match t.acts[j]
    case OnHelpers(_) =>
      if InCheck(t, j) {
        SameCall(t, j);
      }
    case OnRestic(a) =>
      if InCheck(t, j) {
        ResticStep(t, j, a);
      }
    case OnOutcome(a) =>
      if a.WorkDone? {
        WorkStep(t, j, a.ok);
      } else {
        OutcomeStep(t, j, a);
      }
  }

  lemma {:induction false} AlwaysJustified(t: Trace, j: nat)
    requires IsTrace(t) && j <= |t.acts|
    ensures Justified(t, j)
  {
    if j > 0 {
      AlwaysJustified(t, j - 1);
      ResticInv(t, j - 1);
      StepTaken(t, j - 1);
      StepJustified(t, j - 1);
    }
  }

  lemma StepTaken(t: Trace, j: nat)
    requires IsTrace(t) && j < |t.acts|
    ensures StepAt(t, j)
  {
  }

  lemma ResticInv(t: Trace, j: nat)
    requires IsTrace(t) && j <= |t.acts|
    ensures R.Inv(t.states[j].r)
  {
    TraceIsRun(t);
    RunKeepsInv(t.states, j);
  }

  /**
  In every run, whenever the check counts as passed: earlier, in this run's check stage, a restic was spawned; later it
  was seen to exit; later it was reaped with success; later the stage ended by that.  From the spawn to the stage's end
  the engine started no other restic, was refused none, and no spawn, wait or reaping failed.
  */
  lemma APassIsRestics(t: Trace, j: nat)
    requires IsTrace(t) && j <= |t.acts| && O.Passed(t.states[j].o)
    ensures exists p, k, m, n, e ::
              && 0 <= k < m < n < e < j
              && SpawnsAt(t, k, p) && ExitsAt(t, m, p) && ReapsAt(t, n, p) && EndsAt(t, e) && AllWell(t, k, e)
  {
    AlwaysJustified(t, j);
    var p, k, m, n, e :| PassedBy(t, j, p, k, m, n, e);
    assert SpawnsAt(t, k, p) && ExitsAt(t, m, p) && ReapsAt(t, n, p) && EndsAt(t, e) && AllWell(t, k, e);
  }

  // ----- a call that fails -----

  /** The check's restic is refused, cannot be spawned, fails, cannot be reaped, or its wait fails. */
  predicate Fails(a: Action) {
    match a
    case OnRestic(ra) => ra.Refuse? || ra.SpawnFails? || ra.ReapFails? || ra.WaitFails? || ra == R.Reap(false)
    case _ => false
  }

  /** The check has failed, or is about to: its call has ended badly, or will. */
  ghost predicate Doomed(s: State) {
    || s.o.checkPassed == Some(false)
    || (s.o.job == O.Work(O.CheckStage)
        && (s.r.call == R.Finished(false) || ((s.r.call.Unlisting? || s.r.call.Reaping?) && s.r.call.pid in s.r.lost)))
  }

  lemma FailureDooms(s: State, a: Action)
    requires Enabled(s, a) && Fails(a) && s.o.job == O.Work(O.CheckStage)
    ensures Doomed(Apply(s, a))
  {
  }

  lemma CallStaysDoomed(s: State, ra: R.Action)
    requires Doomed(s) && R.Inv(s.r) && Enabled(s, OnRestic(ra))
    ensures Doomed(Apply(s, OnRestic(ra)))
  {
    if s.o.checkPassed != Some(false) {
      if R.IsStopAction(ra) || ra.ChildExits? || ra.OtherStarts? || ra.OtherEnds? {
        OthersLeaveCall(s.r, ra);
      }
    }
  }

  lemma OutcomeStaysDoomed(s: State, oa: O.Action)
    requires Doomed(s) && O.PhaseOk(s.o) && Enabled(s, OnOutcome(oa))
    ensures Doomed(Apply(s, OnOutcome(oa)))
  {
    if !O.IsEngineAction(oa) {
      O.StopLeavesEngine(s.o, oa);
    }
  }

  lemma StaysDoomed(s: State, a: Action)
    requires Doomed(s) && Inv(s) && Enabled(s, a)
    ensures Doomed(Apply(s, a))
  {
    match a
    case OnHelpers(_) =>
    case OnRestic(ra) => CallStaysDoomed(s, ra);
    case OnOutcome(oa) => OutcomeStaysDoomed(s, oa);
  }

  lemma {:induction false} DoomedFrom(t: Trace, k: nat, j: nat)
    requires IsTrace(t) && k <= j <= |t.acts| && Doomed(t.states[k])
    ensures Doomed(t.states[j])
    decreases j - k
  {
    if k < j {
      StepTaken(t, k);
      TraceIsRun(t);
      RunKeepsInv(t.states, k);
      StaysDoomed(t.states[k], t.acts[k]);
      DoomedFrom(t, k + 1, j);
    }
  }

  /** No failure of the check's restic, of whatever kind, leads to a pass: not then, and not at any later moment. */
  lemma AFailureNeverPasses(t: Trace, k: nat, j: nat)
    requires IsTrace(t) && k < j <= |t.acts| && InCheck(t, k) && Fails(t.acts[k])
    ensures !O.Passed(t.states[j].o)
  {
    assert StepAt(t, k);
    FailureDooms(t.states[k], t.acts[k]);
    DoomedFrom(t, k + 1, j);
    TraceIsRun(t);
    RunKeepsInv(t.states, j);
  }

  // ----- the prune -----

  /** The engine starts a restic of the prune. */
  ghost predicate PrunesAt(t: Trace, k: int) {
    0 <= k < |t.acts| && k < |t.states|
    && t.acts[k] == OnRestic(R.StartCall) && t.states[k].o.job == O.Work(O.PruneStage)
  }

  /** No restic of the prune is started but under enforcement, and after a check that one of its own restics passed. */
  lemma PruneRestsOnACheck(t: Trace, j: nat)
    requires IsTrace(t) && PrunesAt(t, j)
    ensures t.states[j].o.enforceCheck && t.states[j].o.mode == O.CheckJob
    ensures exists p, k, m, n, e ::
              && 0 <= k < m < n < e < j
              && SpawnsAt(t, k, p) && ExitsAt(t, m, p) && ReapsAt(t, n, p) && EndsAt(t, e) && AllWell(t, k, e)
  {
    TraceIsRun(t);
    RunKeepsInv(t.states, j);
    APassIsRestics(t, j);
  }

  /** How many restics of the prune were started up to `j`. */
  ghost function PruneStarts(t: Trace, j: nat): nat
    requires j <= |t.acts|
  {
    if j == 0 then 0 else PruneStarts(t, j - 1) + if PrunesAt(t, j - 1) then 1 else 0
  }

  lemma {:induction false} PruneCallsAreStarts(t: Trace, j: nat)
    requires IsTrace(t) && j <= |t.acts|
    ensures t.states[j].pruneCalls == PruneStarts(t, j)
  {
    if j > 0 {
      PruneCallsAreStarts(t, j - 1);
      StepTaken(t, j - 1);
    }
  }
}
