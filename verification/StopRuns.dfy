/**
Runs that show where the promises of the stop end.  Each is a run of the whole system, step by step under
its control flow.
*/
module StopRuns {
  import opened Wrappers
  import opened Contenders
  import opened StopProtocol
  import Runs
  import H = HelperPods
  import R = ResticChildren
  import O = Outcome

  // ----- building runs -----

  lemma Extend(run: seq<State>, a: Action) returns (longer: seq<State>)
    requires IsRun(run) && Enabled(Runs.Last(run), a)
    ensures IsRun(longer) && run <= longer && Runs.Last(longer) == Apply(Runs.Last(run), a)
  {
    var s := Apply(Runs.Last(run), a);
    assert Next(Runs.Last(run), s);
    Runs.Extend(Init, Next, run, s);
    longer := run + [s];
  }

  lemma OnH(run: seq<State>, a: H.Action) returns (longer: seq<State>)
    requires IsRun(run) && H.Enabled(Runs.Last(run).h, a) && HelperStepAllowed(Runs.Last(run), a)
    ensures IsRun(longer) && Runs.Last(longer) == Runs.Last(run).(h := H.Apply(Runs.Last(run).h, a))
  {
    longer := Extend(run, OnHelpers(a));
  }

  lemma OnR(run: seq<State>, a: R.Action) returns (longer: seq<State>)
    requires IsRun(run) && R.Enabled(Runs.Last(run).r, a) && ResticStepAllowed(Runs.Last(run), a)
    requires Runs.Last(run).o.job != O.Work(O.PruneStage)
    ensures IsRun(longer) && Runs.Last(longer) == Runs.Last(run).(r := R.Apply(Runs.Last(run).r, a))
  {
    longer := Extend(run, OnRestic(a));
  }

  lemma Start(mode: O.Mode) returns (run: seq<State>)
    ensures IsRun(run) && Runs.Last(run) == State(NoPods, NoRestic, Fresh(mode), 0)
  {
    run := [State(NoPods, NoRestic, Fresh(mode), 0)];
  }

  const NoPods := H.Sys(H.NoneLive, map[], {}, {}, H.Idle, H.Unstarted, H.Unstarted)
  const NoRestic := R.Sys(R.NoChildren, R.Nobody, map[], R.Idle, R.Unstarted, R.Unstarted, 0, {}, false)

  function Fresh(mode: O.Mode): O.Sys {
    O.Sys(mode, true, false, None, O.CheckPhase, O.Work(if mode == O.BackupJob then O.BackupWork else O.UnlockStage),
          None, false, 0, [], O.Watching, O.Watching, None)
  }

  /** A stop wins the outcome while the backup is at work. */
  ghost predicate Striking(s: State, w: Stopper) {
    s.o.exited.None? && s.o.job == O.Work(O.BackupWork) && O.TaskOf(s.o, w).Stopping?
  }

  lemma Strike(run: seq<State>, w: Stopper) returns (longer: seq<State>)
    requires IsRun(run) && Runs.Last(run).o == Fresh(O.BackupJob)
    ensures IsRun(longer) && Striking(Runs.Last(longer), w)
    ensures Runs.Last(longer).h == Runs.Last(run).h && Runs.Last(longer).r == Runs.Last(run).r
    ensures Runs.Last(longer).o == TaskAt(w, O.Stopping, [])
  {
    longer := Extend(run, OnOutcome(O.Trigger(w)));
  }

  // ----- helper pods: the list must settle and the deletes go through -----

  function Unanswered(p: H.Pod): Side {
    Side(H.Live({p}, 1, false), map[], p, {}, H.Sent(p, false))
  }

  function InUse(p: H.Pod): Side {
    Side(H.Live({p}, 0, false), map[p := H.Running], p, {}, H.Using(p))
  }

  function FailedDelete(p: H.Pod): Side {
    Side(H.Live({}, 0, false), map[p := H.Running], p, {p}, H.Idle)
  }

  /** A PATCH has been sent and the stop strikes before its answer. */
  lemma StruckUnanswered(p: H.Pod, w: Stopper) returns (run: seq<State>)
    ensures IsRun(run) && Striking(Runs.Last(run), w)
    ensures Runs.Last(run).h == At(Unanswered(p), w, H.Unstarted)
    ensures Runs.Last(run).r == NoRestic && Runs.Last(run).o == TaskAt(w, O.Stopping, [])
  {
    run := Start(O.BackupJob);
    run := OnH(run, H.StartCall(p));
    run := OnH(run, H.Begin);
    run := Strike(run, w);
  }

  lemma UsedPod(p: H.Pod) returns (run: seq<State>)
    ensures IsRun(run)
    ensures Runs.Last(run) ==
            State(H.Sys(H.Live({p}, 0, false), map[p := H.Running], {p}, {}, H.Using(p), H.Unstarted, H.Unstarted),
                  NoRestic, Fresh(O.BackupJob), 0)
  {
    run := Start(O.BackupJob);
    run := OnH(run, H.StartCall(p));
    run := OnH(run, H.Begin);
    run := OnH(run, H.PatchEffect);
    run := OnH(run, H.AnswerPatch(H.Usable));
    run := OnH(run, H.DropInFlight);
  }

  /** The pod is up and in use when the stop strikes. */
  lemma StruckInUse(p: H.Pod, w: Stopper) returns (run: seq<State>)
    ensures IsRun(run) && Striking(Runs.Last(run), w)
    ensures Runs.Last(run).h == At(InUse(p), w, H.Unstarted)
  {
    run := UsedPod(p);
    run := Strike(run, w);
  }

  /** A pod of this run is left running that the stop was not to miss. */
  ghost predicate LeavesAPod(s: State, w: Stopper)
    requires H.HalfOf(s.h, w).Done?
  {
    exists p :: p in s.h.begun && H.IsRunning(s.h, p) && p !in H.HalfOf(s.h, w).spared
  }

  ghost predicate EndsWithAPod(s: State, w: Stopper, settled: bool, clean: bool) {
    H.Ended(H.HalfOf(s.h, w), settled, clean) && LeavesAPod(s, w)
  }

  /** The helper side but for the stops, with one pod begun. */
  datatype Side = Side(live: H.Live, cluster: map<H.Pod, H.PodState>, pod: H.Pod, leaked: set<H.Pod>, call: H.Call)

  /** The helper side with only `w`'s half under way. */
  function At(d: Side, w: Stopper, half: H.Half): H.Sys {
    H.WithHalf(H.Sys(d.live, d.cluster, {d.pod}, d.leaked, d.call, H.Unstarted, H.Unstarted), w, half)
  }

  function ClosedSide(d: Side): Side {
    d.(live := H.Close(d.live))
  }

  lemma HalfAt(h: H.Sys, d: Side, w: Stopper, half: H.Half)
    requires h == At(d, w, half)
    ensures h.live == d.live && h.cluster == d.cluster && h.begun == {d.pod} && h.leaked == d.leaked && h.call == d.call
    ensures H.HalfOf(h, w) == half
  {
  }

  lemma Closes(run: seq<State>, d: Side, w: Stopper)
    returns (longer: seq<State>)
    requires IsRun(run) && Striking(Runs.Last(run), w) && Runs.Last(run).h == At(d, w, H.Unstarted)
    ensures IsRun(longer) && Striking(Runs.Last(longer), w)
    ensures Runs.Last(longer) == Runs.Last(run).(h := Runs.Last(longer).h)
    ensures Runs.Last(longer).h == At(ClosedSide(d), w, H.Polling)
  {
    HalfAt(Runs.Last(run).h, d, w, H.Unstarted);
    longer := OnH(run, H.CloseList(w));
  }

  lemma Settles(run: seq<State>, d: Side, w: Stopper)
    returns (longer: seq<State>)
    requires IsRun(run) && Striking(Runs.Last(run), w) && Runs.Last(run).h == At(d, w, H.Polling)
    ensures IsRun(longer) && Striking(Runs.Last(longer), w)
    ensures Runs.Last(longer) == Runs.Last(run).(h := Runs.Last(longer).h)
    ensures Runs.Last(longer).h == At(d, w, H.Taking(d.live.applying == 0))
  {
    HalfAt(Runs.Last(run).h, d, w, H.Polling);
    if d.live.applying == 0 {
      longer := OnH(run, H.SeeSettled(w));
    } else {
      longer := OnH(run, H.SettleTimeout(w));
    }
  }

  lemma Takes(run: seq<State>, d: Side, w: Stopper)
    returns (longer: seq<State>)
    requires IsRun(run) && Striking(Runs.Last(run), w) && Runs.Last(run).h == At(d, w, H.Polling)
    ensures IsRun(longer) && Striking(Runs.Last(longer), w)
    ensures Runs.Last(longer) == Runs.Last(run).(h := Runs.Last(longer).h)
    ensures Runs.Last(longer).h ==
            At(d, w, H.Removing(d.live.pods, d.live.applying == 0, true, d.leaked - d.live.pods))
  {
    longer := Settles(run, d, w);
    HalfAt(Runs.Last(longer).h, d, w, H.Taking(d.live.applying == 0));
    longer := OnH(longer, H.TakeList(w));
  }

  /** What the stop's delete of the pod leaves. */
  function Without(d: Side, ok: bool): Side {
    d.(cluster := if ok then d.cluster - {d.pod} else d.cluster)
  }

  lemma DeletesOne(run: seq<State>, d: Side, w: Stopper, settled: bool, ok: bool, spared: set<H.Pod>)
    returns (longer: seq<State>)
    requires IsRun(run) && Striking(Runs.Last(run), w)
    requires Runs.Last(run).h == At(d, w, H.Removing({d.pod}, settled, true, spared))
    ensures IsRun(longer) && Striking(Runs.Last(longer), w)
    ensures Runs.Last(longer) == Runs.Last(run).(h := Runs.Last(longer).h)
    ensures Runs.Last(longer).h == At(Without(d, ok), w, H.Removing({}, settled, ok, spared))
  {
    HalfAt(Runs.Last(run).h, d, w, H.Removing({d.pod}, settled, true, spared));
    assert {d.pod} - {d.pod} == {};
    longer := OnH(run, H.StopDelete(w, d.pod, ok));
  }

  lemma Deletes(run: seq<State>, d: Side, w: Stopper, settled: bool, ok: bool, spared: set<H.Pod>)
    returns (longer: seq<State>)
    requires IsRun(run) && Striking(Runs.Last(run), w)
    requires Runs.Last(run).h == At(d, w, H.Removing({d.pod}, settled, true, spared))
    ensures IsRun(longer) && Striking(Runs.Last(longer), w)
    ensures Runs.Last(longer) == Runs.Last(run).(h := Runs.Last(longer).h)
    ensures Runs.Last(longer).h == At(Without(d, ok), w, H.Done(settled, ok, spared))
  {
    longer := DeletesOne(run, d, w, settled, ok, spared);
    HalfAt(Runs.Last(longer).h, Without(d, ok), w, H.Removing({}, settled, ok, spared));
    longer := OnH(longer, H.FinishDeletes(w));
  }

  /** Unsettled, with every delete answered: the PATCH takes effect after them. */
  lemma UnsettledLeaks(p: H.Pod, w: Stopper) returns (run: seq<State>)
    ensures IsRun(run) && EndsWithAPod(Runs.Last(run), w, false, true)
  {
    var d := Side(H.Live({p}, 1, true), map[], p, {}, H.Sent(p, false));
    run := StruckUnanswered(p, w);
    run := Closes(run, Unanswered(p), w);
    run := Takes(run, d, w);
    run := Deletes(run, d, w, false, true, {} - {p});
    HalfAt(Runs.Last(run).h, Without(d, true), w, H.Done(false, true, {} - {p}));
    run := OnH(run, H.PatchEffect);
    assert p in Runs.Last(run).h.begun && H.IsRunning(Runs.Last(run).h, p);
  }

  /** Settled, with a delete that failed: the pod runs on. */
  lemma UncleanLeaks(p: H.Pod, w: Stopper) returns (run: seq<State>)
    ensures IsRun(run) && EndsWithAPod(Runs.Last(run), w, true, false)
  {
    var d := ClosedSide(InUse(p));
    run := StruckInUse(p, w);
    run := Closes(run, InUse(p), w);
    run := Takes(run, d, w);
    run := Deletes(run, d, w, true, false, {} - {p});
    HalfAt(Runs.Last(run).h, d, w, H.Done(true, false, {} - {p}));
    assert p in Runs.Last(run).h.begun && H.IsRunning(Runs.Last(run).h, p);
  }

  /** The outer bound runs out before the list is taken. */
  lemma CutOffLeaks(p: H.Pod, w: Stopper) returns (run: seq<State>)
    ensures IsRun(run) && EndsWithAPod(Runs.Last(run), w, false, false)
  {
    var d := ClosedSide(InUse(p));
    run := StruckInUse(p, w);
    run := Closes(run, InUse(p), w);
    HalfAt(Runs.Last(run).h, d, w, H.Polling);
    run := OnH(run, H.BoundElapsed(w));
    HalfAt(Runs.Last(run).h, d, w, H.Done(false, false, {}));
    assert p in Runs.Last(run).h.begun && H.IsRunning(Runs.Last(run).h, p);
  }

  ghost predicate CleanAt(run: seq<State>, j: nat, w: Stopper, settled: bool, clean: bool) {
    IsRun(run) && j < |run| ==> !EndsWithAPod(run[j], w, settled, clean)
  }

  /** No run whose helper half ended this way leaves a pod, at any moment. */
  ghost predicate AlwaysClean(w: Stopper, settled: bool, clean: bool) {
    forall run, j :: CleanAt(run, j, w, settled, clean)
  }

  /** The promise about helper pods holds exactly of a stop whose list settled and whose deletes went through. */
  lemma CleanIffSettledAndDeleted(w: Stopper, settled: bool, clean: bool)
    ensures AlwaysClean(w, settled, clean) <==> settled && clean
  {
    if settled && clean {
      forall run: seq<State>, j: nat
        ensures CleanAt(run, j, w, true, true)
      {
        if IsRun(run) && j < |run| && H.Ended(H.HalfOf(run[j].h, w), true, true) {
          NoHelperPodLeft(run, w, j, j);
        }
      }
    } else {
      var run := SomeLeak(w, settled, clean);
      assert !CleanAt(run, |run| - 1, w, settled, clean);
    }
  }

  lemma SomeLeak(w: Stopper, settled: bool, clean: bool) returns (run: seq<State>)
    requires !(settled && clean)
    ensures IsRun(run) && EndsWithAPod(Runs.Last(run), w, settled, clean)
  {
    var p := H.Pod("ns", "helper");
    if clean {
      run := UnsettledLeaks(p, w);
    } else if settled {
      run := UncleanLeaks(p, w);
    } else {
      run := CutOffLeaks(p, w);
    }
  }

  /** A pod is up, its own delete has failed, and it is off the list when the stop strikes. */
  lemma StruckAfterFailedDelete(p: H.Pod, w: Stopper) returns (run: seq<State>)
    ensures IsRun(run) && Striking(Runs.Last(run), w)
    ensures Runs.Last(run).h == At(FailedDelete(p), w, H.Unstarted)
  {
    run := UsedPod(p);
    run := OnH(run, H.FinishUse);
    run := OnH(run, H.BestEffortDelete(false));
    run := OnH(run, H.Forget);
    assert {p} - {p} == {};
    run := Strike(run, w);
  }

  /** The exception is met: such a pod outlives a stop whose list settled and whose deletes went through. */
  lemma SparedPodOutlives(p: H.Pod, w: Stopper)
    ensures exists run :: IsRun(run) &&
                          var last := Runs.Last(run).h;
                          H.HalfOf(last, w) == H.Done(true, true, {p}) && p in last.begun && H.IsRunning(last, p)
  {
    var d := ClosedSide(FailedDelete(p));
    var run := StruckAfterFailedDelete(p, w);
    run := Closes(run, FailedDelete(p), w);
    run := Takes(run, d, w);
    assert {p} - {} == {p};
    HalfAt(Runs.Last(run).h, d, w, H.Removing({}, true, true, {p}));
    run := OnH(run, H.FinishDeletes(w));
    HalfAt(Runs.Last(run).h, d, w, H.Done(true, true, {p}));
  }

  // ----- restic: a failed wait hides a child -----

  lemma StruckWaiting(p: R.Pid, w: Stopper) returns (run: seq<State>)
    ensures IsRun(run) && Striking(Runs.Last(run), w)
    ensures Runs.Last(run).r == ChildAt(R.Children({p}, false), R.Nobody, p, R.Waiting(p), {}, w, R.Unstarted)
  {
    run := Start(O.BackupJob);
    run := OnR(run, R.StartCall);
    run := OnR(run, R.TakeLock);
    run := OnR(run, R.Spawn(p));
    run := OnR(run, R.List);
    run := Strike(run, w);
  }

  /** The restic side with one child started and only `w`'s half under way. */
  function ChildAt(list: R.Children, lock: R.Holder, p: R.Pid, call: R.Call, lost: set<R.Pid>, w: Stopper,
                   half: R.Half): R.Sys
  {
    R.WithHalf(R.Sys(list, lock, map[p := R.Child(false)], call, R.Unstarted, R.Unstarted, 1, lost, false), w, half)
  }

  lemma HalfOfChild(r: R.Sys, list: R.Children, lock: R.Holder, p: R.Pid, call: R.Call, lost: set<R.Pid>, w: Stopper,
                    half: R.Half)
    requires r == ChildAt(list, lock, p, call, lost, w, half)
    ensures r.list == list && r.lock == lock && r.call == call && r.lost == lost
    ensures r.procs == map[p := R.Child(false)] && R.HalfOf(r, w) == half
  {
  }

  lemma ClosesSet(run: seq<State>, p: R.Pid, w: Stopper) returns (longer: seq<State>)
    requires IsRun(run) && Striking(Runs.Last(run), w)
    requires Runs.Last(run).r == ChildAt(R.Children({p}, false), R.Nobody, p, R.Waiting(p), {}, w, R.Unstarted)
    ensures IsRun(longer) && Striking(Runs.Last(longer), w)
    ensures Runs.Last(longer).r ==
            ChildAt(R.Children({p}, true), R.StopHolds(w), p, R.Waiting(p), {}, w, R.Signalling({p}, {}))
  {
    HalfOfChild(Runs.Last(run).r, R.Children({p}, false), R.Nobody, p, R.Waiting(p), {}, w, R.Unstarted);
    longer := OnR(run, R.CloseSet(w));
  }

  lemma Signals(run: seq<State>, p: R.Pid, w: Stopper) returns (longer: seq<State>)
    requires IsRun(run) && Striking(Runs.Last(run), w)
    requires Runs.Last(run).r ==
             ChildAt(R.Children({p}, true), R.StopHolds(w), p, R.Waiting(p), {}, w, R.Signalling({p}, {}))
    ensures IsRun(longer) && Striking(Runs.Last(longer), w)
    ensures Runs.Last(longer).r == ChildAt(R.Children({p}, true), R.Nobody, p, R.Waiting(p), {}, w, R.Polling({p}, {p}))
  {
    var list := R.Children({p}, true);
    HalfOfChild(Runs.Last(run).r, list, R.StopHolds(w), p, R.Waiting(p), {}, w, R.Signalling({p}, {}));
    longer := OnR(run, R.Send(w, p));
    assert {} + {p} == {p};
    HalfOfChild(Runs.Last(longer).r, list, R.StopHolds(w), p, R.Waiting(p), {}, w, R.Signalling({p}, {p}));
    longer := OnR(longer, R.EndSignals(w));
  }

  lemma WaitFailsAt(run: seq<State>, p: R.Pid, w: Stopper) returns (longer: seq<State>)
    requires IsRun(run) && Striking(Runs.Last(run), w)
    requires Runs.Last(run).r == ChildAt(R.Children({p}, true), R.Nobody, p, R.Waiting(p), {}, w, R.Polling({p}, {p}))
    ensures IsRun(longer) && Striking(Runs.Last(longer), w)
    ensures Runs.Last(longer).r ==
            ChildAt(R.Children({p}, true), R.Nobody, p, R.Unlisting(p), {p}, w, R.Polling({p}, {p}))
  {
    HalfOfChild(Runs.Last(run).r, R.Children({p}, true), R.Nobody, p, R.Waiting(p), {}, w, R.Polling({p}, {p}));
    longer := OnR(run, R.WaitFails);
    assert {} + {p} == {p};
  }

  lemma UnlistsAt(run: seq<State>, p: R.Pid, w: Stopper) returns (longer: seq<State>)
    requires IsRun(run) && Striking(Runs.Last(run), w)
    requires Runs.Last(run).r ==
             ChildAt(R.Children({p}, true), R.Nobody, p, R.Unlisting(p), {p}, w, R.Polling({p}, {p}))
    ensures IsRun(longer) && Striking(Runs.Last(longer), w)
    ensures Runs.Last(longer).r == ChildAt(R.Children({}, true), R.Nobody, p, R.Reaping(p), {p}, w, R.Polling({p}, {p}))
  {
    HalfOfChild(Runs.Last(run).r, R.Children({p}, true), R.Nobody, p, R.Unlisting(p), {p}, w, R.Polling({p}, {p}));
    longer := OnR(run, R.Unlist);
    assert {p} - {p} == {};
  }

  /** A wait fails, the child is taken off the list, and the stop reports it gone while it runs. */
  lemma FailedWaitHidesAChild(p: R.Pid, w: Stopper)
    ensures exists run :: IsRun(run) &&
                          var last := Runs.Last(run).r;
                          && R.HalfOf(last, w) == R.Done({p}, {p}, {}, R.Exited)
                          && R.IsRunningChild(last, p) && last.lost == {p}
  {
    var list := R.Children({}, true);
    var run := StruckWaiting(p, w);
    run := ClosesSet(run, p, w);
    run := Signals(run, p, w);
    run := WaitFailsAt(run, p, w);
    run := UnlistsAt(run, p, w);
    HalfOfChild(Runs.Last(run).r, list, R.Nobody, p, R.Reaping(p), {p}, w, R.Polling({p}, {p}));
    run := OnR(run, R.SeeNoneRunning(w));
    HalfOfChild(Runs.Last(run).r, list, R.Nobody, p, R.Reaping(p), {p}, w, R.Done({p}, {p}, {}, R.Exited));
  }

  // ----- the outcome: one late record -----

  /** A restic run of the engine that could not be spawned. */
  lemma ResticRunFails(run: seq<State>) returns (longer: seq<State>)
    requires IsRun(run) && Runs.Last(run).r == NoRestic && Runs.Last(run).o.exited.None?
    requires Runs.Last(run).o.job.Work? && Runs.Last(run).o.job.stage != O.PruneStage && Runs.Last(run).h == NoPods
    ensures IsRun(longer) && Runs.Last(longer) == Runs.Last(run).(r := NoRestic.(call := R.Finished(false)))
  {
    longer := OnR(run, R.StartCall);
    longer := OnR(longer, R.TakeLock);
    longer := OnR(longer, R.SpawnFails);
  }

  /** A check run that has failed, tested the flag, and is about to write its record. */
  lemma AboutToRecord() returns (run: seq<State>)
    ensures IsRun(run)
    ensures Runs.Last(run).o ==
            Fresh(O.CheckJob).(checkPassed := Some(false), job := O.WriteStep(O.CheckStage))
  {
    run := Start(O.CheckJob);
    run := ResticRunFails(run);
    run := Extend(run, OnOutcome(O.WorkDone(false)));
    assert Runs.Last(run) == State(NoPods, NoRestic, Fresh(O.CheckJob).(job := O.Work(O.CheckStage)), 0);
    run := ResticRunFails(run);
    run := Extend(run, OnOutcome(O.WorkDone(false)));
    run := Extend(run, OnOutcome(O.TestFlag));
  }

  /** A stop that claims between the engine's test and its write does let that one record through. */
  lemma OneLateRecordHappens(w: Stopper)
    ensures exists run :: IsRun(run) && Runs.Last(run).o.late == 1 && Runs.Last(run).o.winner == Some(Stop(w))
  {
    var run := AboutToRecord();
    run := Extend(run, OnOutcome(O.Trigger(w)));
    run := Extend(run, OnOutcome(O.WriteStepRecord));
  }

  // ----- runs that end -----

  lemma OnO(run: seq<State>, a: O.Action) returns (longer: seq<State>)
    requires IsRun(run) && O.Enabled(Runs.Last(run).o, a) && OutcomeStepAllowed(Runs.Last(run), a) && !a.WorkDone?
    ensures IsRun(longer) && run <= longer
    ensures Runs.Last(longer) == Runs.Last(run).(o := O.Apply(Runs.Last(run).o, a))
  {
    longer := Extend(run, OnOutcome(a));
  }

  /** A backup ends by itself, well or not: recorded, posted if it failed, and out with 0 or 1. */
  lemma BackupEnds(ok: bool) returns (run: seq<State>)
    ensures IsRun(run) && Runs.Last(run).o.exited == Some(if ok then 0 else 1)
    ensures ok ==> Runs.Last(run).o.effects == [O.RunRecord(Engine), O.Exit(Engine, 0)]
    ensures !ok ==> Runs.Last(run).o.effects == [O.RunRecord(Engine), O.Webhook(Engine), O.Exit(Engine, 1)]
  {
    run := Start(O.BackupJob);
    run := Extend(run, OnOutcome(O.WorkDone(ok)));
    run := OnO(run, O.EngineClaims);
    run := OnO(run, O.EngineRecords(true));
    run := OnO(run, O.EnginePosts(!ok));
    run := OnO(run, O.EngineExits);
  }

  /** The engine's state at rest after `n` restics. */
  function Rested(n: nat, call: R.Call): R.Sys {
    NoRestic.(spawned := n, call := call)
  }

  /** A restic run of the engine that goes well. */
  lemma ResticStarts(run: seq<State>, n: nat, p: R.Pid) returns (longer: seq<State>)
    requires IsRun(run) && Runs.Last(run).r == Rested(n, R.Idle) && Runs.Last(run).h == NoPods
    requires Runs.Last(run).o.exited.None? && Runs.Last(run).o.job.Work? && Runs.Last(run).o.job.stage != O.PruneStage
    ensures IsRun(longer)
    ensures Runs.Last(longer) ==
            Runs.Last(run).(r := NoRestic.(spawned := n + 1, call := R.Waiting(p), list := R.Children({p}, false),
                                           procs := map[p := R.Child(false)]))
  {
    longer := OnR(run, R.StartCall);
    longer := OnR(longer, R.TakeLock);
    longer := OnR(longer, R.Spawn(p));
    longer := OnR(longer, R.List);
    assert {} + {p} == {p};
  }

  lemma ResticEnds(run: seq<State>, n: nat, p: R.Pid) returns (longer: seq<State>)
    requires IsRun(run) && Runs.Last(run).h == NoPods
    requires Runs.Last(run).r == NoRestic.(spawned := n, call := R.Waiting(p), list := R.Children({p}, false),
                                           procs := map[p := R.Child(false)])
    requires Runs.Last(run).o.exited.None? && Runs.Last(run).o.job.Work? && Runs.Last(run).o.job.stage != O.PruneStage
    ensures IsRun(longer) && Runs.Last(longer) == Runs.Last(run).(r := Rested(n, R.Finished(true)))
  {
    longer := OnR(run, R.ChildExits(p));
    longer := OnR(longer, R.WaitSeesExit);
    longer := OnR(longer, R.Unlist);
    assert {p} - {p} == {};
    longer := OnR(longer, R.Reap(true));
    assert map[p := R.Child(true)] - {p} == map[];
    assert {} - {p} == {};
  }

  /** A stage of the check Job whose restic goes well, and the record of it if it is not the unlock. */
  lemma StageEnds(run: seq<State>, n: nat, o: O.Sys) returns (longer: seq<State>)
    requires IsRun(run) && Runs.Last(run) == State(NoPods, Rested(n, R.Idle), o, 0) && o.exited.None?
    requires o.job == O.Work(O.UnlockStage) || o.job == O.Work(O.CheckStage)
    ensures IsRun(longer) && Runs.Last(longer) == State(NoPods, Rested(n + 1, R.Idle), O.Apply(o, O.WorkDone(true)), 0)
  {
    longer := ResticStarts(run, n, 7);
    longer := ResticEnds(longer, n + 1, 7);
    longer := Extend(longer, OnOutcome(O.WorkDone(true)));
  }

  /** A check passes and is recorded. */
  lemma CheckPasses() returns (run: seq<State>)
    ensures IsRun(run)
    ensures Runs.Last(run) ==
            State(NoPods, Rested(2, R.Idle),
                  Fresh(O.CheckJob).(checkPassed := Some(true), job := O.SetPhase(O.CheckStage)), 0)
  {
    run := Start(O.CheckJob);
    run := StageEnds(run, 0, Fresh(O.CheckJob));
    run := StageEnds(run, 1, Fresh(O.CheckJob).(job := O.Work(O.CheckStage)));
    run := OnO(run, O.TestFlag);
    run := OnO(run, O.WriteStepRecord);
  }

  /** A check Job that passes, prunes and ends with 0. */
  lemma CheckEnds() returns (run: seq<State>, i: nat)
    ensures IsRun(run) && Runs.Last(run).o.exited == Some(0) && Runs.Last(run).o.effects == [O.Exit(Engine, 0)]
    ensures i < |run| && run[i].o.job == O.Work(O.PruneStage) && O.Passed(run[i].o)
  {
    run := CheckPasses();
    run := OnO(run, O.MovePhase);
    i := |run| - 1;
    run := PruneEnds(run);
    run := FiguresEnd(run);
  }

  lemma PruneEnds(run: seq<State>) returns (longer: seq<State>)
    requires IsRun(run)
    requires Runs.Last(run) ==
             State(NoPods, Rested(2, R.Idle),
                   Fresh(O.CheckJob).(checkPassed := Some(true), phase := O.PrunePhase, job := O.Work(O.PruneStage)), 0)
    ensures IsRun(longer) && run <= longer
    ensures Runs.Last(longer) ==
            State(NoPods, Rested(2, R.Idle),
                  Fresh(O.CheckJob).(checkPassed := Some(true), phase := O.StatsPhase, job := O.Work(O.StatsStage)), 0)
  {
    longer := Extend(run, OnOutcome(O.WorkDone(true)));
    longer := OnO(longer, O.TestFlag);
    longer := OnO(longer, O.WriteStepRecord);
    longer := OnO(longer, O.MovePhase);
  }

  lemma FiguresEnd(run: seq<State>) returns (longer: seq<State>)
    requires IsRun(run)
    requires Runs.Last(run) ==
             State(NoPods, Rested(2, R.Idle),
                   Fresh(O.CheckJob).(checkPassed := Some(true), phase := O.StatsPhase, job := O.Work(O.StatsStage)), 0)
    ensures IsRun(longer) && run <= longer
    ensures Runs.Last(longer).o.exited == Some(0) && Runs.Last(longer).o.effects == [O.Exit(Engine, 0)]
  {
    longer := Extend(run, OnOutcome(O.WorkDone(false)));
    longer := OnO(longer, O.EngineClaims);
    longer := OnO(longer, O.EnginePosts(false));
    longer := OnO(longer, O.EngineExits);
  }

  function CodeOf(w: Stopper): int {
    if w == SignalTask then 1 else 3
  }

  /** A stop that finds nothing to stop records, posts and ends the process with its code. */
  lemma StopEnds(w: Stopper) returns (run: seq<State>)
    ensures IsRun(run) && Runs.Last(run).o.exited == Some(if w == SignalTask then 1 else 3)
    ensures Runs.Last(run).o.effects ==
            [O.StopRecorded(Stop(w), O.BackupFailed), O.Webhook(Stop(w)), O.Exit(Stop(w), CodeOf(w))]
  {
    run := Start(O.BackupJob);
    run := Extend(run, OnOutcome(O.Trigger(w)));
    run := HelpersDone(run, w);
    run := ResticDone(run, w);
    run := StopRecords(run, w);
    run := StopLeaves(run, w);
  }

  /** The outcome's state with only `w`'s task under way. */
  function TaskAt(w: Stopper, t: O.Task, effects: seq<O.Effect>): O.Sys {
    O.WithTask(Fresh(O.BackupJob).(claimed := true, winner := Some(Stop(w)), effects := effects), w, t)
  }

  lemma TaskOfAt(w: Stopper, t: O.Task, effects: seq<O.Effect>)
    ensures var o := TaskAt(w, t, effects);
            && O.TaskOf(o, w) == t && o.effects == effects && o.exited.None?
            && o.mode == O.BackupJob && o.phase == O.CheckPhase
  {
  }

  lemma StopRecords(run: seq<State>, w: Stopper) returns (longer: seq<State>)
    requires IsRun(run) && Runs.Last(run).o == TaskAt(w, O.Stopping, [])
    requires H.HalfOf(Runs.Last(run).h, w).Done? && R.HalfOf(Runs.Last(run).r, w).Done?
    ensures IsRun(longer) && Runs.Last(longer).h == Runs.Last(run).h
    ensures Runs.Last(longer).o == TaskAt(w, O.StopPosting, [O.StopRecorded(Stop(w), O.BackupFailed)])
  {
    TaskOfAt(w, O.Stopping, []);
    longer := OnO(run, O.ReadPhase(w));
    assert Runs.Last(longer).o == TaskAt(w, O.Writing(O.BackupFailed), []);
    TaskOfAt(w, O.Writing(O.BackupFailed), []);
    longer := OnO(longer, O.StopWrites(w, true));
    assert [] + [O.StopRecorded(Stop(w), O.BackupFailed)] == [O.StopRecorded(Stop(w), O.BackupFailed)];
  }

  lemma StopLeaves(run: seq<State>, w: Stopper) returns (longer: seq<State>)
    requires IsRun(run) && Runs.Last(run).o == TaskAt(w, O.StopPosting, [O.StopRecorded(Stop(w), O.BackupFailed)])
    ensures IsRun(longer) && Runs.Last(longer).o.exited == Some(CodeOf(w)) && Runs.Last(longer).h == Runs.Last(run).h
    ensures Runs.Last(longer).o.effects ==
            [O.StopRecorded(Stop(w), O.BackupFailed), O.Webhook(Stop(w)), O.Exit(Stop(w), CodeOf(w))]
  {
    var recorded := [O.StopRecorded(Stop(w), O.BackupFailed)];
    TaskOfAt(w, O.StopPosting, recorded);
    longer := OnO(run, O.StopPosts(w, true));
    var posted := recorded + [O.Webhook(Stop(w))];
    assert Runs.Last(longer).o == TaskAt(w, O.StopLeaving, posted);
    TaskOfAt(w, O.StopLeaving, posted);
    longer := OnO(longer, O.StopExits(w));
  }

  /** No pods, and only `w`'s half under way. */
  function NoPodsAt(w: Stopper, half: H.Half): H.Sys {
    H.WithHalf(NoPods.(live := H.Live({}, 0, true)), w, half)
  }

  lemma HalfOfNone(w: Stopper, half: H.Half)
    ensures H.HalfOf(NoPodsAt(w, half), w) == half
    ensures NoPodsAt(w, half).live == H.Live({}, 0, true) && NoPodsAt(w, half).leaked == {}
  {
  }

  lemma HelpersTake(run: seq<State>, w: Stopper) returns (longer: seq<State>)
    requires IsRun(run) && Striking(Runs.Last(run), w) && Runs.Last(run).h == NoPods
    ensures IsRun(longer) && Runs.Last(longer) == Runs.Last(run).(h := NoPodsAt(w, H.Taking(true)))
  {
    longer := OnH(run, H.CloseList(w));
    assert Runs.Last(longer).h == NoPodsAt(w, H.Polling);
    HalfOfNone(w, H.Polling);
    longer := OnH(longer, H.SeeSettled(w));
  }

  lemma HelpersDone(run: seq<State>, w: Stopper) returns (longer: seq<State>)
    requires IsRun(run) && Striking(Runs.Last(run), w) && Runs.Last(run).h == NoPods
    ensures IsRun(longer) && Runs.Last(longer) == Runs.Last(run).(h := Runs.Last(longer).h)
    ensures H.HalfOf(Runs.Last(longer).h, w).Done?
  {
    longer := HelpersTake(run, w);
    HalfOfNone(w, H.Taking(true));
    longer := OnH(longer, H.TakeList(w));
    var none: set<H.Pod> := {};
    assert none - none == none;
    assert Runs.Last(longer).h == NoPodsAt(w, H.Removing({}, true, true, {}));
    HalfOfNone(w, H.Removing({}, true, true, {}));
    longer := OnH(longer, H.FinishDeletes(w));
  }

  lemma ResticDone(run: seq<State>, w: Stopper) returns (longer: seq<State>)
    requires IsRun(run) && Striking(Runs.Last(run), w) && Runs.Last(run).r == NoRestic
    ensures IsRun(longer) && Runs.Last(longer) == Runs.Last(run).(r := Runs.Last(longer).r)
    ensures R.HalfOf(Runs.Last(longer).r, w).Done?
  {
    longer := OnR(run, R.CloseSet(w));
    longer := OnR(longer, R.EndSignals(w));
  }

  // ----- a leftover's replacement -----

  /** A leftover of an earlier run is deleted and replaced, under its own apply, listed and counted like the first. */
  lemma ReplacementHappens(p: H.Pod) returns (run: seq<State>)
    ensures IsRun(run) && Runs.Last(run).h.live == H.Live({p}, 1, false)
    ensures H.IsRunning(Runs.Last(run).h, p) && Runs.Last(run).h.call == H.InEffect(p, true)
  {
    run := [State(NoPods.(cluster := map[p := H.Running]), NoRestic, Fresh(O.BackupJob), 0)];
    run := LeftoverMet(run, p);
    run := Replaced(run, p);
  }

  lemma LeftoverMet(run: seq<State>, p: H.Pod) returns (longer: seq<State>)
    requires IsRun(run)
    requires Runs.Last(run) == State(NoPods.(cluster := map[p := H.Running]), NoRestic, Fresh(O.BackupJob), 0)
    ensures IsRun(longer) && Runs.Last(longer).o == Fresh(O.BackupJob)
    ensures Runs.Last(longer).h ==
            H.Sys(H.Live({p}, 0, false), map[p := H.Running], {p}, {}, H.StaleDeleting(p), H.Unstarted, H.Unstarted)
  {
    longer := OnH(run, H.StartCall(p));
    longer := OnH(longer, H.Begin);
    longer := OnH(longer, H.PatchEffect);
    longer := OnH(longer, H.AnswerPatch(H.Leftover));
    longer := OnH(longer, H.DropInFlight);
  }

  lemma Replaced(run: seq<State>, p: H.Pod) returns (longer: seq<State>)
    requires IsRun(run) && Runs.Last(run).o == Fresh(O.BackupJob)
    requires Runs.Last(run).h ==
             H.Sys(H.Live({p}, 0, false), map[p := H.Running], {p}, {}, H.StaleDeleting(p),
                   H.Unstarted, H.Unstarted)
    ensures IsRun(longer) && Runs.Last(longer).h.live == H.Live({p}, 1, false)
    ensures H.IsRunning(Runs.Last(longer).h, p) && Runs.Last(longer).h.call == H.InEffect(p, true)
  {
    longer := OnH(run, H.StaleDelete(true));
    longer := OnH(longer, H.PodGone(p));
    assert map[p := H.Terminating] - {p} == map[];
    longer := OnH(longer, H.StaleGone);
    longer := OnH(longer, H.Begin);
    longer := OnH(longer, H.PatchEffect);
  }

  /** A PATCH still unanswered when the stop has ended the process takes effect after that. */
  lemma EffectAfterExit(p: H.Pod, w: Stopper) returns (run: seq<State>)
    ensures IsRun(run) && Runs.Last(run).o.exited == Some(CodeOf(w)) && EndsWithAPod(Runs.Last(run), w, false, true)
  {
    var d := Side(H.Live({p}, 1, true), map[], p, {}, H.Sent(p, false));
    run := StruckUnanswered(p, w);
    run := Closes(run, Unanswered(p), w);
    run := Takes(run, d, w);
    run := Deletes(run, d, w, false, true, {} - {p});
    run := ResticDone(run, w);
    HalfAt(Runs.Last(run).h, Without(d, true), w, H.Done(false, true, {} - {p}));
    run := StopRecords(run, w);
    run := StopLeaves(run, w);
    run := OnH(run, H.PatchEffect);
    assert p in Runs.Last(run).h.begun && H.IsRunning(Runs.Last(run).h, p);
  }
}
