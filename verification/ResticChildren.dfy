/**
The restic children a run has running, and signalling them by pid.

`Children` is the state behind the lock.  `Sys` adds the kernel's process table, in which a reaped pid
may be handed to any other process, the engine thread running one restic at a time, and the stop's two
rounds of signals.  The lock is explicit: while a holder works through its critical section the kernel
keeps moving, so a spawned child may exit before it is listed and other processes come and go between
two signals of one round.
*/
module ResticChildren {
  import opened Wrappers
  import opened Contenders

  type Pid = nat

  // ----- the lock-protected state -----

  datatype Children = Children(pids: set<Pid>, stopping: bool)

  const NoChildren := Children({}, false)

  /** A child spawned under the lock is listed under it. */
  function Listed(c: Children, p: Pid): Children {
    c.(pids := c.pids + {p})
  }

  function Unlisted(c: Children, p: Pid): Children {
    c.(pids := c.pids - {p})
  }

  /** Every start is refused from here on; who is listed is not touched. */
  function Closed(c: Children): Children {
    c.(stopping := true)
  }

  datatype Signal = Passed | Kill

  class LiveResticChildren {
    var pids: set<Pid>
    var stopping: bool

    ghost function View(): Children reads this { Children(pids, stopping) }

    constructor ()
      ensures View() == NoChildren
    {
      pids, stopping := {}, false;
    }

    /** Check, spawn and list under one lock: refused after the close, else listed if the spawn worked. */
    method Start(spawn: Option<Pid>) returns (started: bool)
      modifies this`pids
      ensures started <==> !old(View()).stopping && spawn.Some?
      ensures View() == if started then Listed(old(View()), spawn.value) else old(View())
    {
      started := false;
      if !stopping && spawn.Some? {
        pids := pids + {spawn.value};
        started := true;
      }
    }

    method Unlist(p: Pid)
      modifies this`pids
      ensures View() == Unlisted(old(View()), p)
    {
      pids := pids - {p};
    }

    /** Closes the set, then signals each listed child exactly once; `sent` is the `kill` calls in order. */
    method CloseAndSignal(signal: Signal) returns (count: nat, sent: seq<(Pid, Signal)>)
      modifies this`stopping
      ensures View() == Closed(old(View()))
      ensures |sent| == count == |pids|
      ensures forall p :: (p, signal) in sent <==> p in pids
      ensures forall i :: 0 <= i < |sent| ==> sent[i].1 == signal
      ensures forall i, j :: 0 <= i < j < |sent| ==> sent[i] != sent[j]
    {
      stopping := true;
      sent := [];
      var todo := pids;
      while todo != {}
        invariant todo <= pids
        invariant |sent| + |todo| == |pids|
        invariant forall p :: (p, signal) in sent <==> p in pids - todo
        invariant forall i :: 0 <= i < |sent| ==> sent[i].1 == signal
        invariant forall i, j :: 0 <= i < j < |sent| ==> sent[i] != sent[j]
        decreases |todo|
      {
        var p :| p in todo;
        sent := sent + [(p, signal)];
        todo := todo - {p};
      }
      count := |pids|;
    }
  }

  // ----- the interleaved system -----

  /** A pid that is not in the table is free. */
  datatype Proc = Child(zombie: bool) | Other

  datatype Holder = Nobody | EngineHolds | StopHolds(who: Stopper)

  /** Where the engine thread is in one restic run. */
  datatype Call =
    | Idle
    | WantStart
    | Checking
    | Listing(pid: Pid)
    | Waiting(pid: Pid)
    | Unlisting(pid: Pid)
    | Reaping(pid: Pid)
    | Finished(ok: bool)

  datatype Released = NoneRunning | Exited | Killed

  /** The stop's restic half.  `listed` is the set at the close, `sent` and `killed` who was signalled. */
  datatype Half =
    | Unstarted
    | Signalling(listed: set<Pid>, sent: set<Pid>)
    | Polling(listed: set<Pid>, sent: set<Pid>)
    | Killing(listed: set<Pid>, sent: set<Pid>, killed: set<Pid>)
    | Done(listed: set<Pid>, sent: set<Pid>, killed: set<Pid>, how: Released)

  /**
  `spawned` counts restic starts, `lost` holds the unreaped children whose wait has failed, and
  `misdirected` says whether a signal ever went to a pid that was not an unreaped child of the runner.
  */
  datatype Sys = Sys(
    list: Children,
    lock: Holder,
    procs: map<Pid, Proc>,
    call: Call,
    signal: Half,
    staging: Half,
    spawned: nat,
    lost: set<Pid>,
    misdirected: bool)

  datatype Action =
    | StartCall
    | TakeLock
    | Refuse
    | SpawnFails
    | Spawn(pid: Pid)
    | List
    | WaitSeesExit
    | WaitFails
    | Unlist
    | Reap(ok: bool)
    | ReapFails
    | Return
    | ChildExits(pid: Pid)
    | OtherStarts(pid: Pid)
    | OtherEnds(pid: Pid)
    | CloseSet(who: Stopper)
    | Send(who: Stopper, pid: Pid)
    | EndSignals(who: Stopper)
    | SeeNoneRunning(who: Stopper)
    | Deadline(who: Stopper)
    | SendKill(who: Stopper, pid: Pid)
    | EndKills(who: Stopper)

  ghost predicate Init(s: Sys) {
    && s.list == NoChildren && s.lock == Nobody && s.call == Idle
    && s.signal == Unstarted && s.staging == Unstarted
    && s.spawned == 0 && s.lost == {} && !s.misdirected
    && forall p :: p in s.procs ==> s.procs[p] == Other
  }

  function HalfOf(s: Sys, who: Stopper): Half {
    match who case SignalTask => s.signal case StagingTask => s.staging
  }

  function WithHalf(s: Sys, who: Stopper, h: Half): Sys {
    match who case SignalTask => s.(signal := h) case StagingTask => s.(staging := h)
  }

  predicate IsChild(s: Sys, p: Pid) {
    p in s.procs && s.procs[p].Child?
  }

  predicate IsRunningChild(s: Sys, p: Pid) {
    IsChild(s, p) && !s.procs[p].zombie
  }

  predicate Enabled(s: Sys, a: Action) {
    match a
    case StartCall => s.call.Idle?
    case TakeLock => s.call.WantStart? && s.lock.Nobody?
    case Refuse => s.call.Checking? && s.list.stopping
    case SpawnFails => s.call.Checking? && !s.list.stopping
    case Spawn(p) => s.call.Checking? && !s.list.stopping && p !in s.procs
    case List => s.call.Listing?
    case WaitSeesExit => s.call.Waiting? && s.call.pid in s.procs && s.procs[s.call.pid] == Child(true)
    case WaitFails => s.call.Waiting?
    case Unlist => s.call.Unlisting? && s.lock.Nobody?
    case Reap(_) => s.call.Reaping? && s.call.pid in s.procs && s.procs[s.call.pid] == Child(true)
    case ReapFails => s.call.Reaping?
    case Return => s.call.Finished?
    case ChildExits(p) => IsRunningChild(s, p)
    case OtherStarts(p) => p !in s.procs
    case OtherEnds(p) => p in s.procs && s.procs[p] == Other
    case CloseSet(w) => HalfOf(s, w).Unstarted? && s.lock.Nobody?
    case Send(w, p) => HalfOf(s, w).Signalling? && p in HalfOf(s, w).listed && p !in HalfOf(s, w).sent
    case EndSignals(w) => HalfOf(s, w).Signalling? && HalfOf(s, w).sent == HalfOf(s, w).listed
    case SeeNoneRunning(w) => HalfOf(s, w).Polling? && s.lock.Nobody? && s.list.pids == {}
    case Deadline(w) => HalfOf(s, w).Polling? && s.lock.Nobody?
    case SendKill(w, p) => HalfOf(s, w).Killing? && p in s.list.pids && p !in HalfOf(s, w).killed
    case EndKills(w) => HalfOf(s, w).Killing? && HalfOf(s, w).killed == s.list.pids
  }

  predicate IsStopAction(a: Action) {
    a.CloseSet? || a.Send? || a.EndSignals? || a.SeeNoneRunning? || a.Deadline? || a.SendKill? || a.EndKills?
  }

  function Apply(s: Sys, a: Action): Sys
    requires Enabled(s, a)
  {
    if IsStopAction(a) then StopStep(s, a) else EngineStep(s, a)
  }

  /** The engine thread, the kernel and the other processes. */
  function EngineStep(s: Sys, a: Action): Sys
    requires Enabled(s, a) && !IsStopAction(a)
  {
    match a
    case StartCall => s.(call := WantStart)
    case TakeLock => s.(call := Checking, lock := EngineHolds)
    case Refuse => s.(call := Finished(false), lock := Nobody)
    case SpawnFails => s.(call := Finished(false), lock := Nobody)
    case Spawn(p) => s.(procs := s.procs[p := Child(false)], call := Listing(p), spawned := s.spawned + 1)
    case List => s.(list := Listed(s.list, s.call.pid), call := Waiting(s.call.pid), lock := Nobody)
    case WaitSeesExit => s.(call := Unlisting(s.call.pid))
    case WaitFails => s.(call := Unlisting(s.call.pid), lost := s.lost + {s.call.pid})
    case Unlist => s.(list := Unlisted(s.list, s.call.pid), call := Reaping(s.call.pid))
    // The call fails with its wait, whatever status the reaping brings.
    case Reap(ok) =>
      s.(procs := s.procs - {s.call.pid}, lost := s.lost - {s.call.pid}, call := Finished(ok && s.call.pid !in s.lost))
    case ReapFails => s.(call := Finished(false))
    case Return => s.(call := Idle)
    case ChildExits(p) => s.(procs := s.procs[p := Child(true)])
    case OtherStarts(p) => s.(procs := s.procs[p := Other])
    case OtherEnds(p) => s.(procs := s.procs - {p})
  }

  function StopStep(s: Sys, a: Action): Sys
    requires Enabled(s, a) && IsStopAction(a)
  {
    match a
    case CloseSet(w) =>
      WithHalf(s.(list := Closed(s.list), lock := StopHolds(w)), w, Signalling(s.list.pids, {}))
    case Send(w, p) =>
      var h := HalfOf(s, w);
      WithHalf(s.(misdirected := s.misdirected || !IsChild(s, p)), w, Signalling(h.listed, h.sent + {p}))
    case EndSignals(w) =>
      var h := HalfOf(s, w);
      WithHalf(s.(lock := Nobody), w,
               if h.listed == {} then Done(h.listed, h.sent, {}, NoneRunning) else Polling(h.listed, h.sent))
    case SeeNoneRunning(w) => WithHalf(s, w, Done(HalfOf(s, w).listed, HalfOf(s, w).sent, {}, Exited))
    case Deadline(w) => WithHalf(s.(lock := StopHolds(w)), w, Killing(HalfOf(s, w).listed, HalfOf(s, w).sent, {}))
    case SendKill(w, p) =>
      var h := HalfOf(s, w);
      WithHalf(s.(misdirected := s.misdirected || !IsChild(s, p)), w, Killing(h.listed, h.sent, h.killed + {p}))
    case EndKills(w) =>
      var h := HalfOf(s, w);
      WithHalf(s.(lock := Nobody), w, Done(h.listed, h.sent, h.killed, Killed))
  }

  // ----- the invariant -----

  /** A listed child is never reaped, and the child the engine waits for is listed. */
  ghost predicate ListedAreChildren(s: Sys) {
    && (forall p :: p in s.list.pids ==> IsChild(s, p))
    && (s.call.Listing? ==> IsChild(s, s.call.pid))
    && (s.call.Waiting? || s.call.Unlisting? ==> s.call.pid in s.list.pids)
    && (s.call.Unlisting? && s.call.pid !in s.lost ==> !IsRunningChild(s, s.call.pid))
    && (s.call.Reaping? ==> IsChild(s, s.call.pid) && s.call.pid !in s.list.pids)
    && (forall p :: p in s.lost ==> IsChild(s, p))
  }

  ghost predicate LockOk(s: Sys) {
    && (s.lock.EngineHolds? <==> s.call.Checking? || s.call.Listing?)
    && (forall w :: s.lock == StopHolds(w) <==> HalfOf(s, w).Signalling? || HalfOf(s, w).Killing?)
    && (s.call.Listing? ==> !s.list.stopping)
  }

  /** Every running child is on the list or about to be, unless its wait has failed. */
  ghost predicate RunningAreListed(s: Sys) {
    forall p :: IsRunningChild(s, p) ==> p in s.list.pids || s.call == Listing(p) || p in s.lost
  }

  ghost predicate HalfOk(s: Sys, h: Half) {
    && (!h.Unstarted? ==> s.list.stopping && s.list.pids <= h.listed && h.sent <= h.listed)
    && (h.Signalling? ==> s.list.pids == h.listed)
    && (h.Polling? || h.Killing? || h.Done? ==> h.sent == h.listed)
    && (h.Polling? || h.Killing? ==> h.listed != {})
    && (h.Done? ==> (h.how.NoneRunning? <==> h.listed == {}))
    && (h.Killing? ==> h.killed <= s.list.pids)
    && (h.Done? && !h.how.Killed? ==> s.list.pids == {})
    && (h.Done? && h.how.Killed? ==> s.list.pids <= h.killed)
  }

  ghost predicate Inv(s: Sys) {
    && ListedAreChildren(s)
    && LockOk(s)
    && RunningAreListed(s)
    && HalfOk(s, s.signal) && HalfOk(s, s.staging)
    && !s.misdirected
  }

  lemma InitInv(s: Sys)
    requires Init(s)
    ensures Inv(s)
  {
  }

  /** A stop's steps take no child off the list, put none on, and reap none. */
  lemma StopLeavesChildren(s: Sys, a: Action)
    requires Enabled(s, a) && IsStopAction(a)
    ensures var s' := Apply(s, a);
            s'.procs == s.procs && s'.call == s.call && s'.list.pids == s.list.pids && s'.lost == s.lost
  {
  }

  lemma EngineKeepsListed(s: Sys, a: Action)
    requires ListedAreChildren(s) && Enabled(s, a) && !IsStopAction(a)
    ensures ListedAreChildren(Apply(s, a))
  {
  }

  lemma EngineKeepsRunning(s: Sys, a: Action)
    requires ListedAreChildren(s) && RunningAreListed(s) && Enabled(s, a) && !IsStopAction(a)
    ensures RunningAreListed(Apply(s, a))
  {
  }

  lemma StepKeepsListed(s: Sys, a: Action)
    requires Inv(s) && Enabled(s, a)
    ensures ListedAreChildren(Apply(s, a)) && RunningAreListed(Apply(s, a))
  {
    if IsStopAction(a) {
      StopLeavesChildren(s, a);
    } else {
      EngineKeepsListed(s, a);
      EngineKeepsRunning(s, a);
    }
  }

  lemma EngineKeepsLock(s: Sys, a: Action)
    requires LockOk(s) && Enabled(s, a) && !IsStopAction(a)
    ensures LockOk(Apply(s, a)) && Apply(s, a).misdirected == s.misdirected
  {
  }

  lemma StopKeepsLock(s: Sys, a: Action)
    requires LockOk(s) && Enabled(s, a) && IsStopAction(a)
    ensures LockOk(Apply(s, a))
  {
    assert HalfOf(s, a.who).Signalling? || HalfOf(s, a.who).Killing? ==> s.lock == StopHolds(a.who);
  }

  lemma StopAims(s: Sys, a: Action)
    requires Inv(s) && Enabled(s, a) && IsStopAction(a)
    ensures !Apply(s, a).misdirected
  {
    assert HalfOk(s, HalfOf(s, a.who));
  }

  lemma StepKeepsLock(s: Sys, a: Action)
    requires Inv(s) && Enabled(s, a)
    ensures LockOk(Apply(s, a)) && !Apply(s, a).misdirected
  {
    if IsStopAction(a) {
      StopKeepsLock(s, a);
      StopAims(s, a);
    } else {
      EngineKeepsLock(s, a);
    }
  }

  lemma MovedHalfOk(s: Sys, a: Action)
    requires Inv(s) && Enabled(s, a) && IsStopAction(a)
    ensures HalfOk(Apply(s, a), HalfOf(Apply(s, a), a.who))
  {
    assert HalfOk(s, HalfOf(s, a.who));
  }

  /** A half that is not moving: the list only shrinks under it, and not at all while that half holds the lock. */
  lemma HalfFrame(s: Sys, a: Action, w: Stopper)
    requires Inv(s) && Enabled(s, a) && (IsStopAction(a) ==> a.who != w)
    ensures HalfOk(Apply(s, a), HalfOf(s, w)) && HalfOf(Apply(s, a), w) == HalfOf(s, w)
  {
    assert HalfOk(s, HalfOf(s, w));
    assert HalfOf(s, w).Signalling? || HalfOf(s, w).Killing? ==> s.lock == StopHolds(w);
  }

  lemma StepKeepsInv(s: Sys, a: Action)
    requires Inv(s) && Enabled(s, a)
    ensures Inv(Apply(s, a))
  {
    StepKeepsListed(s, a);
    StepKeepsLock(s, a);
    if IsStopAction(a) {
      MovedHalfOk(s, a);
      HalfFrame(s, a, if a.who == SignalTask then StagingTask else SignalTask);
    } else {
      HalfFrame(s, a, SignalTask);
      HalfFrame(s, a, StagingTask);
    }
  }

  /** No restic starts once the set is closed. */
  lemma StepStartsNothing(s: Sys, a: Action)
    requires Inv(s) && Enabled(s, a) && s.list.stopping
    ensures Apply(s, a).list.stopping && Apply(s, a).spawned == s.spawned
  {
  }

  /** A half starts only by closing the set, and once done it stays as it is. */
  lemma DoneStaysAll(s: Sys, a: Action)
    requires Enabled(s, a)
    ensures forall w :: HalfOf(s, w).Done? ==> HalfOf(Apply(s, a), w) == HalfOf(s, w)
    ensures forall w :: HalfOf(s, w).Unstarted? && a != CloseSet(w) ==> HalfOf(Apply(s, a), w).Unstarted?
    ensures forall w :: !HalfOf(s, w).Unstarted? ==> !HalfOf(Apply(s, a), w).Unstarted?
    ensures (forall w :: a != CloseSet(w)) ==> Apply(s, a).list.stopping == s.list.stopping
  {
  }

  // ----- what `Exited` is worth -----

  /** Who can still run beside a closed set: the children listed at the close, and those whose wait failed. */
  lemma OnlyListedRun(s: Sys, w: Stopper)
    requires Inv(s) && !HalfOf(s, w).Unstarted?
    ensures forall p :: IsRunningChild(s, p) && p !in s.lost ==> p in HalfOf(s, w).listed
  {
    assert HalfOk(s, HalfOf(s, w));
  }

  /** A set reported empty means that no child runs, exactly if no child whose wait failed does. */
  lemma EmptyMeansExited(s: Sys, w: Stopper)
    requires Inv(s) && HalfOf(s, w).Done? && !HalfOf(s, w).how.Killed?
    ensures forall p :: IsRunningChild(s, p) ==> p in s.lost
    ensures (forall p :: !IsRunningChild(s, p)) <==> (forall p :: p in s.lost ==> !IsRunningChild(s, p))
  {
    assert HalfOk(s, HalfOf(s, w));
  }
}
