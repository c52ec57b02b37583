/**
The helper pods a run has applied and not yet deleted, and the race the stop must win over them.

`Live` is the state behind the lock; its four transitions are the lock-protected operations, and the
class `LiveHelperPods` is that state with the operations as methods.  `Sys` puts the lock-protected
state beside the apiserver, the single engine thread and the stop's delete task, one atomic step per
lock acquisition and per request, so that every interleaving of the three is a sequence of `Action`s.
*/
module HelperPods {
  import opened Wrappers
  import opened Contenders

  datatype Pod = Pod(ns: string, name: string)

  // ----- the lock-protected state -----

  datatype Live = Live(pods: set<Pod>, applying: nat, stopping: bool)

  const NoneLive := Live({}, 0, false)

  /** Refused once the stop has begun. */
  function BeginApply(l: Live, p: Pod): Option<Live> {
    if l.stopping then None else Some(l.(pods := l.pods + {p}, applying := l.applying + 1))
  }

  /** Dropping the in-flight guard: a saturating decrement. */
  function DropGuard(l: Live): Live {
    l.(applying := if l.applying == 0 then 0 else l.applying - 1)
  }

  function Remove(l: Live, p: Pod): Live {
    l.(pods := l.pods - {p})
  }

  function Close(l: Live): Live {
    l.(stopping := true)
  }

  class LiveHelperPods {
    var pods: set<Pod>
    var applying: nat
    var stopping: bool

    ghost function View(): Live reads this { Live(pods, applying, stopping) }

    constructor ()
      ensures View() == NoneLive
    {
      pods, applying, stopping := {}, 0, false;
    }

    /** Either the apply is refused and nothing changes, or it is listed and counted in one step. */
    method Begin(p: Pod) returns (accepted: bool)
      modifies this
      ensures accepted == BeginApply(old(View()), p).Some?
      ensures View() == if accepted then BeginApply(old(View()), p).value else old(View())
    {
      if stopping {
        return false;
      }
      pods := pods + {p};
      applying := applying + 1;
      return true;
    }

    method EndApply()
      modifies this`applying
      ensures View() == DropGuard(old(View()))
    {
      if applying > 0 {
        applying := applying - 1;
      }
    }

    method Forget(p: Pod)
      modifies this`pods
      ensures View() == Remove(old(View()), p)
    {
      pods := pods - {p};
    }

    method CloseSet()
      modifies this`stopping
      ensures View() == Close(old(View()))
    {
      stopping := true;
    }
  }

  // ----- the interleaved system -----

  /** A deleted pod stays `Terminating` until the kubelet is done with it; only a `Running` one is left behind. */
  datatype PodState = Running | Terminating

  /**
  How a PATCH was answered: with a usable pod, with a leftover the run will not use, with a 422 because
  a leftover's spec cannot be applied over, or with any other error.
  */
  datatype Answer = Usable | Leftover | Immutable | Failed

  /** Where the engine thread is in `apply_replacing_stale`, the use of the pod, and its cleanup guard. */
  datatype Call =
    | Idle
    | Starting(pod: Pod, again: bool)
    | Sent(pod: Pod, again: bool)
    | InEffect(pod: Pod, again: bool)
    | Answered(pod: Pod, again: bool, answer: Answer)
    | StaleDeleting(pod: Pod)
    | StaleWaiting(pod: Pod)
    | Using(pod: Pod)
    | Deleting(pod: Pod)
    | Forgetting(pod: Pod)

  /**
  The stop's helper half: close, settle, take the list, delete all of it, within one outer bound.
  `spared` is every pod whose own delete had failed and that was off the list by the time it was taken.
  */
  datatype Half =
    | Unstarted
    | Polling
    | Taking(settled: bool)
    | Removing(todo: set<Pod>, settled: bool, clean: bool, spared: set<Pod>)
    | Done(settled: bool, clean: bool, spared: set<Pod>)

  /** How the half ended. */
  predicate Ended(h: Half, settled: bool, clean: bool) {
    h.Done? && h.settled == settled && h.clean == clean
  }

  /**
  `begun` is every pod whose apply this run began; `leaked` those whose own best-effort delete failed
  after their last apply.
  */
  datatype Sys = Sys(
    live: Live,
    cluster: map<Pod, PodState>,
    begun: set<Pod>,
    leaked: set<Pod>,
    call: Call,
    signal: Half,
    staging: Half)

  datatype Action =
    | StartCall(pod: Pod)
    | Begin
    | PatchEffect
    | AnswerPatch(answer: Answer)
    | DropInFlight
    | StaleDelete(ok: bool)
    | StaleGone
    | StaleGiveUp
    | FinishUse
    | BestEffortDelete(ok: bool)
    | Forget
    | PodGone(pod: Pod)
    | CloseList(who: Stopper)
    | SeeSettled(who: Stopper)
    | SettleTimeout(who: Stopper)
    | TakeList(who: Stopper)
    | StopDelete(who: Stopper, pod: Pod, ok: bool)
    | FinishDeletes(who: Stopper)
    | BoundElapsed(who: Stopper)

  /** Any leftovers of earlier runs may be there when the run starts. */
  ghost predicate Init(s: Sys) {
    s.live == NoneLive && s.begun == {} && s.leaked == {} && s.call == Idle &&
    s.signal == Unstarted && s.staging == Unstarted
  }

  function HalfOf(s: Sys, who: Stopper): Half {
    match who case SignalTask => s.signal case StagingTask => s.staging
  }

  function WithHalf(s: Sys, who: Stopper, h: Half): Sys {
    match who case SignalTask => s.(signal := h) case StagingTask => s.(staging := h)
  }

  predicate IsRunning(s: Sys, p: Pod) {
    p in s.cluster && s.cluster[p] == Running
  }

  predicate Enabled(s: Sys, a: Action) {
    match a
    case StartCall(_) => s.call.Idle?
    case Begin => s.call.Starting?
    case PatchEffect => s.call.Sent?
    // A PATCH takes effect before it is answered, or never: a pod comes back only after the effect, a
    // 422 only without it, and any other error either way.
    case AnswerPatch(answer) =>
      if answer.Immutable? then s.call.Sent? else s.call.InEffect? || (s.call.Sent? && answer.Failed?)
    case DropInFlight => s.call.Answered?
    case StaleDelete(_) => s.call.StaleDeleting?
    case StaleGone => s.call.StaleWaiting? && s.call.pod !in s.cluster
    case StaleGiveUp => s.call.StaleWaiting?
    case FinishUse => s.call.Using?
    case BestEffortDelete(_) => s.call.Deleting?
    case Forget => s.call.Forgetting?
    case PodGone(p) => p in s.cluster
    case CloseList(who) => HalfOf(s, who).Unstarted?
    case SeeSettled(who) => HalfOf(s, who).Polling? && s.live.applying == 0
    case SettleTimeout(who) => HalfOf(s, who).Polling? && s.live.applying > 0
    case TakeList(who) => HalfOf(s, who).Taking?
    case StopDelete(who, p, _) => HalfOf(s, who).Removing? && p in HalfOf(s, who).todo
    case FinishDeletes(who) => HalfOf(s, who).Removing? && HalfOf(s, who).todo == {}
    case BoundElapsed(who) => HalfOf(s, who).Polling? || HalfOf(s, who).Taking? || HalfOf(s, who).Removing?
  }

  function Apply(s: Sys, a: Action): Sys
    requires Enabled(s, a)
  {
    match a
    case StartCall(p) => s.(call := Starting(p, false))
    case Begin =>
      var p := s.call.pod;
      (match BeginApply(s.live, p)
       case None => s.(call := Deleting(p))
       case Some(l) => s.(live := l, begun := s.begun + {p}, leaked := s.leaked - {p}, call := Sent(p, s.call.again)))
    case PatchEffect =>
      var p := s.call.pod;
      s.(cluster := if p in s.cluster then s.cluster else s.cluster[p := Running], call := InEffect(p, s.call.again))
    case AnswerPatch(answer) => s.(call := Answered(s.call.pod, s.call.again, answer))
    case DropInFlight =>
      var p := s.call.pod;
      s.(live := DropGuard(s.live),
         call := match s.call.answer
                 case Usable => Using(p)
                 case Leftover => if s.call.again then Using(p) else StaleDeleting(p)
                 case Immutable => if s.call.again then Deleting(p) else StaleDeleting(p)
                 case Failed => Deleting(p))
    case StaleDelete(ok) =>
      var p := s.call.pod;
      if ok then s.(cluster := Terminated(s.cluster, p), call := StaleWaiting(p)) else s.(call := Deleting(p))
    case StaleGone => s.(call := Starting(s.call.pod, true))
    case StaleGiveUp => s.(call := Deleting(s.call.pod))
    case FinishUse => s.(call := Deleting(s.call.pod))
    case BestEffortDelete(ok) =>
      var p := s.call.pod;
      if ok then s.(cluster := Terminated(s.cluster, p), call := Forgetting(p))
      else s.(leaked := s.leaked + {p}, call := Forgetting(p))
    case Forget => s.(live := Remove(s.live, s.call.pod), call := Idle)
    case PodGone(p) => s.(cluster := s.cluster - {p})
    case CloseList(who) => WithHalf(s.(live := Close(s.live)), who, Polling)
    case SeeSettled(who) => WithHalf(s, who, Taking(true))
    case SettleTimeout(who) => WithHalf(s, who, Taking(false))
    case TakeList(who) =>
      WithHalf(s, who, Removing(s.live.pods, HalfOf(s, who).settled, true, s.leaked - s.live.pods))
    case StopDelete(who, p, ok) =>
      var h := HalfOf(s, who);
      if ok then WithHalf(s.(cluster := s.cluster - {p}), who, h.(todo := h.todo - {p}))
      else WithHalf(s, who, h.(todo := h.todo - {p}, clean := false))
    case FinishDeletes(who) =>
      var h := HalfOf(s, who);
      WithHalf(s, who, Done(h.settled, h.clean, h.spared))
    case BoundElapsed(who) => WithHalf(s, who, Done(false, false, {}))
  }

  function Terminated(cluster: map<Pod, PodState>, p: Pod): map<Pod, PodState> {
    if p in cluster then cluster[p := Terminating] else cluster
  }

  // ----- the invariant -----

  /** Every helper pod of this run still running is on the list, or its own delete failed. */
  ghost predicate Accounted(s: Sys) {
    forall p :: p in s.begun && IsRunning(s, p) ==> p in s.live.pods || p in s.leaked
  }

  ghost predicate RunningOnlyIn(s: Sys, covered: set<Pod>) {
    forall p :: p in s.begun && IsRunning(s, p) ==> p in covered
  }

  ghost predicate HalfOk(s: Sys, h: Half) {
    && (!h.Unstarted? ==> s.live.stopping)
    && (h.Taking? && h.settled ==> s.live.applying == 0)
    && (h.Removing? || h.Done? ==> h.spared <= s.leaked)
    && (h.Removing? && h.settled ==> s.live.applying == 0 && (h.clean ==> RunningOnlyIn(s, h.todo + h.spared)))
    && (Ended(h, true, true) ==> s.live.applying == 0 && RunningOnlyIn(s, h.spared))
  }

  /** `applying` counts exactly the apply whose guard the engine holds, and that pod is listed. */
  ghost predicate CallOk(s: Sys) {
    && s.live.applying == (if s.call.Sent? || s.call.InEffect? || s.call.Answered? then 1 else 0)
    && (s.call.Sent? ==> s.call.pod in s.live.pods && s.call.pod in s.begun)
    && (s.call.Forgetting? && s.call.pod in s.begun && IsRunning(s, s.call.pod) ==> s.call.pod in s.leaked)
  }

  ghost predicate Inv(s: Sys) {
    CallOk(s) && Accounted(s) && HalfOk(s, s.signal) && HalfOk(s, s.staging)
  }

  lemma InitInv(s: Sys)
    requires Init(s)
    ensures Inv(s)
  {
  }

  /**
  What no step undoes once the list is closed: it stays closed, no apply begins, no failed delete is
  forgiven, and with no apply in flight no pod starts running.
  */
  ghost predicate Closed(s: Sys, s': Sys) {
    s.live.stopping ==>
      && s'.live.stopping && s'.begun == s.begun && s.leaked <= s'.leaked
      && (s.live.applying == 0 ==> s'.live.applying == 0 && forall p :: IsRunning(s', p) ==> IsRunning(s, p))
  }

  lemma StepCloses(s: Sys, a: Action)
    requires Inv(s) && Enabled(s, a)
    ensures Closed(s, Apply(s, a))
  {
  }

  lemma HalfFrame(s: Sys, s': Sys, h: Half)
    requires HalfOk(s, h) && Closed(s, s')
    ensures HalfOk(s', h)
  {
  }

  predicate IsStopAction(a: Action) {
    a.CloseList? || a.SeeSettled? || a.SettleTimeout? || a.TakeList? || a.StopDelete? || a.FinishDeletes? ||
    a.BoundElapsed?
  }

  /** The half that moves is left in order by its own step. */
  lemma MovedHalfOk(s: Sys, a: Action)
    requires Inv(s) && Enabled(s, a) && IsStopAction(a)
    ensures HalfOk(Apply(s, a), HalfOf(Apply(s, a), a.who))
  {
    var h := HalfOf(s, a.who);
    assert HalfOk(s, h);
    var s' := Apply(s, a);
    if a.StopDelete? && a.ok && h.settled && h.clean {
      assert RunningOnlyIn(s', (h.todo - {a.pod}) + h.spared);
    }
  }

  lemma StepKeepsAccounts(s: Sys, a: Action)
    requires Inv(s) && Enabled(s, a)
    ensures Accounted(Apply(s, a))
  {
    var s' := Apply(s, a);
    forall p | p in s'.begun && IsRunning(s', p)
      ensures p in s'.live.pods || p in s'.leaked
    {
      if a.Forget? || a.Begin? || a.PatchEffect? {
        assert p == s.call.pod || (p in s.begun && IsRunning(s, p));
      } else {
        assert p in s.begun && IsRunning(s, p);
      }
    }
  }

  lemma StepKeepsCall(s: Sys, a: Action)
    requires CallOk(s) && Enabled(s, a)
    ensures CallOk(Apply(s, a))
  {
  }

  lemma OtherHalfStays(s: Sys, a: Action, w: Stopper)
    requires Enabled(s, a) && (IsStopAction(a) ==> a.who != w)
    ensures HalfOf(Apply(s, a), w) == HalfOf(s, w)
  {
  }

  lemma StepKeepsHalf(s: Sys, a: Action, w: Stopper)
    requires Inv(s) && Enabled(s, a)
    ensures HalfOk(Apply(s, a), HalfOf(Apply(s, a), w))
  {
    if IsStopAction(a) && a.who == w {
      MovedHalfOk(s, a);
    } else {
      assert HalfOk(s, HalfOf(s, w));
      StepCloses(s, a);
      HalfFrame(s, Apply(s, a), HalfOf(s, w));
      OtherHalfStays(s, a, w);
    }
  }

  lemma StepKeepsInv(s: Sys, a: Action)
    requires Inv(s) && Enabled(s, a)
    ensures Inv(Apply(s, a))
  {
    StepKeepsCall(s, a);
    StepKeepsAccounts(s, a);
    StepKeepsHalf(s, a, SignalTask);
    StepKeepsHalf(s, a, StagingTask);
  }

  /** A pod is used only once its apply was answered with it: usable, or a leftover met the second time. */
  lemma UsedIsAnswered(s: Sys, a: Action)
    requires Enabled(s, a) && !s.call.Using? && Apply(s, a).call.Using?
    ensures a == DropInFlight && s.call.Answered?
    ensures s.call.answer == Usable || (s.call.answer == Leftover && s.call.again)
  {
  }

  /** However a call goes, refused, failed or used, it ends in the pod's own delete, and only then forgets the pod. */
  lemma EveryCallCleansUp(s: Sys, a: Action)
    requires Enabled(s, a) && s.call != Idle
    ensures Apply(s, a).call == Idle ==> a == Forget && s.call.Forgetting?
    ensures Apply(s, a).call.Forgetting? && !s.call.Forgetting? ==> a.BestEffortDelete? && s.call.Deleting?
    ensures a == BestEffortDelete(true) ==> !IsRunning(Apply(s, a), s.call.pod)
    ensures a == StaleDelete(true) ==> !IsRunning(Apply(s, a), s.call.pod)
  {
  }

  /** A half starts only by closing the list, and once done it stays as it is. */
  lemma DoneStaysAll(s: Sys, a: Action)
    requires Enabled(s, a)
    ensures forall w :: HalfOf(s, w).Done? ==> HalfOf(Apply(s, a), w) == HalfOf(s, w)
    ensures forall w :: HalfOf(s, w).Unstarted? && a != CloseList(w) ==> HalfOf(Apply(s, a), w).Unstarted?
    ensures (forall w :: a != CloseList(w)) ==> Apply(s, a).live.stopping == s.live.stopping
  {
  }
}
