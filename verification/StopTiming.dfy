/**
How long a stop can take, in milliseconds of waiting.

The two polling loops run against an arbitrary environment: what the shared state holds `t`
milliseconds after the loop began.  Requests take any time at all and are cut off at their bounds.
*/
module StopTiming {
  import opened Numbers
  import H = HelperPods

  const HELPER_DELETE_BOUND: nat := 10_000
  const RESTIC_RELEASE_BOUND: nat := 15_000
  const STOP_WORK_BOUND: nat := Max(HELPER_DELETE_BOUND, RESTIC_RELEASE_BOUND)
  const STATUS_WRITE_BOUND: nat := 20_000
  const WEBHOOK_BOUND: nat := 45_000
  const TERMINATION_GRACE: nat := 90_000
  const HELPER_APPLY_SETTLE_BOUND: nat := 5_000
  const SETTLE_POLL: nat := 20
  const RELEASE_POLL: nat := 50

  /** What the release loop reports. */
  datatype Report = NoneRunning | Exited(signalled: nat) | Killed(count: nat)

  /**
  The settle loop: it ends at the first poll that finds no apply in flight or the bound passed, and takes
  the list as it is then.
  */
  method HelperPodsToDelete(live: nat -> H.Live, settle: nat) returns (pods: set<H.Pod>, settled: bool, waited: nat)
    ensures pods == live(waited).pods
    ensures settled <==> live(waited).applying == 0
    ensures !settled ==> waited >= settle
    ensures waited < settle + SETTLE_POLL
    ensures waited % SETTLE_POLL == 0
    ensures forall t :: 0 <= t < waited && t % SETTLE_POLL == 0 ==> live(t).applying > 0 && t < settle
  {
    waited := 0;
    while live(waited).applying > 0
      invariant waited < settle + SETTLE_POLL
      invariant waited % SETTLE_POLL == 0
      invariant forall t :: 0 <= t < waited && t % SETTLE_POLL == 0 ==> live(t).applying > 0 && t < settle
      decreases settle + SETTLE_POLL - waited
    {
      if waited >= settle {
        break;
      }
      waited := waited + SETTLE_POLL;
    }
    pods := live(waited).pods;
    settled := live(waited).applying == 0;
  }

  /** The release loop: restic is killed only if it is still running at a poll at or past the bound. */
  method ReleaseRestic(running: nat -> nat, bound: nat) returns (released: Report, waited: nat)
    ensures waited < bound + RELEASE_POLL
    ensures released.NoneRunning? <==> running(0) == 0
    ensures released.NoneRunning? ==> waited == 0
    ensures released.Exited? ==> running(waited) == 0 && released.signalled == running(0)
    ensures released.Killed? ==> bound <= waited && released.count == running(waited) > 0
    ensures waited % RELEASE_POLL == 0
    ensures forall t :: 0 <= t < waited && t % RELEASE_POLL == 0 ==> running(t) > 0 && t < bound
  {
    waited := 0;
    var signalled := running(0);
    if signalled == 0 {
      return NoneRunning, 0;
    }
    while running(waited) > 0
      invariant waited < bound + RELEASE_POLL
      invariant waited % RELEASE_POLL == 0
      invariant forall t :: 0 <= t < waited && t % RELEASE_POLL == 0 ==> running(t) > 0 && t < bound
      decreases bound + RELEASE_POLL - waited
    {
      if waited >= bound {
        return Killed(running(waited)), waited;
      }
      waited := waited + RELEASE_POLL;
    }
    released := Exited(signalled);
  }

  /**
  The whole stop: the two halves of the first step side by side, the helper half cut off at its bound
  settle wait included, then the status write and the webhook, each cut off at its own.  `settling` is the
  settle wait, `helpers` and `restic` what each half took.
  */
  method StopRun(live: nat -> H.Live, deletes: nat, running: nat -> nat, write: nat, webhook: nat)
    returns (elapsed: nat, settled: bool, released: Report, settling: nat, helpers: nat, restic: nat)
    ensures elapsed < Max(HELPER_DELETE_BOUND, RESTIC_RELEASE_BOUND + RELEASE_POLL) + STATUS_WRITE_BOUND + WEBHOOK_BOUND
    ensures elapsed < 80_050 && 80_050 < TERMINATION_GRACE == 90_000
    ensures settling < 5_020 && helpers <= 10_000 && restic < 15_050
    ensures elapsed == Max(helpers, restic) + Min(write, 20_000) + Min(webhook, 45_000)
    ensures (!settled ==> settling >= 5_000) && (released.Killed? ==> restic >= 15_000)
    ensures STOP_WORK_BOUND <= elapsed || released.Exited? || released.NoneRunning?
    ensures settling < HELPER_APPLY_SETTLE_BOUND + SETTLE_POLL <= HELPER_DELETE_BOUND
    ensures helpers == Min(settling + deletes, HELPER_DELETE_BOUND) && restic < RESTIC_RELEASE_BOUND + RELEASE_POLL
    ensures elapsed == Max(helpers, restic) + Min(write, STATUS_WRITE_BOUND) + Min(webhook, WEBHOOK_BOUND)
    ensures !settled ==> settling >= HELPER_APPLY_SETTLE_BOUND
    ensures released.Killed? ==> restic >= RESTIC_RELEASE_BOUND
    ensures live(0).applying == 0 ==> settling == 0
    ensures running(0) == 0 ==> restic == 0
  {
    var pods;
    pods, settled, settling := HelperPodsToDelete(live, HELPER_APPLY_SETTLE_BOUND);
    released, restic := ReleaseRestic(running, RESTIC_RELEASE_BOUND);
    assert 0 % SETTLE_POLL == 0;
    helpers := Min(settling + deletes, HELPER_DELETE_BOUND);
    elapsed := Max(helpers, restic);
    elapsed := elapsed + Min(write, STATUS_WRITE_BOUND);
    elapsed := elapsed + Min(webhook, WEBHOOK_BOUND);
  }
}
