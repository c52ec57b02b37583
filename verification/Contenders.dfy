/** Who can end a run: the engine thread itself, or one of the two tasks that stop it. */
module Contenders {
  datatype Stopper = SignalTask | StagingTask

  datatype Contender = Engine | Stop(who: Stopper)
}
