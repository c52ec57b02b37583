/** Runs of a transition system: sequences of states, each following from the one before. */
module Runs {
  ghost predicate IsRun<S(!new)>(init: S -> bool, next: (S, S) -> bool, run: seq<S>) {
    |run| > 0 && init(run[0]) && forall i :: 0 <= i < |run| - 1 ==> next(run[i], run[i + 1])
  }

  ghost function Last<S>(run: seq<S>): S
    requires |run| > 0
  {
    run[|run| - 1]
  }

  lemma Extend<S(!new)>(init: S -> bool, next: (S, S) -> bool, run: seq<S>, s: S)
    requires IsRun(init, next, run) && next(Last(run), s)
    ensures IsRun(init, next, run + [s]) && Last(run + [s]) == s
  {
    var longer := run + [s];
    forall i | 0 <= i < |longer| - 1
      ensures next(longer[i], longer[i + 1])
    {
      if i < |run| - 1 {
        assert longer[i] == run[i] && longer[i + 1] == run[i + 1];
      }
    }
  }
}
