/** Systems whose steps are taken one at a time: the runs of the scheduler, the cluster and the thumbnail
    workers under any interleaving. */
module Runs {

  // which events a state allows, and the state that follows
  datatype System<!S(!new), !E(!new)> = System(enabled: (S, E) -> bool, next: (S, E) -> S)

  ghost predicate IsRun<S(!new), E(!new)>(system: System<S, E>, s: S, es: seq<E>)
    decreases |es|
  {
    es == [] || (system.enabled(s, es[0]) && IsRun(system, system.next(s, es[0]), es[1..]))
  }

  ghost function After<S(!new), E(!new)>(system: System<S, E>, s: S, es: seq<E>): S
    decreases |es|
  {
    if es == [] then s else After(system, system.next(s, es[0]), es[1..])
  }

  ghost predicate Keeps<S(!new), E(!new)>(system: System<S, E>, invariant_: S -> bool) {
    forall s, e :: invariant_(s) && system.enabled(s, e) ==> invariant_(system.next(s, e))
  }

  // What every step keeps holds after every run.
  lemma {:induction false} RunKeeps<S(!new), E(!new)>(system: System<S, E>, invariant_: S -> bool, s: S, es: seq<E>)
    requires Keeps(system, invariant_) && invariant_(s) && IsRun(system, s, es)
    ensures invariant_(After(system, s, es))
    decreases |es|
  {
    if es != [] {
      RunKeeps(system, invariant_, system.next(s, es[0]), es[1..]);
    }
  }

  lemma {:induction false} OneMoreStep<S(!new), E(!new)>(system: System<S, E>, s: S, es: seq<E>, e: E)
    requires IsRun(system, s, es) && system.enabled(After(system, s, es), e)
    ensures IsRun(system, s, es + [e]) && After(system, s, es + [e]) == system.next(After(system, s, es), e)
    decreases |es|
  {
    if es == [] {
      assert ([] + [e])[1..] == [];
    } else {
      assert (es + [e])[0] == es[0] && (es + [e])[1..] == es[1..] + [e];
      OneMoreStep(system, system.next(s, es[0]), es[1..], e);
    }
  }
}
