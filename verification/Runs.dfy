/** Runs of a deterministic machine, and simulation of one machine by another. */
module Runs {
  import opened Wrappers

  ghost function Run<S, I>(step: (S, I) -> S, start: S, inputs: seq<I>, n: nat): S
    requires n <= |inputs|
  {
    if n == 0 then start else step(Run(step, start, inputs, n - 1), inputs[n - 1])
  }

  /** A relation kept by every pair of steps is kept by every pair of runs. */
  lemma {:induction false} Simulation<C(!new), A(!new), I(!new)>(
      related: (C, A) -> bool, concrete: (C, I) -> C, machine: (A, I) -> A,
      c: C, a: A, inputs: seq<I>, n: nat)
    requires n <= |inputs| && related(c, a)
    requires forall s, t, i :: related(s, t) ==> related(concrete(s, i), machine(t, i))
    ensures related(Run(concrete, c, inputs, n), Run(machine, a, inputs, n))
  {
    if n > 0 {
      Simulation(related, concrete, machine, c, a, inputs, n - 1);
    }
  }

  lemma {:induction false} Induction(holds: nat -> bool, n: nat)
    requires holds(0) && forall k: nat :: k < n && holds(k) ==> holds(k + 1)
    ensures holds(n)
  {
    if n > 0 {
      Induction(holds, n - 1);
    }
  }

  // ---------------------------------------------------------------- machines that may stop

  ghost function Steps<S>(turn: S -> Option<S>, start: S, n: nat): Option<S> {
    if n == 0 then Some(start)
    else
      match Steps(turn, start, n - 1)
      case None => None
      case Some(s) => turn(s)
  }

  /** What the states of the first `n` turns emit, as far as the machine gets. */
  ghost function Emitted<S, O>(turn: S -> Option<S>, emit: S -> seq<O>, start: S, n: nat): seq<O> {
    if n == 0 then []
    else
      Emitted(turn, emit, start, n - 1) + (match Steps(turn, start, n) case None => [] case Some(s) => emit(s))
  }

  lemma {:induction false} StoppedStays<S, O>(turn: S -> Option<S>, emit: S -> seq<O>, start: S, n: nat, m: nat)
    requires n <= m && Steps(turn, start, n).None?
    ensures Steps(turn, start, m).None? && Emitted(turn, emit, start, m) == Emitted(turn, emit, start, n)
  {
    if n < m {
      StoppedStays(turn, emit, start, n, m - 1);
    }
  }

  lemma {:induction false} StepsSplit<S>(turn: S -> Option<S>, start: S, middle: S, k: nat, n: nat)
    requires Steps(turn, start, k) == Some(middle)
    ensures Steps(turn, start, k + n) == Steps(turn, middle, n)
  {
    if n > 0 {
      StepsSplit(turn, start, middle, k, n - 1);
    }
  }

  lemma {:induction false} EmittedSplit<S, O>(turn: S -> Option<S>, emit: S -> seq<O>, start: S, middle: S, k: nat, n: nat)
    requires Steps(turn, start, k) == Some(middle)
    ensures Emitted(turn, emit, start, k + n) == Emitted(turn, emit, start, k) + Emitted(turn, emit, middle, n)
  {
    if n > 0 {
      EmittedSplit(turn, emit, start, middle, k, n - 1);
      StepsSplit(turn, start, middle, k, n);
    }
  }

  /** Two machines whose related states turn into related states, or both stop, run alike. */
  lemma {:induction false} StepsSimulate<A(!new), B(!new)>(
      related: (A, B) -> bool, turn: A -> Option<A>, other: B -> Option<B>, a: A, b: B, n: nat)
    requires related(a, b)
    requires forall x, y :: related(x, y) ==> turn(x).Some? == other(y).Some?
    requires forall x, y :: related(x, y) && turn(x).Some? ==> related(turn(x).value, other(y).value)
    ensures Steps(turn, a, n).Some? == Steps(other, b, n).Some?
    ensures Steps(turn, a, n).Some? ==> related(Steps(turn, a, n).value, Steps(other, b, n).value)
  {
    if n > 0 {
      StepsSimulate(related, turn, other, a, b, n - 1);
    }
  }

  /** And when related states emit the same, so do the runs. */
  lemma {:induction false} EmittedSimulate<A(!new), B(!new), O>(
      related: (A, B) -> bool, turn: A -> Option<A>, other: B -> Option<B>, emit: A -> seq<O>, emitOther: B -> seq<O>,
      a: A, b: B, n: nat)
    requires related(a, b)
    requires forall x, y :: related(x, y) ==> turn(x).Some? == other(y).Some?
    requires forall x, y :: related(x, y) && turn(x).Some? ==> related(turn(x).value, other(y).value)
    requires forall x, y :: related(x, y) ==> emit(x) == emitOther(y)
    ensures Emitted(turn, emit, a, n) == Emitted(other, emitOther, b, n)
  {
    if n > 0 {
      EmittedSimulate(related, turn, other, emit, emitOther, a, b, n - 1);
      StepsSimulate(related, turn, other, a, b, n);
    }
  }
}
