/** Jobs that share a memory, run step by step in any order. */
module IndependentJobs {
  /** A schedule lists which job takes the next step. Every step acts on the whole memory. */
  function Run<M>(m: M, schedule: seq<nat>, step: (nat, M) -> M): M {
    if schedule == [] then m else
    step(schedule[|schedule| - 1], Run(m, schedule[..|schedule| - 1], step))
  }

  /** Job i by itself, for n steps. */
  function Alone<M>(i: nat, m: M, n: nat, step: (nat, M) -> M): M {
    if n == 0 then m else step(i, Alone(i, m, n - 1, step))
  }

  function StepsOf(i: nat, schedule: seq<nat>): nat {
    if schedule == [] then 0 else
    StepsOf(i, schedule[..|schedule| - 1]) + if schedule[|schedule| - 1] == i then 1 else 0
  }

  /** `view(i, m)` shows the places of m that job i reads or writes. No job writes what another one sees. */
  ghost predicate WritesApart<M(!new), S>(step: (nat, M) -> M, view: (nat, M) -> S) {
    forall i: nat, k: nat, m :: i != k ==> view(k, step(i, m)) == view(k, m)
  }

  /** What a job leaves in the places it sees depends on those places only. */
  ghost predicate ReadsOwnView<M(!new), S>(step: (nat, M) -> M, view: (nat, M) -> S) {
    forall i: nat, m, m' :: view(i, m) == view(i, m') ==> view(i, step(i, m)) == view(i, step(i, m'))
  }

  /** Then, whatever the order, each job leaves what it would have left by itself. */
  lemma {:induction false} AnyOrder<M(!new), S>(m: M, schedule: seq<nat>, step: (nat, M) -> M, view: (nat, M) -> S, i: nat)
    requires WritesApart(step, view) && ReadsOwnView(step, view)
    ensures view(i, Run(m, schedule, step)) == view(i, Alone(i, m, StepsOf(i, schedule), step))
  {
    if schedule != [] {
      var n, before := |schedule| - 1, Run(m, schedule[..|schedule| - 1], step);
      AnyOrder(m, schedule[..n], step, view, i);
      if schedule[n] == i {
        OneStep(step, view, i, before, Alone(i, m, StepsOf(i, schedule[..n]), step));
      } else {
        assert view(i, step(schedule[n], before)) == view(i, before);
      }
    }
  }

  lemma OneStep<M(!new), S>(step: (nat, M) -> M, view: (nat, M) -> S, i: nat, m: M, m': M)
    requires ReadsOwnView(step, view) && view(i, m) == view(i, m')
    ensures view(i, step(i, m)) == view(i, step(i, m'))
  {
  }
}
