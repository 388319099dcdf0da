/** What the workers can do by themselves, while the master stays where it is. */
module SchedulerProgress {
  import opened Collections
  import opened SchedulerModel
  import opened SchedulerInvariant
  import opened SchedulerTheorems
  import Semaphore

  predicate OnlyWorkers(run: seq<Action>) {
    forall k: nat :: k < |run| ==> OfWorker(run[k])
  }

  /** The workers alone can take the scheduler from s to t. */
  ghost predicate ByWorkers(s: State, t: State) {
    exists run :: OnlyWorkers(run) && Legal(s, run) && End(s, run) == t
  }

  lemma Nothing(s: State)
    ensures ByWorkers(s, s)
  {
    assert OnlyWorkers([]) && Legal(s, []) && End(s, []) == s;
  }

  lemma Then(s: State, t: State, a: Action)
    requires ByWorkers(s, t) && Enabled(t, a) && OfWorker(a)
    ensures ByWorkers(s, Next(t, a))
  {
    var run :| OnlyWorkers(run) && Legal(s, run) && End(s, run) == t;
    Extend(s, run, a);
    assert OnlyWorkers(run + [a]);
  }

  /** The master's part of the state, as the workers' steps leave it. */
  ghost predicate SameCall(s: State, t: State) {
    && t.master == s.master && t.submitted == s.submitted && t.leaked == s.leaked && |t.workers| == |s.workers|
    && t.sh.cap == s.sh.cap && t.sh.exit == s.sh.exit && t.sh.threads == s.sh.threads
  }

  /** A worker lets go of its job; queues, flags, the barrier and the other workers stay as they are. */
  lemma FreeWorker(s: State, t: State, w: nat) returns (u: State)
    requires Inv(t) && ByWorkers(s, t) && w < |t.workers| && !t.workers[w].Unborn? && !t.workers[w].Exited?
    ensures Inv(u) && ByWorkers(s, u) && SameCall(t, u) && u.sh == t.sh && u.barrier == t.barrier && u.posts == t.posts
    ensures u.workers == t.workers[w := u.workers[w]] && u.started == t.started
    ensures u.workers[w] == if t.workers[w].Waiting? then t.workers[w] else AtLock
  {
    u := t;
    if u.workers[w].Running? {
      InvStep(u, RoutineEnds(w));
      Then(s, u, RoutineEnds(w));
      u := Next(u, RoutineEnds(w));
    }
    if u.workers[w].Finished? {
      InvStep(u, NotifyComplete(w));
      Then(s, u, NotifyComplete(w));
      u := Next(u, NotifyComplete(w));
    }
  }

  /** The workers are at work: none is still to be made and none has exited. */
  ghost predicate AtWork(s: State) {
    Inv(s) && !Starting(s) && !s.sh.exit && MutexFree(s)
  }

  /** In a cycle the first worker takes a waiting job. */
  lemma TakeOne(s: State, t: State) returns (u: State)
    requires AtWork(t) && ByWorkers(s, t) && t.sh.working && t.sh.waiting != []
    ensures AtWork(u) && ByWorkers(s, u) && SameCall(t, u) && u.barrier == t.barrier
    ensures u.sh.working && u.sh.waiting == t.sh.waiting[1..]
    ensures t.sh.waiting[0] in u.started && t.sh.waiting[0] !in u.complete
  {
    var v := FreeWorker(s, t, 0);
    var a := WorkerSection(0);
    u := Next(v, a);
    assert u.workers[0] == Running(v.sh.waiting[0]);
    InvStep(v, a);
    Then(s, v, a);
  }

  /** In a cycle the workers can take all waiting jobs and keep the last of them. */
  lemma {:induction false} TakeAll(s: State, t: State) returns (u: State)
    requires AtWork(t) && ByWorkers(s, t) && t.sh.working
    ensures AtWork(u) && ByWorkers(s, u) && SameCall(t, u) && u.barrier == t.barrier
    ensures u.sh.working && u.sh.waiting == [] && u.started == u.submitted
    ensures t.sh.waiting != [] ==> exists j :: j in u.submitted && j !in u.complete
    decreases |t.sh.waiting|
  {
    u := t;
    if t.sh.waiting != [] {
      u := TakeOne(s, t);
      if u.sh.waiting != [] { u := TakeAll(s, u); }
    }
    assert u.started + [] == u.started;
  }

  /** With nothing to take, a worker goes to wait, and posts. */
  lemma GoToWait(s: State, t: State, w: nat) returns (u: State)
    requires Inv(t) && ByWorkers(s, t) && MutexFree(t) && w < |t.workers| && !t.workers[w].Unborn? && !t.sh.exit
    requires !t.sh.working || t.sh.waiting == []
    ensures Inv(u) && ByWorkers(s, u) && SameCall(t, u) && u.sh.waiting == t.sh.waiting
    ensures u.barrier == Semaphore.Post(t.barrier) && u.posts == t.posts + 1
    ensures u.workers == t.workers[w := Waiting] && u.sh.ready == CountWaiting(u.workers) > 0
    ensures u.sh.working <==> t.sh.working && u.sh.ready != u.sh.threads
  {
    var v := FreeWorker(s, t, w);
    var a := WorkerSection(w);
    u := Next(v, a);
    InvStep(v, a);
    Then(s, v, a);
    assert t.workers[w := v.workers[w]][w := Waiting] == t.workers[w := Waiting];
    OneWaits(u.workers, w);
  }

  lemma {:induction false} OneWaits(ws: seq<Worker>, w: nat)
    requires w < |ws| && ws[w].Waiting?
    ensures CountWaiting(ws) > 0
  {
    if w > 0 { OneWaits(ws[1..], w - 1); }
  }

  // ---------- the end of a cycle ----------

  /** A worker that does not wait goes to wait. */
  lemma OneMoreWaits(s: State, t: State, w: nat) returns (u: State)
    requires AtWork(t) && ByWorkers(s, t) && t.sh.waiting == [] && w < |t.workers|
    ensures AtWork(u) && ByWorkers(s, u) && SameCall(t, u) && u.sh.waiting == []
    ensures u.workers[w].Waiting? && forall v: nat :: v < |t.workers| && v != w ==> u.workers[v] == t.workers[v]
  {
    u := t;
    if !t.workers[w].Waiting? {
      assert !t.workers[w].Unborn?;
      u := GoToWait(s, t, w);
    }
  }

  /** One by one the workers go to wait. */
  lemma {:induction false} AllGoToWait(s: State, t: State, n: nat) returns (u: State)
    requires AtWork(t) && ByWorkers(s, t) && t.sh.waiting == [] && n <= |t.workers|
    ensures AtWork(u) && ByWorkers(s, u) && SameCall(t, u) && u.sh.waiting == []
    ensures forall w: nat :: w < n ==> u.workers[w].Waiting?
  {
    u := t;
    if n > 0 {
      hide ByWorkers, AtWork;
      u := AllGoToWait(s, t, n - 1);
      u := OneMoreWaits(s, u, n - 1);
    }
  }

  /** From wherever a cycle has come to, the workers alone can bring it to its end, and then every job
      submitted is complete and every worker waits. */
  lemma CycleCanEnd(s: State) returns (t: State)
    requires Reachable(s) && s.sh.working && MutexFree(s)
    ensures ByWorkers(s, t) && !t.sh.working && t.sh.ready == t.sh.threads
    ensures t.master == s.master && t.submitted == s.submitted
    ensures forall j :: j in s.submitted ==> j in t.complete && j in t.finished
  {
    ReachableInv(s);
    Nothing(s);
    t := TakeAll(s, s);
    t := AllGoToWait(s, t, |t.workers|);
    CountAll(t.workers);
    if t.sh.working {
      t := GoToWait(s, t, 0);
      CountAll(t.workers);
    }
    assert t.started + [] == t.started;
    assert forall w: nat, j :: !Busy(t, w, j);
  }
}
