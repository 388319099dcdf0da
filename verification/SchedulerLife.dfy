/** How a scheduler starts and ends: js_create can return, and js_join_threads with every job done. */
module SchedulerLife {
  import opened Collections
  import opened Wrappers
  import opened SchedulerModel
  import opened SchedulerInvariant
  import opened SchedulerTheorems
  import opened SchedulerProgress
  import opened SchedulerCalls
  import Semaphore

  lemma {:induction false} ReachableRun(s: State, run: seq<Action>)
    requires Reachable(s) && Legal(s, run)
    ensures Reachable(End(s, run))
    decreases |run|
  {
    if run != [] {
      ReachableStep(s, run[0]);
      ReachableRun(Next(s, run[0]), run[1..]);
    }
  }

  // ---------- js_create ----------

  /** Every worker has posted at least once before it waits. */
  ghost predicate PostsCover(s: State) {
    Control(s) && (Starting(s) ==> s.posts >= s.sh.ready)
  }

  lemma {:induction false} PostsCoverRun(s: State, run: seq<Action>)
    requires PostsCover(s) && Legal(s, run)
    ensures PostsCover(End(s, run))
    decreases |run|
  {
    if run != [] {
      ControlKept(s, run[0]);
      PostsCoverRun(Next(s, run[0]), run[1..]);
    }
  }

  lemma ReachableCovers(s: State)
    requires Reachable(s)
    ensures PostsCover(s)
  {
    var threads: nat, cap: nat, run: seq<Action> :|
      threads > 0 && Legal(Init(threads, cap), run) && End(Init(threads, cap), run) == s;
    InvInit(threads, cap);
    PostsCoverRun(Init(threads, cap), run);
  }

  /** From wherever js_create has come to, it can return. */
  lemma CreateCanReturn(s: State)
    requires Reachable(s) && Starting(s)
    ensures CanReturn(s)
  {
    ReachableInv(s);
    ReachableCovers(s);
    NoLeakWhileStarting(s);
    ReachesItself(s);
    if s.master.Creating? { CreateThreads(s, s); } else { PassTheBarrier(s, s); }
  }

  lemma {:induction false} CreateThreads(s: State, t: State)
    requires Reaches(s, t) && Inv(t) && PostsCover(t) && !t.leaked && t.master.Creating?
    ensures CanReturn(s)
    decreases |t.workers| - t.master.made
  {
    var a := if t.master.made < |t.workers| then CreateThread else EnterBarrier;
    InvStep(t, a);
    Onward(s, t, a);
    if a.CreateThread? {
      CreateThreads(s, Next(t, a));
    } else if !Next(t, a).master.Idle? {
      PassTheBarrier(s, Next(t, a));
    }
  }

  /** As long as posts are missing, some worker does not wait yet, and when it does, it posts. */
  lemma {:induction false} PassTheBarrier(s: State, t: State)
    requires Reaches(s, t) && Inv(t) && PostsCover(t) && !t.leaked && t.master.AtBarrier?
    ensures CanReturn(s)
    decreases t.sh.threads - t.posts
  {
    if t.barrier.signalled {
      Onward(s, t, PassBarrier);
    } else {
      CountAll(t.workers);
      var w: nat :| w < |t.workers| && !t.workers[w].Waiting?;
      Nothing(t);
      var u := GoToWait(t, t, w);
      Meanwhile(s, t, u);
      CountUpdate(t.workers, w, Worker.Waiting);
      PassTheBarrier(s, u);
    }
  }

  // ---------- js_join_threads ----------

  /** Inside js_join_threads after it has set `exit`. */
  ghost predicate Closing(s: State) { Inv(s) && s.master.Joining? && !s.leaked }

  lemma {:induction false} JoiningUnlocked(s: State, run: seq<Action>)
    requires Legal(s, run) && (s.master.Joining? ==> !s.leaked)
    ensures End(s, run).master.Joining? ==> !End(s, run).leaked
    decreases |run|
  {
    if run != [] { JoiningUnlocked(Next(s, run[0]), run[1..]); }
  }

  lemma ReachableClosing(s: State)
    requires Reachable(s) && s.master.Joining?
    ensures Closing(s)
  {
    ReachableInv(s);
    var threads: nat, cap: nat, run: seq<Action> :|
      threads > 0 && Legal(Init(threads, cap), run) && End(Init(threads, cap), run) == s;
    JoiningUnlocked(Init(threads, cap), run);
  }

  /** With `exit` set a worker's turn takes a job or, when none is left, ends the worker. */
  lemma ClosingTurn(s: State, w: nat)
    requires Closing(s) && w < |s.workers| && (s.workers[w].AtLock? || s.workers[w].Waiting?)
    ensures var t := AfterTurn(s, w);
      && Enabled(s, WorkerSection(w)) && Closing(t) && SameCall(s, t) && t.workers == s.workers[w := t.workers[w]]
      && if s.sh.waiting == [] then t.workers[w].Exited? else t.workers[w].Running? && |t.sh.waiting| < |s.sh.waiting|
  {
    InvStep(s, WorkerSection(w));
  }

  /** A worker takes what is left to take and exits. */
  lemma {:induction false} OneExits(s: State, t: State, w: nat) returns (u: State)
    requires Closing(t) && ByWorkers(s, t) && w < |t.workers|
    ensures Closing(u) && ByWorkers(s, u) && SameCall(t, u)
    ensures u.workers == t.workers[w := Exited]
    decreases |t.sh.waiting|
  {
    u := t;
    if !t.workers[w].Exited? {
      hide ByWorkers, Inv, AfterTurn;
      ClosingStarted(t);
      var v := FreeWorker(s, t, w);
      ClosingTurn(v, w);
      Then(s, v, WorkerSection(w));
      u := AfterTurn(v, w);
      if !u.workers[w].Exited? { u := OneExits(s, u, w); }
    }
  }

  lemma ClosingStarted(s: State)
    requires Closing(s)
    ensures Inv(s) && forall w: nat :: w < |s.workers| ==> !s.workers[w].Unborn?
  {
  }

  lemma {:induction false} AllExit(s: State, t: State, n: nat) returns (u: State)
    requires Closing(t) && ByWorkers(s, t) && n <= |t.workers|
    ensures Closing(u) && ByWorkers(s, u) && SameCall(t, u)
    ensures forall w: nat :: w < n ==> u.workers[w].Exited?
    decreases n
  {
    u := t;
    if n > 0 {
      u := AllExit(s, t, n - 1);
      u := OneExits(s, u, n - 1);
    }
  }

  ghost predicate AllExited(s: State) { forall w: nat :: w < |s.workers| ==> s.workers[w].Exited? }

  /** The threads are joined one after the other. */
  lemma {:induction false} JoinAll(s: State, t: State) returns (u: State)
    requires Closing(t) && Reaches(s, t) && AllExited(t)
    ensures Closing(u) && Reaches(s, u) && u.master == Joining(|u.workers|) && AllExited(u)
    ensures u.submitted == t.submitted && u.workers == t.workers
    decreases |t.workers| - t.master.joined
  {
    u := t;
    if t.master.joined < |t.workers| {
      InvStep(t, JoinThread);
      Onward(s, t, JoinThread);
      u := JoinAll(s, Next(t, JoinThread));
    }
  }

  /** js_join_threads is through its loop, every worker has exited, and every job has been run. */
  ghost predicate Joined(s: State) {
    && s.master == Joining(|s.workers|) && AllExited(s)
    && s.started == s.submitted && (forall j :: j in s.submitted ==> j in s.complete && j in s.finished)
  }

  /** From wherever js_join_threads has come to after setting `exit`, the workers can take all jobs still
      waiting and exit, and it can join them all. */
  lemma ShutdownCompletes(s: State) returns (t: State)
    requires Reachable(s) && s.master.Joining?
    ensures Reaches(s, t) && Joined(t) && t.submitted == s.submitted
  {
    ReachableClosing(s);
    Nothing(s);
    ReachesItself(s);
    var u := AllExit(s, s, |s.workers|);
    Meanwhile(s, s, u);
    t := JoinAll(s, u);
    var run :| Legal(s, run) && Within(s, run) && End(s, run) == t;
    ReachableRun(s, run);
    ShutdownDrains(t);
  }

  /** js_join_threads can come to its end if and only if no js_execute_all_jobs has left the mutex locked. */
  lemma JoinCompletesIff(s: State)
    requires Reachable(s) && Enabled(s, EnterJoin)
    ensures (exists t :: Reaches(Next(s, EnterJoin), t) && Joined(t)) <==> !s.leaked
  {
    var t := Next(s, EnterJoin);
    if s.leaked {
      forall u | Reaches(t, u) ensures !Joined(u) {
        var run :| Legal(t, run) && Within(t, run) && End(t, run) == u;
        LeakedRun(t, run);
      }
    } else {
      ReachableStep(s, EnterJoin);
      ReachesItself(t);
      ReachableInv(s);
      ReachableInv(t);
      var u := t;
      if t.master.JoinBarrier? { u := PassTheJoin(t); }
      assert u.master.SettingExit? && MutexFree(u);
      Onward(t, u, SetExit);
      u := Next(u, SetExit);
      var run :| Legal(t, run) && Within(t, run) && End(t, run) == u;
      ReachableRun(t, run);
      var v := ShutdownCompletes(u);
      ReachesOn(t, u, v);
    }
  }

  lemma {:induction false} LeakedRun(s: State, run: seq<Action>)
    requires Legal(s, run) && s.leaked && !s.master.Joining?
    ensures End(s, run).leaked && !End(s, run).master.Joining?
    decreases |run|
  {
    if run != [] { LeakedRun(Next(s, run[0]), run[1..]); }
  }

  lemma ReachesOn(s: State, t: State, u: State)
    requires Reaches(s, t) && Reaches(t, u)
    ensures Reaches(s, u)
  {
    var run :| Legal(t, run) && Within(t, run) && End(t, run) == u;
    ReachesOnRun(s, t, run);
  }

  lemma {:induction false} ReachesOnRun(s: State, t: State, run: seq<Action>)
    requires Reaches(s, t) && Legal(t, run) && Within(t, run)
    ensures Reaches(s, End(t, run))
    decreases |run|
  {
    if run != [] {
      assert Within(Next(t, run[0]), run[1..]);
      Onward(s, t, run[0]);
      ReachesOnRun(s, Next(t, run[0]), run[1..]);
    }
  }

  /** Parked at the barrier, the master lacks one post, which a worker makes when it goes to wait. */
  lemma PassTheJoin(s: State) returns (u: State)
    requires Inv(s) && s.master.JoinBarrier? && !s.leaked
    requires s.barrier.parked && s.barrier.value == -1 && s.barrier.wakeups >= 0
    ensures Reaches(s, u) && u.master.SettingExit? && !u.leaked
  {
    ReachesItself(s);
    var t := s;
    Nothing(s);
    if s.sh.working { t := TakeAll(s, s); }
    t := GoToWait(s, t, 0);
    Meanwhile(s, s, t);
    Onward(s, t, PassJoin);
    u := Next(t, PassJoin);
  }

  /** With every worker in its first wait, js_join_threads can only go on after a worker has woken there,
      to which nothing but a cycle gives it cause. */
  lemma JoinNeedsWakeUp(s: State, a: Action)
    requires Reachable(s) && Enabled(s, EnterJoin) && s.posts == s.sh.ready == s.sh.threads
    requires Enabled(Next(s, EnterJoin), a)
    ensures a.WorkerSection? && s.workers[a.w].Waiting? && !Enabled(Next(s, EnterJoin), PassJoin)
  {
    ReachableInv(s);
    CountAll(s.workers);
    JoinWaitsIff(s);
  }

  /** So it is when js_create has just returned to a master that has nothing to do. */
  lemma NewSchedulerNeedsWakeUp() returns (s: State)
    ensures Reachable(s) && Enabled(s, EnterJoin) && s.posts == s.sh.ready == s.sh.threads
    ensures !s.sh.working && s.submitted == [] && Next(s, EnterJoin).master.JoinBarrier?
  {
    s := OneWorkerWaiting();
    JoinWaitsIff(s);
  }
}
