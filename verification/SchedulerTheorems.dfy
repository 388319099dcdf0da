/** What holds of every run of the scheduler. */
module SchedulerTheorems {
  import opened Collections
  import opened Wrappers
  import opened SchedulerModel
  import opened SchedulerInvariant
  import Semaphore

  ghost predicate Inv(s: State) {
    Control(s) && Barrier(s) && NotEarly(s) && Order(s) && Fate(s) && Tokens(s)
  }

  lemma InvInit(threads: nat, cap: nat)
    requires threads > 0
    ensures Inv(Init(threads, cap))
  {
    var s := Init(threads, cap);
    NoneWaiting(s.workers);
    Semaphore.BarrierSteps(s.barrier, threads, 0);
  }

  lemma {:induction false} NoneWaiting(ws: seq<Worker>)
    requires forall w: nat :: w < |ws| ==> ws[w].Unborn?
    ensures CountWaiting(ws) == 0
  {
    if ws != [] { NoneWaiting(ws[1..]); }
  }

  lemma InvStep(s: State, a: Action)
    requires Inv(s) && Enabled(s, a)
    ensures Inv(Next(s, a))
  {
    ControlKept(s, a);
    BarrierKept(s, a);
    NotEarlyKept(s, a);
    OrderKept(s, a);
    FateKept(s, a);
    TokensKept(s, a);
  }

  lemma {:induction false} InvRun(s: State, run: seq<Action>)
    requires Inv(s) && Legal(s, run)
    ensures Inv(End(s, run))
    decreases |run|
  {
    if run != [] {
      InvStep(s, run[0]);
      InvRun(Next(s, run[0]), run[1..]);
    }
  }

  lemma ReachableInv(s: State)
    requires Reachable(s)
    ensures Inv(s)
  {
    var threads: nat, cap: nat, run: seq<Action> :|
      threads > 0 && Legal(Init(threads, cap), run) && End(Init(threads, cap), run) == s;
    InvInit(threads, cap);
    InvRun(Init(threads, cap), run);
  }

  lemma {:induction false} Extend(s: State, run: seq<Action>, a: Action)
    requires Legal(s, run) && Enabled(End(s, run), a)
    ensures Legal(s, run + [a]) && End(s, run + [a]) == Next(End(s, run), a)
    decreases |run|
  {
    if run == [] {
      assert run + [a] == [a] && [a][1..] == [];
    } else {
      assert (run + [a])[1..] == run[1..] + [a];
      Extend(Next(s, run[0]), run[1..], a);
    }
  }

  lemma ReachableStep(s: State, a: Action)
    requires Reachable(s) && Enabled(s, a)
    ensures Reachable(Next(s, a))
  {
    var threads: nat, cap: nat, run: seq<Action> :|
      threads > 0 && Legal(Init(threads, cap), run) && End(Init(threads, cap), run) == s;
    Extend(Init(threads, cap), run, a);
  }

  // ---------- the mutex ----------

  /** At any time `ready` is the number of workers in WAIT_. */
  lemma ReadyCountsWaiting(s: State)
    requires Reachable(s)
    ensures s.sh.ready == |set w: nat | w < |s.workers| && s.workers[w].Waiting?|
  {
    ReachableInv(s);
    CountIsCard(s.workers);
  }

  lemma {:induction false} CountIsCard(ws: seq<Worker>)
    ensures CountWaiting(ws) == |set w: nat | w < |ws| && ws[w].Waiting?|
  {
    var all := set w: nat | w < |ws| && ws[w].Waiting?;
    if ws == [] {
      assert all == {};
    } else {
      var n := |ws| - 1;
      var less := set w: nat | w < n && ws[..n][w].Waiting?;
      CountIsCard(ws[..n]);
      CountSnoc(ws[..n], ws[n]);
      assert ws[..n] + [ws[n]] == ws;
      assert all == if ws[n].Waiting? then less + {n} else less;
    }
  }

  lemma {:induction false} CountSnoc(ws: seq<Worker>, x: Worker)
    ensures CountWaiting(ws + [x]) == CountWaiting(ws) + if x.Waiting? then 1 else 0
  {
    if ws != [] {
      assert (ws + [x])[1..] == ws[1..] + [x];
      CountSnoc(ws[1..], x);
    }
  }

  ghost predicate CanLeak(s: State) {
    exists run :: Legal(s, run) && End(s, run).leaked
  }

  /** The state in which js_create returns. */
  ghost predicate Created(s: State) {
    exists s0, a: Action :: Reachable(s0) && Starting(s0) && Enabled(s0, a) && s == Next(s0, a) && !Starting(s)
  }

  /** js_execute_all_jobs can come to return without unlocking the mutex exactly when js_create returned
      before every worker was waiting. */
  lemma LeakIff(s: State)
    requires Created(s)
    ensures CanLeak(s) <==> s.sh.ready != s.sh.threads
  {
    var s0, a: Action :| Reachable(s0) && Starting(s0) && Enabled(s0, a) && s == Next(s0, a) && !Starting(s);
    ReachableInv(s0);
    InvStep(s0, a);
    NoLeakWhileStarting(s0);
    if s.sh.ready != s.sh.threads {
      LeakNow(s);
    } else {
      forall run | Legal(s, run) ensures !End(s, run).leaked {
        SettledRun(s, run);
      }
    }
  }

  lemma LeakNow(s: State)
    requires s.master.Idle? && !s.leaked && !s.sh.working && s.sh.ready != s.sh.threads
    ensures CanLeak(s)
  {
    assert Legal(s, []) && Enabled(s, ExecuteAll);
    Extend(s, [], ExecuteAll);
  }

  /** No call of js_execute_all_jobs, so no leak, before js_create returns. */
  lemma NoLeakWhileStarting(s: State)
    requires Reachable(s) && Starting(s)
    ensures !s.leaked
  {
    var threads: nat, cap: nat, run: seq<Action> :|
      threads > 0 && Legal(Init(threads, cap), run) && End(Init(threads, cap), run) == s;
    StartingRun(Init(threads, cap), run);
  }

  lemma {:induction false} StartingRun(s: State, run: seq<Action>)
    requires Legal(s, run) && (Starting(s) ==> !s.leaked)
    ensures Starting(End(s, run)) ==> !End(s, run).leaked
    decreases |run|
  {
    if run != [] { StartingRun(Next(s, run[0]), run[1..]); }
  }

  lemma {:induction false} SettledRun(s: State, run: seq<Action>)
    requires Control(s) && Settled(s) && !Starting(s) && Legal(s, run)
    ensures Settled(End(s, run))
    decreases |run|
  {
    if run != [] {
      ControlKept(s, run[0]);
      SettledKept(s, run[0]);
      SettledRun(Next(s, run[0]), run[1..]);
    }
  }

  /** If no worker woke in WAIT_ before js_create returned, then between cycles every worker waits and
      the mutex is never left locked. */
  lemma NoEarlyWakeNoLeak(s: State)
    requires Reachable(s) && !s.early
    ensures !s.leaked
    ensures !s.sh.working && !s.sh.exit && !Starting(s) ==>
      s.sh.ready == s.sh.threads && forall w: nat :: w < |s.workers| ==> s.workers[w].Waiting?
  {
    ReachableInv(s);
    CountAll(s.workers);
  }

  /** A spurious wake-up during start-up is enough: the worker posts twice, the master passes the
      barrier with one of two workers waiting, and its first js_execute_all_jobs keeps the mutex. */
  lemma EarlyWakeLeaks() returns (s: State)
    ensures Reachable(s) && s.leaked && s.early && s.submitted == []
  {
    s := Init(2, 1);
    assert Legal(s, []) && End(s, []) == s;
    assert Reachable(s);
    ReachableStep(s, CreateThread); s := Next(s, CreateThread);
    ReachableStep(s, CreateThread); s := Next(s, CreateThread);
    ReachableStep(s, WorkerSection(0)); s := Next(s, WorkerSection(0));
    ReachableStep(s, WorkerSection(0)); s := Next(s, WorkerSection(0));
    ReachableStep(s, EnterBarrier); s := Next(s, EnterBarrier);
    ReachableStep(s, ExecuteAll); s := Next(s, ExecuteAll);
  }

  // ---------- cycles ----------

  /** When a worker ends a cycle, nothing waits, no worker holds a job, and every job submitted so far
      has run and been announced. */
  lemma CycleEndsQuiescent(s: State, w: nat)
    requires Reachable(s) && Enabled(s, WorkerSection(w))
    requires s.sh.working && !Next(s, WorkerSection(w)).sh.working
    ensures s.sh.waiting == []
    ensures forall v: nat :: v < |s.workers| && v != w ==> s.workers[v].Waiting?
    ensures forall j :: j in s.submitted ==> j in s.complete && j in s.finished
  {
    var t := Next(s, WorkerSection(w));
    ReachableInv(s);
    InvStep(s, WorkerSection(w));
    CountAll(t.workers);
    assert forall v: nat :: v < |s.workers| && v != w ==> t.workers[v] == s.workers[v];
    forall j | j in s.submitted ensures j in s.complete && j in s.finished {
      assert j in s.started;
      assert forall v: nat :: !Busy(s, v, j);
    }
  }

  /** Jobs start in the order they were submitted, each once; and what the master has collected, then
      the running queue, is what has started, if and only if the running queue was never full. */
  lemma OrderAndConservation(s: State)
    requires Reachable(s)
    ensures s.submitted == s.started + s.sh.waiting && Distinct(s.submitted)
    ensures s.submitted == s.collected + s.sh.running + s.sh.waiting <==> s.lost == []
  {
    ReachableInv(s);
    if s.lost != [] {
      assert |s.collected + s.sh.running + s.sh.waiting| < |s.submitted|;
    }
  }

  /** The section js_submit_job runs without the mutex: until it is over no worker touches the queues,
      and the place it found free is still free. */
  lemma UnlockedSubmitIsAlone(s: State, w: nat)
    requires Reachable(s) && (s.master.Testing? || s.master.Enqueueing?) && Enabled(s, WorkerSection(w))
    ensures Next(s, WorkerSection(w)).sh.waiting == s.sh.waiting
    ensures Next(s, WorkerSection(w)).sh.running == s.sh.running
    ensures Next(s, WorkerSection(w)).workers[w].Waiting?
    ensures s.master.Enqueueing? ==> s.master.job in Next(s, SubmitUnlocked).submitted
  {
    ReachableInv(s);
  }

  /** A forced or mid-cycle submission that finds the waiting queue full never returns: it waits for
      room with the mutex held, and room is only made with the mutex held. */
  lemma FullSubmitNeverReturns(s: State, run: seq<Action>)
    requires Reachable(s) && s.master.Submitting? && Enabled(s, SubmitLocked)
    requires s.sh.ready != 0 && |s.sh.waiting| == s.sh.cap
    requires Legal(Next(s, SubmitLocked), run)
    ensures End(Next(s, SubmitLocked), run).master == Stuck(s.master.job)
    ensures s.master.job !in End(Next(s, SubmitLocked), run).submitted
  {
    ReachableInv(s);
    InvStep(s, SubmitLocked);
    StuckRun(Next(s, SubmitLocked), run);
  }

  lemma {:induction false} StuckRun(s: State, run: seq<Action>)
    requires Inv(s) && s.master.Stuck? && Legal(s, run)
    ensures End(s, run).master == s.master && End(s, run).submitted == s.submitted && Inv(End(s, run))
    decreases |run|
  {
    if run != [] {
      InvStep(s, run[0]);
      StuckRun(Next(s, run[0]), run[1..]);
    }
  }

  // ---------- waiting for jobs ----------

  /** The single post of a job suffices for its waiter: js_wait_job never blocks on a job already
      announced, and of a job whose routine is over only the announcement is outstanding. */
  lemma WaitJobNotBlocked(s: State)
    requires Reachable(s) && s.master.WaitingJob?
    ensures s.master.job in s.finished ==> Enabled(s, TakeToken)
    ensures s.master.job in s.complete && s.master.job !in s.finished ==>
      exists w: nat :: Enabled(s, NotifyComplete(w)) && Enabled(Next(s, NotifyComplete(w)), TakeToken)
  {
    ReachableInv(s);
    var j := s.master.job;
    if j in s.complete && j !in s.finished {
      var w: nat :| Busy(s, w, j);
      assert Enabled(s, NotifyComplete(w));
      InvStep(s, NotifyComplete(w));
      assert Enabled(Next(s, NotifyComplete(w)), TakeToken);
    }
  }

  /** Every job the master has collected and no longer waits for is complete. */
  lemma CollectedComplete(s: State)
    requires Reachable(s) && !s.master.Collected? && !s.master.WaitingJob?
    ensures forall j :: j in s.collected ==> j in s.complete
  {
    ReachableInv(s);
  }

  /** js_wait_all_jobs leaving where it saw both queues empty under the lock: all jobs are complete. */
  lemma WaitAllFirstExit(s: State)
    requires Reachable(s) && Enabled(s, WaitAllCheck) && Next(s, WaitAllCheck).master.Idle? && s.lost == []
    ensures forall j :: j in s.submitted ==> j in s.complete
  {
    ReachableInv(s);
    assert s.collected + [] + [] == s.collected;
  }

  /** Leaving where it read the waiting queue without the lock: what can be outstanding is what entered the
      running queue since it looked there. When the call can get here at all with a job outstanding is
      `WaitAllReturnsEarlyIff` in `SchedulerCalls`. */
  lemma WaitAllSecondExit(s: State)
    requires Reachable(s) && Enabled(s, WaitAllTest) && Next(s, WaitAllTest).master.Idle? && s.lost == []
    ensures (forall j :: j in s.submitted ==> j in s.complete) <==> (forall j :: j in s.sh.running ==> j in s.complete)
  {
    ReachableInv(s);
    assert s.master == Collected(None);
    assert s.submitted == s.collected + s.sh.running + [];
  }

  /** It does leave there with a job still running. */
  lemma SecondExitCanMissAJob() returns (s: State)
    ensures Reachable(s) && !s.early && s.lost == [] && Enabled(s, WaitAllTest) && Next(s, WaitAllTest).master.Idle?
    ensures s.submitted == [7] && 7 !in s.complete
  {
    s := OneJobQueued();
    ReachableStep(s, ExecuteAll); s := Next(s, ExecuteAll);
    s := MasterFindsNothingRunning(s);
    s := WorkerTakesIt(s);
  }

  lemma MasterFindsNothingRunning(r: State) returns (s: State)
    requires Reachable(r) && r.master == Idle && !r.leaked
    requires r.sh == Shared(1, 1, 1, true, false, [7], [])
    ensures Reachable(s) && s == r.(master := Collected(None))
  {
    s := r;
    ReachableStep(s, StartWaitAll); s := Next(s, StartWaitAll);
    assert s.master == WaitAll && s.sh == Shared(1, 1, 1, true, false, [7], []);
    ReachableStep(s, WaitAllCheck); s := Next(s, WaitAllCheck);
    ReachableStep(s, WaitAllCollect); s := Next(s, WaitAllCollect);
  }

  lemma WorkerTakesIt(s: State) returns (t: State)
    requires Reachable(s) && s.master == Collected(None) && !s.leaked && s.lost == []
    requires s.sh == Shared(1, 1, 1, true, false, [7], []) && s.workers == [Worker.Waiting]
    ensures Reachable(t) && t.early == s.early && t.lost == [] && t.master == s.master && t.sh.waiting == []
    ensures t.submitted == s.submitted && t.complete == s.complete
  {
    assert s.sh.waiting[1..] == [] && s.sh.running + [7] == [7];
    assert WorkerTurn(s.sh, true) == (Shared(1, 1, 0, true, false, [], [7]), Takes(7));
    ReachableStep(s, WorkerSection(0));
    t := Next(s, WorkerSection(0));
  }

  /** One worker, waiting, and one job, submitted between cycles. */
  lemma OneJobQueued() returns (s: State)
    ensures Reachable(s) && !s.early && !s.leaked && s.workers == [Worker.Waiting] && s.master == Idle
    ensures s.sh == Shared(1, 1, 1, false, false, [7], []) && s.submitted == [7] && s.lost == [] && s.complete == {}
  {
    s := OneWorkerWaiting();
    ReachableStep(s, Submit(7, false)); s := Next(s, Submit(7, false));
    ReachableStep(s, SubmitTest); s := Next(s, SubmitTest);
    ReachableStep(s, SubmitUnlocked); s := Next(s, SubmitUnlocked);
  }

  lemma OneWorkerWaiting() returns (s: State)
    ensures Reachable(s) && !s.early && !s.leaked && s.workers == [Worker.Waiting] && s.master == Idle
    ensures s.sh == Shared(1, 1, 1, false, false, [], []) && s.submitted == [] && s.lost == [] && s.complete == {}
    ensures s.posts == 1
  {
    s := Init(1, 1);
    assert Legal(s, []) && End(s, []) == s;
    assert Reachable(s);
    ReachableStep(s, CreateThread); s := Next(s, CreateThread);
    assert s.workers == [AtLock];
    ReachableStep(s, WorkerSection(0)); s := Next(s, WorkerSection(0));
    ReachableStep(s, EnterBarrier); s := Next(s, EnterBarrier);
  }

  // ---------- shutdown ----------

  /** In every run, once a worker has exited the waiting queue is empty and stays so. */
  lemma ExitedMeansDrained(s: State, w: nat, run: seq<Action>)
    requires Reachable(s) && w < |s.workers| && s.workers[w].Exited? && Legal(s, run)
    ensures s.sh.exit && s.sh.waiting == [] && End(s, run).sh.waiting == [] && End(s, run).submitted == s.submitted
  {
    ReachableInv(s);
    DrainedRun(s, run);
  }

  lemma {:induction false} DrainedRun(s: State, run: seq<Action>)
    requires Inv(s) && s.sh.exit && s.sh.waiting == [] && Legal(s, run)
    ensures End(s, run).sh.waiting == [] && End(s, run).submitted == s.submitted
    decreases |run|
  {
    if run != [] {
      InvStep(s, run[0]);
      DrainedRun(Next(s, run[0]), run[1..]);
    }
  }

  /** Once all workers have exited, every submitted job has started, completed and been announced, each
      exactly once. */
  lemma ShutdownDrains(s: State)
    requires Reachable(s) && forall w: nat :: w < |s.workers| ==> s.workers[w].Exited?
    ensures s.started == s.submitted
    ensures forall j :: j in s.submitted <==> j in s.finished
    ensures Distinct(s.finished) && |s.finished| == |s.submitted|
    ensures forall j :: j in s.submitted ==> j in s.complete
  {
    ReachableInv(s);
    assert s.workers[0].Exited?;
    assert s.started + [] == s.started;
    forall j | j in s.submitted ensures j in s.complete && j in s.finished {
      assert forall w: nat :: !Busy(s, w, j);
    }
    SameMembersSameLength(s.finished, s.submitted);
  }

  lemma SameMembersSameLength(a: seq<Job>, b: seq<Job>)
    requires Distinct(a) && Distinct(b) && forall j :: j in a <==> j in b
    ensures |a| == |b|
  {
    DistinctCard(a);
    DistinctCard(b);
    assert Members(a) == Members(b);
  }

  function Members(a: seq<Job>): set<Job> { set j | j in a }

  lemma {:induction false} DistinctCard(a: seq<Job>)
    requires Distinct(a)
    ensures |Members(a)| == |a|
  {
    if a != [] {
      var n := |a| - 1;
      DistinctCard(a[..n]);
      assert Members(a) == Members(a[..n]) + {a[n]};
    }
  }

  /** js_join_threads parks at the start-up barrier exactly when it has had no more posts than threads. A
      worker posts each time it goes to wait. */
  lemma JoinWaitsIff(s: State)
    requires Reachable(s) && Enabled(s, EnterJoin)
    ensures Next(s, EnterJoin).master.JoinBarrier? <==> s.posts == s.sh.threads
  {
    ReachableInv(s);
  }
}
