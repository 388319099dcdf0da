/** What a call of the master can come to, over every continuation: when js_wait_all_jobs can return too
    early, when a submission can succeed, and when it can hang. */
module SchedulerCalls {
  import opened Collections
  import opened Wrappers
  import opened SchedulerModel
  import opened SchedulerInvariant
  import opened SchedulerTheorems
  import opened SchedulerProgress

  // ---------- continuations of a call ----------

  /** The master is inside its call in every state of the run, the last one included. */
  ghost predicate Within(s: State, run: seq<Action>)
    requires Legal(s, run)
    decreases |run|
  {
    !s.master.Idle? && (run == [] || Within(Next(s, run[0]), run[1..]))
  }

  /** The run ends where the call returns. */
  ghost predicate Returns(s: State, run: seq<Action>)
    requires Legal(s, run)
    decreases |run|
  {
    if s.master.Idle? then run == [] else run != [] && Returns(Next(s, run[0]), run[1..])
  }

  /** t can come about before the call s is in returns. */
  ghost predicate Reaches(s: State, t: State) {
    exists run :: Legal(s, run) && Within(s, run) && End(s, run) == t
  }

  /** The call s is in can return in t. */
  ghost predicate ReturnsIn(s: State, t: State) {
    exists run :: Legal(s, run) && Returns(s, run) && End(s, run) == t
  }

  lemma ReachesItself(s: State)
    requires !s.master.Idle?
    ensures Reaches(s, s)
  {
    assert Legal(s, []) && Within(s, []) && End(s, []) == s;
  }

  lemma {:induction false} WithinThen(s: State, run: seq<Action>, a: Action)
    requires Legal(s, run) && Within(s, run) && Enabled(End(s, run), a)
    ensures Legal(s, run + [a]) && End(s, run + [a]) == Next(End(s, run), a)
    ensures if End(s, run + [a]).master.Idle? then Returns(s, run + [a]) else Within(s, run + [a])
    decreases |run|
  {
    if run == [] {
      assert run + [a] == [a] && [a][1..] == [];
    } else {
      assert (run + [a])[1..] == run[1..] + [a];
      WithinThen(Next(s, run[0]), run[1..], a);
    }
  }

  /** One step further. */
  lemma Onward(s: State, t: State, a: Action)
    requires Reaches(s, t) && Enabled(t, a)
    ensures if Next(t, a).master.Idle? then ReturnsIn(s, Next(t, a)) else Reaches(s, Next(t, a))
  {
    var run :| Legal(s, run) && Within(s, run) && End(s, run) == t;
    WithinThen(s, run, a);
  }

  /** The workers go on meanwhile. */
  lemma Meanwhile(s: State, t: State, u: State)
    requires Reaches(s, t) && ByWorkers(t, u)
    ensures Reaches(s, u) && !t.master.Idle?
  {
    var run :| Legal(s, run) && Within(s, run) && End(s, run) == t;
    WithinEnds(s, run);
    var rest :| OnlyWorkers(rest) && Legal(t, rest) && End(t, rest) == u;
    MeanwhileRun(s, t, rest);
  }

  lemma {:induction false} WithinEnds(s: State, run: seq<Action>)
    requires Legal(s, run) && Within(s, run)
    ensures !End(s, run).master.Idle?
    decreases |run|
  {
    if run != [] { WithinEnds(Next(s, run[0]), run[1..]); }
  }

  lemma {:induction false} MeanwhileRun(s: State, t: State, run: seq<Action>)
    requires Reaches(s, t) && !t.master.Idle? && OnlyWorkers(run) && Legal(t, run)
    ensures Reaches(s, End(t, run))
    decreases |run|
  {
    if run != [] {
      Onward(s, t, run[0]);
      MeanwhileRun(s, Next(t, run[0]), run[1..]);
    }
  }

  /** A state of a call in which workers can still take jobs. */
  ghost predicate Open(s: State) { AtWork(s) && !s.master.Idle? }

  /** Some job submitted is not complete. */
  ghost predicate Missing(s: State) {
    exists j :: j in s.submitted && j !in s.complete
  }

  /** In a cycle the workers can take all waiting jobs and keep the last of them, while the call goes on. */
  lemma AllTaken(s: State, t: State) returns (u: State)
    requires Open(t) && Reaches(s, t) && t.sh.working
    ensures Open(u) && Reaches(s, u) && SameCall(t, u) && u.sh.working && u.sh.waiting == [] && u.started == u.submitted
    ensures t.sh.waiting != [] ==> Missing(u)
  {
    Nothing(t);
    u := TakeAll(t, t);
    Meanwhile(s, t, u);
  }

  /** With nothing to take, a worker goes to wait, while the call goes on. */
  lemma OneGoesToWait(s: State, t: State) returns (u: State)
    requires Open(t) && Reaches(s, t) && (!t.sh.working || t.sh.waiting == [])
    ensures Open(u) && Reaches(s, u) && SameCall(t, u) && u.sh.ready != 0 && u.sh.waiting == t.sh.waiting
  {
    Nothing(t);
    u := GoToWait(t, t, 0);
    Meanwhile(s, t, u);
  }

  // ---------- js_wait_job ----------

  /** The call s is in can return. */
  ghost predicate CanReturn(s: State) {
    exists t :: ReturnsIn(s, t)
  }

  /** js_wait_job returns only when the job is complete. */
  lemma WaitJobWaits(s: State, j: Job, t: State)
    requires Reachable(s) && Enabled(s, WaitJob(j)) && ReturnsIn(Next(s, WaitJob(j)), t)
    ensures j in t.complete
  {
    ReachableInv(s);
    InvStep(s, WaitJob(j));
    var u := Next(s, WaitJob(j));
    var run :| Legal(u, run) && Returns(u, run) && End(u, run) == t;
    if j !in s.complete { WaitedRun(u, run, j); }
  }

  lemma {:induction false} WaitedRun(s: State, run: seq<Action>, j: Job)
    requires Inv(s) && s.master == WaitingJob(j, false) && Legal(s, run) && Returns(s, run)
    ensures j in End(s, run).complete
    decreases |run|
  {
    InvStep(s, run[0]);
    if !Next(s, run[0]).master.Idle? { WaitedRun(Next(s, run[0]), run[1..], j); }
  }

  /** The job has been started, or a cycle is on in which it will be. */
  ghost predicate Coming(s: State, j: Job) {
    j in s.started || (j in s.sh.waiting && s.sh.working)
  }

  /** Inside js_wait_job, the master not holding what the workers need. */
  ghost predicate Waiting(s: State, j: Job) {
    Inv(s) && !Starting(s) && !s.sh.exit && MutexFree(s) && s.master == WaitingJob(j, false)
  }

  /** The job stays coming, or not coming, until the call returns; and it returns only if it is. */
  lemma WaitingStep(s: State, j: Job, a: Action)
    requires Waiting(s, j) && Enabled(s, a)
    ensures if Next(s, a).master.Idle? then Coming(s, j)
      else Waiting(Next(s, a), j) && (Coming(s, j) <==> Coming(Next(s, a), j))
  {
    var t := Next(s, a);
    InvStep(s, a);
    if a.WorkerSection? {
      CountAll(t.workers);
      assert j in s.sh.waiting ==> j == s.sh.waiting[0] || j in s.sh.waiting[1..];
    }
  }

  lemma {:induction false} WaitingReturns(s: State, j: Job, run: seq<Action>)
    requires Waiting(s, j) && Legal(s, run) && Returns(s, run)
    ensures Coming(s, j)
    decreases |run|
  {
    hide Waiting, Coming;
    WaitingOnly(s, j);
    WaitingStep(s, j, run[0]);
    if !Next(s, run[0]).master.Idle? { WaitingReturns(Next(s, run[0]), j, run[1..]); }
  }

  lemma {:induction false} WaitingOn(s: State, j: Job, run: seq<Action>)
    requires Waiting(s, j) && Coming(s, j) && Legal(s, run) && Within(s, run)
    ensures Waiting(End(s, run), j) && Coming(End(s, run), j)
    decreases |run|
  {
    hide Waiting, Coming;
    if run != [] {
      WaitingStep(s, j, run[0]);
      assert Within(Next(s, run[0]), run[1..]);
      WaitingOn(Next(s, run[0]), j, run[1..]);
    }
  }

  lemma WaitingOnly(s: State, j: Job)
    requires Waiting(s, j)
    ensures !s.master.Idle?
  {
  }

  /** A job the master waits for is finished by its worker, and the master goes on. */
  lemma Delivered(s: State, t: State, j: Job) returns (u: State)
    requires AtWork(t) && Reaches(s, t) && t.master.WaitingJob? && t.master.job == j && j in t.started
    ensures AtWork(u) && Reaches(s, u) && u.master == t.master && u.sh == t.sh && u.tokens[j] > 0
  {
    u := t;
    if j !in t.finished {
      var w: nat :| Busy(t, w, j);
      Nothing(t);
      u := FreeWorker(t, t, w);
      FreeAnnounces(t, w, j, u);
      Meanwhile(s, t, u);
    }
  }

  /** A worker that has let go of a job has announced it. */
  lemma FreeAnnounces(t: State, w: nat, j: Job, u: State)
    requires Inv(t) && Busy(t, w, j) && Inv(u) && u.workers == t.workers[w := AtLock] && j in u.started
    ensures u.master.WaitingJob? && u.master.job == j ==> u.tokens[j] > 0
  {
    assert forall v: nat :: v != w ==> (Busy(u, v, j) <==> Busy(t, v, j));
    assert !Busy(u, w, j);
    assert forall v: nat :: !Busy(u, v, j);
  }

  /** js_wait_job can return if and only if the job has been started or a cycle is on in which it waits. */
  lemma WaitJobReturnsIff(s: State, j: Job)
    requires Reachable(s) && Enabled(s, WaitJob(j))
    ensures CanReturn(Next(s, WaitJob(j))) <==> Coming(s, j)
  {
    ReachableInv(s);
    InvStep(s, WaitJob(j));
    var t := Next(s, WaitJob(j));
    if j in s.complete {
      assert Legal(t, []) && Returns(t, []) && End(t, []) == t;
      assert ReturnsIn(t, t);
    } else if Coming(s, j) {
      ReachesItself(t);
      ReturnsStill(t, t, j);
    } else {
      forall u ensures !ReturnsIn(t, u) {
        if ReturnsIn(t, u) {
          var run :| Legal(t, run) && Returns(t, run) && End(t, run) == u;
          WaitingReturns(t, j, run);
        }
      }
    }
  }

  /** And then it can return from wherever it has come to. */
  lemma WaitJobNeverBlocked(s: State, j: Job, t: State)
    requires Reachable(s) && Enabled(s, WaitJob(j)) && Coming(s, j) && Reaches(Next(s, WaitJob(j)), t)
    ensures CanReturn(t)
  {
    ReachableInv(s);
    InvStep(s, WaitJob(j));
    var u := Next(s, WaitJob(j));
    var run :| Legal(u, run) && Within(u, run) && End(u, run) == t;
    WaitingOn(u, j, run);
    ReachesItself(t);
    ReturnsStill(t, t, j);
  }

  lemma ReturnsStill(s: State, t: State, j: Job)
    requires Reaches(s, t) && Waiting(t, j) && Coming(t, j)
    ensures CanReturn(s)
  {
    var u := t;
    if j !in t.started {
      u := AllTaken(s, t);
    }
    u := Delivered(s, u, j);
    Onward(s, u, TakeToken);
  }

  // ---------- js_wait_all_jobs ----------

  /** js_wait_all_jobs can return while a job submitted before is not complete. */
  ghost predicate CanReturnEarly(s: State) {
    exists t :: ReturnsIn(s, t) && Missing(t)
  }

  /** Inside js_wait_all_jobs, with nothing that a worker could start. */
  ghost predicate Calm(s: State) {
    && Inv(s) && !Starting(s) && !s.sh.exit && s.lost == [] && (s.sh.waiting == [] || !s.sh.working)
    && (s.master.WaitAll? || s.master.Collecting? || s.master.Collected? || (s.master.WaitingJob? && s.master.all))
    && (s.master == Collected(None) ==> s.sh.running == [])
  }

  /** It stays so until the call returns, and then every job is complete. */
  lemma CalmStep(s: State, a: Action)
    requires Calm(s) && Enabled(s, a)
    ensures Calm(Next(s, a)) || (Next(s, a).master.Idle? && !Missing(Next(s, a)))
  {
    var t := Next(s, a);
    InvStep(s, a);
    if t.master.Idle? {
      assert s.sh.running == [] && s.sh.waiting == [];
      assert s.collected + [] == s.collected && s.started + [] == s.started;
    }
  }

  lemma {:induction false} CalmRun(s: State, run: seq<Action>)
    requires Calm(s) && Legal(s, run) && Returns(s, run)
    ensures !Missing(End(s, run))
    decreases |run|
  {
    CalmStep(s, run[0]);
    if !Next(s, run[0]).master.Idle? { CalmRun(Next(s, run[0]), run[1..]); }
  }

  /** The jobs in the running queue are waited for and collected, while others keep waiting. */
  lemma {:induction false} CollectAll(s: State, t: State) returns (u: State)
    requires Open(t) && Reaches(s, t) && t.master.WaitAll? && t.sh.working && t.sh.waiting != []
    ensures Open(u) && Reaches(s, u) && u.master == Collected(None) && u.sh.working && u.sh.waiting == t.sh.waiting
    decreases |t.sh.running|
  {
    InvStep(t, WaitAllCheck);
    Onward(s, t, WaitAllCheck);
    u := Next(t, WaitAllCheck);
    InvStep(u, WaitAllCollect);
    Onward(s, u, WaitAllCollect);
    u := Next(u, WaitAllCollect);
    if t.sh.running != [] {
      u := WaitForCollected(s, u);
      u := CollectAll(s, u);
    }
  }

  lemma OpenStep(s: State, t: State, a: Action)
    requires Open(t) && Reaches(s, t) && Enabled(t, a)
    requires !Next(t, a).master.Idle? && !Next(t, a).sh.exit && MutexFree(Next(t, a)) && !Starting(Next(t, a))
    ensures Open(Next(t, a)) && Reaches(s, Next(t, a))
  {
    InvStep(t, a);
    Onward(s, t, a);
  }

  /** The master waits for the job it has collected and goes on. */
  lemma WaitForCollected(s: State, t: State) returns (u: State)
    requires Open(t) && Reaches(s, t) && t.master.Collected? && t.master.picked.Some?
    requires t.master.picked.value in t.collected
    ensures Open(u) && Reaches(s, u) && u.master.WaitAll? && u.sh == t.sh
  {
    var j := t.master.picked.value;
    assert j in t.started;
    OpenStep(s, t, WaitAllTest);
    u := Next(t, WaitAllTest);
    if j !in t.complete {
      u := Delivered(s, u, j);
      OpenStep(s, u, TakeToken);
      u := Next(u, TakeToken);
    }
  }

  /** js_wait_all_jobs, called while the running queue has never overflowed, can return with a job
      incomplete if and only if a cycle is on and jobs are waiting when it is called. */
  lemma WaitAllReturnsEarlyIff(s: State)
    requires Reachable(s) && s.master.Idle? && MutexFree(s) && s.lost == []
    ensures CanReturnEarly(Next(s, StartWaitAll)) <==> s.sh.working && s.sh.waiting != []
  {
    ReachableInv(s);
    InvStep(s, StartWaitAll);
    var t := Next(s, StartWaitAll);
    if s.sh.working && s.sh.waiting != [] {
      ReachesItself(t);
      var u := CollectAll(t, t);
      u := AllTaken(t, u);
      Onward(t, u, WaitAllTest);
      assert Missing(Next(u, WaitAllTest));
    } else {
      forall u | ReturnsIn(t, u) ensures !Missing(u) {
        var run :| Legal(t, run) && Returns(t, run) && End(t, run) == u;
        CalmRun(t, run);
      }
    }
  }

  /** With nothing left to take, the call collects what is running and returns. */
  lemma {:induction false} CollectAndReturn(s: State, t: State)
    requires Open(t) && Reaches(s, t) && t.master.WaitAll? && t.sh.waiting == []
    ensures CanReturn(s)
    decreases |t.sh.running|
  {
    Onward(s, t, WaitAllCheck);
    if t.sh.running != [] {
      var u := Next(t, WaitAllCheck);
      InvStep(t, WaitAllCheck);
      InvStep(u, WaitAllCollect);
      Onward(s, u, WaitAllCollect);
      u := WaitForCollected(s, Next(u, WaitAllCollect));
      CollectAndReturn(s, u);
    }
  }

  /** Inside js_wait_all_jobs between cycles, with jobs waiting: nobody takes them. */
  ghost predicate Spinning(s: State) {
    && Inv(s) && !Starting(s) && !s.sh.exit && !s.sh.working && s.sh.waiting != []
    && (s.master.WaitAll? || s.master.Collecting? || s.master.Collected? || (s.master.WaitingJob? && s.master.all))
  }

  lemma {:induction false} SpinningRun(s: State, run: seq<Action>)
    requires Spinning(s) && Legal(s, run)
    ensures !Returns(s, run)
    decreases |run|
  {
    if run != [] {
      InvStep(s, run[0]);
      assert Spinning(Next(s, run[0]));
      SpinningRun(Next(s, run[0]), run[1..]);
    }
  }

  /** js_wait_all_jobs can return if and only if a cycle is on or no job waits when it is called. */
  lemma WaitAllReturnsIff(s: State)
    requires Reachable(s) && s.master.Idle? && MutexFree(s)
    ensures CanReturn(Next(s, StartWaitAll)) <==> s.sh.working || s.sh.waiting == []
  {
    ReachableInv(s);
    InvStep(s, StartWaitAll);
    var t := Next(s, StartWaitAll);
    if s.sh.working || s.sh.waiting == [] {
      ReachesItself(t);
      var u := t;
      if t.sh.waiting != [] { u := AllTaken(t, t); }
      CollectAndReturn(t, u);
    } else {
      forall u ensures !ReturnsIn(t, u) {
        if ReturnsIn(t, u) {
          var run :| Legal(t, run) && Returns(t, run) && End(t, run) == u;
          SpinningRun(t, run);
        }
      }
    }
  }

  /** So the way src/logreg.c calls it, right after starting a cycle, it can return early whenever there is
      a job at all. */
  lemma WaitAllAfterExecute(s: State)
    requires Reachable(s) && Enabled(s, ExecuteAll) && s.lost == [] && !s.sh.working && s.sh.ready == s.sh.threads
    ensures CanReturnEarly(Next(Next(s, ExecuteAll), StartWaitAll)) <==> s.sh.waiting != []
  {
    ReachableStep(s, ExecuteAll);
    WaitAllReturnsEarlyIff(Next(s, ExecuteAll));
  }

  // ---------- js_submit_job ----------

  /** The submission s is in can return with its job queued. */
  ghost predicate CanQueue(s: State, j: Job) {
    exists t :: ReturnsIn(s, t) && j in t.submitted
  }

  /** It can come to wait for room with the mutex held; `FullSubmitNeverReturns`: for ever. */
  ghost predicate CanHang(s: State) {
    exists t :: Reaches(s, t) && t.master.Stuck?
  }

  /** Once a worker waits and there is room, the submission goes through. */
  lemma SubmitNow(s: State, t: State, j: Job)
    requires Reaches(s, t) && t.master == Submitting(j) && MutexFree(t) && t.sh.ready != 0 && |t.sh.waiting| < t.sh.cap
    ensures CanQueue(s, j)
  {
    Onward(s, t, SubmitLocked);
    assert j in Next(t, SubmitLocked).submitted;
  }

  lemma QueueWhenRoom(s: State, j: Job)
    requires Open(s) && s.master == Submitting(j) && (|s.sh.waiting| < s.sh.cap || (s.sh.working && s.sh.cap > 0))
    ensures CanQueue(s, j)
  {
    ReachesItself(s);
    var t := s;
    if s.sh.working { t := AllTaken(s, t); }
    t := OneGoesToWait(s, t);
    SubmitNow(s, t, j);
  }

  /** A submission that no worker can make room for. */
  ghost predicate Blocked(s: State, j: Job) {
    && Inv(s) && !Starting(s) && !s.sh.exit && |s.sh.waiting| == s.sh.cap && (!s.sh.working || s.sh.cap == 0)
    && j !in s.submitted && (s.master == Submitting(j) || s.master == Testing(j) || s.master == Stuck(j))
  }

  lemma BlockedStep(s: State, a: Action, j: Job)
    requires Blocked(s, j) && Enabled(s, a)
    ensures Blocked(Next(s, a), j) || (Next(s, a).master.Idle? && j !in Next(s, a).submitted)
  {
    InvStep(s, a);
  }

  lemma {:induction false} BlockedRun(s: State, run: seq<Action>, j: Job)
    requires Blocked(s, j) && Legal(s, run) && Returns(s, run)
    ensures j !in End(s, run).submitted
    decreases |run|
  {
    BlockedStep(s, run[0], j);
    if !Next(s, run[0]).master.Idle? { BlockedRun(Next(s, run[0]), run[1..], j); }
  }

  /** A submission can return with its job queued if and only if, when js_submit_job is called, the queue
      has room or a cycle is on whose workers can make it. */
  lemma SubmitSucceedsIff(s: State, j: Job, force: bool)
    requires Reachable(s) && Enabled(s, Submit(j, force))
    ensures CanQueue(Next(s, Submit(j, force)), j) <==> |s.sh.waiting| < s.sh.cap || (s.sh.working && s.sh.cap > 0)
  {
    ReachableInv(s);
    InvStep(s, Submit(j, force));
    var t := Next(s, Submit(j, force));
    if |s.sh.waiting| < s.sh.cap || (s.sh.working && s.sh.cap > 0) {
      if t.master.Submitting? { QueueWhenRoom(t, j); } else { QueueUnlocked(t, j); }
    } else {
      forall u | ReturnsIn(t, u) ensures j !in u.submitted {
        var run :| Legal(t, run) && Returns(t, run) && End(t, run) == u;
        BlockedRun(t, run, j);
      }
    }
  }

  lemma QueueUnlocked(s: State, j: Job)
    requires s.master == Testing(j) && |s.sh.waiting| < s.sh.cap
    ensures CanQueue(s, j)
  {
    ReachesItself(s);
    Onward(s, s, SubmitTest);
    var t := Next(s, SubmitTest);
    Onward(s, t, SubmitUnlocked);
    assert j in Next(t, SubmitUnlocked).submitted;
  }

  /** A submission that will find room before it finds a waiting worker. */
  ghost predicate Clear(s: State) {
    && Inv(s) && !Starting(s) && !s.sh.exit
    && (s.master.Testing? || s.master.Enqueueing? || s.master.Submitting?)
    && (s.master.Submitting? ==> |s.sh.waiting| < s.sh.cap || (s.sh.working && s.sh.ready == 0 && s.sh.cap > 0))
  }

  lemma ClearStep(s: State, a: Action)
    requires Clear(s) && Enabled(s, a)
    ensures Clear(Next(s, a)) || Next(s, a).master.Idle?
  {
    InvStep(s, a);
    if a.WorkerSection? && s.sh.ready == 0 && s.workers[a.w].Waiting? { OneWaits(s.workers, a.w); }
  }

  lemma {:induction false} ClearRun(s: State, run: seq<Action>)
    requires Clear(s) && Legal(s, run) && Within(s, run)
    ensures !End(s, run).master.Stuck?
    decreases |run|
  {
    if run != [] {
      ClearStep(s, run[0]);
      ClearRun(Next(s, run[0]), run[1..]);
    }
  }

  /** A submission can hang if and only if, when js_submit_job is called, it is forced or in a cycle, the
      queue is full, and a worker waits or none can take from the queue. */
  lemma SubmitHangsIff(s: State, j: Job, force: bool)
    requires Reachable(s) && Enabled(s, Submit(j, force))
    ensures CanHang(Next(s, Submit(j, force))) <==>
      (s.sh.working || force) && |s.sh.waiting| == s.sh.cap && (s.sh.ready != 0 || s.sh.cap == 0 || !s.sh.working)
  {
    ReachableInv(s);
    InvStep(s, Submit(j, force));
    var t := Next(s, Submit(j, force));
    if (s.sh.working || force) && |s.sh.waiting| == s.sh.cap && (s.sh.ready != 0 || s.sh.cap == 0 || !s.sh.working) {
      HangWhenFull(t, j);
    } else {
      forall u | Reaches(t, u) ensures !u.master.Stuck? {
        var run :| Legal(t, run) && Within(t, run) && End(t, run) == u;
        ClearRun(t, run);
      }
    }
  }

  lemma HangWhenFull(s: State, j: Job)
    requires Open(s) && s.master == Submitting(j) && |s.sh.waiting| == s.sh.cap
    requires s.sh.ready != 0 || s.sh.cap == 0 || !s.sh.working
    ensures CanHang(s)
  {
    ReachesItself(s);
    var t := s;
    if s.sh.ready == 0 { t := OneGoesToWait(s, t); }
    Onward(s, t, SubmitLocked);
  }

  /** Past the point where it has the mutex and sees a waiting worker, a submission returns with its job
      queued if and only if there is room. */
  lemma LockedSubmitIff(s: State)
    requires Reachable(s) && s.master.Submitting? && Enabled(s, SubmitLocked) && s.sh.ready != 0
    ensures CanQueue(Next(s, SubmitLocked), s.master.job) <==> |s.sh.waiting| < s.sh.cap
  {
    ReachableInv(s);
    var t, j := Next(s, SubmitLocked), s.master.job;
    if |s.sh.waiting| < s.sh.cap {
      assert Legal(t, []) && Returns(t, []) && End(t, []) == t;
      assert ReturnsIn(t, t) && j in t.submitted;
    } else {
      forall u | ReturnsIn(t, u) ensures j !in u.submitted {
        var run :| Legal(t, run) && Returns(t, run) && End(t, run) == u;
        FullSubmitNeverReturns(s, run);
      }
    }
  }

  /** One job queued and a second one forced: the call can hang, and can do nothing else. */
  lemma ForcedSubmitHangs() returns (s: State)
    ensures Reachable(s) && Enabled(s, Submit(8, true)) && s.submitted == [7] && s.lost == [] && !s.early
    ensures CanHang(Next(s, Submit(8, true))) && !CanQueue(Next(s, Submit(8, true)), 8)
  {
    s := OneJobQueued();
    SubmitHangsIff(s, 8, true);
    SubmitSucceedsIff(s, 8, true);
  }
}
