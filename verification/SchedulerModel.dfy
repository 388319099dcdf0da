/** The job scheduler of src/job_scheduler.c as a transition system: any number of workers and one
    master thread. Each section a thread runs while it holds the scheduler's mutex is one step. */
module SchedulerModel {
  import opened Wrappers
  import Semaphore

  type Job = nat

  /** The fields the mutex protects; cap is the capacity of both queues. */
  datatype Shared = Shared(threads: nat, cap: nat, ready: int, working: bool, exit: bool,
                           waiting: seq<Job>, running: seq<Job>)

  /** How a worker's turn with the mutex ends: in WAIT_, by exiting, or with a job to run. */
  datatype Verdict = Waits | Exits | Takes(job: Job)

  /** One turn of `thread` with the mutex held, from LOCK_ or from waking in WAIT_ up to the next WAIT_,
      exit, or routine. */
  function WorkerTurn(sh: Shared, woken: bool): (Shared, Verdict) {
    var ready := if woken then sh.ready - 1 else sh.ready;
    if (!sh.working && !sh.exit) || (|sh.waiting| == 0 && !sh.exit) then
      (sh.(ready := ready + 1, working := sh.working && ready + 1 != sh.threads), Waits)
    else if |sh.waiting| == 0 then
      (sh.(ready := ready), Exits)
    else
      var job := sh.waiting[0];
      (sh.(ready := ready, waiting := sh.waiting[1..],
           running := if |sh.running| < sh.cap then sh.running + [job] else sh.running), Takes(job))
  }

  function Enqueued(sh: Shared, job: Job): Shared {
    if |sh.waiting| < sh.cap then sh.(waiting := sh.waiting + [job]) else sh
  }

  datatype Worker = Unborn | AtLock | Waiting | Running(job: Job) | Finished(job: Job) | Exited

  /** Where the master is. `all` marks a js_wait_job called by js_wait_all_jobs. */
  datatype Master =
    | Creating(made: nat)                    // js_create, threads made so far
    | AtBarrier                              // js_create, in sem_wait_
    | Idle                                   // between calls
    | Submitting(job: Job)                   // js_submit_job, before or in the wait for a ready worker
    | Stuck(job: Job)                        // js_submit_job, in the full queue's condition, mutex held
    | Testing(job: Job)                      // js_submit_job, before queue_is_full, no lock held
    | Enqueueing(job: Job)                   // js_submit_job, after it, no lock held
    | WaitingJob(job: Job, all: bool)        // js_wait_job, in sem_wait
    | WaitAll                                // js_wait_all_jobs, loop head
    | Collecting                             // js_wait_all_jobs, between its two locked sections
    | Collected(picked: Option<Job>)         // js_wait_all_jobs, after queue_dequeue
    | JoinBarrier                            // js_join_threads, in sem_wait_
    | SettingExit                            // js_join_threads, before LOCK_
    | Joining(joined: nat)                   // js_join_threads, threads joined so far

  /** `leaked`: js_execute_all_jobs has returned without unlocking. The last group is history. */
  datatype State = State(
    sh: Shared, workers: seq<Worker>, master: Master, leaked: bool, barrier: Semaphore.Sem,
    complete: set<Job>, tokens: multiset<Job>,
    submitted: seq<Job>, started: seq<Job>, finished: seq<Job>, collected: seq<Job>, lost: seq<Job>,
    posts: nat, early: bool)

  function Init(threads: nat, cap: nat): State {
    State(Shared(threads, cap, 0, false, false, [], []), seq(threads, _ => Unborn), Creating(0), false,
          Semaphore.Init(1 - threads), {}, multiset{}, [], [], [], [], [], 0, false)
  }

  datatype Action =
    | CreateThread | EnterBarrier | PassBarrier
    | WorkerSection(w: nat) | RoutineEnds(w: nat) | NotifyComplete(w: nat)
    | Submit(job: Job, force: bool) | SubmitLocked | SubmitTest | SubmitUnlocked
    | ExecuteAll | WaitJob(job: Job) | TakeToken
    | StartWaitAll | WaitAllCheck | WaitAllCollect | WaitAllTest
    | EnterJoin | PassJoin | SetExit | JoinThread

  predicate MutexFree(s: State) { !s.leaked && !s.master.Stuck? }

  predicate Starting(s: State) { s.master.Creating? || s.master.AtBarrier? }

  predicate Enabled(s: State, a: Action) {
    match a
    case CreateThread => s.master.Creating? && s.master.made < |s.workers|
    case EnterBarrier => s.master.Creating? && s.master.made == |s.workers|
    case PassBarrier => s.master.AtBarrier? && s.barrier.parked && s.barrier.signalled
    case WorkerSection(w) => w < |s.workers| && (s.workers[w].AtLock? || s.workers[w].Waiting?) && MutexFree(s)
    case RoutineEnds(w) => w < |s.workers| && s.workers[w].Running?
    case NotifyComplete(w) => w < |s.workers| && s.workers[w].Finished?
    case Submit(j, force) => s.master.Idle? && MutexFree(s) && j !in s.submitted
    case SubmitLocked => s.master.Submitting? && MutexFree(s)
    case SubmitTest => s.master.Testing?
    case SubmitUnlocked => s.master.Enqueueing?
    case ExecuteAll => s.master.Idle? && MutexFree(s)
    case WaitJob(j) => s.master.Idle? && MutexFree(s)
    case TakeToken => s.master.WaitingJob? && s.tokens[s.master.job] > 0
    case StartWaitAll => s.master.Idle?
    case WaitAllCheck => s.master.WaitAll? && MutexFree(s)
    case WaitAllCollect => s.master.Collecting? && MutexFree(s)
    case WaitAllTest => s.master.Collected? && (s.master.picked.Some? ==> MutexFree(s))
    case EnterJoin => s.master.Idle?
    case PassJoin => s.master.JoinBarrier? && s.barrier.parked && s.barrier.signalled
    case SetExit => s.master.SettingExit? && MutexFree(s)
    case JoinThread => s.master.Joining? && s.master.joined < |s.workers| && s.workers[s.master.joined].Exited?
  }

  /** A worker's turn: what it decides, and the post it makes before it waits. */
  function AfterTurn(s: State, w: nat): State
    requires w < |s.workers|
  {
    var woken := s.workers[w].Waiting?;
    var (sh, verdict) := WorkerTurn(s.sh, woken);
    match verdict
    case Waits =>
      s.(sh := sh, workers := s.workers[w := Waiting], barrier := Semaphore.Post(s.barrier), posts := s.posts + 1,
         early := s.early || (woken && Starting(s)))
    case Exits =>
      s.(sh := sh, workers := s.workers[w := Exited])
    case Takes(j) =>
      s.(sh := sh, workers := s.workers[w := Running(j)], started := s.started + [j],
         lost := if |s.sh.running| < s.sh.cap then s.lost else s.lost + [j])
  }

  function Submitted(s: State, j: Job): State {
    s.(sh := Enqueued(s.sh, j), master := Idle,
       submitted := if |s.sh.waiting| < s.sh.cap then s.submitted + [j] else s.submitted)
  }

  function AfterWait(s: State, j: Job, all: bool): State {
    s.(master := if j !in s.complete then WaitingJob(j, all) else if all then WaitAll else Idle)
  }

  function Next(s: State, a: Action): State
    requires Enabled(s, a)
  {
    match a
    case CreateThread =>
      s.(workers := s.workers[s.master.made := AtLock], master := Creating(s.master.made + 1))
    case EnterBarrier =>
      var b := Semaphore.Wait(s.barrier);
      s.(barrier := b, master := if b.parked then AtBarrier else Idle)
    case PassBarrier =>
      var b := Semaphore.Wake(s.barrier);
      s.(barrier := b, master := if b.parked then AtBarrier else Idle)
    case WorkerSection(w) => AfterTurn(s, w)
    case RoutineEnds(w) =>
      s.(workers := s.workers[w := Finished(s.workers[w].job)], complete := s.complete + {s.workers[w].job})
    case NotifyComplete(w) =>
      var j := s.workers[w].job;
      s.(workers := s.workers[w := AtLock], tokens := s.tokens[j := s.tokens[j] + 1], finished := s.finished + [j])
    case Submit(j, force) =>
      s.(master := if s.sh.working || force then Submitting(j) else Testing(j))
    case SubmitLocked =>
      if s.sh.ready == 0 then s
      else if |s.sh.waiting| < s.sh.cap then Submitted(s, s.master.job)
      else s.(master := Stuck(s.master.job))
    case SubmitTest =>
      s.(master := if |s.sh.waiting| == s.sh.cap then Idle else Enqueueing(s.master.job))
    case SubmitUnlocked => Submitted(s, s.master.job)
    case ExecuteAll =>
      if s.sh.working then s
      else if s.sh.ready == s.sh.threads then s.(sh := s.sh.(working := true))
      else s.(leaked := true)
    case WaitJob(j) => AfterWait(s, j, false)
    case TakeToken =>
      var j := s.master.job;
      s.(tokens := s.tokens[j := s.tokens[j] - 1], master := if s.master.all then WaitAll else Idle)
    case StartWaitAll => s.(master := WaitAll)
    case WaitAllCheck =>
      s.(master := if |s.sh.waiting| == 0 && |s.sh.running| == 0 then Idle else Collecting)
    case WaitAllCollect =>
      if |s.sh.running| > 0
      then s.(master := Collected(Some(s.sh.running[0])), sh := s.sh.(running := s.sh.running[1..]),
              collected := s.collected + [s.sh.running[0]])
      else s.(master := Collected(None))
    case WaitAllTest =>
      if s.master.picked.Some? then AfterWait(s, s.master.picked.value, true)
      else s.(master := if |s.sh.waiting| == 0 then Idle else WaitAll)
    case EnterJoin =>
      var b := Semaphore.Wait(s.barrier);
      s.(barrier := b, master := if b.parked then JoinBarrier else SettingExit)
    case PassJoin =>
      var b := Semaphore.Wake(s.barrier);
      s.(barrier := b, master := if b.parked then JoinBarrier else SettingExit)
    case SetExit => s.(sh := s.sh.(exit := true, working := false), master := Joining(0))
    case JoinThread => s.(master := Joining(s.master.joined + 1))
  }

  // ---------- runs ----------

  predicate Legal(s: State, run: seq<Action>)
    decreases |run|
  {
    run == [] || (Enabled(s, run[0]) && Legal(Next(s, run[0]), run[1..]))
  }

  function End(s: State, run: seq<Action>): State
    requires Legal(s, run)
    decreases |run|
  {
    if run == [] then s else End(Next(s, run[0]), run[1..])
  }

  /** Some run of a scheduler with that many threads and that capacity ends in s. */
  ghost predicate Reachable(s: State) {
    exists threads: nat, cap: nat, run: seq<Action> ::
      threads > 0 && Legal(Init(threads, cap), run) && End(Init(threads, cap), run) == s
  }
}
