/** struct job_scheduler of src/job_scheduler.c: the sections its threads run with the mutex held, each
    tied to the step it is in `SchedulerModel`. */
module Scheduler {
  import opened Wrappers
  import opened SchedulerModel
  import Queue

  class Scheduler {
    const executionThreads: nat
    const waitingQueue: Queue.Queue<Job>
    const runningQueue: Queue.Queue<Job>
    var working: bool
    var exit: bool
    var ready: int

    ghost const Repr: set<object>

    ghost predicate Valid()
      reads this, Repr
    {
      && Repr == {this, waitingQueue, waitingQueue.buffer, runningQueue, runningQueue.buffer}
      && waitingQueue != runningQueue && waitingQueue.buffer != runningQueue.buffer
      && waitingQueue.Valid() && runningQueue.Valid()
      && waitingQueue.buffer.Length == runningQueue.buffer.Length
    }

    /** The fields as the model has them. */
    ghost function Abs(): Shared
      requires Valid()
      reads this, Repr
    {
      Shared(executionThreads, waitingQueue.buffer.Length, ready, working, exit,
             waitingQueue.Contents(), runningQueue.Contents())
    }

    constructor (executionThreads: nat, queueSize: nat)
      requires executionThreads > 0
      ensures Valid() && fresh(Repr) && Abs() == Init(executionThreads, queueSize).sh
    {
      this.executionThreads := executionThreads;
      var w := new Queue.Queue<Job>(queueSize, 0);
      var r := new Queue.Queue<Job>(queueSize, 0);
      waitingQueue, runningQueue := w, r;
      working, exit, ready := false, false, 0;
      Repr := {this, w, w.buffer, r, r.buffer};
    }

    /** A worker's turn, from LOCK_ or from waking in WAIT_. */
    method WorkerSection(woken: bool) returns (v: Verdict)
      requires Valid()
      modifies Repr
      ensures Valid() && Abs() == WorkerTurn(old(Abs()), woken).0
      ensures v == WorkerTurn(old(Abs()), woken).1
    {
      if woken {
        ready := ready - 1;
      }
      if (!working && !exit) || (waitingQueue.IsEmpty() && !exit) {
        ready := ready + 1;
        if ready == executionThreads {
          working := false;
        }
        return Waits;
      }
      if exit && waitingQueue.IsEmpty() {
        return Exits;
      }
      var ok, job := waitingQueue.QueueDequeue(0);
      assert old(waitingQueue.Contents())[1..] == waitingQueue.Contents();
      var _ := runningQueue.QueueEnqueue(job);
      return Takes(job);
    }

    /** The enqueue of js_submit_job, with or without the mutex. */
    method SubmitJob(job: Job) returns (ok: bool)
      requires Valid()
      modifies Repr
      ensures Valid() && Abs() == Enqueued(old(Abs()), job) && ok == (|old(Abs()).waiting| < old(Abs()).cap)
    {
      ok := waitingQueue.QueueEnqueue(job);
    }

    /** js_execute_all_jobs; `unlocked` is false on the path that returns with the mutex held. */
    method ExecuteAllJobs() returns (started: bool, unlocked: bool)
      requires Valid()
      modifies Repr
      ensures Valid()
      ensures started <==> !old(working) && old(ready) == executionThreads
      ensures unlocked <==> old(working) || old(ready) == executionThreads
      ensures Abs() == old(Abs()).(working := old(working) || started)
    {
      if working {
        return false, true;
      } else if ready == executionThreads {
        working := true;
        return true, true;
      }
      return false, false;
    }

    /** The second locked section of js_wait_all_jobs. */
    method Collect() returns (job: Option<Job>)
      requires Valid()
      modifies Repr
      ensures Valid() && job.Some? == (old(Abs()).running != [])
      ensures job.Some? ==> [job.value] + Abs().running == old(Abs()).running
      ensures Abs() == old(Abs()).(running := Abs().running) && (job.None? ==> Abs().running == [])
    {
      var ok, j := runningQueue.QueueDequeue(0);
      job := if ok then Some(j) else None;
    }

    /** The locked section of js_join_threads. */
    method SetExit()
      requires Valid()
      modifies Repr
      ensures Valid() && Abs() == old(Abs()).(exit := true, working := false)
    {
      exit := true;
      working := false;
    }
  }
}
