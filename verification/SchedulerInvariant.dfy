/** What every step of the scheduler keeps, in five groups. */
module SchedulerInvariant {
  import opened Collections
  import opened Wrappers
  import opened SchedulerModel
  import Semaphore

  function CountWaiting(ws: seq<Worker>): nat {
    if ws == [] then 0 else CountWaiting(ws[1..]) + if ws[0].Waiting? then 1 else 0
  }

  lemma {:induction false} CountUpdate(ws: seq<Worker>, w: nat, x: Worker)
    requires w < |ws|
    ensures CountWaiting(ws[w := x]) == CountWaiting(ws) - (if ws[w].Waiting? then 1 else 0) + (if x.Waiting? then 1 else 0)
  {
    if w == 0 {
      assert ws[w := x][1..] == ws[1..];
    } else {
      CountUpdate(ws[1..], w - 1, x);
      assert ws[w := x][1..] == ws[1..][w - 1 := x];
    }
  }

  lemma {:induction false} CountAll(ws: seq<Worker>)
    ensures CountWaiting(ws) <= |ws|
    ensures CountWaiting(ws) == |ws| <==> forall w: nat :: w < |ws| ==> ws[w].Waiting?
  {
    if ws != [] {
      CountAll(ws[1..]);
      assert forall w: nat :: 0 < w < |ws| ==> ws[w] == ws[1..][w - 1];
      if CountWaiting(ws) == |ws| {
        forall w: nat | w < |ws| ensures ws[w].Waiting? { if w > 0 { assert ws[1..][w - 1].Waiting?; } }
      } else if ws[0].Waiting? {
        var w: nat :| w < |ws| - 1 && !ws[1..][w].Waiting?;
        assert !ws[w + 1].Waiting?;
      }
    }
  }

  // ---------- threads and flags ----------

  ghost predicate Control(s: State) {
    && |s.workers| == s.sh.threads > 0
    && s.sh.ready == CountWaiting(s.workers)
    && |s.sh.waiting| <= s.sh.cap && |s.sh.running| <= s.sh.cap
    && (s.sh.exit <==> s.master.Joining?)
    && (s.sh.working ==> !s.sh.exit && !Starting(s))
    && (s.master.Creating? ==> s.master.made <= |s.workers|)
    && (forall w: nat :: w < |s.workers| ==> (s.workers[w].Unborn? <==> s.master.Creating? && w >= s.master.made))
    && (s.master.Testing? || s.master.Enqueueing? ==> !s.sh.working)
    && (s.master.Enqueueing? ==> |s.sh.waiting| < s.sh.cap)
    && (s.master.Stuck? ==> |s.sh.waiting| == s.sh.cap)
    && (forall w: nat :: w < |s.workers| && s.workers[w].Exited? ==> s.sh.exit && s.sh.waiting == [])
    && (s.master.Joining? ==> s.master.joined <= |s.workers|)
    && (s.master.Joining? ==> forall w: nat :: w < s.master.joined ==> s.workers[w].Exited?)
  }

  predicate OfWorker(a: Action) { a.WorkerSection? || a.RoutineEnds? || a.NotifyComplete? }

  lemma ControlKeptByWorker(s: State, a: Action)
    requires Control(s) && Enabled(s, a) && OfWorker(a)
    ensures Control(Next(s, a))
  {
    var t := Next(s, a);
    CountUpdate(s.workers, a.w, t.workers[a.w]);
    assert forall v: nat :: v < |s.workers| && v != a.w ==> t.workers[v] == s.workers[v];
  }

  lemma ControlKeptByMaster(s: State, a: Action)
    requires Control(s) && Enabled(s, a) && !OfWorker(a) && !a.CreateThread?
    ensures Control(Next(s, a))
  {
    assert Next(s, a).workers == s.workers;
  }

  lemma ControlKept(s: State, a: Action)
    requires Control(s) && Enabled(s, a)
    ensures Control(Next(s, a))
  {
    if OfWorker(a) {
      ControlKeptByWorker(s, a);
    } else if a.CreateThread? {
      CountUpdate(s.workers, s.master.made, AtLock);
    } else {
      ControlKeptByMaster(s, a);
    }
  }

  // ---------- the start-up barrier ----------

  ghost predicate Barrier(s: State) {
    && (s.master.Creating? ==> Semaphore.Before(s.barrier, s.sh.threads, s.posts))
    && (s.master.AtBarrier? ==> Semaphore.Parked(s.barrier, s.sh.threads, s.posts))
    && (!Starting(s) && !s.master.JoinBarrier? && !s.master.SettingExit? && !s.master.Joining?
        ==> Semaphore.Passed(s.barrier, s.sh.threads, s.posts))
    && (Starting(s) && !s.early ==> s.posts == s.sh.ready)
  }

  lemma BarrierKept(s: State, a: Action)
    requires Control(s) && Barrier(s) && Enabled(s, a)
    ensures Barrier(Next(s, a))
  {
    if a.WorkerSection? {
      BarrierKeptByTurn(s, a.w);
    } else {
      BarrierKeptByRest(s, a);
    }
  }

  lemma BarrierKeptByTurn(s: State, w: nat)
    requires Control(s) && Barrier(s) && Enabled(s, WorkerSection(w))
    ensures Barrier(AfterTurn(s, w))
  {
    Semaphore.BarrierSteps(s.barrier, s.sh.threads, s.posts);
  }

  lemma BarrierKeptByRest(s: State, a: Action)
    requires Control(s) && Barrier(s) && Enabled(s, a) && !a.WorkerSection?
    ensures Barrier(Next(s, a))
  {
    var t := Next(s, a);
    assert t.posts == s.posts && t.sh.ready == s.sh.ready && t.early == s.early && t.sh.threads == s.sh.threads;
    hide Control;
    Semaphore.BarrierSteps(s.barrier, s.sh.threads, s.posts);
  }

  // ---------- the leak ----------

  /** Between cycles every worker waits; so js_execute_all_jobs never takes its last branch. */
  ghost predicate Settled(s: State) {
    && !s.leaked
    && (!s.sh.working && !s.sh.exit && !Starting(s) ==> s.sh.ready == s.sh.threads)
  }

  lemma SettledKept(s: State, a: Action)
    requires Control(s) && Settled(s) && !Starting(s) && Enabled(s, a)
    ensures Settled(Next(s, a)) && !Starting(Next(s, a))
  {
    if a.WorkerSection? { CountAll(s.workers); }
  }

  ghost predicate NotEarly(s: State) {
    !s.early ==> Settled(s)
  }

  lemma NotEarlyKept(s: State, a: Action)
    requires Control(s) && Barrier(s) && NotEarly(s) && Enabled(s, a)
    ensures NotEarly(Next(s, a))
  {
    CountAll(s.workers);
    if !Starting(s) && !s.early { SettledKept(s, a); }
    Semaphore.BarrierSteps(s.barrier, s.sh.threads, s.posts);
  }

  // ---------- the order of jobs ----------

  ghost predicate Order(s: State) {
    && s.started + s.sh.waiting == s.submitted
    && Distinct(s.submitted)
    && (s.lost == [] ==> s.collected + s.sh.running == s.started)
    && |s.collected| + |s.sh.running| + |s.lost| == |s.started|
    && (forall j :: j in s.sh.running || j in s.collected ==> j in s.started)
    && NewJob(s)
  }

  /** The job of an unfinished js_submit_job has not been submitted before. */
  ghost predicate NewJob(s: State) {
    s.master.Submitting? || s.master.Stuck? || s.master.Testing? || s.master.Enqueueing? ==> s.master.job !in s.submitted
  }

  lemma OrderKept(s: State, a: Action)
    requires Control(s) && Order(s) && Enabled(s, a)
    ensures Order(Next(s, a))
  {
    if a.WorkerSection? {
      OrderKeptByTurn(s, a.w);
    } else if a.SubmitLocked? || a.SubmitUnlocked? {
      OrderKeptBySubmit(s, a);
    } else if a.WaitAllCollect? {
      OrderKeptByCollecting(s);
    } else {
      OrderKeptByRest(s, a);
    }
  }

  lemma OrderKeptByRest(s: State, a: Action)
    requires Order(s) && Enabled(s, a) && !a.WorkerSection? && !a.SubmitLocked? && !a.SubmitUnlocked? && !a.WaitAllCollect?
    ensures Order(Next(s, a))
  {
    JobsUntouched(s, a);
    OrderFrame(s, Next(s, a));
  }

  lemma JobsUntouched(s: State, a: Action)
    requires NewJob(s) && Enabled(s, a)
    requires !a.WorkerSection? && !a.SubmitLocked? && !a.SubmitUnlocked? && !a.WaitAllCollect?
    ensures var t := Next(s, a);
      && t.started == s.started && t.submitted == s.submitted && t.collected == s.collected && t.lost == s.lost
      && t.sh.waiting == s.sh.waiting && t.sh.running == s.sh.running && NewJob(t)
  {
  }

  lemma OrderKeptBySubmit(s: State, a: Action)
    requires Order(s) && Enabled(s, a) && (a.SubmitLocked? || a.SubmitUnlocked?)
    ensures Order(Next(s, a))
  {
    if Next(s, a).submitted != s.submitted {
      assert s.started + (s.sh.waiting + [s.master.job]) == s.submitted + [s.master.job];
    } else {
      OrderFrame(s, Next(s, a));
    }
  }

  lemma OrderFrame(s: State, t: State)
    requires Order(s)
    requires t.started == s.started && t.submitted == s.submitted && t.collected == s.collected && t.lost == s.lost
    requires t.sh.waiting == s.sh.waiting && t.sh.running == s.sh.running
    requires NewJob(t)
    ensures Order(t)
  {
  }

  lemma OrderKeptByCollecting(s: State)
    requires Order(s) && Enabled(s, WaitAllCollect)
    ensures Order(Next(s, WaitAllCollect))
  {
    if s.sh.running != [] {
      var j := s.sh.running[0];
      assert s.collected + [j] + s.sh.running[1..] == s.collected + s.sh.running;
      assert forall i :: i in s.sh.running[1..] ==> i in s.sh.running;
    }
  }

  lemma OrderKeptByTurn(s: State, w: nat)
    requires Control(s) && Order(s) && Enabled(s, WorkerSection(w))
    ensures Order(AfterTurn(s, w))
  {
    var t := AfterTurn(s, w);
    if t.started != s.started {
      var j := s.sh.waiting[0];
      assert s.started + [j] + s.sh.waiting[1..] == s.started + s.sh.waiting;
      if |s.sh.running| < s.sh.cap {
        assert s.collected + (s.sh.running + [j]) == s.collected + s.sh.running + [j];
      }
    }
  }

  // ---------- what has become of each job ----------

  predicate Busy(s: State, w: nat, j: Job) {
    w < |s.workers| && (s.workers[w] == Running(j) || s.workers[w] == Finished(j))
  }

  ghost predicate Fate(s: State) {
    && (forall w: nat, j :: w < |s.workers| && s.workers[w] == Running(j) ==> j in s.started && j !in s.complete)
    && (forall w: nat, j :: w < |s.workers| && s.workers[w] == Finished(j) ==> j in s.complete && j !in s.finished)
    && (forall v: nat, w: nat, j :: Busy(s, v, j) && Busy(s, w, j) ==> v == w)
    && (forall j :: j in s.started && j !in s.complete ==> exists w: nat :: Busy(s, w, j))
    && (forall j :: j in s.complete ==> j in s.started && (j in s.finished || exists w: nat :: Busy(s, w, j)))
    && (forall j :: j in s.finished ==> j in s.complete)
    && Distinct(s.finished)
  }

  lemma FateKept(s: State, a: Action)
    requires Control(s) && Order(s) && Fate(s) && Enabled(s, a)
    ensures Fate(Next(s, a))
  {
    match a
    case WorkerSection(w) => FateKeptByTurn(s, w);
    case RoutineEnds(w) => FateKeptByEnd(s, w);
    case NotifyComplete(w) => FateKeptByNotice(s, w);
    case CreateThread =>
      assert forall w: nat, j :: Busy(Next(s, a), w, j) <==> Busy(s, w, j);
    case _ =>
      FateKeptByMaster(s, a);
  }

  lemma FateKeptByMaster(s: State, a: Action)
    requires Fate(s) && Enabled(s, a) && !OfWorker(a) && !a.CreateThread?
    ensures Fate(Next(s, a))
  {
    var t := Next(s, a);
    assert t.workers == s.workers && t.started == s.started && t.complete == s.complete && t.finished == s.finished;
    FateFrame(s, t);
  }

  lemma FateFrame(s: State, t: State)
    requires Fate(s)
    requires t.workers == s.workers && t.started == s.started && t.complete == s.complete && t.finished == s.finished
    ensures Fate(t)
  {
    assert forall w: nat, j :: Busy(t, w, j) <==> Busy(s, w, j);
  }

  lemma FateKeptByTurn(s: State, w: nat)
    requires Control(s) && Order(s) && Fate(s) && Enabled(s, WorkerSection(w))
    ensures Fate(AfterTurn(s, w))
  {
    var t := AfterTurn(s, w);
    assert forall v: nat, j :: v != w ==> (Busy(t, v, j) <==> Busy(s, v, j));
    assert forall j :: !Busy(s, w, j);
    if t.workers[w].Running? {
      var j := t.workers[w].job;
      assert forall i: nat :: i < |s.started| ==> s.submitted[i] == s.started[i];
      assert s.submitted[|s.started|] == j && j !in s.started;
      assert Busy(t, w, j);
      assert forall v: nat :: !Busy(s, v, j);
    }
  }

  lemma FateKeptByEnd(s: State, w: nat)
    requires Control(s) && Order(s) && Fate(s) && Enabled(s, RoutineEnds(w))
    ensures Fate(Next(s, RoutineEnds(w)))
  {
    var t := Next(s, RoutineEnds(w));
    assert Busy(s, w, s.workers[w].job);
    assert forall v: nat, j :: Busy(t, v, j) <==> Busy(s, v, j);
    forall v: nat, j | v < |t.workers| && t.workers[v] == Running(j) ensures j in t.started && j !in t.complete {
      assert Busy(s, v, j);
    }
  }

  lemma FateKeptByNotice(s: State, w: nat)
    requires Control(s) && Order(s) && Fate(s) && Enabled(s, NotifyComplete(w))
    ensures Fate(Next(s, NotifyComplete(w)))
  {
    var t, i := Next(s, NotifyComplete(w)), s.workers[w].job;
    assert Busy(s, w, i);
    assert forall v: nat, j :: v != w ==> (Busy(t, v, j) <==> Busy(s, v, j));
    assert forall j :: Busy(s, w, j) ==> j == i;
    assert forall j :: j in t.finished <==> j in s.finished || j == i;
    forall v: nat, j | v < |t.workers| && t.workers[v] == Finished(j) ensures j in t.complete && j !in t.finished {
      assert Busy(s, v, j);
    }
  }

  ghost predicate Tokens(s: State) {
    && (forall j :: s.tokens[j] <= 1 && (s.tokens[j] > 0 ==> j in s.finished))
    && (s.master.WaitingJob? && s.master.job in s.finished ==> s.tokens[s.master.job] == 1)
    && (forall j :: j in s.collected ==>
          j in s.complete || s.master == Collected(Some(j)) || s.master == WaitingJob(j, true))
  }

  lemma TokensKept(s: State, a: Action)
    requires Control(s) && Order(s) && Fate(s) && Tokens(s) && Enabled(s, a)
    ensures Tokens(Next(s, a))
  {
    if OfWorker(a) {
      TokensKeptByWorker(s, a);
    } else if a.WaitAllCollect? || a.TakeToken? {
      TokensKeptByTaking(s, a);
    } else {
      TokensKeptByMaster(s, a);
    }
  }

  lemma TokensKeptByWorker(s: State, a: Action)
    requires Control(s) && Order(s) && Fate(s) && Tokens(s) && Enabled(s, a) && OfWorker(a)
    ensures Tokens(Next(s, a))
  {
    var t := Next(s, a);
    assert t.master == s.master && t.collected == s.collected && s.complete <= t.complete;
    if a.NotifyComplete? {
      assert forall j :: j in t.finished <==> j in s.finished || j == s.workers[a.w].job;
    }
  }

  lemma TokensKeptByTaking(s: State, a: Action)
    requires Fate(s) && Tokens(s) && Enabled(s, a) && (a.WaitAllCollect? || a.TakeToken?)
    ensures Tokens(Next(s, a))
  {
    var t := Next(s, a);
    if a.WaitAllCollect? {
      assert forall j :: j in t.collected ==> j in s.collected || t.master == Collected(Some(j));
    }
  }

  lemma TokensKeptByMaster(s: State, a: Action)
    requires Fate(s) && Tokens(s) && Enabled(s, a) && !OfWorker(a) && !a.WaitAllCollect? && !a.TakeToken?
    ensures Tokens(Next(s, a))
  {
    MasterLeavesTokens(s, a);
    TokensFrame(s, Next(s, a));
  }

  lemma MasterLeavesTokens(s: State, a: Action)
    requires Enabled(s, a) && !OfWorker(a) && !a.WaitAllCollect? && !a.TakeToken?
    ensures var t := Next(s, a);
      && t.tokens == s.tokens && t.finished == s.finished && t.complete == s.complete && t.collected == s.collected
      && (t.master.WaitingJob? ==> t.master.job !in s.complete) && !s.master.WaitingJob?
      && (s.master.Collected? && s.master.picked.Some? ==>
            s.master.picked.value in s.complete || t.master == WaitingJob(s.master.picked.value, true))
  {
  }

  lemma TokensFrame(s: State, t: State)
    requires Fate(s) && Tokens(s)
    requires t.tokens == s.tokens && t.finished == s.finished && t.complete == s.complete && t.collected == s.collected
    requires t.master.WaitingJob? ==> t.master.job !in s.complete
    requires !s.master.WaitingJob?
    requires s.master.Collected? && s.master.picked.Some? ==>
      s.master.picked.value in s.complete || t.master == WaitingJob(s.master.picked.value, true)
    ensures Tokens(t)
  {
  }
}
