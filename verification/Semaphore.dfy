/** The counting semaphore of src/semaphore.c, with one thread that waits. Its condition variable is
    taken to wake only when signalled. */
module Semaphore {
  /** parked: the thread is inside pthread_cond_wait; signalled: a signal has reached it there. */
  datatype Sem = Sem(value: int, wakeups: int, parked: bool, signalled: bool)

  function Init(value: int): Sem { Sem(value, 0, false, false) }

  /** sem_post_ */
  function Post(s: Sem): Sem {
    if s.value + 1 >= 0
    then Sem(s.value + 1, s.wakeups + 1, s.parked, s.parked)
    else s.(value := s.value + 1)
  }

  /** sem_wait_ up to where it parks or returns. */
  function Wait(s: Sem): Sem {
    s.(value := s.value - 1, parked := s.value - 1 < 0, signalled := false)
  }

  /** The parked thread after its signal: it parks again unless a wakeup is left for it. */
  function Wake(s: Sem): Sem {
    if s.wakeups < 1 then s.(signalled := false) else s.(wakeups := s.wakeups - 1, parked := false, signalled := false)
  }

  /** The states of a barrier made by sem_init_(1 - n) after `posts` posts: before the one thread waits,
      while it is parked, and once it has passed. */
  ghost predicate Before(s: Sem, n: nat, posts: nat) {
    && s.value == 1 - n + posts && !s.parked
    && s.wakeups >= 0 && (posts >= n > 0 ==> s.wakeups >= 1)
  }

  ghost predicate Parked(s: Sem, n: nat, posts: nat) {
    && s.value == posts - n && s.parked
    && s.wakeups >= 0 && (s.signalled <==> posts >= n) && (posts >= n ==> s.wakeups >= 1)
  }

  ghost predicate Passed(s: Sem, n: nat, posts: nat) {
    && s.value == posts - n && !s.parked
    && s.wakeups >= 0 && posts >= n
  }

  /** The barrier keeps its thread until n posts have been made: it parks before that, and what wakes it
      is the n-th post or a later one. */
  lemma BarrierSteps(s: Sem, n: nat, posts: nat)
    requires n > 0
    ensures Before(Init(1 - n), n, 0)
    ensures Before(s, n, posts) ==> Before(Post(s), n, posts + 1)
    ensures Parked(s, n, posts) ==> Parked(Post(s), n, posts + 1)
    ensures Passed(s, n, posts) ==> Passed(Post(s), n, posts + 1)
    ensures Before(s, n, posts) ==> if posts < n then Parked(Wait(s), n, posts) else Passed(Wait(s), n, posts)
    ensures Parked(s, n, posts) && s.signalled ==> Passed(Wake(s), n, posts)
  {
  }

  datatype Event = Posted | Waited | Woken

  function Posts(es: seq<Event>): nat {
    if es == [] then 0 else Posts(es[..|es| - 1]) + if es[|es| - 1].Posted? then 1 else 0
  }

  function Replay(n: nat, es: seq<Event>): Sem {
    if es == [] then Init(1 - n) else
    var s := Replay(n, es[..|es| - 1]);
    match es[|es| - 1] case Posted => Post(s) case Waited => Wait(s) case Woken => Wake(s)
  }

  /** One sem_wait_, and a wake-up only after a signal. */
  ghost predicate OneWaiter(n: nat, es: seq<Event>) {
    es == [] ||
    var before, e := es[..|es| - 1], es[|es| - 1];
    && OneWaiter(n, before)
    && (e.Waited? ==> Waited !in before)
    && (e.Woken? ==> Replay(n, before).parked && Replay(n, before).signalled)
  }

  /** Whatever the order of events, sem_wait_ on a barrier made by sem_init_(1 - n) returns only after n
      posts, and its thread stays parked without a signal only while there were fewer. */
  lemma {:induction false} BarrierWaitsForAll(n: nat, es: seq<Event>)
    requires n > 0 && OneWaiter(n, es)
    ensures Waited !in es ==> Before(Replay(n, es), n, Posts(es))
    ensures Waited in es && Replay(n, es).parked ==> Parked(Replay(n, es), n, Posts(es))
    ensures Waited in es && !Replay(n, es).parked ==> Passed(Replay(n, es), n, Posts(es))
  {
    if es != [] {
      var before := es[..|es| - 1];
      assert es == before + [es[|es| - 1]];
      BarrierWaitsForAll(n, before);
      BarrierSteps(Replay(n, before), n, Posts(before));
    }
  }

  class Semaphore {
    var value: int
    var wakeups: int
    var parked: bool
    var signalled: bool

    ghost function Abs(): Sem
      reads this
    {
      Sem(value, wakeups, parked, signalled)
    }

    constructor (value: int)
      ensures Abs() == Init(value)
    {
      this.value, wakeups, parked, signalled := value, 0, false, false;
    }

    method SemPost()
      modifies this
      ensures Abs() == Post(old(Abs()))
    {
      value := value + 1;
      if value >= 0 {
        wakeups := wakeups + 1;
        signalled := parked;
      }
    }

    method SemWait() returns (through: bool)
      modifies this
      ensures Abs() == Wait(old(Abs())) && through == !parked
    {
      value := value - 1;
      parked, signalled := value < 0, false;
      through := !parked;
    }

    method SemWake() returns (through: bool)
      requires parked && signalled
      modifies this
      ensures Abs() == Wake(old(Abs())) && through == !parked
    {
      signalled := false;
      if wakeups >= 1 {
        wakeups := wakeups - 1;
        parked := false;
      }
      through := !parked;
    }
  }
}
