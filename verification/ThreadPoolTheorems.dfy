/** What the thread pool promises of every run, from the constructor to the end of the destructor. */
module ThreadPoolTheorems {
  import opened Options
  import opened ThreadPools
  import opened ThreadPoolSafety

  /**
   No lost wakeup: whenever a worker is asleep, the awake workers about to look at the queue and
   the notifications still on their way are at least as many as the queued tasks.
   */
  lemma NoLostWakeup(threads: nat, es: seq<Event>, s: Pool)
    requires Exec(Start(threads), es) == Some(s)
    ensures Asleep in s.workers ==> Checkers(s) + Undelivered(s) >= |s.queue|
  {
    RunKeeps(threads, es, s);
    NoSleepers(s.workers);
  }

  /** Tasks start in lock order, and the pending counter never underflows and is right whenever the mutex is free. */
  lemma FifoStart(threads: nat, es: seq<Event>, s: Pool)
    requires Exec(Start(threads), es) == Some(s)
    ensures Taken(es) + s.queue == Accepted(es)
    ensures 0 <= s.pending
    ensures s.lock.Free? ==> s.pending == |s.queue|
    ensures s.lock.ByWorker? ==> s.pending > 0
  {
    RunKeeps(threads, es, s);
  }

  /** Every accepted task is in exactly one place: queued, with a worker, or behind a ready future. */
  lemma ExactlyOnce(threads: nat, es: seq<Event>, s: Pool)
    requires Exec(Start(threads), es) == Some(s)
    ensures multiset(Accepted(es)) == multiset(s.queue) + InFlight(s) + ReadyTasks(es)
  {
    RunKeeps(threads, es, s);
    assert multiset(Taken(es) + s.queue) == multiset(Taken(es)) + multiset(s.queue);
  }

  /**
   `completed()` is the number of bodies that have returned or thrown, and a future becomes ready
   only after its body was counted, with that body's outcome: a caller holding `k` ready futures
   reads at least `k`.
   */
  lemma CountedBeforeReady(threads: nat, es: seq<Event>, s: Pool)
    requires Exec(Start(threads), es) == Some(s)
    ensures s.completed == |Finished(es)|
    ensures Ready(es) <= Finished(es)
    ensures forall held: multiset<Result> :: held <= Ready(es) ==> |held| <= s.completed
  {
    RunKeeps(threads, es, s);
    forall held: multiset<Result> | held <= Ready(es)
      ensures |held| <= s.completed
    {
      assert Finished(es) == held + (Finished(es) - held);
    }
  }

  lemma {:induction false} IdleWorkers(ws: seq<Worker>)
    requires forall w :: 0 <= w < |ws| ==> TaskOf(ws[w]) == multiset{}
    ensures Gather(ws, TaskOf) == multiset{} && Gather(ws, CountedOf) == multiset{}
  {
    if ws != [] {
      IdleWorkers(ws[..|ws| - 1]);
    }
  }

  /** Once no worker has a task and none is queued, every accepted task has run and its future is ready. */
  lemma NothingLeft(s: Pool, es: seq<Event>)
    requires History(s, es) && s.queue == []
    requires forall w :: 0 <= w < |s.workers| ==> TaskOf(s.workers[w]) == multiset{}
    ensures ReadyTasks(es) == multiset(Accepted(es))
    ensures Ready(es) == Finished(es) && s.completed == |Accepted(es)|
  {
    IdleWorkers(s.workers);
    assert Taken(es) + [] == Taken(es);
    SameSize(es);
    assert |multiset(Taken(es))| == |Taken(es)|;
  }

  lemma {:induction false} SameSize(es: seq<Event>)
    ensures |ReadyTasks(es)| == |Ready(es)|
  {
    if es != [] { SameSize(es[..|es| - 1]); }
  }

  /**
   When the destructor is done, the pool was stopped, the queue is empty, and every task ever
   accepted has run exactly once, been counted, and has a ready future.
   */
  lemma DestructorDrains(threads: nat, es: seq<Event>, s: Pool)
    requires Exec(Start(threads), es) == Some(s) && s.dtor.Done?
    ensures s.stop && s.queue == []
    ensures ReadyTasks(es) == multiset(Accepted(es))
    ensures Ready(es) == Finished(es) && s.completed == |Accepted(es)|
  {
    RunKeeps(threads, es, s);
    assert s.workers[0].Exited?;
    NothingLeft(s, es);
  }

  /** Nothing is accepted after stop. */
  lemma {:induction false} NothingAcceptedAfterStop(s0: Pool, es: seq<Event>, s: Pool)
    requires s0.stop && Exec(s0, es) == Some(s)
    ensures s.stop && Accepted(es) == []
    decreases |es|
  {
    if es != [] {
      NothingAcceptedAfterStop(s0, es[..|es| - 1], Exec(s0, es[..|es| - 1]).value);
    }
  }

  /** The number of workers, which `size()` returns, never changes. */
  lemma {:induction false} WorkersStay(threads: nat, es: seq<Event>, s: Pool)
    requires Exec(Start(threads), es) == Some(s)
    ensures |s.workers| == if threads == 0 then 1 else threads
    decreases |es|
  {
    if es != [] {
      WorkersStay(threads, es[..|es| - 1], Exec(Start(threads), es[..|es| - 1]).value);
    }
  }

  /** Spurious wakeups do happen: a worker with nothing to do may sleep and wake again, and nothing has changed. */
  lemma SleepAndWake(s: Pool, w: nat)
    requires s.lock.Free? && Is(s, w, Checking) && s.queue == [] && !s.stop
    ensures Exec(s, [Sleep(w), Wake(w)]) == Some(s)
  {
    ExecThen(s, [], s, Sleep(w));
    ExecThen(s, [Sleep(w)], Set(s, w, Asleep), Wake(w));
    assert s.workers[w := Asleep][w := Checking] == s.workers;
  }
}
