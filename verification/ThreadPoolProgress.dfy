/**
 Progress of the thread pool: a measure that every step of the pool itself lowers, a bound on
 the steps of any run, and what must hold when no such step is left. Together they say that
 accepted tasks do run and that shutdown does end, provided task bodies do.
 */
module ThreadPoolProgress {
  import opened Options
  import opened ThreadPools
  import opened ThreadPoolSafety
  import opened ThreadPoolTheorems

  /** Steps that come from outside: a new submission, a spurious wakeup, the start of destruction. */
  ghost predicate External(e: Event) {
    e.Accept? || e.Reject? || e.Wake? || e.SetStop?
  }

  // ---------- The measure ----------

  ghost function Weight(p: Worker): nat {
    match p
    case Checking => 1
    case Popping(_) => 4
    case Holding(_) => 3
    case Counted(_, _) => 2
    case _ => 0
  }

  ghost function Work(s: Pool): nat {
    4 * |s.queue| + Sum(s.workers, Weight) + 2 * s.unnotified
    + (if s.lock.BySubmitter? then 3 else 0)
    + (match s.dtor
       case Running => |s.workers| + 3
       case StopSet => |s.workers| + 2
       case Joining => 1
       case Done => 0)
  }

  lemma {:induction false} WakeAllWeight(ws: seq<Worker>)
    ensures Sum(WakeAll(ws), Weight) <= Sum(ws, Weight) + |ws|
  {
    if ws != [] {
      var n := |ws| - 1;
      assert WakeAll(ws)[..n] == WakeAll(ws[..n]);
      WakeAllWeight(ws[..n]);
    }
  }

  lemma MoverWeight(s: Pool, e: Event)
    requires Enabled(s, e) && Mover(e).Some?
    ensures var s', w := Apply(s, e), Mover(e).value;
            && w < |s.workers| && |s'.workers| == |s.workers|
            && Sum(s'.workers, Weight) + Weight(s.workers[w]) == Sum(s.workers, Weight) + Weight(s'.workers[w])
  {
    var w := Mover(e).value;
    SumUpdate(s.workers, w, Apply(s, e).workers[w], Weight);
  }

  /** Every step of the pool itself lowers the measure; a submission raises it by 7, a spurious wakeup by 1. */
  lemma StepWork(s: Pool, e: Event)
    requires Enabled(s, e)
    ensures match e
            case Accept(_) => Work(Apply(s, e)) == Work(s) + 7
            case Reject => Work(Apply(s, e)) == Work(s)
            case Wake(_) => Work(Apply(s, e)) == Work(s) + 1
            case _ => Work(Apply(s, e)) < Work(s)
  {
    if Mover(e).Some? {
      MoverWork(s, e);
    } else if e.NotifyAll? {
      WakeAllWeight(s.workers);
    }
  }

  lemma MoverWork(s: Pool, e: Event)
    requires Enabled(s, e) && Mover(e).Some?
    ensures if e.Wake? then Work(Apply(s, e)) == Work(s) + 1 else Work(Apply(s, e)) < Work(s)
  {
    MoverWeight(s, e);
  }

  /** The number of steps in a run taken by the pool itself, and the number of spurious wakeups. */
  ghost function PoolSteps(es: seq<Event>): nat {
    if es == [] then 0
    else
      var e := es[|es| - 1];
      PoolSteps(es[..|es| - 1]) + if External(e) then 0 else 1
  }

  ghost function SpuriousWakeups(es: seq<Event>): nat {
    if es == [] then 0
    else SpuriousWakeups(es[..|es| - 1]) + if es[|es| - 1].Wake? then 1 else 0
  }

  /** In any run the pool takes a bounded number of steps per submission and per spurious wakeup. */
  lemma {:induction false} StepsAreBounded(s0: Pool, es: seq<Event>, s: Pool)
    requires Exec(s0, es) == Some(s)
    ensures PoolSteps(es) + Work(s) <= Work(s0) + 7 * |Accepted(es)| + SpuriousWakeups(es)
    decreases |es|
  {
    if es != [] {
      var before := es[..|es| - 1];
      var s1 := Exec(s0, before).value;
      StepsAreBounded(s0, before, s1);
      StepWork(s1, es[|es| - 1]);
    }
  }

  // ---------- When no step is left ----------

  ghost predicate Quiet(s: Pool) {
    forall e: Event :: Enabled(s, e) ==> External(e)
  }

  lemma QuietWorker(s: Pool, w: nat)
    requires Inv(s) && Quiet(s) && w < |s.workers|
    ensures s.lock.Free?
    ensures s.workers[w].Asleep? || s.workers[w].Exited?
  {
    assert !Enabled(s, CountPush);
    if s.lock.ByWorker? {
      assert Enabled(s, CountPop(s.lock.w));
    }
    match s.workers[w]
    case Checking =>
      assert !Enabled(s, Sleep(w)) && !Enabled(s, Exit(w));
      if s.queue != [] { assert Enabled(s, Take(w, s.queue[0])); }
    case Holding(task) => assert Enabled(s, Finish(w, task, Returned));
    case Counted(task, outcome) => assert Enabled(s, Resolve(w, task, outcome));
    case _ =>
  }

  lemma {:induction false} NoCheckers(ws: seq<Worker>)
    requires forall w: nat :: w < |ws| ==> !ws[w].Checking?
    ensures Sum(ws, CheckingOne) == 0
  {
    if ws != [] { NoCheckers(ws[..|ws| - 1]); }
  }

  /** A quiet pool has nothing queued; a quiet pool that was stopped is fully destroyed. */
  lemma QuietPool(s: Pool)
    requires Inv(s) && Quiet(s)
    ensures s.queue == [] && s.unnotified == 0 && (s.stop ==> s.dtor.Done?)
  {
    QuietWorker(s, 0);
    forall w: nat | w < |s.workers|
      ensures s.workers[w].Asleep? || s.workers[w].Exited?
    {
      QuietWorker(s, w);
    }
    NoCheckers(s.workers);
    NoSleepers(s.workers);
    if w :| 0 <= w < |s.workers| && s.workers[w].Asleep? {
      assert !Enabled(s, NotifyOne(Some(w)));
    } else {
      assert !Enabled(s, NotifyOne(None));
      assert s.workers[0].Exited?;
    }
    assert !Enabled(s, NotifyAll) && !Enabled(s, Joined);
  }

  /**
   No task is stranded: any run that leaves the pool with no step of its own to take has run every
   accepted task, once, and made every future ready, whether or not the pool is being destroyed.
   */
  lemma EveryTaskRuns(threads: nat, es: seq<Event>, s: Pool)
    requires Exec(Start(threads), es) == Some(s) && Quiet(s)
    ensures ReadyTasks(es) == multiset(Accepted(es))
    ensures Ready(es) == Finished(es) && s.completed == |Accepted(es)|
    ensures s.stop ==> s.dtor.Done?
  {
    RunKeeps(threads, es, s);
    QuietPool(s);
    forall w | 0 <= w < |s.workers|
      ensures TaskOf(s.workers[w]) == multiset{}
    {
      QuietWorker(s, w);
    }
    NothingLeft(s, es);
  }

  // ---------- Shutdown ----------

  /** After stop nobody goes to sleep again, so waking up is progress too, spuriously or not. */
  ghost function ShutdownWeight(p: Worker): nat {
    if p.Asleep? then 2 else Weight(p)
  }

  ghost function ShutdownWork(s: Pool): nat {
    4 * |s.queue| + Sum(s.workers, ShutdownWeight) + 2 * s.unnotified
    + (match s.dtor case Running => 3 case StopSet => 2 case Joining => 1 case Done => 0)
  }

  lemma {:induction false} WakeAllShutdownWeight(ws: seq<Worker>)
    ensures Sum(WakeAll(ws), ShutdownWeight) <= Sum(ws, ShutdownWeight)
  {
    if ws != [] {
      var n := |ws| - 1;
      assert WakeAll(ws)[..n] == WakeAll(ws[..n]);
      WakeAllShutdownWeight(ws[..n]);
    }
  }

  /** Once stop is set every step but a refused submission lowers this measure. */
  lemma ShutdownStep(s: Pool, e: Event)
    requires Inv(s) && s.stop && Enabled(s, e)
    ensures Apply(s, e).stop
    ensures if e.Reject? then Apply(s, e) == s else ShutdownWork(Apply(s, e)) < ShutdownWork(s)
  {
    if Mover(e).Some? {
      MoverPhase(s, e);
      var w := Mover(e).value;
      SumUpdate(s.workers, w, Apply(s, e).workers[w], ShutdownWeight);
    } else if e.NotifyAll? {
      WakeAllShutdownWeight(s.workers);
    }
  }

  /** The steps of a run other than refused submissions. */
  ghost function Effective(es: seq<Event>): nat {
    if es == [] then 0
    else Effective(es[..|es| - 1]) + if es[|es| - 1].Reject? then 0 else 1
  }

  lemma {:induction false} ShutdownRun(s0: Pool, es: seq<Event>, s: Pool)
    requires Inv(s0) && s0.stop && Exec(s0, es) == Some(s)
    ensures Inv(s) && s.stop
    ensures Effective(es) + ShutdownWork(s) <= ShutdownWork(s0)
    decreases |es|
  {
    if es != [] {
      var before, e := es[..|es| - 1], es[|es| - 1];
      var s1 := Exec(s0, before).value;
      ShutdownRun(s0, before, s1);
      StepKeepsInv(s1, e);
      ShutdownStep(s1, e);
    }
  }

  /**
   Shutdown terminates: from any reachable state with stop set, every run takes at most a fixed
   number of steps besides refused submissions, and as long as the destructor has not returned
   some step of the pool remains possible.
   */
  lemma ShutdownTerminates(threads: nat, es0: seq<Event>, s0: Pool, es: seq<Event>, s: Pool)
    requires Exec(Start(threads), es0) == Some(s0) && s0.stop
    requires Exec(s0, es) == Some(s)
    ensures Effective(es) <= ShutdownWork(s0)
    ensures !s.dtor.Done? ==> exists e: Event :: Enabled(s, e) && !External(e)
  {
    RunKeeps(threads, es0, s0);
    ShutdownRun(s0, es, s);
    if Quiet(s) {
      QuietPool(s);
    }
  }
}
