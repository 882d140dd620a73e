/**
 What every run of the thread pool keeps: the lock and the pending counter, the supply of awake
 workers, first-in-first-out starts, exactly-once execution and counting before readiness.
 */
module ThreadPoolSafety {
  import opened Options
  import opened ThreadPools

  // ---------- Sums over the workers ----------

  ghost function Sum(ws: seq<Worker>, f: Worker -> nat): nat {
    if ws == [] then 0 else Sum(ws[..|ws| - 1], f) + f(ws[|ws| - 1])
  }

  ghost function Gather<T>(ws: seq<Worker>, f: Worker -> multiset<T>): multiset<T> {
    if ws == [] then multiset{} else Gather(ws[..|ws| - 1], f) + f(ws[|ws| - 1])
  }

  lemma {:induction false} SumUpdate(ws: seq<Worker>, i: nat, x: Worker, f: Worker -> nat)
    requires i < |ws|
    ensures Sum(ws[i := x], f) + f(ws[i]) == Sum(ws, f) + f(x)
  {
    var n := |ws| - 1;
    if i == n {
      assert ws[i := x][..n] == ws[..n];
    } else {
      assert ws[i := x][..n] == ws[..n][i := x];
      SumUpdate(ws[..n], i, x, f);
    }
  }

  lemma {:induction false} GatherUpdate<T>(ws: seq<Worker>, i: nat, x: Worker, f: Worker -> multiset<T>)
    requires i < |ws|
    ensures Gather(ws[i := x], f) + f(ws[i]) == Gather(ws, f) + f(x)
  {
    var n := |ws| - 1;
    if i == n {
      assert ws[i := x][..n] == ws[..n];
    } else {
      assert ws[i := x][..n] == ws[..n][i := x];
      GatherUpdate(ws[..n], i, x, f);
      var a, b, c := Gather(ws[..n][i := x], f), Gather(ws[..n], f), f(ws[n]);
      assert (a + c) + f(ws[i]) == (a + f(ws[i])) + c == (b + f(x)) + c == (b + c) + f(x);
    }
  }

  lemma {:induction false} GatherWakeAll<T>(ws: seq<Worker>, f: Worker -> multiset<T>)
    requires f(Asleep) == f(Checking)
    ensures Gather(WakeAll(ws), f) == Gather(ws, f)
  {
    if ws != [] {
      var n := |ws| - 1;
      assert WakeAll(ws)[..n] == WakeAll(ws[..n]);
      GatherWakeAll(ws[..n], f);
    }
  }

  ghost function AsleepOne(p: Worker): nat {
    if p.Asleep? then 1 else 0
  }

  ghost function CheckingOne(p: Worker): nat {
    if p.Checking? then 1 else 0
  }

  /** How many workers are blocked in the condition variable. */
  ghost function Sleepers(s: Pool): nat {
    Sum(s.workers, AsleepOne)
  }

  /** How many workers are awake and about to test the predicate. */
  ghost function Checkers(s: Pool): nat {
    Sum(s.workers, CheckingOne)
  }

  lemma {:induction false} SumAtLeast(ws: seq<Worker>, i: nat, f: Worker -> nat)
    requires i < |ws|
    ensures Sum(ws, f) >= f(ws[i])
  {
    if i < |ws| - 1 { SumAtLeast(ws[..|ws| - 1], i, f); }
  }

  lemma {:induction false} NoSleepers(ws: seq<Worker>)
    ensures Asleep !in ws <==> Sum(ws, AsleepOne) == 0
  {
    if ws != [] {
      var n := |ws| - 1;
      NoSleepers(ws[..n]);
      assert ws == ws[..n] + [ws[n]];
    }
  }

  // ---------- The invariant ----------

  ghost predicate LockInv(s: Pool) {
    && (forall w :: 0 <= w < |s.workers| && s.workers[w].Popping? ==> s.lock == ByWorker(w))
    && (s.lock.ByWorker? ==> s.lock.w < |s.workers| && s.workers[s.lock.w].Popping?)
    && (s.lock.BySubmitter? ==> s.queue != [])
    && s.pending == |s.queue| + (match s.lock case Free => 0 case BySubmitter => -1 case ByWorker(_) => 1)
  }

  /** Pushes whose notification is still to come. */
  ghost function Undelivered(s: Pool): nat {
    s.unnotified + if s.lock.BySubmitter? then 1 else 0
  }

  /** While somebody sleeps, there is an awake worker or a coming notification for every queued task. */
  ghost predicate Staffed(s: Pool) {
    Sleepers(s) > 0 ==> Checkers(s) + Undelivered(s) >= |s.queue|
  }

  ghost predicate StopInv(s: Pool) {
    && (s.stop <==> !s.dtor.Running?)
    && (s.stop ==> !s.lock.BySubmitter?)
    && (forall w :: 0 <= w < |s.workers| && s.workers[w].Exited? ==> s.stop && s.queue == [])
    && (s.dtor.Joining? || s.dtor.Done? ==> Sleepers(s) == 0)
    && (s.dtor.Done? ==> forall w :: 0 <= w < |s.workers| ==> s.workers[w].Exited?)
  }

  ghost predicate Inv(s: Pool) {
    s.workers != [] && LockInv(s) && Staffed(s) && StopInv(s)
  }

  lemma AllChecking(n: nat)
    ensures Sum(seq(n, _ => Checking), AsleepOne) == 0
  {
    var ws := seq(n, _ => Checking);
    NoSleepers(ws);
  }

  lemma StartInv(threads: nat)
    ensures Inv(Start(threads))
  {
    AllChecking(if threads == 0 then 1 else threads);
  }

  /** The worker a step is about. */
  ghost function Mover(e: Event): Option<nat> {
    match e
    case NotifyOne(woken) => woken
    case Sleep(w) => Some(w)
    case Take(w, _) => Some(w)
    case CountPop(w) => Some(w)
    case Exit(w) => Some(w)
    case Finish(w, _, _) => Some(w)
    case Resolve(w, _, _) => Some(w)
    case Wake(w) => Some(w)
    case _ => None
  }

  /** How a step changes the numbers of sleepers and checkers. */
  lemma Headcount(s: Pool, e: Event)
    requires Enabled(s, e) && Mover(e).Some?
    ensures var s', w := Apply(s, e), Mover(e).value;
            && w < |s.workers| && s'.workers == s.workers[w := s'.workers[w]]
            && Sleepers(s') + AsleepOne(s.workers[w]) == Sleepers(s) + AsleepOne(s'.workers[w])
            && Checkers(s') + CheckingOne(s.workers[w]) == Checkers(s) + CheckingOne(s'.workers[w])
  {
    var s', w := Apply(s, e), Mover(e).value;
    SumUpdate(s.workers, w, s'.workers[w], AsleepOne);
    SumUpdate(s.workers, w, s'.workers[w], CheckingOne);
  }

  lemma MoverKeepsInv(s: Pool, e: Event)
    requires Inv(s) && Enabled(s, e) && Mover(e).Some?
    ensures Inv(Apply(s, e))
  {
    Headcount(s, e);
    SumAtLeast(s.workers, Mover(e).value, AsleepOne);
  }

  lemma StepKeepsInv(s: Pool, e: Event)
    requires Inv(s) && Enabled(s, e)
    ensures Inv(Apply(s, e))
  {
    if Mover(e).Some? {
      MoverKeepsInv(s, e);
    } else {
      NoSleepers(s.workers);
      NoSleepers(WakeAll(s.workers));
    }
  }

  // ---------- History ----------

  ghost function TaskOf(p: Worker): multiset<Task> {
    if p.Popping? || p.Holding? || p.Counted? then multiset{p.task} else multiset{}
  }

  ghost function CountedOf(p: Worker): multiset<Result> {
    if p.Counted? then multiset{(p.task, p.outcome)} else multiset{}
  }

  /** Tasks a worker has popped and whose future is not yet ready. */
  ghost function InFlight(s: Pool): multiset<Task> {
    Gather(s.workers, TaskOf)
  }

  /** Bodies that are over and counted while the future is not yet ready. */
  ghost function CountedNotReady(s: Pool): multiset<Result> {
    Gather(s.workers, CountedOf)
  }

  /** Where every accepted task is, and what has become of it. */
  ghost predicate History(s: Pool, es: seq<Event>) {
    && Taken(es) + s.queue == Accepted(es)
    && multiset(Taken(es)) == InFlight(s) + ReadyTasks(es)
    && Finished(es) == CountedNotReady(s) + Ready(es)
    && |Finished(es)| == s.completed
  }

  lemma {:induction false} NothingInFlight(n: nat)
    ensures Gather(seq(n, _ => Checking), TaskOf) == multiset{}
    ensures Gather(seq(n, _ => Checking), CountedOf) == multiset{}
  {
    if n > 0 {
      assert seq(n, _ => Checking)[..n - 1] == seq(n - 1, _ => Checking);
      NothingInFlight(n - 1);
    }
  }

  lemma Cargo(s: Pool, e: Event)
    requires Enabled(s, e) && Mover(e).Some?
    ensures var s', w := Apply(s, e), Mover(e).value;
            && w < |s.workers| && w < |s'.workers|
            && InFlight(s') + TaskOf(s.workers[w]) == InFlight(s) + TaskOf(s'.workers[w])
            && CountedNotReady(s') + CountedOf(s.workers[w]) == CountedNotReady(s) + CountedOf(s'.workers[w])
  {
    var s', w := Apply(s, e), Mover(e).value;
    assert s'.workers == s.workers[w := s'.workers[w]];
    GatherUpdate(s.workers, w, s'.workers[w], TaskOf);
    GatherUpdate(s.workers, w, s'.workers[w], CountedOf);
  }

  lemma Exchange<T>(f: multiset<T>, f': multiset<T>, was: multiset<T>, now: multiset<T>, i: multiset<T>, o: multiset<T>)
    requires f' + was == f + now
    requires now + o == was + i
    ensures f' + o == f + i
  {
    assert (f' + o) + was == (f' + was) + o == f + (now + o) == (f + i) + was;
    assert f' + o == ((f' + o) + was) - was;
  }

  lemma Balance<T>(all: multiset<T>, here: multiset<T>, gone: multiset<T>, here': multiset<T>, i: multiset<T>, o: multiset<T>)
    requires all == here + gone
    requires here' + o == here + i
    ensures all + i == here' + (gone + o)
  {
    assert all + i == (here + i) + gone == (here' + o) + gone;
  }

  /** What a step adds to the popped tasks, the counted bodies and the ready futures. */
  ghost function TaskIn(e: Event): multiset<Task> {
    if e.Take? then multiset{e.task} else multiset{}
  }

  ghost function TaskOut(e: Event): multiset<Task> {
    if e.Resolve? then multiset{e.task} else multiset{}
  }

  ghost function ResultIn(e: Event): multiset<Result> {
    if e.Finish? then multiset{(e.task, e.outcome)} else multiset{}
  }

  ghost function ResultOut(e: Event): multiset<Result> {
    if e.Resolve? then multiset{(e.task, e.outcome)} else multiset{}
  }

  /** The life of a worker, one step at a time. */
  ghost predicate PhaseStep(e: Event, p: Worker, p': Worker) {
    match e
    case NotifyOne(_) => p.Asleep? && p'.Checking?
    case Sleep(_) => p.Checking? && p'.Asleep?
    case Take(_, task) => p.Checking? && p' == Popping(task)
    case CountPop(_) => p.Popping? && p' == Holding(p.task)
    case Exit(_) => p.Checking? && p'.Exited?
    case Finish(_, task, outcome) => p == Holding(task) && p' == Counted(task, outcome)
    case Resolve(_, task, outcome) => p == Counted(task, outcome) && p'.Checking?
    case Wake(_) => p.Asleep? && p'.Checking?
    case _ => false
  }

  lemma MoverPhase(s: Pool, e: Event)
    requires Enabled(s, e) && Mover(e).Some?
    ensures var w := Mover(e).value;
            w < |s.workers| && w < |Apply(s, e).workers| && PhaseStep(e, s.workers[w], Apply(s, e).workers[w])
  {
  }

  lemma PhaseMovesTask(e: Event, p: Worker, p': Worker)
    requires PhaseStep(e, p, p')
    ensures TaskOf(p') + TaskOut(e) == TaskOf(p) + TaskIn(e)
  {
  }

  lemma PhaseMovesResult(e: Event, p: Worker, p': Worker)
    requires PhaseStep(e, p, p')
    ensures CountedOf(p') + ResultOut(e) == CountedOf(p) + ResultIn(e)
  {
  }

  lemma StepMovesTasks(s: Pool, e: Event)
    requires Enabled(s, e)
    ensures InFlight(Apply(s, e)) + TaskOut(e) == InFlight(s) + TaskIn(e)
  {
    if Mover(e).Some? {
      Cargo(s, e);
      MoverPhase(s, e);
      var p, p' := s.workers[Mover(e).value], Apply(s, e).workers[Mover(e).value];
      PhaseMovesTask(e, p, p');
      Exchange(InFlight(s), InFlight(Apply(s, e)), TaskOf(p), TaskOf(p'), TaskIn(e), TaskOut(e));
    } else if e.NotifyAll? {
      GatherWakeAll(s.workers, TaskOf);
    }
  }

  lemma StepMovesResults(s: Pool, e: Event)
    requires Enabled(s, e)
    ensures CountedNotReady(Apply(s, e)) + ResultOut(e) == CountedNotReady(s) + ResultIn(e)
  {
    if Mover(e).Some? {
      Cargo(s, e);
      MoverPhase(s, e);
      var p, p' := s.workers[Mover(e).value], Apply(s, e).workers[Mover(e).value];
      PhaseMovesResult(e, p, p');
      Exchange(CountedNotReady(s), CountedNotReady(Apply(s, e)), CountedOf(p), CountedOf(p'), ResultIn(e), ResultOut(e));
    } else if e.NotifyAll? {
      GatherWakeAll(s.workers, CountedOf);
    }
  }

  lemma StepKeepsOrder(s: Pool, es: seq<Event>, e: Event)
    requires Taken(es) + s.queue == Accepted(es) && Enabled(s, e)
    ensures Taken(es + [e]) + Apply(s, e).queue == Accepted(es + [e])
  {
    assert (es + [e])[..|es|] == es;
    if e.Accept? {
      assert Taken(es + [e]) == Taken(es);
      assert (Taken(es) + s.queue) + [e.task] == Taken(es) + (s.queue + [e.task]);
    } else if e.Take? {
      assert Accepted(es + [e]) == Accepted(es);
      assert s.queue == [e.task] + s.queue[1..];
      assert (Taken(es) + [e.task]) + s.queue[1..] == Taken(es) + s.queue;
    } else {
      assert Taken(es + [e]) == Taken(es) && Accepted(es + [e]) == Accepted(es);
    }
  }

  lemma StepKeepsHistory(s: Pool, es: seq<Event>, e: Event)
    requires History(s, es) && Enabled(s, e)
    ensures History(Apply(s, e), es + [e])
  {
    assert (es + [e])[..|es|] == es;
    var s' := Apply(s, e);
    StepKeepsOrder(s, es, e);
    assert multiset(Taken(es + [e])) == multiset(Taken(es)) + TaskIn(e);
    StepMovesTasks(s, e);
    Balance(multiset(Taken(es)), InFlight(s), ReadyTasks(es), InFlight(s'), TaskIn(e), TaskOut(e));
    StepMovesResults(s, e);
    Balance(Finished(es), CountedNotReady(s), Ready(es), CountedNotReady(s'), ResultIn(e), ResultOut(e));
  }

  /** Every run from the constructor keeps the invariant and accounts for every task. */
  lemma {:induction false} RunKeeps(threads: nat, es: seq<Event>, s: Pool)
    requires Exec(Start(threads), es) == Some(s)
    ensures Inv(s) && History(s, es)
    decreases |es|
  {
    if es == [] {
      StartInv(threads);
      NothingInFlight(if threads == 0 then 1 else threads);
    } else {
      var before, e := es[..|es| - 1], es[|es| - 1];
      var s1 := Exec(Start(threads), before).value;
      RunKeeps(threads, before, s1);
      StepKeepsInv(s1, e);
      StepKeepsHistory(s1, before, e);
      assert before + [e] == es;
    }
  }
}
