/**
 The pool's own fields, updated in place. Each method is one critical section of the code, or
 the worker loop from stop to return, and performs the corresponding steps of the transition
 system on the ghost state it stands for; the counters are kept in 64 bits.
 */
module ThreadPoolObjects {
  import opened Options
  import opened Words
  import opened ThreadPools

  /** Between the two logs one body has run, been counted, and its future become ready. */
  ghost predicate RanOnce(log: seq<Event>, log': seq<Event>, result: Result) {
    Finished(log') == Finished(log) + multiset{result} && Ready(log') == Ready(log) + multiset{result}
  }

  /** What running every task of a queue comes to. */
  ghost function Outcomes(tasks: seq<Task>, body: Task -> Outcome): seq<Result> {
    seq(|tasks|, i requires 0 <= i < |tasks| => (tasks[i], body(tasks[i])))
  }

  lemma OneMoreOutcome(tasks: seq<Task>, task: Task, body: Task -> Outcome)
    ensures multiset(Outcomes(tasks + [task], body)) == multiset(Outcomes(tasks, body)) + multiset{(task, body(task))}
  {
    assert Outcomes(tasks + [task], body) == Outcomes(tasks, body) + [(task, body(task))];
  }

  lemma WrapPrevious(n: nat)
    requires n > 0
    ensures Sub64(Wrap(n), 1) == Wrap(n - 1)
  {
    WrapSum(n - 1, 1);
  }

  /** A worker pops the front task and releases the lock. */
  lemma PopTurn(s0: Pool, log: seq<Event>, s: Pool, w: nat, task: Task) returns (log': seq<Event>, s': Pool)
    requires Exec(s0, log) == Some(s)
    requires s.lock.Free? && Is(s, w, Checking) && s.queue != [] && task == s.queue[0]
    ensures Exec(s0, log') == Some(s') && Taken(log') == Taken(log) + [task]
    ensures Finished(log') == Finished(log) && Ready(log') == Ready(log)
    ensures s' == Set(s, w, Holding(task)).(queue := s.queue[1..], pending := s.pending - 1)
  {
    log', s' := log + [Take(w, task)], Apply(s, Take(w, task));
    ExecThen(s0, log, s, Take(w, task));
    ExecThen(s0, log', s', CountPop(w));
    ResultsThen(log, Take(w, task));
    ResultsThen(log', CountPop(w));
    log', s' := log' + [CountPop(w)], Apply(s', CountPop(w));
    assert s'.workers == s.workers[w := Holding(task)];
  }

  /** It runs the body, which is counted, and the future becomes ready. */
  lemma RunTurn(s0: Pool, log: seq<Event>, s: Pool, w: nat, task: Task, outcome: Outcome) returns (log': seq<Event>, s': Pool)
    requires Exec(s0, log) == Some(s) && Is(s, w, Holding(task))
    ensures Exec(s0, log') == Some(s') && Taken(log') == Taken(log)
    ensures RanOnce(log, log', (task, outcome))
    ensures s' == Set(s, w, Checking).(completed := s.completed + 1)
  {
    var e1, e2 := Finish(w, task, outcome), Resolve(w, task, outcome);
    log', s' := log + [e1], Apply(s, e1);
    ExecThen(s0, log, s, e1);
    ExecThen(s0, log', s', e2);
    ResultsThen(log, e1);
    ResultsThen(log', e2);
    log', s' := log' + [e2], Apply(s', e2);
    assert s'.workers == s.workers[w := Checking];
  }

  /** A whole pass of the worker loop leaves the pool one task shorter and the count one higher. */
  lemma FullTurn(s0: Pool, log: seq<Event>, s: Pool, w: nat, outcome: Outcome) returns (log': seq<Event>, s': Pool)
    requires Exec(s0, log) == Some(s)
    requires s.lock.Free? && Is(s, w, Checking) && s.queue != []
    ensures Exec(s0, log') == Some(s') && Taken(log') == Taken(log) + [s.queue[0]]
    ensures RanOnce(log, log', (s.queue[0], outcome))
    ensures s' == s.(queue := s.queue[1..], pending := s.pending - 1, completed := s.completed + 1)
  {
    log', s' := PopTurn(s0, log, s, w, s.queue[0]);
    log', s' := RunTurn(s0, log', s', w, s.queue[0], outcome);
    assert s'.workers == s.workers;
  }

  class ThreadPool {
    /** The number of threads in m_workers. */
    const workers: nat
    var tasks: seq<Task>
    var stop: bool
    var pending: U64
    var completed: U64
    /** The state of the transition system this object is in, between critical sections. */
    ghost var pool: Pool

    ghost predicate Valid()
      reads this
    {
      && pool.lock.Free? && pool.pending == |pool.queue| && workers == |pool.workers|
      && tasks == pool.queue && stop == pool.stop == !pool.dtor.Running?
      && pending == Wrap(|tasks|) && completed == Wrap(pool.completed)
    }

    constructor (threads: nat)
      ensures Valid() && pool == Start(threads)
      ensures |pool.workers| == if threads == 0 then 1 else threads
      ensures forall w :: 0 <= w < |pool.workers| ==> pool.workers[w].Checking?
      ensures tasks == [] && !stop && pending == completed == 0
    {
      workers := if threads == 0 then 1 else threads;
      tasks, stop, pending, completed := [], false, 0, 0;
      pool := Start(threads);
    }

    method Size() returns (n: nat)
      requires Valid()
      ensures n == |pool.workers|
    {
      n := workers;
    }

    method Pending() returns (n: U64)
      requires Valid()
      ensures |pool.queue| < W64 ==> n == |pool.queue|
    {
      n := pending;
    }

    method Completed() returns (n: U64)
      requires Valid()
      ensures pool.completed < W64 ==> n == pool.completed
    {
      n := completed;
    }

    /** One more step of the transition system. */
    ghost method Perform(start: Pool, log: seq<Event>, e: Event)
      requires Exec(start, log) == Some(pool) && Enabled(pool, e)
      modifies this`pool
      ensures pool == Apply(old(pool), e)
      ensures Exec(start, log + [e]) == Some(pool)
      ensures Taken(log + [e]) == Taken(log) + if e.Take? then [e.task] else []
      ensures !e.Finish? ==> Finished(log + [e]) == Finished(log)
      ensures !e.Resolve? ==> Ready(log + [e]) == Ready(log)
    {
      ExecThen(start, log, pool, e);
      ResultsThen(log, e);
      pool := Apply(pool, e);
    }

    /** The critical section of `submit`; false stands for the exception. */
    method Submit(task: Task) returns (accepted: bool)
      requires Valid()
      modifies this
      ensures Valid() && (accepted <==> !old(stop))
      ensures Exec(old(pool), if accepted then [Accept(task), CountPush] else [Reject]) == Some(pool)
    {
      if stop {
        Perform(pool, [], Reject);
        return false;
      }
      ghost var before := pool;
      Perform(before, [], Accept(task));
      Perform(before, [Accept(task)], CountPush);
      WrapSum(|tasks|, 1);
      tasks := tasks + [task];
      pending := Add64(pending, 1);
      return true;
    }

    /** The destructor's critical section. */
    method SetStop()
      requires Valid() && !stop
      modifies this
      ensures Valid() && stop
      ensures Exec(old(pool), [ThreadPools.SetStop]) == Some(pool)
    {
      Perform(pool, [], ThreadPools.SetStop);
      stop := true;
    }

    /** One pass of the worker loop that finds a task: pop, run, count, resolve. */
    method Turn(w: nat, body: Task -> Outcome, ghost start: Pool, ghost log: seq<Event>) returns (ghost log': seq<Event>)
      requires Valid() && tasks != [] && Is(pool, w, Checking) && Exec(start, log) == Some(pool)
      modifies this`tasks, this`pending, this`completed, this`pool
      ensures Valid() && Is(pool, w, Checking) && tasks == old(tasks)[1..]
      ensures Exec(start, log') == Some(pool) && Taken(log') == Taken(log) + [old(tasks)[0]]
      ensures RanOnce(log, log', (old(tasks)[0], body(old(tasks)[0])))
      ensures pool.completed == old(pool.completed) + 1
    {
      var task := tasks[0];
      tasks := tasks[1..];
      WrapPrevious(|tasks| + 1);
      pending := Sub64(pending, 1);
      var outcome := body(task);
      WrapSum(pool.completed, 1);
      completed := Add64(completed, 1);
      log', pool := FullTurn(start, log, pool, w, outcome);
    }

    /**
     The worker loop of one worker once stop is set and the others stay away: it takes every
     queued task in order, runs and counts each, and returns with the queue empty.
     */
    method WorkerLoop(w: nat, body: Task -> Outcome) returns (ghost log: seq<Event>)
      requires Valid() && stop && Is(pool, w, Checking)
      modifies this`tasks, this`pending, this`completed, this`pool
      ensures Valid() && tasks == [] && Is(pool, w, Exited)
      ensures Exec(old(pool), log) == Some(pool) && Taken(log) == old(tasks)
      ensures Finished(log) == Ready(log) == multiset(Outcomes(old(tasks), body))
      ensures pool.completed == old(pool.completed) + |old(tasks)|
    {
      log := [];
      ghost var start, k := pool, 0;
      while tasks != []
        invariant Valid() && stop && Is(pool, w, Checking)
        invariant 0 <= k <= |old(tasks)| && tasks == old(tasks)[k..]
        invariant Exec(start, log) == Some(pool) && Taken(log) == old(tasks)[..k]
        invariant Finished(log) == Ready(log) == multiset(Outcomes(old(tasks)[..k], body))
        invariant pool.completed == old(pool.completed) + k
        decreases |tasks|
      {
        OneMoreOutcome(old(tasks)[..k], tasks[0], body);
        log := Turn(w, body, start, log);
        k := k + 1;
        assert old(tasks)[..k] == old(tasks)[..k - 1] + [old(tasks)[k - 1]];
      }
      assert old(tasks)[..k] == old(tasks);
      Perform(start, log, Exit(w));
      log := log + [Exit(w)];
    }
  }
}
