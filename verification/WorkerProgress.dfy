/**
 The leader-follower pool of module LeaderFollower does not come to a standstill: in
 every reachable state with a task in the queue the workers can go on to take it, even
 after signals have been lost, and a worker that leads hands its task on to execute.
 */
module WorkerProgress {
  import opened LeaderFollower

  /** From `p` to `p'` in `n` steps of workers, other than wake-ups without a signal. */
  ghost predicate Path(p: Pool, p': Pool, n: nat)
    decreases n
  {
    if n == 0 then p' == p else exists q :: Works(p, q) && Path(q, p', n - 1)
  }

  ghost predicate Works(p: Pool, q: Pool)
  {
    exists i :: WorkerStep(p, q, i)
  }

  lemma WorksBy(p: Pool, q: Pool, i: nat)
    requires WorkerStep(p, q, i)
    ensures Works(p, q)
  {
  }

  /** The first task in the queue can be taken within `n` steps. */
  ghost predicate CanTake(p: Pool, n: nat)
  {
    exists p' :: TakesWithin(p, p', n)
  }

  ghost predicate TakesWithin(p: Pool, p': Pool, n: nat)
  {
    && p.queue != [] && p'.popped == p.popped + [p.queue[0]]
    && exists k :: 0 <= k <= n && Path(p, p', k)
  }

  lemma OneMore(p: Pool, q: Pool, i: nat, n: nat)
    requires WorkerStep(p, q, i) && q.queue == p.queue && q.popped == p.popped && CanTake(q, n)
    ensures CanTake(p, n + 1)
  {
    WorksBy(p, q, i);
    hide WorkerStep, Works;
    var p' :| TakesWithin(q, p', n);
    var k :| 0 <= k <= n && Path(q, p', k);
    assert Path(p, p', k + 1);
    assert TakesWithin(p, p', n + 1);
  }

  lemma AtPop(p: Pool, i: nat)
    requires i < |p.workers| && p.workers[i].pc.Pop? && p.queue != []
    ensures CanTake(p, 1)
  {
    var q := At(p, i, Reset(p.queue[0])).(queue := p.queue[1..], popped := p.popped + [p.queue[0]]);
    assert WorkerStep(p, q, i);
    WorksBy(p, q, i);
    hide WorkerStep, Works;
    assert Path(q, q, 0);
    assert Path(p, q, 1);
    assert TakesWithin(p, q, 1);
  }

  lemma AtUnlock(p: Pool, i: nat)
    requires i < |p.workers| && p.workers[i].pc.Unlock? && p.queue != []
    ensures CanTake(p, 2)
  {
    hide CanTake;
    var q := At(p, i, Pop).(mutex := NOBODY);
    AtPop(q, i);
    OneMore(p, q, i, 1);
  }

  lemma AtClaim(p: Pool, i: nat)
    requires i < |p.workers| && p.workers[i].pc.Claim? && p.queue != []
    ensures CanTake(p, 3)
  {
    hide CanTake;
    var q := At(p, i, Unlock).(no := p.workers[i].no);
    AtUnlock(q, i);
    OneMore(p, q, i, 2);
  }

  lemma AtCheck(p: Pool, i: nat)
    requires i < |p.workers| && p.workers[i].pc.Check? && p.no < 0 && p.queue != []
    ensures CanTake(p, 4)
  {
    hide CanTake;
    var q := At(p, i, Claim);
    AtClaim(q, i);
    OneMore(p, q, i, 3);
  }

  /** The mutex is free and nobody leads: a worker that wants the mutex gets there. */
  lemma AtLock(p: Pool, i: nat)
    requires i < |p.workers| && (p.workers[i].pc.Lock? || p.workers[i].pc.Woken?)
    requires p.mutex == NOBODY && p.no < 0 && p.queue != []
    ensures CanTake(p, 5)
  {
    hide CanTake;
    var q := At(p, i, Check).(mutex := i);
    AtCheck(q, i);
    OneMore(p, q, i, 4);
  }

  lemma AtReturn(p: Pool, i: nat)
    requires i < |p.workers| && p.workers[i].pc.Return? && p.mutex == NOBODY && p.no < 0 && p.queue != []
    ensures CanTake(p, 6)
  {
    hide CanTake;
    var q := At(p, i, Lock).(waiters := (p.waiters + 1) % 0x1_0000_0000);
    AtLock(q, i);
    OneMore(p, q, i, 5);
  }

  lemma AtExecute(p: Pool, i: nat)
    requires i < |p.workers| && p.workers[i].pc.Execute? && p.mutex == NOBODY && p.no < 0 && p.queue != []
    ensures CanTake(p, 7)
  {
    hide CanTake;
    var t := p.workers[i].pc.task;
    var q := At(p, i, Return).(executed := p.executed + Callable(t), handled := p.handled + multiset{t});
    AtReturn(q, i);
    OneMore(p, q, i, 6);
  }

  lemma AtLeave(p: Pool, i: nat)
    requires i < |p.workers| && p.workers[i].pc.Leave? && p.mutex == NOBODY && p.no < 0 && p.queue != []
    ensures CanTake(p, 8)
  {
    hide CanTake;
    var t := p.workers[i].pc.task;
    var q := At(p, i, Execute(t)).(waiters := (p.waiters + 0xffff_ffff) % 0x1_0000_0000);
    AtExecute(q, i);
    OneMore(p, q, i, 7);
  }

  /** All who are parked are woken. */
  lemma SignalsAll(p: Pool, i: nat) returns (q: Pool)
    requires i < |p.workers| && p.workers[i].pc.Signal?
    ensures WorkerStep(p, q, i) && q == p.(workers := q.workers)
    ensures i < |q.workers| && q.workers[i].pc == Leave(p.workers[i].pc.task)
  {
    var t := p.workers[i].pc.task;
    var r := At(p, i, Leave(t));
    var woken := set j: nat | j < |p.workers| && p.workers[j].pc == Parked;
    q := r.(workers := seq(|p.workers|, j requires 0 <= j < |p.workers| =>
                             if r.workers[j].pc == Parked then r.workers[j].(pc := Woken) else r.workers[j]));
    assert Wakes(r, q, woken);
    if woken == {} {
      forall j: nat ensures !ParkedAt(p, j) { assert ParkedAt(p, j) ==> j in woken; }
    }
    assert SignalStep(p, q, i, t, woken);
  }

  lemma AtSignal(p: Pool, i: nat)
    requires i < |p.workers| && p.workers[i].pc.Signal? && p.mutex == NOBODY && p.no < 0 && p.queue != []
    ensures CanTake(p, 9)
  {
    hide CanTake;
    var q := SignalsAll(p, i);
    AtLeave(q, i);
    OneMore(p, q, i, 8);
  }

  /** Nobody leads and the mutex is free: whoever is up can take the task. */
  lemma FreeMutex(p: Pool, i: nat)
    requires WorkersOK(p) && i < |p.workers| && !Waits(p.workers[i])
    requires p.mutex == NOBODY && p.no < 0 && p.queue != []
    ensures CanTake(p, 9)
  {
    hide CanTake;
    assert WorkerOK(p, i);
    match p.workers[i].pc
    case Lock => AtLock(p, i); Longer(p, 5, 9);
    case Woken => AtLock(p, i); Longer(p, 5, 9);
    case Signal(_) => AtSignal(p, i);
    case Leave(_) => AtLeave(p, i); Longer(p, 8, 9);
    case Execute(_) => AtExecute(p, i); Longer(p, 7, 9);
    case Return => AtReturn(p, i); Longer(p, 6, 9);
  }

  lemma Longer(p: Pool, m: nat, n: nat)
    requires CanTake(p, m) && m <= n
    ensures CanTake(p, n)
  {
    hide Path;
    var p' :| TakesWithin(p, p', m);
    assert TakesWithin(p, p', n);
  }

  /** Nobody leads: who has the mutex lets go of it, or goes on to lead. */
  lemma Leaderless(p: Pool, i: nat)
    requires WorkersOK(p) && i < |p.workers| && !Waits(p.workers[i]) && p.no < 0 && p.queue != []
    ensures CanTake(p, 10)
  {
    hide CanTake;
    if p.mutex == NOBODY {
      FreeMutex(p, i);
      Longer(p, 9, 10);
    } else {
      var u: nat := p.mutex;
      assert WorkerOK(p, u);
      match p.workers[u].pc
      case Check => AtCheck(p, u); Longer(p, 4, 10);
      case Claim => AtClaim(p, u); Longer(p, 3, 10);
      case ToWait =>
        var q := At(p, u, Parked).(mutex := NOBODY);
        WorkerKeepsWorkers(p, q, u);
        FreeMutex(q, i);
        OneMore(p, q, u, 9);
    }
  }

  /** A leader that has its task gives up leadership. */
  lemma AtReset(p: Pool, i: nat)
    requires WorkersOK(p) && i < |p.workers| && p.workers[i].pc.Reset? && p.queue != []
    ensures CanTake(p, 11)
  {
    hide CanTake;
    var q := At(p, i, Signal(p.workers[i].pc.task)).(no := -1);
    WorkerKeepsWorkers(p, q, i);
    Leaderless(q, i);
    OneMore(p, q, i, 10);
  }

  /** Whatever has happened, and although signals may have been lost: while there is a task
      in the queue and a worker in the pool, the workers can take it in at most 11 steps. */
  lemma TaskCanBeTaken(run: seq<Pool>, min: nat, i: nat)
    requires Execution(run, min) && i < |run| && run[i].workers != [] && run[i].queue != []
    ensures exists p', n :: 0 <= n <= 11 && Path(run[i], p', n) && p'.popped == run[i].popped + [run[i].queue[0]]
  {
    Reachable(run, min, i);
    var p := run[i];
    if p.no >= 0 {
      assert WorkerOK(p, p.no);
      match p.workers[p.no].pc
      case Unlock => AtUnlock(p, p.no); Longer(p, 2, 11);
      case Pop => AtPop(p, p.no); Longer(p, 1, 11);
      case Reset(_) => AtReset(p, p.no);
    } else {
      NeverAllParked(run, min, i);
      var j :| 0 <= j < |p.workers| && !Waits(p.workers[j]) && !Leads(p.workers[j]);
      Leaderless(p, j);
      Longer(p, 10, 11);
    }
    hide Path;
    var p' :| TakesWithin(p, p', 11);
  }

  /** A task that has been taken is handled within four steps of the worker that has it. */
  lemma TakenIsHandled(p: Pool, i: nat) returns (q1: Pool, q2: Pool, q3: Pool, q4: Pool)
    requires i < |p.workers| && p.workers[i].pc.Reset?
    ensures WorkerStep(p, q1, i) && WorkerStep(q1, q2, i) && WorkerStep(q2, q3, i) && WorkerStep(q3, q4, i)
    ensures q4.handled == p.handled + multiset{p.workers[i].pc.task}
    ensures q4.executed == p.executed + Callable(p.workers[i].pc.task)
  {
    var t := p.workers[i].pc.task;
    q1 := At(p, i, Signal(t)).(no := -1);
    q2 := SignalsAll(q1, i);
    q3 := At(q2, i, Execute(t)).(waiters := (q2.waiters + 0xffff_ffff) % 0x1_0000_0000);
    q4 := At(q3, i, Return).(executed := q3.executed + Callable(t), handled := q3.handled + multiset{t});
  }
}
