/**
 The leader-follower pool of src/lib/frl_util_threads.cpp while it is not destroyed:
 thread_leader and frl_threads::assign, one access to shared memory at a time, in any
 interleaving.  The task queue is a FIFO queue with atomic operations, which is what
 module LockFreeQueue proves of frl_queue.  A condition variable may wake any of its
 waiters at any time, and a signal wakes at least one if there is one.
 */
module LeaderFollower {

  type Task = int

  const NOBODY := -1
  const NULL: Task := 0

  /** What a worker does next (lines 17-38). */
  datatype Pc =
    | Lock                  // 17
    | Check                 // 18, with the mutex
    | ToWait                // 19, with the mutex: leader->no was not negative
    | Parked                // 19, waiting
    | Woken                 // 19, signalled, wants the mutex back
    | Claim                 // 20, with the mutex: leader->no was negative
    | Unlock                // 21, with the mutex
    | Pop                   // 24
    | Reset(task: Task)     // 27, without the mutex
    | Signal(task: Task)    // 28
    | Leave(task: Task)     // 31
    | Execute(task: Task)   // 34
    | Return                // 38

  /** What a call of assign does next (lines 124-139). */
  datatype Apc =
    | Push(task: Task)
    | ReadWaiters
    | ReadOpen
    | LockPool
    | ReadWaitersAgain
    | ReadOpenAgain
    | Create
    | CountOpen
    | UnlockPool
    | Done

  datatype Worker = Worker(no: nat, pc: Pc)

  /** `pushed` and `popped` are all tasks that ever went into and came out of the queue, in order;
      `executed` are the tasks for which execute has been called, `handled` those that a
      worker has done with; `args` are the arguments of all calls of assign. */
  datatype Pool = Pool(
    workers: seq<Worker>,
    calls: seq<Apc>,
    mutex: int,             // the worker that holds leader->mutex, or NOBODY
    poolMutex: int,         // the call that holds this->mutex, or NOBODY
    no: int,                // leader->no
    waiters: nat,
    open: nat,
    max: nat,
    queue: seq<Task>,
    pushed: seq<Task>,
    popped: seq<Task>,
    executed: multiset<Task>,
    handled: multiset<Task>,
    args: seq<Task>)

  /** frl_threads::spawn (lines 86-99). */
  ghost predicate Spawned(p: Pool, min: nat)
  {
    && |p.workers| == min <= p.max
    && (forall i | 0 <= i < min :: p.workers[i] == Worker(i, Lock))
    && p.calls == [] && p.mutex == NOBODY && p.poolMutex == NOBODY && p.no == -1
    && p.waiters == min % 0x1_0000_0000 && p.open == min
    && p.queue == [] && p.pushed == [] && p.popped == []
    && p.executed == multiset{} && p.handled == multiset{} && p.args == []
  }

  function At(p: Pool, i: nat, pc: Pc): Pool
    requires i < |p.workers|
  {
    p.(workers := p.workers[i := p.workers[i].(pc := pc)])
  }

  /** One step of worker `i` other than a wake-up. */
  ghost predicate WorkerStep(p: Pool, p': Pool, i: nat)
  {
    && i < |p.workers|
    && match p.workers[i].pc
       case Lock => p.mutex == NOBODY && p' == At(p, i, Check).(mutex := i)
       case Check => p' == At(p, i, if p.no >= 0 then ToWait else Claim)
       case ToWait => p' == At(p, i, Parked).(mutex := NOBODY)
       case Parked => false
       case Woken => p.mutex == NOBODY && p' == At(p, i, Check).(mutex := i)
       case Claim => p' == At(p, i, Unlock).(no := p.workers[i].no)
       case Unlock => p' == At(p, i, Pop).(mutex := NOBODY)
       case Pop =>
         && p.queue != []
         && p' == At(p, i, Reset(p.queue[0])).(queue := p.queue[1..], popped := p.popped + [p.queue[0]])
       case Reset(t) => p' == At(p, i, Signal(t)).(no := -1)
       case Signal(t) => exists woken: set<nat> :: SignalStep(p, p', i, t, woken)
       case Leave(t) => p' == At(p, i, Execute(t)).(waiters := (p.waiters + 0xffff_ffff) % 0x1_0000_0000)
       case Execute(t) =>
         p' == At(p, i, Return).(executed := p.executed + Callable(t), handled := p.handled + multiset{t})
       case Return => p' == At(p, i, Lock).(waiters := (p.waiters + 1) % 0x1_0000_0000)
  }

  /** A null pointer is not executed (line 34). */
  function Callable(t: Task): multiset<Task> { if t == NULL then multiset{} else multiset{t} }

  ghost predicate ParkedAt(p: Pool, j: nat) { j < |p.workers| && p.workers[j].pc == Parked }

  /** apr_thread_cond_signal wakes the workers in `woken`, at least one if any waits. */
  ghost predicate SignalStep(p: Pool, p': Pool, i: nat, t: Task, woken: set<nat>)
    requires i < |p.workers|
  {
    && (forall j | j in woken :: ParkedAt(p, j))
    && (woken == {} ==> forall j :: !ParkedAt(p, j))
    && Wakes(At(p, i, Leave(t)), p', woken)
  }

  ghost predicate Wakes(p: Pool, p': Pool, woken: set<nat>)
  {
    && p' == p.(workers := p'.workers) && |p'.workers| == |p.workers|
    && forall j {:trigger p'.workers[j]} | 0 <= j < |p.workers| ::
         p'.workers[j] == if j in woken then p.workers[j].(pc := Woken) else p.workers[j]
  }

  /** A wake-up without a signal. */
  ghost predicate SpuriousStep(p: Pool, p': Pool, i: nat)
  {
    ParkedAt(p, i) && p' == At(p, i, Woken)
  }

  function CallAt(p: Pool, i: nat, pc: Apc): Pool
    requires i < |p.calls|
  {
    p.(calls := p.calls[i := pc])
  }

  ghost predicate CallStep(p: Pool, p': Pool, i: nat)
  {
    && i < |p.calls|
    && match p.calls[i]
       case Push(t) => p' == CallAt(p, i, ReadWaiters).(queue := p.queue + [t], pushed := p.pushed + [t])
       case ReadWaiters => p' == CallAt(p, i, if p.waiters == 0 then ReadOpen else Done)
       case ReadOpen => p' == CallAt(p, i, if p.open < p.max then LockPool else Done)
       case LockPool => p.poolMutex == NOBODY && p' == CallAt(p, i, ReadWaitersAgain).(poolMutex := i)
       case ReadWaitersAgain => p' == CallAt(p, i, if p.waiters == 0 then ReadOpenAgain else UnlockPool)
       case ReadOpenAgain => p' == CallAt(p, i, if p.open < p.max then Create else UnlockPool)
       case Create => p' == CallAt(p, i, CountOpen).(workers := p.workers + [Worker(p.open, Lock)])
       case CountOpen => p' == CallAt(p, i, UnlockPool).(open := p.open + 1)
       case UnlockPool => p' == CallAt(p, i, Done).(poolMutex := NOBODY)
       case Done => false
  }

  /** Anybody may call assign at any time. */
  ghost predicate AssignStep(p: Pool, p': Pool, t: Task)
  {
    p' == p.(calls := p.calls + [Push(t)], args := p.args + [t])
  }

  ghost predicate Step(p: Pool, p': Pool)
  {
    || (exists i :: WorkerStep(p, p', i))
    || (exists i :: SpuriousStep(p, p', i))
    || (exists i :: CallStep(p, p', i))
    || (exists t :: AssignStep(p, p', t))
  }

  ghost predicate Execution(run: seq<Pool>, min: nat)
  {
    && |run| > 0 && Spawned(run[0], min)
    && forall i | 0 <= i < |run| - 1 :: Step(run[i], run[i + 1])
  }

  // ------------------------------------------------------------- the invariant

  /** Between claiming and releasing leadership. */
  predicate Leads(w: Worker) { w.pc.Unlock? || w.pc.Pop? || w.pc.Reset? }

  predicate HoldsMutex(w: Worker) { w.pc.Check? || w.pc.ToWait? || w.pc.Claim? || w.pc.Unlock? }

  predicate Waits(w: Worker) { w.pc.ToWait? || w.pc.Parked? }

  predicate HoldsPool(c: Apc)
  {
    c.ReadWaitersAgain? || c.ReadOpenAgain? || c.Create? || c.CountOpen? || c.UnlockPool?
  }

  /** Worker `i` has its own number, holds the mutex when the code says so, and is named
      by leader->no exactly when it leads. */
  ghost predicate WorkerOK(p: Pool, i: nat)
    requires i < |p.workers|
  {
    && p.workers[i].no == i
    && (HoldsMutex(p.workers[i]) <==> p.mutex == i)
    && (Leads(p.workers[i]) <==> p.no == i)
    && (p.workers[i].pc.Claim? ==> p.no == -1)
  }

  ghost predicate WorkersOK(p: Pool)
  {
    && (forall i {:trigger WorkerOK(p, i)} | 0 <= i < |p.workers| :: WorkerOK(p, i))
    && -1 <= p.mutex < |p.workers| && -1 <= p.no < |p.workers|
  }

  /** Somebody neither waits nor is about to. */
  ghost predicate SomebodyUp(p: Pool)
  {
    p.workers == [] || exists i | 0 <= i < |p.workers| :: !Waits(p.workers[i])
  }

  ghost predicate CallOK(p: Pool, i: nat)
    requires i < |p.calls|
  {
    && (HoldsPool(p.calls[i]) <==> p.poolMutex == i)
    && (p.calls[i].Create? ==> p.open < p.max)
    && (p.calls[i].CountOpen? ==> p.open < p.max && |p.workers| == p.open + 1)
  }

  ghost predicate CallsOK(p: Pool)
  {
    && (forall i {:trigger CallOK(p, i)} | 0 <= i < |p.calls| :: CallOK(p, i))
    && -1 <= p.poolMutex < |p.calls| && p.open <= p.max
    && (p.poolMutex == -1 || !p.calls[p.poolMutex].CountOpen? ==> |p.workers| == p.open)
  }

  function Held(w: Worker): multiset<Task>
  {
    match w.pc
    case Reset(t) => multiset{t}
    case Signal(t) => multiset{t}
    case Leave(t) => multiset{t}
    case Execute(t) => multiset{t}
    case _ => multiset{}
  }

  function AllHeld(ws: seq<Worker>): multiset<Task>
  {
    if ws == [] then multiset{} else AllHeld(ws[..|ws| - 1]) + Held(ws[|ws| - 1])
  }

  /** Tasks leave the queue in the order of assignment, and each of them is held by one
      worker until it has been handled; all but null pointers have then been executed. */
  ghost predicate TasksOK(p: Pool)
  {
    && p.pushed == p.popped + p.queue && multiset(p.popped) == AllHeld(p.workers) + p.handled
    && forall t :: p.executed[t] == if t == NULL then 0 else p.handled[t]
  }

  ghost predicate Inv(p: Pool)
  {
    WorkersOK(p) && SomebodyUp(p) && CallsOK(p) && TasksOK(p)
  }

  // ------------------------------------------------- every step keeps Inv: tasks

  lemma {:induction false} HeldUpdate(ws: seq<Worker>, i: nat, w: Worker, t: Task)
    requires i < |ws|
    ensures AllHeld(ws[i := w])[t] + Held(ws[i])[t] == AllHeld(ws)[t] + Held(w)[t]
  {
    hide Held;
    var n := |ws| - 1;
    var rest := ws[..n];
    assert AllHeld(ws)[t] == AllHeld(rest)[t] + Held(ws[n])[t];
    if i == n {
      assert ws[i := w][..n] == rest;
    } else {
      assert ws[i := w][..n] == rest[i := w];
      HeldUpdate(rest, i, w, t);
    }
  }

  /** A worker moves on without touching the tasks. */
  lemma SameHeld(ws: seq<Worker>, i: nat, w: Worker)
    requires i < |ws| && Held(ws[i]) == Held(w)
    ensures AllHeld(ws[i := w]) == AllHeld(ws)
  {
    forall t ensures AllHeld(ws[i := w])[t] == AllHeld(ws)[t] {
      HeldUpdate(ws, i, w, t);
    }
  }

  lemma {:induction false} WokenHeld(ws: seq<Worker>, ws': seq<Worker>)
    requires |ws| == |ws'| && forall j | 0 <= j < |ws| :: Held(ws[j]) == Held(ws'[j])
    ensures AllHeld(ws) == AllHeld(ws')
  {
    if ws != [] {
      WokenHeld(ws[..|ws| - 1], ws'[..|ws| - 1]);
    }
  }

  lemma PopKeepsTasks(p: Pool, p': Pool, i: nat)
    requires TasksOK(p) && i < |p.workers| && p.workers[i].pc.Pop? && WorkerStep(p, p', i)
    ensures TasksOK(p')
  {
    hide AllHeld;
    var t := p.queue[0];
    assert p.queue == [t] + p.queue[1..];
    forall u ensures multiset(p'.popped)[u] == (AllHeld(p'.workers) + p'.handled)[u] {
      HeldUpdate(p.workers, i, p.workers[i].(pc := Reset(t)), u);
      assert multiset(p'.popped)[u] == multiset(p.popped)[u] + multiset{t}[u];
      assert multiset(p.popped)[u] == (AllHeld(p.workers) + p.handled)[u];
    }
  }

  lemma ExecuteKeepsTasks(p: Pool, p': Pool, i: nat)
    requires TasksOK(p) && i < |p.workers| && p.workers[i].pc.Execute? && WorkerStep(p, p', i)
    ensures TasksOK(p')
  {
    hide AllHeld;
    var t := p.workers[i].pc.task;
    assert p'.workers == p.workers[i := p.workers[i].(pc := Return)] && p'.handled == p.handled + multiset{t};
    assert p'.executed == p.executed + Callable(t);
    hide WorkerStep;
    HandledOne(p, p', i, t);
  }

  lemma HandledOne(p: Pool, p': Pool, i: nat, t: Task)
    requires TasksOK(p) && i < |p.workers| && p.workers[i].pc == Execute(t)
    requires p'.workers == p.workers[i := p.workers[i].(pc := Return)] && p'.handled == p.handled + multiset{t}
    requires p'.executed == p.executed + Callable(t)
    requires p'.queue == p.queue && p'.pushed == p.pushed && p'.popped == p.popped
    ensures TasksOK(p')
  {
    var w, w' := p.workers[i], p.workers[i].(pc := Return);
    assert Held(w) == multiset{t} && Held(w') == multiset{};
    CallableOne(p.executed, p.handled, t);
    hide AllHeld, Held, Callable;
    HeldToHandled(p.workers, i, w', t, multiset(p.popped), p.handled);
  }

  lemma HeldToHandled(ws: seq<Worker>, i: nat, w: Worker, t: Task, popped: multiset<Task>, handled: multiset<Task>)
    requires i < |ws| && Held(ws[i]) == multiset{t} && Held(w) == multiset{} && popped == AllHeld(ws) + handled
    ensures popped == AllHeld(ws[i := w]) + (handled + multiset{t})
  {
    hide AllHeld, Held;
    forall u ensures popped[u] == (AllHeld(ws[i := w]) + (handled + multiset{t}))[u] {
      HeldUpdate(ws, i, w, u);
      assert popped[u] == (AllHeld(ws) + handled)[u];
    }
  }

  lemma CallableOne(executed: multiset<Task>, handled: multiset<Task>, t: Task)
    requires forall u :: executed[u] == if u == NULL then 0 else handled[u]
    ensures forall u :: (executed + Callable(t))[u] == if u == NULL then 0 else (handled + multiset{t})[u]
  {
  }

  lemma SignalKeepsTasks(p: Pool, p': Pool, i: nat, t: Task, woken: set<nat>)
    requires TasksOK(p) && i < |p.workers| && p.workers[i].pc == Signal(t) && SignalStep(p, p', i, t, woken)
    ensures TasksOK(p')
  {
    hide AllHeld;
    WokenHeld(p.workers, p'.workers);
  }

  lemma WorkerKeepsTasks(p: Pool, p': Pool, i: nat)
    requires TasksOK(p) && WorkerStep(p, p', i)
    ensures TasksOK(p')
  {
    hide AllHeld;
    var pc := p.workers[i].pc;
    if pc.Pop? {
      PopKeepsTasks(p, p', i);
    } else if pc.Execute? {
      ExecuteKeepsTasks(p, p', i);
    } else if pc.Signal? {
      var woken :| SignalStep(p, p', i, pc.task, woken);
      SignalKeepsTasks(p, p', i, pc.task, woken);
    } else {
      OtherKeepsTasks(p, p', i);
    }
  }

  /** Only worker `i` changes, and keeps the task it has. */
  ghost predicate MovesOn(p: Pool, p': Pool, i: nat, w: Worker)
    requires i < |p.workers|
  {
    && p'.workers == p.workers[i := w] && Held(w) == Held(p.workers[i])
    && p'.queue == p.queue && p'.pushed == p.pushed && p'.popped == p.popped
    && p'.executed == p.executed && p'.handled == p.handled
  }

  lemma OthersMoveOn(p: Pool, p': Pool, i: nat)
    requires i < |p.workers| && WorkerStep(p, p', i)
    requires !p.workers[i].pc.Pop? && !p.workers[i].pc.Execute? && !p.workers[i].pc.Signal?
    ensures i < |p'.workers| && MovesOn(p, p', i, p'.workers[i])
  {
  }

  lemma OtherKeepsTasks(p: Pool, p': Pool, i: nat)
    requires TasksOK(p) && i < |p.workers| && WorkerStep(p, p', i)
    requires !p.workers[i].pc.Pop? && !p.workers[i].pc.Execute? && !p.workers[i].pc.Signal?
    ensures TasksOK(p')
  {
    hide AllHeld, WorkerStep;
    OthersMoveOn(p, p', i);
    SameHeld(p.workers, i, p'.workers[i]);
  }

  lemma CallKeepsTasks(p: Pool, p': Pool, i: nat)
    requires TasksOK(p) && CallStep(p, p', i)
    ensures TasksOK(p')
  {
    CallLeavesTasks(p, p', i);
    hide CallStep;
    if p'.workers != p.workers {
      hide Held;
      HeldMore(p.workers, p'.workers[|p.workers|]);
    }
  }

  lemma CallLeavesTasks(p: Pool, p': Pool, i: nat)
    requires CallStep(p, p', i)
    ensures p'.workers == p.workers || p'.workers == p.workers + [Worker(p.open, Lock)]
    ensures p'.popped == p.popped && p'.handled == p.handled && p'.executed == p.executed
    ensures (p'.queue == p.queue && p'.pushed == p.pushed)
         || exists t :: p'.queue == p.queue + [t] && p'.pushed == p.pushed + [t]
  {
  }

  lemma HeldMore(ws: seq<Worker>, w: Worker)
    ensures AllHeld(ws + [w]) == AllHeld(ws) + Held(w)
  {
    assert (ws + [w])[..|ws|] == ws;
  }

  // -------------------------------------- every step keeps Inv: who leads, who is up

  lemma WorkerKeepsWorkers(p: Pool, p': Pool, i: nat)
    requires WorkersOK(p) && WorkerStep(p, p', i)
    ensures WorkersOK(p')
  {
    assert WorkerOK(p, i);
    forall j | 0 <= j < |p'.workers| ensures WorkerOK(p', j) {
      assert WorkerOK(p, j);
    }
  }

  lemma WorkerKeepsUp(p: Pool, p': Pool, i: nat)
    requires WorkersOK(p) && SomebodyUp(p) && WorkerStep(p, p', i)
    ensures SomebodyUp(p')
  {
    assert WorkerOK(p, i);
    if p.workers[i].pc.Check? && p.no >= 0 {
      // the leader is another worker, and up
      assert WorkerOK(p, p.no);
      assert !Waits(p'.workers[p.no]);
    } else if p.workers[i].pc.ToWait? {
      var j :| 0 <= j < |p.workers| && !Waits(p.workers[j]);
      assert !Waits(p'.workers[j]);
    } else {
      assert !Waits(p'.workers[i]);
    }
  }

  lemma SpuriousKeeps(p: Pool, p': Pool, i: nat)
    requires Inv(p) && SpuriousStep(p, p', i)
    ensures Inv(p')
  {
    SameHeld(p.workers, i, p'.workers[i]);
    assert WorkerOK(p, i);
    forall j | 0 <= j < |p'.workers| ensures WorkerOK(p', j) {
      assert WorkerOK(p, j);
    }
    assert !Waits(p'.workers[i]);
    CallsSame(p, p');
  }

  /** CallsOK only looks at the calls and the number of workers. */
  lemma CallsSame(p: Pool, p': Pool)
    requires CallsOK(p) && p'.calls == p.calls && p'.poolMutex == p.poolMutex && p'.open == p.open && p'.max == p.max
    requires |p'.workers| == |p.workers|
    ensures CallsOK(p')
  {
    forall j | 0 <= j < |p'.calls| ensures CallOK(p', j) {
      assert CallOK(p, j);
    }
  }

  lemma WorkerKeeps(p: Pool, p': Pool, i: nat)
    requires Inv(p) && WorkerStep(p, p', i)
    ensures Inv(p')
  {
    WorkerKeepsTasks(p, p', i);
    WorkerKeepsWorkers(p, p', i);
    WorkerKeepsUp(p, p', i);
    CallsSame(p, p');
  }

  lemma CallKeepsCalls(p: Pool, p': Pool, i: nat)
    requires CallsOK(p) && CallStep(p, p', i)
    ensures CallsOK(p')
  {
    assert CallOK(p, i);
    forall j | 0 <= j < |p'.calls| ensures CallOK(p', j) {
      assert CallOK(p, j);
    }
  }

  lemma CallKeepsWorkers(p: Pool, p': Pool, i: nat)
    requires WorkersOK(p) && SomebodyUp(p) && CallsOK(p) && CallStep(p, p', i)
    ensures WorkersOK(p') && SomebodyUp(p')
  {
    assert CallOK(p, i);
    if p.calls[i].Create? {
      assert !Waits(p'.workers[|p.workers|]);
    } else if p.workers != [] {
      var j :| 0 <= j < |p.workers| && !Waits(p.workers[j]);
      assert !Waits(p'.workers[j]);
    }
    forall j | 0 <= j < |p'.workers| ensures WorkerOK(p', j) {
      if j < |p.workers| {
        assert WorkerOK(p, j);
      }
    }
  }

  lemma AssignKeeps(p: Pool, p': Pool, t: Task)
    requires Inv(p) && AssignStep(p, p', t)
    ensures Inv(p')
  {
    forall j | 0 <= j < |p'.workers| ensures WorkerOK(p', j) {
      assert WorkerOK(p, j);
    }
    forall j | 0 <= j < |p'.calls| ensures CallOK(p', j) {
      if j < |p.calls| {
        assert CallOK(p, j);
      }
    }
    if p.workers != [] {
      var j :| 0 <= j < |p.workers| && !Waits(p.workers[j]);
      assert !Waits(p'.workers[j]);
    }
  }

  lemma StepKeeps(p: Pool, p': Pool)
    requires Inv(p) && Step(p, p')
    ensures Inv(p')
  {
    if i :| WorkerStep(p, p', i) {
      WorkerKeeps(p, p', i);
    } else if i :| SpuriousStep(p, p', i) {
      SpuriousKeeps(p, p', i);
    } else if i :| CallStep(p, p', i) {
      CallKeepsTasks(p, p', i);
      CallKeepsCalls(p, p', i);
      CallKeepsWorkers(p, p', i);
    } else {
      var t :| AssignStep(p, p', t);
      AssignKeeps(p, p', t);
    }
  }

  lemma {:induction false} SpawnedOK(p: Pool, ws: seq<Worker>)
    requires forall i | 0 <= i < |ws| :: ws[i].pc == Lock
    ensures AllHeld(ws) == multiset{}
  {
    if ws != [] {
      SpawnedOK(p, ws[..|ws| - 1]);
    }
  }

  lemma {:induction false} Reachable(run: seq<Pool>, min: nat, i: nat)
    requires Execution(run, min) && i < |run|
    ensures Inv(run[i])
  {
    if i == 0 {
      SpawnedOK(run[0], run[0].workers);
      forall j | 0 <= j < min ensures WorkerOK(run[0], j) {
        assert run[0].workers[j] == Worker(j, Lock);
      }
      assert min > 0 ==> !Waits(run[0].workers[0]);
    } else {
      Reachable(run, min, i - 1);
      assert Step(run[i - 1], run[i - 1 + 1]);
      StepKeeps(run[i - 1], run[i]);
    }
  }

  // ------------------------------------------------------------------ results

  /** At most one worker is between claiming and releasing leadership, although it is
      released without the mutex; leader->no names it, and is negative when nobody leads. */
  lemma OneLeader(run: seq<Pool>, min: nat, i: nat, w1: nat, w2: nat)
    requires Execution(run, min) && i < |run| && w1 < |run[i].workers| && w2 < |run[i].workers|
    requires Leads(run[i].workers[w1])
    ensures Leads(run[i].workers[w2]) ==> w1 == w2
    ensures run[i].no == w1
  {
    Reachable(run, min, i);
    assert WorkerOK(run[i], w1);
    assert WorkerOK(run[i], w2);
  }

  /** Never do all workers wait at the condition, although a signal may come before the
      wait it was meant for and be lost.  When nobody leads there is a worker that will
      try to; when somebody leads, it is that worker that is up. */
  lemma NeverAllParked(run: seq<Pool>, min: nat, i: nat)
    requires Execution(run, min) && i < |run| && run[i].workers != []
    ensures exists j | 0 <= j < |run[i].workers| :: !Waits(run[i].workers[j])
    ensures run[i].no >= 0 ==> run[i].no < |run[i].workers| && Leads(run[i].workers[run[i].no])
    ensures run[i].no < 0 ==>
              exists j | 0 <= j < |run[i].workers| :: !Waits(run[i].workers[j]) && !Leads(run[i].workers[j])
  {
    Reachable(run, min, i);
    if run[i].no >= 0 {
      assert WorkerOK(run[i], run[i].no);
    } else {
      var j :| 0 <= j < |run[i].workers| && !Waits(run[i].workers[j]);
      assert WorkerOK(run[i], j);
    }
  }

  /** Every task pushed is in the queue, held by one worker, or has been handled, and
      nothing else has; tasks are handed out in the order in which they were queued.
      Those that have been handled have been executed, but for null pointers. */
  lemma TasksAreConserved(run: seq<Pool>, min: nat, i: nat)
    requires Execution(run, min) && i < |run|
    ensures run[i].pushed == run[i].popped + run[i].queue
    ensures multiset(run[i].pushed) == multiset(run[i].queue) + AllHeld(run[i].workers) + run[i].handled
    ensures forall t :: run[i].executed[t] == if t == NULL then 0 else run[i].handled[t]
  {
    Reachable(run, min, i);
  }

  /** No more than max workers are ever created, and each has a number, so an entry of
      thd_stat and thd_config, of its own. */
  lemma NumbersAreDistinct(run: seq<Pool>, min: nat, i: nat, w1: nat, w2: nat)
    requires Execution(run, min) && i < |run| && w1 < w2 < |run[i].workers|
    ensures run[i].workers[w1].no < run[i].workers[w2].no < run[i].max
  {
    Reachable(run, min, i);
    var p := run[i];
    assert WorkerOK(p, w1);
    assert WorkerOK(p, w2);
    if p.poolMutex >= 0 {
      assert CallOK(p, p.poolMutex);
    }
  }

  // ------------------------------------------------------------- lost signals

  /** About to test leader->no, to claim leadership, or to signal to somebody who will. */
  predicate Comes(w: Worker) { w.pc.Lock? || w.pc.Check? || w.pc.Woken? || w.pc.Claim? || w.pc.Signal? }

  /** Nobody leads and somebody waits, but all who do not wait have a task to finish
      first: what comes into the queue stays there although a worker is free. */
  ghost predicate Stranded(p: Pool)
  {
    && p.no < 0
    && (exists j | 0 <= j < |p.workers| :: Waits(p.workers[j]))
    && (forall j | 0 <= j < |p.workers| :: !Comes(p.workers[j]))
  }

  /** Worker `i` is about to signal to nobody: a worker that has seen a leader has yet to
      start its wait, no worker is parked, and no other comes. */
  ghost predicate Misses(p: Pool, i: nat)
  {
    && i < |p.workers| && p.workers[i].pc.Signal? && p.no < 0
    && (exists j | 0 <= j < |p.workers| :: p.workers[j].pc.ToWait?)
    && (forall j | 0 <= j < |p.workers| && j != i :: !p.workers[j].pc.Parked? && !Comes(p.workers[j]))
  }

  lemma SignalStrands(p: Pool, p': Pool, i: nat, t: Task, woken: set<nat>)
    requires WorkersOK(p) && i < |p.workers| && p.workers[i].pc == Signal(t) && SignalStep(p, p', i, t, woken)
    ensures Stranded(p') <==> Misses(p, i)
  {
    if j :| j in woken {
      assert ParkedAt(p, j) && Comes(p'.workers[j]);
    } else {
      forall j | 0 <= j < |p.workers| && j != i
        ensures p'.workers[j] == p.workers[j] && !p.workers[j].pc.Parked?
      {
        assert !ParkedAt(p, j);
      }
      assert p'.workers[i].pc == Leave(t);
      if Misses(p, i) {
        var j :| 0 <= j < |p.workers| && p.workers[j].pc.ToWait?;
        assert Waits(p'.workers[j]);
      }
    }
  }

  /** A worker strands a pool that was not stranded exactly by a signal that misses. */
  lemma WorkerStrands(p: Pool, p': Pool, i: nat)
    requires Inv(p) && !Stranded(p) && WorkerStep(p, p', i)
    ensures Stranded(p') <==> Misses(p, i)
  {
    var pc := p.workers[i].pc;
    assert WorkerOK(p, i);
    if pc.Signal? {
      var woken :| SignalStep(p, p', i, pc.task, woken);
      SignalStrands(p, p', i, pc.task, woken);
    } else if Stranded(p') {
      var j :| 0 <= j < |p'.workers| && Waits(p'.workers[j]);
      assert Waits(p.workers[j]);
      assert !Comes(p'.workers[i]);
      forall k | 0 <= k < |p.workers| ensures !Comes(p.workers[k]) {
        assert !Comes(p'.workers[k]);
      }
    }
  }

  /** Nothing else strands a pool: no wake-up, and no step or call of assign. */
  lemma OthersDoNotStrand(p: Pool, p': Pool, i: nat, t: Task)
    requires !Stranded(p) && (SpuriousStep(p, p', i) || CallStep(p, p', i) || AssignStep(p, p', t))
    ensures !Stranded(p')
  {
    if SpuriousStep(p, p', i) {
      assert Comes(p'.workers[i]);
    } else if CallStep(p, p', i) && p.calls[i].Create? {
      assert Comes(p'.workers[|p.workers|]);
    } else {
      assert p'.workers == p.workers;
    }
  }

  /** A worker ends it exactly by coming back from its task. */
  lemma WorkerReturns(p: Pool, p': Pool, i: nat)
    requires Inv(p) && Stranded(p) && WorkerStep(p, p', i)
    ensures Stranded(p') <==> !p.workers[i].pc.Return?
  {
    var j :| 0 <= j < |p.workers| && Waits(p.workers[j]);
    assert WorkerOK(p, i);
    if p.workers[i].pc.Return? {
      assert Comes(p'.workers[i]);
    } else {
      assert Waits(p'.workers[j]);
    }
  }

  /** assign ends it exactly by creating a worker. */
  lemma CallCreates(p: Pool, p': Pool, i: nat)
    requires Stranded(p) && CallStep(p, p', i)
    ensures Stranded(p') <==> !p.calls[i].Create?
  {
    if p.calls[i].Create? {
      assert Comes(p'.workers[|p.workers|]);
    }
  }

  lemma SpawnedComes(p: Pool, min: nat)
    requires Spawned(p, min)
    ensures !Stranded(p)
  {
    if min > 0 {
      assert Comes(p.workers[0]);
    }
  }

  ghost predicate Missed(run: seq<Pool>, j: int, w: nat)
    requires 0 <= j < |run| - 1
  {
    WorkerStep(run[j], run[j + 1], w) && Misses(run[j], w)
  }

  /** A pool is stranded only since a signal missed. */
  lemma {:induction false} StrandedSince(run: seq<Pool>, min: nat, i: nat) returns (j: nat, w: nat)
    requires Execution(run, min) && i < |run| && Stranded(run[i])
    ensures j < i && Missed(run, j, w) && forall k | j < k <= i :: Stranded(run[k])
  {
    hide Stranded, Spawned, Inv, Step, WorkerStep, Misses;
    if i == 0 {
      SpawnedComes(run[0], min);
    } else {
      var p, p' := run[i - 1], run[i - 1 + 1];
      assert Step(p, p');
      if Stranded(p) {
        j, w := StrandedSince(run, min, i - 1);
      } else {
        Reachable(run, min, i - 1);
        j := i - 1;
        w := StrandingWorker(p, p');
      }
    }
  }

  lemma StrandingWorker(p: Pool, p': Pool) returns (w: nat)
    requires Inv(p) && !Stranded(p) && Stranded(p') && Step(p, p')
    ensures WorkerStep(p, p', w) && Misses(p, w)
  {
    if i :| WorkerStep(p, p', i) {
      WorkerStrands(p, p', i);
      w := i;
    } else if i :| SpuriousStep(p, p', i) {
      OthersDoNotStrand(p, p', i, 0);
    } else if i :| CallStep(p, p', i) {
      OthersDoNotStrand(p, p', i, 0);
    } else {
      var t :| AssignStep(p, p', t);
      OthersDoNotStrand(p, p', 0, t);
    }
  }

  /** Two workers, of at most two, after `calls` calls of assign. */
  function Two(w0: Pc, w1: Pc, calls: seq<Apc>, mutex: int, no: int, waiters: nat, queue: seq<Task>,
               popped: seq<Task>): Pool
  {
    Pool([Worker(0, w0), Worker(1, w1)], calls, mutex, NOBODY, no, waiters, 2, 2, queue, popped + queue, popped,
         multiset{}, multiset{}, if |calls| == 0 then [] else if |calls| == 1 then [7] else [7, 8])
  }

  /** Worker 1 sees that worker 0 leads; before it waits, worker 0 takes task 7, gives
      up leadership and signals to nobody. */
  function Lost(k: int): Pool
  {
    match k
    case 0 => Two(Lock, Lock, [], NOBODY, -1, 2, [], [])
    case 1 => Two(Check, Lock, [], 0, -1, 2, [], [])
    case 2 => Two(Claim, Lock, [], 0, -1, 2, [], [])
    case 3 => Two(Unlock, Lock, [], 0, 0, 2, [], [])
    case 4 => Two(Pop, Lock, [], NOBODY, 0, 2, [], [])
    case 5 => Two(Pop, Check, [], 1, 0, 2, [], [])
    case 6 => Two(Pop, ToWait, [], 1, 0, 2, [], [])
    case 7 => Two(Pop, ToWait, [Push(7)], 1, 0, 2, [], [])
    case 8 => Two(Pop, ToWait, [ReadWaiters], 1, 0, 2, [7], [])
    case 9 => Two(Reset(7), ToWait, [ReadWaiters], 1, 0, 2, [], [7])
    case 10 => Two(Signal(7), ToWait, [ReadWaiters], 1, -1, 2, [], [7])
    case 11 => Two(Leave(7), ToWait, [ReadWaiters], 1, -1, 2, [], [7])
    case 12 => Two(Execute(7), ToWait, [ReadWaiters], 1, -1, 1, [], [7])
    case 13 => Two(Execute(7), Parked, [ReadWaiters], NOBODY, -1, 1, [], [7])
    case 14 => Two(Execute(7), Parked, [ReadWaiters, Push(8)], NOBODY, -1, 1, [], [7])
    case 15 => Two(Execute(7), Parked, [ReadWaiters, ReadWaiters], NOBODY, -1, 1, [8], [7])
    case 16 => Two(Execute(7), Parked, [Done, ReadWaiters], NOBODY, -1, 1, [8], [7])
    case _ => Two(Execute(7), Parked, [Done, Done], NOBODY, -1, 1, [8], [7])
  }

  lemma LostSteps0(k: nat)
    requires 0 <= k < 6
    ensures Step(Lost(k), Lost(k + 1))
  {
    match k
    case 0 => assert WorkerStep(Lost(0), Lost(1), 0);
    case 1 => assert WorkerStep(Lost(1), Lost(2), 0);
    case 2 => assert WorkerStep(Lost(2), Lost(3), 0);
    case 3 => assert WorkerStep(Lost(3), Lost(4), 0);
    case 4 => assert WorkerStep(Lost(4), Lost(5), 1);
    case _ => assert WorkerStep(Lost(5), Lost(6), 1);
  }

  lemma LostSteps6(k: nat)
    requires 6 <= k < 9
    ensures Step(Lost(k), Lost(k + 1))
  {
    match k
    case 6 => assert AssignStep(Lost(6), Lost(7), 7);
    case 7 => assert CallStep(Lost(7), Lost(8), 0);
    case _ => assert WorkerStep(Lost(8), Lost(9), 0);
  }

  lemma LostSteps9(k: nat)
    requires 9 <= k < 12
    ensures Step(Lost(k), Lost(k + 1))
  {
    match k
    case 9 => assert WorkerStep(Lost(9), Lost(10), 0);
    case 10 => assert SignalStep(Lost(10), Lost(11), 0, 7, {}); assert WorkerStep(Lost(10), Lost(11), 0);
    case _ => assert WorkerStep(Lost(11), Lost(12), 0);
  }

  lemma LostSteps12(k: nat)
    requires 12 <= k < 17
    ensures Step(Lost(k), Lost(k + 1))
  {
    match k
    case 12 => assert WorkerStep(Lost(12), Lost(13), 1);
    case 13 => assert AssignStep(Lost(13), Lost(14), 8);
    case 14 => assert CallStep(Lost(14), Lost(15), 1);
    case 15 => assert CallStep(Lost(15), Lost(16), 0);
    case _ => assert CallStep(Lost(16), Lost(17), 1);
  }

  /** A reachable state in which task 8 is queued, nobody leads, one worker is parked
      with no signal to come and the other one is executing task 7: task 8 has to wait
      for task 7 although a worker is free. */
  lemma SignalsCanBeLost()
    ensures Execution(seq(18, k => Lost(k)), 2)
    ensures Lost(17).queue == [8] && Lost(17).no == -1 && Lost(17).calls == [Done, Done]
    ensures Lost(17).workers[0].pc == Execute(7) && Lost(17).workers[1].pc == Parked
    ensures Misses(Lost(10), 0) && Stranded(Lost(17))
  {
    var run := seq(18, k => Lost(k));
    assert Lost(10).workers[1].pc.ToWait? && Waits(Lost(17).workers[1]);
    forall i | 0 <= i < 17 ensures Step(run[i], run[i + 1]) {
      if i < 6 {
        LostSteps0(i);
      } else if i < 9 {
        LostSteps6(i);
      } else if i < 12 {
        LostSteps9(i);
      } else {
        LostSteps12(i);
      }
    }
  }
}
