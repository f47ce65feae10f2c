/**
 The growth of the leader-follower pool of module LeaderFollower: what `waiters` counts,
 when assign creates a worker, and that every task that is assigned gets into the queue.
 */
module WorkerCount {
  import opened LeaderFollower

  const UINT32 := 0x1_0000_0000

  // ------------------------------------------------------- what waiters counts

  /** Between the decrement and the increment of `waiters` (lines 31 and 38). */
  predicate Counted(w: Worker) { w.pc.Execute? || w.pc.Return? }

  function Busy(ws: seq<Worker>): nat
  {
    if ws == [] then 0 else Busy(ws[..|ws| - 1]) + if Counted(ws[|ws| - 1]) then 1 else 0
  }

  function Bit(b: bool): nat { if b then 1 else 0 }

  lemma {:induction false} BusyUpdate(ws: seq<Worker>, i: nat, w: Worker)
    requires i < |ws|
    ensures Busy(ws[i := w]) + Bit(Counted(ws[i])) == Busy(ws) + Bit(Counted(w))
  {
    hide Counted;
    var n := |ws| - 1;
    if i == n {
      assert ws[i := w][..n] == ws[..n];
    } else {
      assert ws[i := w][..n] == ws[..n][i := w];
      BusyUpdate(ws[..n], i, w);
    }
  }

  lemma {:induction false} BusySame(ws: seq<Worker>, ws': seq<Worker>)
    requires |ws| == |ws'| && forall j | 0 <= j < |ws| :: Counted(ws[j]) == Counted(ws'[j])
    ensures Busy(ws) == Busy(ws')
  {
    if ws != [] {
      BusySame(ws[..|ws| - 1], ws'[..|ws| - 1]);
    }
  }

  ghost predicate Balanced(waiters: nat, busy: nat, min: nat)
  {
    waiters < UINT32 && (waiters + busy - min) % UINT32 == 0
  }

  lemma BalancedMoves(w: nat, n: nat, min: nat)
    requires Balanced(w, n, min)
    ensures Balanced((w + 0xffff_ffff) % UINT32, n + 1, min)
    ensures n > 0 ==> Balanced((w + 1) % UINT32, n - 1, min)
  {
  }

  lemma WorkerBalances(p: Pool, p': Pool, i: nat, min: nat)
    requires WorkerStep(p, p', i) && Balanced(p.waiters, Busy(p.workers), min)
    ensures Balanced(p'.waiters, Busy(p'.workers), min)
  {
    hide Balanced, Busy;
    var pc := p.workers[i].pc;
    BalancedMoves(p.waiters, Busy(p.workers), min);
    if t, woken :| pc == Signal(t) && SignalStep(p, p', i, t, woken) {
      BusySame(p.workers, p'.workers);
    } else {
      BusyUpdate(p.workers, i, p'.workers[i]);
      assert p'.workers == p.workers[i := p'.workers[i]];
    }
  }

  lemma StepBalances(p: Pool, p': Pool, min: nat)
    requires Step(p, p') && Balanced(p.waiters, Busy(p.workers), min)
    ensures Balanced(p'.waiters, Busy(p'.workers), min)
  {
    hide Balanced, Busy, WorkerStep, CallStep;
    if i :| WorkerStep(p, p', i) {
      WorkerBalances(p, p', i, min);
    } else if i :| SpuriousStep(p, p', i) {
      BusySame(p.workers, p'.workers);
    } else if i: nat :| CallStep(p, p', i) {
      CallBalances(p, p', i, min);
    }
  }

  lemma CallBalances(p: Pool, p': Pool, i: nat, min: nat)
    requires CallStep(p, p', i) && Balanced(p.waiters, Busy(p.workers), min)
    ensures Balanced(p'.waiters, Busy(p'.workers), min)
  {
    hide Balanced, Busy;
    if p.calls[i].Create? {
      BusyMore(p.workers, Worker(p.open, Lock));
    }
  }

  lemma BusyMore(ws: seq<Worker>, w: Worker)
    ensures Busy(ws + [w]) == Busy(ws) + Bit(Counted(w))
  {
    assert (ws + [w])[..|ws|] == ws;
  }

  lemma {:induction false} NobodyBusy(ws: seq<Worker>)
    requires forall i | 0 <= i < |ws| :: ws[i].pc == Lock
    ensures Busy(ws) == 0
  {
    if ws != [] { NobodyBusy(ws[..|ws| - 1]); }
  }

  lemma StepAt(run: seq<Pool>, min: nat, k: nat)
    requires Execution(run, min) && k + 1 < |run|
    ensures Step(run[k], run[k + 1])
  {
  }

  lemma StartsBalanced(run: seq<Pool>, min: nat)
    requires Execution(run, min)
    ensures |run| > 0 && Balanced(run[0].waiters, Busy(run[0].workers), min)
  {
    assert forall j | 0 <= j < min :: run[0].workers[j] == Worker(j, Lock);
    NobodyBusy(run[0].workers);
  }

  /** `waiters` is the number of workers that were spawned less those that are at work on a
      task, modulo 2^32: workers that assign creates are never added to it. */
  lemma {:induction false} WaitersCount(run: seq<Pool>, min: nat, i: nat)
    requires Execution(run, min) && i < |run|
    ensures run[i].waiters < UINT32 && (run[i].waiters + Busy(run[i].workers) - min) % UINT32 == 0
  {
    hide Execution, Step, Busy;
    if i == 0 {
      StartsBalanced(run, min);
    } else {
      WaitersCount(run, min, i - 1);
      StepAt(run, min, i - 1);
      StepBalances(run[i - 1], run[i], min);
    }
  }

  lemma {:induction false} BusyAtMost(ws: seq<Worker>)
    ensures Busy(ws) <= |ws|
  {
    if ws != [] { BusyAtMost(ws[..|ws| - 1]); }
  }

  lemma {:induction false} MaxStays(run: seq<Pool>, min: nat, i: nat)
    requires Execution(run, min) && i < |run|
    ensures run[i].max == run[0].max
  {
    if i > 0 {
      hide Execution, Step;
      MaxStays(run, min, i - 1);
      StepAt(run, min, i - 1);
      MaxKept(run[i - 1], run[i]);
    }
  }

  lemma MaxKept(p: Pool, p': Pool)
    requires Step(p, p')
    ensures p'.max == p.max
  {
    if i :| WorkerStep(p, p', i) { WorkerLeavesCalls(p, p', i); }
  }

  /** assign finds `waiters` zero exactly while as many workers as were spawned are at work,
      no fewer and, once it has created some, no more: with more the counter wraps. */
  lemma NoWaiters(run: seq<Pool>, min: nat, i: nat)
    requires Execution(run, min) && i < |run| && run[0].max < UINT32
    ensures run[i].waiters == 0 <==> Busy(run[i].workers) == min
  {
    WaitersCount(run, min, i);
    MaxStays(run, min, i);
    BusyAtMost(run[i].workers);
    Reachable(run, min, i);
    if run[i].poolMutex >= 0 { assert CallOK(run[i], run[i].poolMutex); }
  }

  // ---------------------------------------------------- when assign creates a worker

  /** Call `c` creates a worker in step `k`: one more worker, about to ask for the mutex. */
  ghost predicate Creates(run: seq<Pool>, k: nat, c: nat)
  {
    && k + 1 < |run| && c < |run[k].calls| && c < |run[k + 1].calls| && run[k].calls[c] != run[k + 1].calls[c]
    && run[k + 1].workers == run[k].workers + [Worker(run[k].open, Lock)]
  }

  /** Call `c` runs from its beginning, at state `i`, to its end, at state `j`. */
  ghost predicate RunsCall(run: seq<Pool>, min: nat, i: nat, j: nat, c: nat)
  {
    && Execution(run, min) && i <= j < |run| && c < |run[i].calls|
    && run[i].calls[c].Push? && c < |run[j].calls| && run[j].calls[c].Done?
  }

  predicate Asking(a: Apc)
  {
    a.Push? || a.ReadWaiters? || a.ReadOpen? || a.LockPool? || a.ReadWaitersAgain? || a.ReadOpenAgain? || a.Create?
  }

  lemma OneCall(p: Pool, p': Pool, i: nat)
    requires CallStep(p, p', i)
    ensures i < |p.calls| && |p'.calls| == |p.calls| && p'.calls == p.calls[i := p'.calls[i]]
  {
  }

  lemma WorkerLeavesCalls(p: Pool, p': Pool, i: nat)
    requires WorkerStep(p, p', i)
    ensures p'.args == p.args && p'.pushed == p.pushed && p'.calls == p.calls && p'.max == p.max
  {
  }

  lemma CallMoves(p: Pool, p': Pool, c: nat)
    requires Step(p, p') && c < |p.calls|
    ensures c < |p'.calls| && (p'.calls[c] != p.calls[c] ==> CallStep(p, p', c))
  {
    hide WorkerStep, CallStep;
    if i :| CallStep(p, p', i) {
      OneCall(p, p', i);
    } else if i :| WorkerStep(p, p', i) {
      WorkerLeavesCalls(p, p', i);
    }
  }

  lemma HasCreated(run: seq<Pool>, k: nat, c: nat)
    requires k + 1 < |run| && c < |run[k].calls| && c < |run[k + 1].calls| && run[k].calls[c] != run[k + 1].calls[c]
    requires run[k + 1].workers == run[k].workers + [Worker(run[k].open, Lock)]
    ensures Creates(run, k, c)
  {
  }

  lemma CreatesMore(run: seq<Pool>, k: nat, c: nat)
    requires Creates(run, k, c)
    ensures k + 1 < |run| && c < |run[k].calls| && c < |run[k + 1].calls|
    ensures run[k].calls[c] != run[k + 1].calls[c] && run[k + 1].workers != run[k].workers
  {
  }

  lemma AsksOn(p: Pool, p': Pool, c: nat)
    requires CallStep(p, p', c) && Asking(p.calls[c]) && p.waiters == 0 && p.open < p.max
    ensures c < |p'.calls| && p'.calls[c] != p.calls[c]
    ensures Asking(p'.calls[c]) || p'.workers == p.workers + [Worker(p.open, Lock)]
  {
  }

  /** As long as `waiters` is zero and a worker may be created, a call of assign goes on to
      create one. */
  lemma {:induction false} StillAsking(run: seq<Pool>, min: nat, i: nat, k: nat, c: nat)
    requires Execution(run, min) && i <= k < |run| && c < |run[i].calls| && run[i].calls[c].Push?
    requires forall l | i <= l < k :: !Creates(run, l, c)
    requires forall l | i <= l < k :: run[l].waiters == 0 && run[l].open < run[l].max
    ensures c < |run[k].calls| && Asking(run[k].calls[c])
    decreases k
  {
    hide Execution, Step, CallStep, Creates;
    if k > i {
      StillAsking(run, min, i, k - 1, c);
      StepAt(run, min, k - 1);
      CallMoves(run[k - 1], run[k], c);
      if run[k].calls[c] != run[k - 1].calls[c] {
        AsksOn(run[k - 1], run[k], c);
        if run[k].workers == run[k - 1].workers + [Worker(run[k - 1].open, Lock)] { HasCreated(run, k - 1, c); }
      }
    }
  }

  /** A call during which `waiters` is zero and a worker may be created, up to its end or
      until it has created one, creates one. */
  lemma BusyPoolGrows(run: seq<Pool>, min: nat, i: nat, j: nat, c: nat)
    requires RunsCall(run, min, i, j, c)
    requires forall k | i <= k < j && (forall l | i <= l < k :: !Creates(run, l, c)) ::
               run[k].waiters == 0 && run[k].open < run[k].max
    ensures exists k :: i <= k < j && Creates(run, k, c)
  {
    if forall k | i <= k < j :: !Creates(run, k, c) {
      StillAsking(run, min, i, j, c);
    }
  }

  /** Where a call can be that creates nobody, because `waiters` is not zero or, if not
      `busy`, because there are enough workers. */
  predicate Passing(a: Apc, busy: bool) { a.Push? || a.ReadWaiters? || a.Done? || (!busy && a.ReadOpen?) }

  predicate Sated(p: Pool, busy: bool) { if busy then p.waiters != 0 else p.open >= p.max }

  lemma PassesOn(p: Pool, p': Pool, c: nat, busy: bool)
    requires CallStep(p, p', c) && Passing(p.calls[c], busy) && Sated(p, busy)
    ensures c < |p'.calls| && Passing(p'.calls[c], busy) && p'.workers == p.workers
  {
  }

  lemma {:induction false} StillPassing(run: seq<Pool>, min: nat, i: nat, j: nat, c: nat, busy: bool)
    requires Execution(run, min) && i <= j < |run| && c < |run[i].calls| && run[i].calls[c].Push?
    requires forall k | i <= k < j :: Sated(run[k], busy)
    ensures c < |run[j].calls| && Passing(run[j].calls[c], busy)
    ensures forall k | i <= k < j :: !Creates(run, k, c)
    decreases j
  {
    hide Execution, Step, CallStep, Sated, Creates;
    if j > i {
      StillPassing(run, min, i, j - 1, c, busy);
      StepAt(run, min, j - 1);
      CallMoves(run[j - 1], run[j], c);
      if run[j].calls[c] != run[j - 1].calls[c] {
        PassesOn(run[j - 1], run[j], c, busy);
      }
      if Creates(run, j - 1, c) { CreatesMore(run, j - 1, c); }
    }
  }

  /** A call during which `waiters` is never zero creates none, and neither does one during
      which `open` is never below `max`. */
  lemma IdlePoolStays(run: seq<Pool>, min: nat, i: nat, j: nat, c: nat)
    requires RunsCall(run, min, i, j, c)
    requires (forall k | i <= k < j :: run[k].waiters != 0) || (forall k | i <= k < j :: run[k].open >= run[k].max)
    ensures forall k | i <= k < j :: !Creates(run, k, c)
  {
    hide Creates;
    StillPassing(run, min, i, j, c, forall k | i <= k < j :: run[k].waiters != 0);
  }

  // ------------------------------------------------------- from assign to the queue

  /** The tasks of calls that have yet to push them. */
  function Unpushed(calls: seq<Apc>): multiset<Task>
  {
    if calls == [] then multiset{}
    else Unpushed(calls[..|calls| - 1]) + Waits(calls[|calls| - 1])
  }

  function Waits(a: Apc): multiset<Task> { if a.Push? then multiset{a.task} else multiset{} }

  lemma {:induction false} UnpushedUpdate(calls: seq<Apc>, i: nat, a: Apc, t: Task)
    requires i < |calls|
    ensures Unpushed(calls[i := a])[t] + Waits(calls[i])[t] == Unpushed(calls)[t] + Waits(a)[t]
  {
    hide Waits;
    var n := |calls| - 1;
    assert Unpushed(calls)[t] == Unpushed(calls[..n])[t] + Waits(calls[n])[t];
    if i == n {
      assert calls[i := a][..n] == calls[..n];
    } else {
      assert calls[i := a][..n] == calls[..n][i := a];
      UnpushedUpdate(calls[..n], i, a, t);
    }
  }

  ghost predicate ArgsOK(p: Pool)
  {
    multiset(p.args) == multiset(p.pushed) + Unpushed(p.calls)
  }

  /** A call pushes its task or goes on without one. */
  ghost predicate Pushes(p: Pool, p': Pool, i: nat)
  {
    && i < |p.calls| && |p'.calls| == |p.calls| && p'.calls == p.calls[i := p'.calls[i]] && p'.args == p.args
    && !p'.calls[i].Push?
    && p'.pushed == if p.calls[i].Push? then p.pushed + [p.calls[i].task] else p.pushed
  }

  lemma CallPushes(p: Pool, p': Pool, i: nat)
    requires CallStep(p, p', i)
    ensures Pushes(p, p', i)
  {
  }

  lemma PushKeepsArgs(p: Pool, p': Pool, i: nat)
    requires ArgsOK(p) && Pushes(p, p', i)
    ensures ArgsOK(p')
  {
    hide Unpushed;
    forall t ensures multiset(p'.args)[t] == (multiset(p'.pushed) + Unpushed(p'.calls))[t] {
      UnpushedUpdate(p.calls, i, p'.calls[i], t);
      assert multiset(p.args)[t] == (multiset(p.pushed) + Unpushed(p.calls))[t];
      assert multiset(p'.pushed)[t] == multiset(p.pushed)[t] + Waits(p.calls[i])[t];
    }
  }

  lemma StepKeepsArgs(p: Pool, p': Pool)
    requires ArgsOK(p) && Step(p, p')
    ensures ArgsOK(p')
  {
    hide WorkerStep, CallStep, Unpushed;
    if i :| WorkerStep(p, p', i) {
      WorkerLeavesCalls(p, p', i);
    } else if i :| SpuriousStep(p, p', i) {
    } else if i :| CallStep(p, p', i) {
      CallPushes(p, p', i);
      PushKeepsArgs(p, p', i);
    } else {
      var t :| AssignStep(p, p', t);
      AssignKeepsArgs(p, p', t);
    }
  }

  lemma AssignKeepsArgs(p: Pool, p': Pool, t: Task)
    requires ArgsOK(p) && AssignStep(p, p', t)
    ensures ArgsOK(p')
  {
    assert p'.calls[..|p.calls|] == p.calls;
  }

  /** Every task that has been assigned is still with its call of assign, or has been put
      into the queue, once. */
  lemma {:induction false} AssignedArePushed(run: seq<Pool>, min: nat, i: nat)
    requires Execution(run, min) && i < |run|
    ensures multiset(run[i].args) == multiset(run[i].pushed) + Unpushed(run[i].calls)
  {
    if i > 0 {
      AssignedArePushed(run, min, i - 1);
      StepAt(run, min, i - 1);
      hide Execution, Step, Unpushed;
      StepKeepsArgs(run[i - 1], run[i]);
    }
  }
}
