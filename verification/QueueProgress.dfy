/**
 The lock-free queue of module LockFreeQueue does not wait for anybody: from every
 reachable state, wherever the other threads have stopped, an operation that runs alone
 comes to its end in a few steps.
 */
module QueueProgress {
  import opened Basics
  import opened LockFreeQueue
  import opened QueueCalls

  /** `n` steps of thread `t`, and of no other. */
  function Alone(s: State, t: Tid, n: nat): State
    decreases n
  {
    if n == 0 || t !in s.threads then s else Alone(Run(s, t), t, n - 1)
  }

  predicate Pushing(pc: Pc)
  {
    pc.PushTail? || pc.PushLink? || pc.PushHelp? || pc.PushSwing? || pc.PushCount?
  }

  predicate Popping(pc: Pc)
  {
    pc.PopHead? || pc.PopTail? || pc.PopNext? || pc.PopHelp? || pc.PopSwap?
  }

  predicate Finishing(pc: Pc) { pc.PopEmpty? || pc.PopValue? || pc.PopFree? || pc.PopCount? }

  // --------------------------------------------------- steps that are still to do

  predicate Lagging(s: State) { s.tail.at + 1 < |s.hist| }

  predicate IsEmpty(s: State) { s.head.at + 1 >= |s.hist| }

  function TailRank(s: State): nat { if Lagging(s) then 7 else 4 }

  function HelpRank(s: State, r: Ref): nat { 1 + if s.tail.node == r.node then 4 else TailRank(s) }

  function HeadRank(s: State): nat
  {
    if IsEmpty(s) then 4 else if s.head.at == s.tail.at then 11 else 7
  }

  function PopHelpRank(s: State, h: Ref): nat { 1 + if s.tail.node == h.node then 7 else HeadRank(s) }

  function SwapRank(s: State, h: Ref): nat { if s.head.node == h.node then 4 else 1 + HeadRank(s) }

  /** At most so many steps are left for a thread at `pc` that runs alone. */
  function Rank(s: State, pc: Pc): nat
  {
    match pc
    case Idle => 0
    case PushTail(_, _) => TailRank(s)
    case PushLink(_, _, r) => if s.NextOf(r.node) == NULL then 3 else 1 + HelpRank(s, r)
    case PushHelp(_, _, r, _) => HelpRank(s, r)
    case PushSwing(_, _, _) => 2
    case PushCount(_) => 1
    case PopHead(_) => HeadRank(s)
    case PopTail(_, h) => if h.at == s.head.at then HeadRank(s) - 1 else 3 + HeadRank(s)
    case PopNext(_, h, r) =>
      if h.node != r.node then 1 + SwapRank(s, h)
      else if s.NextOf(h.node) == NULL then 2
      else 1 + PopHelpRank(s, h)
    case PopEmpty => 1
    case PopHelp(_, h, _) => PopHelpRank(s, h)
    case PopSwap(_, h, _, _) => SwapRank(s, h)
    case PopValue(_, _) => 3
    case PopFree(_, _) => 2
    case PopCount(_) => 1
  }

  /** An operation that need not wait: a pop needs an element. */
  predicate Able(s: State, pc: Pc)
  {
    Pushing(pc) || Finishing(pc) || (Popping(pc) && (pc.try || !IsEmpty(s)))
  }

  /** One step of `t` brings it nearer to its end. */
  ghost predicate Nearer(s: State, t: Tid)
    requires t in s.threads
  {
    var s' := Run(s, t);
    && t in s'.threads
    && Rank(s', s'.threads[t].pc) < Rank(s, s.threads[t].pc)
    && (s'.threads[t].pc.Idle? || Able(s', s'.threads[t].pc))
  }

  lemma PushNearer(s: State, t: Tid)
    requires View(s, t) && Pushing(s.threads[t].pc)
    requires forall r <- Held(s.threads[t].pc) :: r.node == s.tail.node ==> r == s.tail
    ensures Nearer(s, t)
  {
    assert RefOK(s, s.tail);
    match s.threads[t].pc
    case PushTail(_, _) =>
    case PushLink(_, _, r) => assert r in Held(s.threads[t].pc);
    case PushHelp(_, _, r, _) => assert r in Held(s.threads[t].pc);
    case PushSwing(_, _, _) =>
    case PushCount(_) =>
  }

  lemma FinishNearer(s: State, t: Tid)
    requires Running(s, t) && Finishing(s.threads[t].pc)
    ensures Nearer(s, t)
  {
  }

  lemma HeadNearer(s: State, t: Tid)
    requires View(s, t) && s.threads[t].pc.PopHead? && Able(s, s.threads[t].pc)
    ensures Nearer(s, t)
  {
  }

  lemma TailNearer(s: State, t: Tid)
    requires View(s, t) && s.threads[t].pc.PopTail? && Able(s, s.threads[t].pc)
    requires s.threads[t].pc.h.node == s.tail.node ==> s.threads[t].pc.h == s.tail
    requires s.threads[t].pc.h.node == s.head.node ==> s.threads[t].pc.h == s.head
    ensures Nearer(s, t)
  {
    var h := s.threads[t].pc.h;
    assert RefOK(s, h) && RefOK(s, s.head);
    if h.at == s.head.at { assert h == s.head; }
  }

  lemma NextNearer(s: State, t: Tid)
    requires View(s, t) && s.threads[t].pc.PopNext? && Able(s, s.threads[t].pc)
    ensures Nearer(s, t)
  {
    var h := s.threads[t].pc.h;
    assert RefOK(s, h);
    if h.at + 1 < |s.hist| { assert s.hist[h.at + 1] != NULL; }
  }

  lemma HelpNearer(s: State, t: Tid)
    requires View(s, t) && s.threads[t].pc.PopHelp? && Able(s, s.threads[t].pc)
    requires s.threads[t].pc.h.node == s.tail.node ==> s.threads[t].pc.h == s.tail
    ensures Nearer(s, t)
  {
    assert RefOK(s, s.threads[t].pc.h);
  }

  lemma SwapNearer(s: State, t: Tid)
    requires View(s, t) && s.threads[t].pc.PopSwap? && Able(s, s.threads[t].pc)
    ensures Nearer(s, t)
  {
  }

  lemma StepNearer(s: State, t: Tid)
    requires Inv(s) && Running(s, t) && Able(s, s.threads[t].pc)
    ensures Nearer(s, t)
  {
    HasView(s, t);
    var pc := s.threads[t].pc;
    if Pushing(pc) {
      PushNearer(s, t);
    } else if Finishing(pc) {
      FinishNearer(s, t);
    } else {
      match pc
      case PopHead(_) => HeadNearer(s, t);
      case PopTail(_, h) =>
        if h.node == s.head.node { SameNode(s, h, s.head); }
        TailNearer(s, t);
      case PopNext(_, _, _) => NextNearer(s, t);
      case PopHelp(_, _, _) => HelpNearer(s, t);
      case PopSwap(_, _, _, _) => SwapNearer(s, t);
    }
  }

  lemma RankBound(s: State, pc: Pc)
    ensures Rank(s, pc) <= 14
    ensures Pushing(pc) ==> Rank(s, pc) <= 9
  {
  }

  // ---------------------------------------------------------------- the end

  /** Thread `t` has finished the operation it had at `s`, with an answer that its call
      may have, and that is all the answers there are between `s` and `s'`. */
  ghost predicate Finished(s: State, s': State, t: Tid)
    requires t in s.threads
  {
    && t in s'.threads && s'.threads[t].pc.Idle? && s'.calls == s.calls
    && |s'.responses| == |s.responses| + 1 && s'.responses[..|s.responses|] == s.responses
    && s'.responses[|s.responses|].op == s.threads[t].op < |s.calls|
    && Grants(s.calls[s.threads[t].op], s'.responses[|s.responses|].event)
  }

  lemma LastStep(s: State, t: Tid)
    requires Inv(s) && Matching(s) && Running(s, t) && t in Run(s, t).threads && Run(s, t).threads[t].pc.Idle?
    ensures Finished(s, Run(s, t), t)
  {
    hide Inv;
    RunAccounts(s, t);
    RunCalls(s, t);
    assert Step(s, Run(s, t));
    StepMatches(s, Run(s, t));
    assert AnswerOK(Run(s, t), |s.responses|);
  }

  lemma RunCalls(s: State, t: Tid)
    requires Matching(s) && Running(s, t)
    ensures Run(s, t).calls == s.calls
  {
    ServedBy(s, t);
    var call := s.calls[s.threads[t].op];
    if call.Push? { PushObeys(s, t, call); } else { PopObeys(s, t, call); }
  }

  lemma {:induction false} EndsAlone(s: State, t: Tid, n: nat)
    requires Inv(s) && Matching(s) && Running(s, t) && Able(s, s.threads[t].pc) && Rank(s, s.threads[t].pc) <= n
    ensures Finished(s, Alone(s, t, n), t)
    decreases n
  {
    hide Inv, Matching, Run, Able, Rank;
    StepNearer(s, t);
    var s' := Run(s, t);
    if s'.threads[t].pc.Idle? {
      LastStep(s, t);
      StaysIdle(s', t, n - 1);
    } else {
      RunInv(s, t);
      assert Step(s, s');
      StepMatches(s, s');
      EndsAlone(s', t, n - 1);
      RunAccounts(s, t);
      RunCalls(s, t);
    }
  }

  lemma {:induction false} StaysIdle(s: State, t: Tid, n: nat)
    requires t in s.threads && s.threads[t].pc.Idle?
    ensures Alone(s, t, n) == s
    decreases n
  {
    if n > 0 { StaysIdle(s, t, n - 1); }
  }

  /** A push or trypush that runs alone ends after at most 9 steps. */
  lemma PushEndsAlone(run: seq<State>, i: nat, t: Tid)
    requires Execution(run) && i < |run| && Running(run[i], t)
    requires run[i].threads[t].op < |run[i].calls| && run[i].calls[run[i].threads[t].op].Push?
    ensures Finished(run[i], Alone(run[i], t, 9), t)
  {
    Reachable(run, i);
    Matches(run, i);
    ServedBy(run[i], t);
    RankBound(run[i], run[i].threads[t].pc);
    EndsAlone(run[i], t, 9);
  }

  /** A trypop that runs alone ends after at most 14 steps, and so does a pop unless the
      queue is empty. */
  lemma PopEndsAlone(run: seq<State>, i: nat, t: Tid)
    requires Execution(run) && i < |run| && Running(run[i], t)
    requires run[i].threads[t].op < |run[i].calls| && run[i].calls[run[i].threads[t].op].Pop?
    requires run[i].calls[run[i].threads[t].op].try || run[i].head.at + 1 < |run[i].hist|
    ensures Finished(run[i], Alone(run[i], t, 14), t)
  {
    Reachable(run, i);
    Matches(run, i);
    ServedBy(run[i], t);
    RankBound(run[i], run[i].threads[t].pc);
    EndsAlone(run[i], t, 14);
  }
}
