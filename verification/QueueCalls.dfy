/**
 What the lock-free queue of module LockFreeQueue answers is what was asked for: the
 record of calls that clients keep, and the log and the responses of the queue.
 */
module QueueCalls {
  import opened Basics
  import opened LockFreeQueue

  /** `event` is an effect that `call` may have. */
  predicate Grants(call: Call, event: Event)
  {
    match event
    case Enq(v) => call == Push(v)
    case Deq(_) => call.Pop?
    case Empty => call == Pop(true)
  }

  /** A thread at `pc` is at work on `call`. */
  predicate Serves(call: Call, pc: Pc)
  {
    match pc
    case Idle => true
    case PushTail(_, v) => call == Push(v)
    case PushLink(_, v, _) => call == Push(v)
    case PushHelp(_, v, _, _) => call == Push(v)
    case PushSwing(_, v, _) => call == Push(v)
    case PushCount(v) => call == Push(v)
    case PopHead(try) => call == Pop(try)
    case PopTail(try, _) => call == Pop(try)
    case PopNext(try, _, _) => call == Pop(try)
    case PopHelp(try, _, _) => call == Pop(try)
    case PopSwap(try, _, _, _) => call == Pop(try)
    case PopEmpty => call == Pop(true)
    case PopValue(_, _) => call.Pop?
    case PopFree(_, _) => call.Pop?
    case PopCount(_) => call.Pop?
  }

  ghost predicate EntryOK(s: State, k: nat)
    requires k < |s.log|
  {
    s.log[k].op < |s.calls| && Grants(s.calls[s.log[k].op], s.log[k].event)
  }

  ghost predicate AnswerOK(s: State, j: nat)
    requires j < |s.responses|
  {
    s.responses[j].op < |s.calls| && Grants(s.calls[s.responses[j].op], s.responses[j].event)
  }

  ghost predicate ThreadServes(s: State, t: Tid)
    requires t in s.threads
  {
    s.threads[t].op < |s.calls| && Serves(s.calls[s.threads[t].op], s.threads[t].pc)
  }

  ghost predicate Matching(s: State)
  {
    && |s.calls| == s.nextOp
    && (forall k | 0 <= k < |s.log| :: EntryOK(s, k))
    && (forall j | 0 <= j < |s.responses| :: AnswerOK(s, j))
    && (forall t | Running(s, t) :: ThreadServes(s, t))
  }

  /** What a step of `t`, at work on `call`, adds to the log and to the responses. */
  ghost predicate Obeys(s: State, s': State, t: Tid, call: Call)
  {
    && t in s.threads && t in s'.threads && s'.threads == s.threads[t := s'.threads[t]]
    && s'.nextOp == s.nextOp && s'.calls == s.calls
    && s'.threads[t].op == s.threads[t].op && Serves(call, s'.threads[t].pc)
    && (s'.log == s.log
        || exists event :: Grants(call, event) && s'.log == s.log + [Entry(s.threads[t].op, event)])
    && (s'.responses == s.responses
        || exists r: Response :: r.op == s.threads[t].op && Grants(call, r.event) && s'.responses == s.responses + [r])
  }

  lemma PushObeys(s: State, t: Tid, call: Call)
    requires Running(s, t) && Serves(call, s.threads[t].pc) && call.Push?
    ensures Obeys(s, Run(s, t), t, call)
  {
    match s.threads[t].pc
    case PushLink(_, v, _) => assert Grants(call, Enq(v));
    case PushCount(v) => Ends(s, t, Enq(v));
    case _ =>
  }

  lemma PopObeys(s: State, t: Tid, call: Call)
    requires Running(s, t) && Serves(call, s.threads[t].pc) && call.Pop?
    ensures Obeys(s, Run(s, t), t, call)
  {
    match s.threads[t].pc
    case PopNext(_, _, _) => assert Run(s, t).threads[t].pc.PopEmpty? ==> Grants(call, Empty);
    case PopSwap(_, _, _, n) => assert Grants(call, Deq(s.ValOf(n)));
    case PopEmpty => Ends(s, t, Empty);
    case PopCount(v) => Ends(s, t, Deq(v));
    case _ =>
  }

  lemma Ends(s: State, t: Tid, event: Event)
    requires t in s.threads
    ensures var th := s.threads[t];
            s.Respond(t, event).responses == s.responses + [Response(th.op, th.invoked, th.lin, |s.log|, event)]
  {
  }

  lemma ObeysMatches(s: State, s': State, t: Tid, call: Call)
    requires Matching(s) && Running(s, t) && Obeys(s, s', t, call)
    requires s.threads[t].op < |s.calls| && call == s.calls[s.threads[t].op]
    ensures Matching(s')
  {
    hide Serves, Grants;
    forall k | 0 <= k < |s'.log| ensures EntryOK(s', k) {
      if k < |s.log| { assert EntryOK(s, k); }
    }
    forall j | 0 <= j < |s'.responses| ensures AnswerOK(s', j) {
      if j < |s.responses| { assert AnswerOK(s, j); }
    }
    forall u | Running(s', u) ensures ThreadServes(s', u) {
      if u != t { assert Running(s, u) && ThreadServes(s, u); }
    }
  }

  lemma CallMatches(s: State, s': State, t: Tid, call: Call)
    requires Matching(s) && t in s.threads && t in s'.threads && s'.threads == s.threads[t := s'.threads[t]]
    requires s'.log == s.log && s'.responses == s.responses
    requires s'.nextOp == s.nextOp + 1 && s'.calls == s.calls + [call]
    requires s'.threads[t].op == s.nextOp && Serves(call, s'.threads[t].pc)
    ensures Matching(s')
  {
    hide Serves, Grants;
    forall k | 0 <= k < |s'.log| ensures EntryOK(s', k) { assert EntryOK(s, k); }
    forall j | 0 <= j < |s'.responses| ensures AnswerOK(s', j) { assert AnswerOK(s, j); }
    forall u | Running(s', u) ensures ThreadServes(s', u) {
      if u != t { assert Running(s, u) && ThreadServes(s, u); }
    }
  }

  lemma StepMatches(s: State, s': State)
    requires Matching(s) && Step(s, s')
    ensures Matching(s')
  {
    hide Run, Matching, Obeys;
    if t :| t in s.threads && !s.threads[t].pc.Idle? && s' == Run(s, t) {
      ServedBy(s, t);
      if s.calls[s.threads[t].op].Push? {
        PushObeys(s, t, s.calls[s.threads[t].op]);
      } else {
        PopObeys(s, t, s.calls[s.threads[t].op]);
      }
      ObeysMatches(s, s', t, s.calls[s.threads[t].op]);
    } else if t, e, v :| t in s.threads && s.threads[t].pc.Idle? && Available(s, e)
                         && s' == Recorded(InvokePush(s, t, e, v), Push(v), {e}) {
      CallMatches(s, s', t, Push(v));
    } else {
      var t, try :| t in s.threads && s.threads[t].pc.Idle? && s' == Recorded(InvokePop(s, t, try), Pop(try), {});
      CallMatches(s, s', t, Pop(try));
    }
  }

  lemma ServedBy(s: State, t: Tid)
    requires Matching(s) && Running(s, t)
    ensures ThreadServes(s, t)
  {
  }

  lemma {:induction false} Matches(run: seq<State>, i: nat)
    requires Execution(run) && i < |run|
    ensures Matching(run[i])
  {
    if i > 0 {
      hide Matching, Step;
      Matches(run, i - 1);
      StepMatches(run[i - 1], run[i]);
    }
  }

  /** In every execution an effect or an answer that enqueues a value belongs to a push
      with just that argument, one that dequeues to a pop or trypop, and one that finds
      the queue empty to a trypop. */
  lemma AnswersMatchCalls(run: seq<State>, i: nat)
    requires Execution(run) && i < |run|
    ensures var s := run[i];
            && |s.calls| == s.nextOp
            && (forall k | 0 <= k < |s.log| ::
                  s.log[k].op < |s.calls| && Grants(s.calls[s.log[k].op], s.log[k].event))
            && (forall j | 0 <= j < |s.responses| ::
                  s.responses[j].op < |s.calls| && Grants(s.calls[s.responses[j].op], s.responses[j].event))
  {
    hide Grants;
    Matches(run, i);
    var s := run[i];
    forall k | 0 <= k < |s.log| ensures s.log[k].op < |s.calls| && Grants(s.calls[s.log[k].op], s.log[k].event) {
      assert EntryOK(s, k);
    }
    forall j | 0 <= j < |s.responses|
      ensures s.responses[j].op < |s.calls| && Grants(s.calls[s.responses[j].op], s.responses[j].event)
    {
      assert AnswerOK(s, j);
    }
  }

  /** A trypop that has read head and tail equal and reads a null next has found the queue
      empty; a pop in its place has done nothing and starts over. */
  lemma EmptyIsAnswered(run: seq<State>, i: nat, t: Tid)
    requires Execution(run) && i < |run| - 1 && Running(run[i], t) && run[i + 1] == Run(run[i], t)
    requires var s, pc := run[i], run[i].threads[t].pc;
             pc.PopNext? && pc.h.node == pc.r.node && s.NextOf(pc.h.node) == NULL
    ensures var s, s', op := run[i], run[i + 1], run[i].threads[t].op;
            && op < |s.calls| && s.calls[op].Pop?
            && if s.calls[op].try then s'.log == s.log + [Entry(op, Empty)]
               else s' == s.Go(t, PopHead(false))
  {
    Matches(run, i);
    assert ThreadServes(run[i], t);
  }
}
