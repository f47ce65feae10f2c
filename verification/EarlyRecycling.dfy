/**
 Why module LockFreeQueue assumes what it does about recycled nodes.  The slab pool
 hands a node out again once frl_slab_pfree has got it back; that a slow pop still holds
 it as its snapshot of queue->head does not keep the pool from doing so.
 */
module EarlyRecycling {
  import opened LockFreeQueue

  /** `e` is not in the queue, not waiting to be linked and not still to be freed. */
  ghost predicate GivenBack(s: State, e: Node)
  {
    && e != NULL && s.head.at < |s.hist| && e !in s.hist[s.head.at..]
    && forall t | t in s.threads ::
         && (Carries(s.threads[t].pc) ==> s.threads[t].pc.e != e)
         && (s.threads[t].pc.PopValue? || s.threads[t].pc.PopFree? ==> s.threads[t].pc.h.node != e)
  }

  /** A step, or a push that gets a node that has only been given back. */
  ghost predicate LooseStep(s: State, s': State)
  {
    || Step(s, s')
    || exists t, e, v :: t in s.threads && s.threads[t].pc.Idle? && GivenBack(s, e)
         && s' == Recorded(InvokePush(s, t, e, v), Push(v), {e})
  }

  ghost predicate LooseExecution(run: seq<State>)
  {
    && |run| > 0 && Init(run[0])
    && forall i | 0 <= i < |run| - 1 :: LooseStep(run[i], run[i + 1])
  }

  function Idling(op: nat, invoked: nat, lin: nat): Thread { Thread(Idle, op, invoked, lin) }

  /** Thread 1 holds its snapshots: head is node 1, tail and next are node 2. */
  function Slow(): Thread { Thread(PopSwap(true, Ref(1, 0), Ref(2, 1), 2), 1, 1, 0) }

  function Stage0(): State
  {
    State(Ref(1, 0), Ref(1, 0), map[1 := NULL], map[], 0, map[0 := Idling(0, 0, 0), 1 := Idling(0, 0, 0)],
          [1], [], 0, [], [], {1})
  }

  function Stage3(): State
  {
    Stage0().(next := map[1 := 2, 2 := NULL], val := map[2 := 10], hist := [1, 2],
              log := [Entry(0, Enq(10))], nextOp := 1, calls := [Push(10)], owned := {1, 2},
              threads := map[0 := Thread(PushSwing(2, 10, Ref(1, 0)), 0, 0, 0), 1 := Idling(0, 0, 0)])
  }

  function Stage5(): State
  {
    State(Ref(1, 0), Ref(2, 1), map[1 := 2, 2 := NULL], map[2 := 10], 1,
          map[0 := Idling(0, 0, 0), 1 := Idling(0, 0, 0)],
          [1, 2], [Entry(0, Enq(10))], 1, [Response(0, 0, 0, 1, Enq(10))], [Push(10)], {1, 2})
  }

  function Stage9(): State
  {
    Stage5().(threads := map[0 := Idling(0, 0, 0), 1 := Slow()], nextOp := 2, calls := [Push(10), Pop(true)])
  }

  function Stage14(): State
  {
    Stage9().(head := Ref(2, 1), log := [Entry(0, Enq(10)), Entry(2, Deq(10))], nextOp := 3,
              calls := [Push(10), Pop(true), Pop(true)],
              threads := map[0 := Thread(PopValue(Ref(1, 0), Ref(2, 1)), 2, 1, 1), 1 := Slow()])
  }

  function Stage17(): State
  {
    State(Ref(2, 1), Ref(2, 1), map[1 := 2, 2 := NULL], map[2 := 10], 0, map[0 := Idling(2, 1, 1), 1 := Slow()],
          [1, 2], [Entry(0, Enq(10)), Entry(2, Deq(10))], 3,
          [Response(0, 0, 0, 1, Enq(10)), Response(2, 1, 1, 2, Deq(10))], [Push(10), Pop(true), Pop(true)], {2})
  }

  function Stage20(): State
  {
    Stage17().(next := map[1 := NULL, 2 := 1], val := map[1 := 20, 2 := 10], hist := [1, 2, 1],
               log := Stage17().log + [Entry(3, Enq(20))], nextOp := 4,
               calls := [Push(10), Pop(true), Pop(true), Push(20)], owned := {1, 2},
               threads := map[0 := Thread(PushSwing(1, 20, Ref(2, 1)), 3, 2, 2), 1 := Slow()])
  }

  function Stage22(): State
  {
    State(Ref(2, 1), Ref(1, 2), map[1 := NULL, 2 := 1], map[1 := 20, 2 := 10], 1,
          map[0 := Idling(3, 2, 2), 1 := Slow()],
          [1, 2, 1], Stage17().log + [Entry(3, Enq(20))], 4, Stage17().responses + [Response(3, 2, 2, 3, Enq(20))],
          [Push(10), Pop(true), Pop(true), Push(20)], {1, 2})
  }

  function Stage27(): State
  {
    Stage22().(head := Ref(1, 2), log := Stage22().log + [Entry(4, Deq(20))], nextOp := 5,
               calls := [Push(10), Pop(true), Pop(true), Push(20), Pop(true)],
               threads := map[0 := Thread(PopValue(Ref(2, 1), Ref(1, 2)), 4, 3, 3), 1 := Slow()])
  }

  function Stage30(): State
  {
    Stage22().(head := Ref(1, 2), nelts := 0, threads := map[0 := Idling(4, 3, 3), 1 := Slow()],
               log := Stage22().log + [Entry(4, Deq(20))], nextOp := 5,
               calls := [Push(10), Pop(true), Pop(true), Push(20), Pop(true)], owned := {1},
               responses := Stage22().responses + [Response(4, 3, 3, 4, Deq(20))])
  }

  function Stage34(): State
  {
    Stage30().(head := Ref(2, 1), owned := {}, nelts := UINT32 - 1,
               threads := map[0 := Idling(4, 3, 3), 1 := Idling(1, 1, 4)],
               log := Stage30().log + [Entry(1, Deq(10))],
               responses := Stage30().responses + [Response(1, 1, 4, 5, Deq(10))])
  }

  ghost predicate Steps(run: seq<State>)
  {
    forall i | 0 <= i < |run| - 1 :: LooseStep(run[i], run[i + 1])
  }

  lemma Goes(s: State, t: Tid)
    requires t in s.threads && !s.threads[t].pc.Idle?
    ensures LooseStep(s, Run(s, t))
  {
  }

  lemma Starts(s: State, t: Tid)
    requires t in s.threads && s.threads[t].pc.Idle?
    ensures LooseStep(s, Recorded(InvokePop(s, t, true), Pop(true), {}))
  {
  }

  lemma Pushes(s: State, t: Tid, e: Node, v: Value)
    requires t in s.threads && s.threads[t].pc.Idle? && GivenBack(s, e)
    ensures LooseStep(s, Recorded(InvokePush(s, t, e, v), Push(v), {e}))
  {
  }

  /** Node 1 has been given back, but thread 1 still depends on it. */
  lemma Node1GivenBack()
    ensures GivenBack(Stage17(), 1) && !Available(Stage17(), 1)
  {
    assert Stage17().hist[1..] == [2];
    assert Tracked(Stage17(), Ref(1, 0)) by {
      assert Ref(1, 0) in Held(Stage17().threads[1].pc);
    }
  }

  lemma Joined(r1: seq<State>, r2: seq<State>)
    requires |r1| >= 1 && |r2| >= 1 && r1[|r1| - 1] == r2[0] && Steps(r1) && Steps(r2)
    ensures Steps(r1 + r2[1..])
  {
    hide LooseStep;
    var r := r1 + r2[1..];
    forall i | 0 <= i < |r| - 1 ensures LooseStep(r[i], r[i + 1]) {
      if i >= |r1| - 1 {
        var j := i - (|r1| - 1);
        assert r[i] == r2[j] && r[i + 1] == r2[j + 1];
      }
    }
  }

  /** Thread 0 links node 2 with value 10 ... */
  lemma Leg0() returns (run: seq<State>)
    ensures |run| == 4 && run[0] == Stage0() && run[3] == Stage3() && Steps(run)
  {
    hide LooseStep;
    var s0 := Stage0();
    Pushes(s0, 0, 2, 10);
    var s1 := Recorded(InvokePush(s0, 0, 2, 10), Push(10), {2});
    assert s1.threads[0].pc == PushTail(2, 10);
    Goes(s1, 0);
    var s2 := Run(s1, 0);
    assert s2.threads[0].pc == PushLink(2, 10, Ref(1, 0));
    Goes(s2, 0);
    var s3 := Run(s2, 0);
    run := [s0, s1, s2, s3];
  }

  /** ... and finishes its push. */
  lemma Leg3() returns (run: seq<State>)
    ensures |run| == 3 && run[0] == Stage3() && run[2] == Stage5() && Steps(run)
  {
    hide LooseStep;
    var s0 := Stage3();
    assert s0.threads[0].pc == PushSwing(2, 10, Ref(1, 0));
    Goes(s0, 0);
    var s1 := Run(s0, 0);
    assert s1.threads[0].pc == PushCount(10);
    Goes(s1, 0);
    var s2 := Run(s1, 0);
    run := [s0, s1, s2];
  }

  /** Thread 1 reads head, tail and next, and stops before its swap. */
  lemma Leg5() returns (run: seq<State>)
    ensures |run| == 5 && run[0] == Stage5() && run[4] == Stage9() && Steps(run)
  {
    hide LooseStep;
    var s0 := Stage5();
    Starts(s0, 1);
    var s1 := Recorded(InvokePop(s0, 1, true), Pop(true), {});
    assert s1.threads[1].pc == PopHead(true);
    Goes(s1, 1);
    var s2 := Run(s1, 1);
    assert s2.threads[1].pc == PopTail(true, Ref(1, 0));
    Goes(s2, 1);
    var s3 := Run(s2, 1);
    assert s3.threads[1].pc == PopNext(true, Ref(1, 0), Ref(2, 1));
    Goes(s3, 1);
    var s4 := Run(s3, 1);
    run := [s0, s1, s2, s3, s4];
  }

  /** A trypop that runs alone to its swap of the head. */
  lemma TakesFirst(s: State, t: Tid) returns (run: seq<State>)
    requires t in s.threads && s.threads[t].pc.Idle? && s.head.node != s.tail.node
    ensures |run| == 6 && run[0] == s && Steps(run)
    ensures var n, k := s.NextOf(s.head.node), |s.log|;
            run[5] == s.(head := Ref(n, s.head.at + 1), log := s.log + [Entry(s.nextOp, Deq(s.ValOf(n)))],
                         threads := s.threads[t := Thread(PopValue(s.head, Ref(n, s.head.at + 1)), s.nextOp, k, k)],
                         nextOp := s.nextOp + 1, calls := s.calls + [Pop(true)])
  {
    hide LooseStep;
    Starts(s, t);
    var s1 := Recorded(InvokePop(s, t, true), Pop(true), {});
    assert s1.threads[t].pc == PopHead(true);
    Goes(s1, t);
    var s2 := Run(s1, t);
    assert s2.threads[t].pc == PopTail(true, s.head);
    Goes(s2, t);
    var s3 := Run(s2, t);
    assert s3.threads[t].pc == PopNext(true, s.head, s.tail);
    Goes(s3, t);
    var s4 := Run(s3, t);
    assert s4.threads[t].pc == PopSwap(true, s.head, s.tail, s.NextOf(s.head.node));
    Goes(s4, t);
    var s5 := Run(s4, t);
    run := [s, s1, s2, s3, s4, s5];
  }

  /** Thread 0 pops 10 ... */
  lemma Leg9() returns (run: seq<State>)
    ensures |run| == 6 && run[0] == Stage9() && run[5] == Stage14() && Steps(run)
  {
    hide Steps;
    run := TakesFirst(Stage9(), 0);
  }

  /** ... and frees node 1. */
  lemma Leg14() returns (run: seq<State>)
    ensures |run| == 4 && run[0] == Stage14() && run[3] == Stage17() && Steps(run)
  {
    hide LooseStep;
    var s0 := Stage14();
    assert s0.threads[0].pc == PopValue(Ref(1, 0), Ref(2, 1));
    Goes(s0, 0);
    var s1 := Run(s0, 0);
    assert s1.threads[0].pc == PopFree(Ref(1, 0), 10);
    Goes(s1, 0);
    var s2 := Run(s1, 0);
    assert s2.threads[0].pc == PopCount(10);
    Goes(s2, 0);
    var s3 := Run(s2, 0);
    run := [s0, s1, s2, s3];
  }

  /** Thread 0 gets node 1, although thread 1 still has it as its head, and links it with
      value 20 ... */
  lemma Leg17() returns (run: seq<State>)
    ensures |run| == 4 && run[0] == Stage17() && run[3] == Stage20() && Steps(run)
  {
    hide LooseStep;
    var s0 := Stage17();
    hide GivenBack, Available;
    Node1GivenBack();
    Pushes(s0, 0, 1, 20);
    var s1 := Recorded(InvokePush(s0, 0, 1, 20), Push(20), {1});
    assert s1.threads[0].pc == PushTail(1, 20);
    Goes(s1, 0);
    var s2 := Run(s1, 0);
    assert s2.threads[0].pc == PushLink(1, 20, Ref(2, 1));
    Goes(s2, 0);
    var s3 := Run(s2, 0);
    run := [s0, s1, s2, s3];
  }

  /** ... and finishes its push. */
  lemma Leg20() returns (run: seq<State>)
    ensures |run| == 3 && run[0] == Stage20() && run[2] == Stage22() && Steps(run)
  {
    hide LooseStep;
    var s0 := Stage20();
    assert s0.threads[0].pc == PushSwing(1, 20, Ref(2, 1));
    Goes(s0, 0);
    var s1 := Run(s0, 0);
    assert s1.threads[0].pc == PushCount(20);
    Goes(s1, 0);
    var s2 := Run(s1, 0);
    run := [s0, s1, s2];
  }

  /** Thread 0 pops 20 ... */
  lemma Leg22() returns (run: seq<State>)
    ensures |run| == 6 && run[0] == Stage22() && run[5] == Stage27() && Steps(run)
  {
    hide Steps;
    run := TakesFirst(Stage22(), 0);
  }

  /** ... and frees node 2. */
  lemma Leg27() returns (run: seq<State>)
    ensures |run| == 4 && run[0] == Stage27() && run[3] == Stage30() && Steps(run)
  {
    hide LooseStep;
    var s0 := Stage27();
    assert s0.threads[0].pc == PopValue(Ref(2, 1), Ref(1, 2));
    Goes(s0, 0);
    var s1 := Run(s0, 0);
    assert s1.threads[0].pc == PopFree(Ref(2, 1), 20);
    Goes(s1, 0);
    var s2 := Run(s1, 0);
    assert s2.threads[0].pc == PopCount(20);
    Goes(s2, 0);
    var s3 := Run(s2, 0);
    run := [s0, s1, s2, s3];
  }

  /** Thread 1 finds node 1 at the head again, swaps in node 2 and pops 10. */
  lemma Leg30() returns (run: seq<State>)
    ensures |run| == 5 && run[0] == Stage30() && run[4] == Stage34() && Steps(run)
  {
    hide LooseStep;
    var s0 := Stage30();
    assert s0.threads[1].pc == PopSwap(true, Ref(1, 0), Ref(2, 1), 2);
    Goes(s0, 1);
    var s1 := Run(s0, 1);
    assert s1.threads[1].pc == PopValue(Ref(1, 0), Ref(2, 1));
    Goes(s1, 1);
    var s2 := Run(s1, 1);
    assert s2.threads[1].pc == PopFree(Ref(1, 0), 10);
    Goes(s2, 1);
    var s3 := Run(s2, 1);
    assert s3.threads[1].pc == PopCount(10);
    Goes(s3, 1);
    var s4 := Run(s3, 1);
    run := [s0, s1, s2, s3, s4];
  }

  /** Were a node recycled as soon as it is given back, value 10, pushed once, could be
      popped twice, and queue->head could come to be a node that is free. */
  lemma EarlyRecyclingBreaksFifo() returns (run: seq<State>)
    ensures LooseExecution(run)
    ensures var s := run[|run| - 1];
            && |s.responses| == 5
            && s.responses[0].event == Enq(10) && s.responses[2].event == Enq(20)
            && s.responses[1].event == Deq(10) && s.responses[4].event == Deq(10) && s.responses[3].event == Deq(20)
            && s.head.node == 2 && s.tail.node == 1 && s.NextOf(1) == NULL
  {
    var r0 := Leg0();
    var r3 := Leg3();
    var r5 := Leg5();
    var r9 := Leg9();
    var r14 := Leg14();
    var r17 := Leg17();
    var r20 := Leg20();
    var r22 := Leg22();
    var r27 := Leg27();
    var r30 := Leg30();
    assert Init(Stage0()) && Stage34().NextOf(1) == NULL;
    hide LooseStep, Steps, Stage3, Stage5, Stage9, Stage14, Stage17, Stage20, Stage22, Stage27, Stage30;
    Joined(r0, r3);
    var q3 := r0 + r3[1..];
    Joined(q3, r5);
    var q5 := q3 + r5[1..];
    Joined(q5, r9);
    var q9 := q5 + r9[1..];
    Joined(q9, r14);
    var q14 := q9 + r14[1..];
    Joined(q14, r17);
    var q17 := q14 + r17[1..];
    Joined(q17, r20);
    var q20 := q17 + r20[1..];
    Joined(q20, r22);
    var q22 := q20 + r22[1..];
    Joined(q22, r27);
    var q27 := q22 + r27[1..];
    Joined(q27, r30);
    run := q27 + r30[1..];
    Whole(run);
  }

  lemma Whole(run: seq<State>)
    requires Steps(run) && |run| > 0 && Init(run[0])
    ensures LooseExecution(run)
  {
  }
}
