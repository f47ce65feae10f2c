/**
 The lock-free queue of module LockFreeQueue as a client of the slab pool: which nodes
 it has, that it gives back each node once, and how far queue->tail may lag.
 */
module QueueNodes {
  import opened Basics
  import opened LockFreeQueue

  // ----------------------------------------------------------- who has a node

  /** `n` is the dummy or holds an element. */
  ghost predicate InQueue(s: State, n: Node)
  {
    exists i :: s.head.at <= i < |s.hist| && s.hist[i] == n
  }

  /** Thread `t` has yet to link `n`. */
  ghost predicate CarriedBy(s: State, t: Tid, n: Node)
  {
    t in s.threads && Carries(s.threads[t].pc) && s.threads[t].pc.e == n
  }

  predicate Holds(pc: Pc) { pc.PopValue? || pc.PopFree? }

  /** Thread `t` has taken the dummy `n` out of the queue and has yet to free it. */
  ghost predicate PoppedBy(s: State, t: Tid, n: Node)
  {
    t in s.threads && Holds(s.threads[t].pc) && s.threads[t].pc.h.node == n
  }

  ghost predicate Has(s: State, n: Node)
  {
    InQueue(s, n) || (exists t :: CarriedBy(s, t, n)) || (exists t :: PoppedBy(s, t, n))
  }

  ghost predicate OwnedOK(s: State)
  {
    forall n :: n in s.owned <==> Has(s, n)
  }

  /** Dummies that have been taken out lie before head, and no two threads have the same. */
  ghost predicate PoppedOK(s: State)
  {
    && (forall t | t in s.threads && Holds(s.threads[t].pc) :: s.threads[t].pc.h.at < s.head.at)
    && (forall t, u | t in s.threads && u in s.threads && t != u && Holds(s.threads[t].pc) && Holds(s.threads[u].pc) ::
          s.threads[t].pc.h.at != s.threads[u].pc.h.at)
  }

  /** Who has a node is different from everybody else. */
  lemma OneHolder(s: State, n: Node, t: Tid, u: Tid)
    requires Inv(s) && PoppedOK(s)
    ensures !(InQueue(s, n) && CarriedBy(s, t, n)) && !(InQueue(s, n) && PoppedBy(s, t, n))
    ensures !(CarriedBy(s, t, n) && PoppedBy(s, u, n))
    ensures CarriedBy(s, t, n) && CarriedBy(s, u, n) ==> t == u
    ensures PoppedBy(s, t, n) && PoppedBy(s, u, n) ==> t == u
  {
    if i :| s.head.at <= i < |s.hist| && s.hist[i] == n { assert Tracked(s, Ref(n, i)); }
    if CarriedBy(s, t, n) { assert PrivateNode(s, n, s.threads[t].pc.v); }
    if PoppedBy(s, t, n) { PoppedRef(s, t, n); }
    if PoppedBy(s, u, n) { PoppedRef(s, u, n); }
  }

  lemma PoppedRef(s: State, t: Tid, n: Node)
    requires PoppedBy(s, t, n)
    ensures Tracked(s, s.threads[t].pc.h) && s.threads[t].pc.h.node == n
  {
    assert s.threads[t].pc.h in Held(s.threads[t].pc);
  }

  /** A step of `t` that moves no node. */
  ghost predicate Keeps(s: State, s': State, t: Tid)
  {
    && t in s.threads && t in s'.threads && s'.threads == s.threads[t := s'.threads[t]]
    && s'.hist == s.hist && s'.head == s.head && s'.owned == s.owned
    && (forall n :: CarriedBy(s', t, n) <==> CarriedBy(s, t, n))
    && (Holds(s'.threads[t].pc) <==> Holds(s.threads[t].pc))
    && (Holds(s.threads[t].pc) ==> s'.threads[t].pc.h == s.threads[t].pc.h)
  }

  lemma KeepsNodes(s: State, s': State, t: Tid)
    requires OwnedOK(s) && PoppedOK(s) && Keeps(s, s', t)
    ensures OwnedOK(s') && PoppedOK(s')
  {
    forall n ensures Has(s', n) <==> Has(s, n) {
      forall u ensures CarriedBy(s', u, n) <==> CarriedBy(s, u, n) {
        if u != t { assert u in s.threads <==> u in s'.threads; }
      }
      forall u ensures PoppedBy(s', u, n) <==> PoppedBy(s, u, n) {
        if u != t { assert u in s.threads <==> u in s'.threads; }
      }
      assert InQueue(s', n) <==> InQueue(s, n);
    }
  }

  lemma PushKeeps(s: State, t: Tid)
    requires Running(s, t) && !LinksNow(s, t)
    requires var pc := s.threads[t].pc;
             pc.PushTail? || pc.PushLink? || pc.PushHelp? || pc.PushSwing? || pc.PushCount?
    ensures Keeps(s, Run(s, t), t)
  {
    match s.threads[t].pc
    case PushLink(_, _, _) =>
    case _ =>
  }

  lemma RunKeeps(s: State, t: Tid)
    requires Running(s, t) && !LinksNow(s, t) && !Dequeues(s, t) && !s.threads[t].pc.PopFree?
    ensures Keeps(s, Run(s, t), t)
  {
    var pc := s.threads[t].pc;
    if pc.PushTail? || pc.PushLink? || pc.PushHelp? || pc.PushSwing? || pc.PushCount? {
      PushKeeps(s, t);
    } else {
      match pc
      case PopNext(_, _, _) =>
      case PopSwap(_, _, _, _) =>
      case PopValue(_, _) =>
      case _ =>
    }
  }

  /** The node that `t` carries goes into the queue. */
  lemma LinkNodes(s: State, t: Tid)
    requires OwnedOK(s) && PoppedOK(s) && Shape(s) && LinksNow(s, t)
    ensures OwnedOK(Run(s, t)) && PoppedOK(Run(s, t))
  {
    var s', e := Run(s, t), s.threads[t].pc.e;
    assert s'.hist == s.hist + [e] && s'.owned == s.owned && s'.head == s.head;
    assert s'.threads == s.threads[t := s'.threads[t]] && s'.threads[t].pc.PushSwing?;
    forall n ensures Has(s', n) <==> Has(s, n) {
      OthersSame(s, s', t, n);
      assert CarriedBy(s, t, n) <==> n == e;
      assert s'.hist[|s.hist|] == e;
      assert InQueue(s', n) <==> InQueue(s, n) || n == e by {
        if InQueue(s, n) {
          var i :| s.head.at <= i < |s.hist| && s.hist[i] == n;
          assert s'.hist[i] == n;
        }
      }
    }
  }

  lemma OthersSame(s: State, s': State, t: Tid, n: Node)
    requires t in s.threads && t in s'.threads && s'.threads == s.threads[t := s'.threads[t]]
    ensures forall u | u != t ::
              (CarriedBy(s', u, n) <==> CarriedBy(s, u, n)) && (PoppedBy(s', u, n) <==> PoppedBy(s, u, n))
  {
  }

  /** The old dummy goes from the queue to thread `t`. */
  lemma DequeueNodes(s: State, t: Tid)
    requires OwnedOK(s) && PoppedOK(s) && Shape(s) && Dequeues(s, t) && s.threads[t].pc.h == s.head && Shape(Run(s, t))
    ensures OwnedOK(Run(s, t)) && PoppedOK(Run(s, t))
  {
    var s' := Run(s, t);
    assert s'.hist == s.hist && s'.owned == s.owned && s'.head.at == s.head.at + 1;
    assert s'.threads == s.threads[t := s'.threads[t]] && s'.threads[t].pc.PopValue? && s'.threads[t].pc.h == s.head;
    forall n ensures Has(s', n) <==> Has(s, n) {
      OthersSame(s, s', t, n);
      assert PoppedBy(s', t, n) <==> n == s.head.node;
      assert InQueue(s, n) <==> InQueue(s', n) || n == s.head.node by {
        assert s.hist[s.head.at] == s.head.node;
      }
    }
  }

  /** Thread `t` gives back the dummy it has. */
  ghost predicate Frees(s: State, s': State, t: Tid)
  {
    && t in s.threads && t in s'.threads && s'.threads == s.threads[t := s'.threads[t]]
    && s.threads[t].pc.PopFree? && s'.threads[t].pc.PopCount?
    && s'.hist == s.hist && s'.head == s.head && s'.owned == s.owned - {s.threads[t].pc.h.node}
  }

  lemma FreeFrees(s: State, t: Tid)
    requires Running(s, t) && s.threads[t].pc.PopFree?
    ensures Frees(s, Run(s, t), t)
  {
  }

  lemma FreeNodes(s: State, s': State, t: Tid)
    requires Inv(s) && OwnedOK(s) && PoppedOK(s) && Frees(s, s', t)
    ensures OwnedOK(s')
  {
    var h := s.threads[t].pc.h.node;
    OnlyPopper(s, t, h);
    hide Inv, PoppedOK;
    forall n ensures Has(s', n) <==> Has(s, n) && n != h {
      OthersSame(s, s', t, n);
      assert InQueue(s', n) <==> InQueue(s, n);
    }
  }

  lemma FreePopped(s: State, s': State, t: Tid)
    requires PoppedOK(s) && Frees(s, s', t)
    ensures PoppedOK(s')
  {
  }

  lemma OnlyPopper(s: State, t: Tid, n: Node)
    requires Inv(s) && PoppedOK(s) && PoppedBy(s, t, n)
    ensures !InQueue(s, n) && forall u :: !CarriedBy(s, u, n) && (PoppedBy(s, u, n) ==> u == t)
  {
    hide Inv, PoppedOK;
    OneHolder(s, n, t, t);
    forall u ensures !CarriedBy(s, u, n) && (PoppedBy(s, u, n) ==> u == t) {
      OneHolder(s, n, u, t);
    }
  }

  /** The slab pool hands out a node that the queue does not have. */
  lemma CallNodes(s: State, s': State, t: Tid, e: Node, v: Value)
    requires OwnedOK(s) && PoppedOK(s) && t in s.threads && s.threads[t].pc.Idle?
    requires s' == Recorded(InvokePush(s, t, e, v), Push(v), {e})
    ensures OwnedOK(s') && PoppedOK(s')
  {
    forall n ensures Has(s', n) <==> Has(s, n) || n == e {
      OthersSame(s, s', t, n);
      assert CarriedBy(s', t, n) <==> n == e;
      assert InQueue(s', n) <==> InQueue(s, n);
    }
  }

  lemma NotHad(s: State, e: Node)
    requires Inv(s) && OwnedOK(s) && Available(s, e)
    ensures e !in s.owned
  {
    if InQueue(s, e) {
      var i :| s.head.at <= i < |s.hist| && s.hist[i] == e;
      assert Tracked(s, Ref(e, i));
    }
    if t :| PoppedBy(s, t, e) {
      PoppedRef(s, t, e);
    }
  }

  lemma RunNodes(s: State, t: Tid)
    requires Inv(s) && OwnedOK(s) && PoppedOK(s) && Running(s, t)
    ensures OwnedOK(Run(s, t)) && PoppedOK(Run(s, t))
  {
    hide OwnedOK, PoppedOK, Run;
    if LinksNow(s, t) {
      LinkNodes(s, t);
    } else if Dequeues(s, t) {
      RunInv(s, t);
      HasView(s, t);
      SameNode(s, s.threads[t].pc.h, s.head);
      DequeueNodes(s, t);
    } else if s.threads[t].pc.PopFree? {
      FreeFrees(s, t);
      FreeNodes(s, Run(s, t), t);
      FreePopped(s, Run(s, t), t);
    } else {
      RunKeeps(s, t);
      KeepsNodes(s, Run(s, t), t);
    }
  }

  lemma PopKeeps(s: State, t: Tid, try: bool)
    requires t in s.threads && s.threads[t].pc.Idle?
    ensures Keeps(s, Recorded(InvokePop(s, t, try), Pop(try), {}), t)
  {
  }

  lemma StepNodes(s: State, s': State)
    requires Inv(s) && OwnedOK(s) && PoppedOK(s) && Step(s, s')
    ensures OwnedOK(s') && PoppedOK(s')
  {
    hide OwnedOK, PoppedOK, Inv, Run, Keeps;
    if t :| t in s.threads && !s.threads[t].pc.Idle? && s' == Run(s, t) {
      RunNodes(s, t);
    } else if t, e, v :| t in s.threads && s.threads[t].pc.Idle? && Available(s, e)
                         && s' == Recorded(InvokePush(s, t, e, v), Push(v), {e}) {
      CallNodes(s, s', t, e, v);
    } else {
      var t, try :| t in s.threads && s.threads[t].pc.Idle? && s' == Recorded(InvokePop(s, t, try), Pop(try), {});
      PopKeeps(s, t, try);
      KeepsNodes(s, s', t);
    }
  }

  lemma InitNodes(s: State)
    requires Init(s)
    ensures OwnedOK(s) && PoppedOK(s)
  {
    assert s.hist[0] == s.head.node;
    forall n ensures InQueue(s, n) <==> n == s.head.node { }
  }

  lemma {:induction false} NodesReachable(run: seq<State>, i: nat)
    requires Execution(run) && i < |run|
    ensures OwnedOK(run[i]) && PoppedOK(run[i])
  {
    hide OwnedOK, PoppedOK, Inv, Step, Init;
    if i == 0 {
      InitNodes(run[0]);
    } else {
      Reachable(run, i - 1);
      NodesReachable(run, i - 1);
      StepNodes(run[i - 1], run[i]);
    }
  }

  /** The queue leaks no node: those it has and has not given back are its dummy and its
      elements, those that a push has yet to link, and those that a pop has yet to free;
      and each is in only one of these places. */
  lemma NodesAreConserved(run: seq<State>, i: nat, n: Node, t: Tid, u: Tid)
    requires Execution(run) && i < |run|
    ensures var s := run[i];
            && (n in s.owned <==> InQueue(s, n) || (exists w :: CarriedBy(s, w, n)) || (exists w :: PoppedBy(s, w, n)))
            && !(InQueue(s, n) && (CarriedBy(s, t, n) || PoppedBy(s, t, n)))
            && !(CarriedBy(s, t, n) && PoppedBy(s, u, n))
            && (CarriedBy(s, t, n) && CarriedBy(s, u, n) ==> t == u)
            && (PoppedBy(s, t, n) && PoppedBy(s, u, n) ==> t == u)
  {
    Reachable(run, i);
    NodesReachable(run, i);
    hide Inv, PoppedOK;
    assert n in run[i].owned <==> Has(run[i], n);
    OneHolder(run[i], n, t, u);
  }

  /** What a pop gives back the queue has, and it is neither the dummy nor an element;
      what the slab pool hands out the queue does not have. */
  lemma FreesWhatItHas(run: seq<State>, i: nat, t: Tid)
    requires Execution(run) && i < |run| && Running(run[i], t) && run[i].threads[t].pc.PopFree?
    ensures var s, n := run[i], run[i].threads[t].pc.h.node;
            n in s.owned && !InQueue(s, n) && Run(s, t).owned == s.owned - {n}
  {
    NodesReachable(run, i);
    Reachable(run, i);
    assert PoppedBy(run[i], t, run[i].threads[t].pc.h.node);
    hide Inv, PoppedOK;
    assert Has(run[i], run[i].threads[t].pc.h.node);
    OneHolder(run[i], run[i].threads[t].pc.h.node, t, t);
  }

  lemma GetsWhatItHasNot(run: seq<State>, i: nat, e: Node)
    requires Execution(run) && i < |run| && Available(run[i], e)
    ensures e !in run[i].owned
  {
    Reachable(run, i);
    NodesReachable(run, i);
    NotHad(run[i], e);
  }

  // ------------------------------------------------------- how far tail lags

  /** If tail is not the last node, the push that linked the last node has yet to swing it. */
  ghost predicate Lag(s: State)
  {
    s.tail.at + 1 < |s.hist| ==> exists t :: Swings(s, t)
  }

  ghost predicate Swings(s: State, t: Tid)
  {
    t in s.threads && s.threads[t].pc.PushSwing? && s.threads[t].pc.r == s.tail
  }

  lemma RunLag(s: State, t: Tid)
    requires Inv(s) && Lag(s) && Running(s, t)
    ensures Lag(Run(s, t))
  {
    var s' := Run(s, t);
    RunInv(s, t);
    HasView(s, t);
    TailMoves(s, t);
    if s'.tail.at + 1 < |s'.hist| {
      if LinksNow(s, t) {
        LinkAtEnd(s, t);
        assert Swings(s', t);
      } else {
        var u :| Swings(s, u);
        assert Swings(s', u);
      }
    }
  }

  /** Only linking makes tail lag, and a thread at its swing of the tail ends the lag. */
  lemma TailMoves(s: State, t: Tid)
    requires View(s, t) && Shape(Run(s, t))
    requires forall r <- Held(s.threads[t].pc) :: r.node == s.tail.node ==> r == s.tail
    ensures Moves(s, Run(s, t), t)
  {
    hide Tracked, RefOK;
    var pc := s.threads[t].pc;
    if pc.PushHelp? || pc.PushSwing? || pc.PopHelp? {
      HelpMoves(s, t);
    } else {
      hide SnapshotOK;
      NoHelpMoves(s, t);
    }
  }

  ghost predicate Moves(s: State, s': State, t: Tid)
    requires t in s.threads
  {
    && t in s'.threads && s'.threads == s.threads[t := s'.threads[t]]
    && (if LinksNow(s, t) then
          && |s'.hist| == |s.hist| + 1 && s'.tail == s.tail
          && s'.threads[t].pc.PushSwing? && s'.threads[t].pc.r == s.threads[t].pc.r
        else s'.hist == s.hist)
    && (s'.tail == s.tail || s'.tail.at == s.tail.at + 1)
    && (Swings(s, t) ==> s'.tail.at == s.tail.at + 1)
  }

  lemma HelpMoves(s: State, t: Tid)
    requires Running(s, t)
    requires s.threads[t].pc.PushHelp? || s.threads[t].pc.PushSwing? || s.threads[t].pc.PopHelp?
    requires forall r <- Held(s.threads[t].pc) :: r.node == s.tail.node ==> r == s.tail
    ensures Moves(s, Run(s, t), t)
  {
    match s.threads[t].pc
    case PushHelp(_, _, r, n) => assert r in Held(s.threads[t].pc);
    case PushSwing(_, _, r) => assert r in Held(s.threads[t].pc);
    case PopHelp(_, h, _) => assert h in Held(s.threads[t].pc);
  }

  lemma NoHelpMoves(s: State, t: Tid)
    requires Running(s, t)
    requires !s.threads[t].pc.PushHelp? && !s.threads[t].pc.PushSwing? && !s.threads[t].pc.PopHelp?
    ensures Moves(s, Run(s, t), t)
  {
    match s.threads[t].pc
    case PushLink(_, _, _) =>
    case PopNext(_, _, _) =>
    case PopSwap(_, _, _, _) =>
    case _ =>
  }

  lemma {:induction false} LagReachable(run: seq<State>, i: nat)
    requires Execution(run) && i < |run|
    ensures Lag(run[i])
  {
    hide Inv, Lag, Step, Init;
    if i == 0 {
      LagInit(run[0]);
    } else {
      Reachable(run, i - 1);
      LagReachable(run, i - 1);
      LagStep(run[i - 1], run[i]);
    }
  }

  lemma LagInit(s: State)
    requires Init(s)
    ensures Lag(s)
  {
  }

  lemma LagStep(s: State, s': State)
    requires Inv(s) && Lag(s) && Step(s, s')
    ensures Lag(s')
  {
    hide Inv, Run;
    if t :| t in s.threads && !s.threads[t].pc.Idle? && s' == Run(s, t) {
      RunLag(s, t);
    } else if s'.tail.at + 1 < |s'.hist| {
      var u :| Swings(s, u);
      assert Swings(s', u);
    }
  }

  /** Whenever no push is between linking its node and swinging the tail to it, tail is the
      last node. */
  lemma TailIsLast(run: seq<State>, i: nat)
    requires Execution(run) && i < |run|
    requires forall t | t in run[i].threads :: !run[i].threads[t].pc.PushSwing?
    ensures run[i].tail.at == |run[i].hist| - 1 && run[i].hist[run[i].tail.at] == run[i].tail.node
  {
    Reachable(run, i);
    LagReachable(run, i);
  }
}
