/**
 The lock-free half of src/lib/frl_queue.c, as a state machine whose steps are
 single accesses to shared memory.

 Every thread runs push, trypush, trypop or pop; a step of thread `t` performs
 exactly one read, compare-and-swap or counter update, so all interleavings of
 single accesses are covered.  Nodes are recycled through the slab pool: a node
 may be handed out again as soon as no unfinished operation still depends on it
 (see `Available`, the one assumption about recycling).

 History variables, which no step reads to decide anything: the position `at`
 carried by a `Ref`, the sequence `hist` of all nodes ever linked, the `log` of
 linearization points, the operation numbers in `Thread` and `Response`, and the
 record of `calls` and `owned` nodes, which `Step` keeps for clients and slab pool.
 */
module LockFreeQueue {
  import opened Basics

  type Node = nat   // address of a frl_queue_entry_t
  type Value = int  // the void* stored by a client
  type Tid = nat

  const NULL: Node := 0
  const UINT32 := 0x1_0000_0000

  /** A node address together with the position at which it was linked. */
  datatype Ref = Ref(node: Node, at: nat)

  /** What a client asks for, and with which argument; push and trypush are the same. */
  datatype Call = Push(v: Value) | Pop(try: bool)

  /** What the next step of a thread will do; comments give lines of frl_queue.c. */
  datatype Pc =
    | Idle
    | PushTail(e: Node, v: Value)                        // 14, 142: read queue->tail
    | PushLink(e: Node, v: Value, r: Ref)                // 15, 143: swap tail->next from null to e
    | PushHelp(e: Node, v: Value, r: Ref, n: Node)       // 18, 146: swap queue->tail from r to n
    | PushSwing(e: Node, v: Value, r: Ref)               // 20, 148: swap queue->tail from r to e
    | PushCount(v: Value)                                // 21, 149: increment nelts, return
    | PopHead(try: bool)                                 // 38, 162: read queue->head
    | PopTail(try: bool, h: Ref)                         // 39, 163: read queue->tail
    | PopNext(try: bool, h: Ref, r: Ref)                 // 40, 164: read head->next, branch
    | PopEmpty                                           // 168: return 0
    | PopHelp(try: bool, h: Ref, n: Node)                // 57, 169: swap queue->tail from h to n
    | PopSwap(try: bool, h: Ref, r: Ref, n: Node)        // 59, 171: swap queue->head from h to n
    | PopValue(h: Ref, m: Ref)                           // 62, 174: read next->pointer
    | PopFree(h: Ref, v: Value)                          // 63, 175: give the old head back
    | PopCount(v: Value)                                 // 64, 176: decrement nelts, return

  datatype Thread = Thread(pc: Pc, op: nat, invoked: nat, lin: nat)

  datatype Event = Enq(v: Value) | Deq(v: Value) | Empty
  datatype Entry = Entry(op: nat, event: Event)
  datatype Response = Response(op: nat, invoked: nat, lin: nat, returned: nat, event: Event)

  datatype State = State(
    head: Ref,
    tail: Ref,
    next: map<Node, Node>,
    val: map<Node, Value>,
    nelts: nat,
    threads: map<Tid, Thread>,
    hist: seq<Node>,
    log: seq<Entry>,
    nextOp: nat,
    responses: seq<Response>,
    calls: seq<Call>,   // what clients have asked for, by operation number
    owned: set<Node>)   // the nodes the queue has been given and has not given back
  {
    function NextOf(n: Node): Node { if n in next then next[n] else NULL }
    function ValOf(n: Node): Value { if n in val then val[n] else 0 }
    function Go(t: Tid, pc: Pc): State
      requires t in threads
    {
      this.(threads := threads[t := threads[t].(pc := pc)])
    }
    function Linearize(t: Tid, event: Event, pc: Pc): State
      requires t in threads
    {
      this.(log := log + [Entry(threads[t].op, event)],
            threads := threads[t := threads[t].(pc := pc, lin := |log|)])
    }
    function Respond(t: Tid, event: Event): State
      requires t in threads
    {
      var th := threads[t];
      this.(responses := responses + [Response(th.op, th.invoked, th.lin, |log|, event)],
            threads := threads[t := th.(pc := Idle)])
    }
  }

  // ---------------------------------------------------------------- the steps

  /** frl_queue_create: one dummy node, no operation running (lines 300-305). */
  ghost predicate Init(s: State)
  {
    && s.head == s.tail && s.head.at == 0 && s.head.node != NULL
    && s.hist == [s.head.node]
    && s.next == map[s.head.node := NULL]
    && s.nelts == 0 && s.log == [] && s.responses == [] && s.nextOp == 0
    && s.calls == [] && s.owned == {s.head.node}
    && forall t <- s.threads :: s.threads[t].pc.Idle?
  }

  /** One shared access by a thread that is inside an operation. */
  function Run(s: State, t: Tid): State
    requires t in s.threads
  {
    match s.threads[t].pc
    case Idle => s
    case PushTail(e, v) => s.Go(t, PushLink(e, v, s.tail))
    case PushLink(e, v, r) =>
      if s.NextOf(r.node) == NULL then
        s.(next := s.next[r.node := e], hist := s.hist + [e]).Linearize(t, Enq(v), PushSwing(e, v, r))
      else
        s.Go(t, PushHelp(e, v, r, s.NextOf(r.node)))
    case PushHelp(e, v, r, n) => SwapTail(s, r, n).Go(t, PushTail(e, v))
    case PushSwing(e, v, r) => SwapTail(s, r, e).Go(t, PushCount(v))
    case PushCount(v) => s.(nelts := (s.nelts + 1) % UINT32).Respond(t, Enq(v))
    case PopHead(try) => s.Go(t, PopTail(try, s.head))
    case PopTail(try, h) => s.Go(t, PopNext(try, h, s.tail))
    case PopNext(try, h, r) =>
      var n := s.NextOf(h.node);
      if h.node == r.node then
        if n != NULL then s.Go(t, PopHelp(try, h, n))
        else if try then s.Linearize(t, Empty, PopEmpty)
        else s.Go(t, PopHead(try))  // pop waits for a signal, then starts over
      else if try || n != NULL then s.Go(t, PopSwap(try, h, r, n))
      else s.Go(t, PopHead(try))
    case PopEmpty => s.Respond(t, Empty)
    case PopHelp(try, h, n) => SwapTail(s, h, n).Go(t, PopHead(try))
    case PopSwap(try, h, r, n) =>
      if s.head.node == h.node then
        s.(head := Ref(n, h.at + 1)).Linearize(t, Deq(s.ValOf(n)), PopValue(h, Ref(n, h.at + 1)))
      else s.Go(t, PopHead(try))
    case PopValue(h, m) => s.Go(t, PopFree(h, s.ValOf(m.node)))
    case PopFree(h, v) => s.(owned := s.owned - {h.node}).Go(t, PopCount(v))
    case PopCount(v) => s.(nelts := (s.nelts + UINT32 - 1) % UINT32).Respond(t, Deq(v))
  }

  /** Compare-and-swap of queue->tail: addresses are compared, not positions. */
  function SwapTail(s: State, r: Ref, n: Node): State
  {
    if s.tail.node == r.node then s.(tail := Ref(n, r.at + 1)) else s
  }

  /** An idle thread calls push: the slab pool hands out `e`, which is filled in (lines 5-9). */
  function InvokePush(s: State, t: Tid, e: Node, v: Value): State
    requires t in s.threads
  {
    s.(next := s.next[e := NULL], val := s.val[e := v], nextOp := s.nextOp + 1,
       threads := s.threads[t := Thread(PushTail(e, v), s.nextOp, |s.log|, 0)])
  }

  function InvokePop(s: State, t: Tid, try: bool): State
    requires t in s.threads
  {
    s.(nextOp := s.nextOp + 1,
       threads := s.threads[t := Thread(PopHead(try), s.nextOp, |s.log|, 0)])
  }

  /** A call has been made and, for a push, the slab pool has handed out `nodes`. */
  function Recorded(s: State, call: Call, nodes: set<Node>): State
  {
    s.(calls := s.calls + [call], owned := s.owned + nodes)
  }

  /** The snapshots an unfinished operation depends on. */
  function Held(pc: Pc): set<Ref>
  {
    match pc
    case PushLink(_, _, r) => {r}
    case PushHelp(_, _, r, _) => {r}
    case PushSwing(_, _, r) => {r}
    case PopTail(_, h) => {h}
    case PopNext(_, h, _) => {h}
    case PopHelp(_, h, _) => {h}
    case PopSwap(_, h, _, _) => {h}
    case PopValue(h, m) => {h, m}
    case PopFree(h, _) => {h}
    case _ => {}
  }

  /** `r` is still in the queue, or held by an unfinished operation. */
  ghost predicate Tracked(s: State, r: Ref)
  {
    || (s.head.at <= r.at < |s.hist| && s.hist[r.at] == r.node)
    || exists t :: t in s.threads && r in Held(s.threads[t].pc)
  }

  predicate Carries(pc: Pc)
  {
    pc.PushTail? || pc.PushLink? || pc.PushHelp?
  }

  /** The slab pool may hand out `e`: it is neither in the queue, nor not yet
      linked, nor a snapshot of an unfinished operation. */
  ghost predicate Available(s: State, e: Node)
  {
    && e != NULL
    && (forall r: Ref | Tracked(s, r) :: r.node != e)
    && (forall t | t in s.threads && Carries(s.threads[t].pc) :: s.threads[t].pc.e != e)
  }

  ghost predicate Step(s: State, s': State)
  {
    || (exists t <- s.threads :: !s.threads[t].pc.Idle? && s' == Run(s, t))
    || (exists t, e, v :: t in s.threads && s.threads[t].pc.Idle? && Available(s, e)
          && s' == Recorded(InvokePush(s, t, e, v), Push(v), {e}))
    || (exists t, try :: t in s.threads && s.threads[t].pc.Idle?
          && s' == Recorded(InvokePop(s, t, try), Pop(try), {}))
  }

  ghost predicate Execution(run: seq<State>)
  {
    && |run| > 0 && Init(run[0])
    && forall i | 0 <= i < |run| - 1 :: Step(run[i], run[i + 1])
  }

  // ------------------------------------------------------- the abstract queue

  function Values(val: map<Node, Value>, nodes: seq<Node>): (r: seq<Value>)
    ensures |r| == |nodes|
  {
    seq(|nodes|, i requires 0 <= i < |nodes| => if nodes[i] in val then val[nodes[i]] else 0)
  }

  /** The values queued behind the dummy head, oldest first. */
  function Contents(s: State): seq<Value>
    requires s.head.at < |s.hist|
  {
    Values(s.val, s.hist[s.head.at + 1..])
  }

  /** What a sequential FIFO queue, initially empty, holds after the logged
      operations; None if some logged answer is not the one it would give. */
  function Replay(log: seq<Entry>): Option<seq<Value>>
  {
    if log == [] then Some([])
    else
      match Replay(log[..|log| - 1])
      case None => None
      case Some(q) =>
        match log[|log| - 1].event
        case Enq(v) => Some(q + [v])
        case Deq(v) => if q != [] && q[0] == v then Some(q[1..]) else None
        case Empty => if q == [] then Some(q) else None
  }

  // ------------------------------------------------------------- the invariant

  ghost predicate Shape(s: State)
  {
    && s.head.at <= s.tail.at < |s.hist| <= s.tail.at + 2
    && s.head.node == s.hist[s.head.at]
    && s.tail.node == s.hist[s.tail.at]
    && NULL !in s.hist
  }

  ghost predicate RefOK(s: State, r: Ref)
  {
    && r.at < |s.hist| && s.hist[r.at] == r.node && r.node != NULL
    && r.node in s.next
    && s.next[r.node] == if r.at + 1 < |s.hist| then s.hist[r.at + 1] else NULL
  }

  ghost predicate Links(s: State)
  {
    && (forall r | Tracked(s, r) :: RefOK(s, r))
    && (forall r1, r2 | Tracked(s, r1) && Tracked(s, r2) && r1.node == r2.node :: r1.at == r2.at)
  }

  /** `e` belongs to thread `t` alone: allocated but not yet linked. */
  ghost predicate PrivateNode(s: State, e: Node, v: Value)
  {
    && e != NULL && s.NextOf(e) == NULL && e in s.next && s.ValOf(e) == v
    && (forall r: Ref | Tracked(s, r) :: r.node != e)
  }

  ghost predicate Private(s: State)
  {
    && (forall t | t in s.threads && Carries(s.threads[t].pc) :: PrivateNode(s, s.threads[t].pc.e, s.threads[t].pc.v))
    && (forall t1, t2 | t1 in s.threads && t2 in s.threads && t1 != t2
          && Carries(s.threads[t1].pc) && Carries(s.threads[t2].pc) :: s.threads[t1].pc.e != s.threads[t2].pc.e)
  }

  /** Where a thread's snapshots stand relative to head, tail and the history. */
  ghost predicate SnapshotOK(s: State, pc: Pc)
  {
    match pc
    case PushLink(e, v, r) => r.at <= s.tail.at
    case PushHelp(e, v, r, n) => r.at <= s.tail.at && r.at + 1 < |s.hist| && n == s.hist[r.at + 1]
    case PushSwing(e, v, r) => r.at <= s.tail.at && r.at + 1 < |s.hist| && e == s.hist[r.at + 1]
    case PopTail(_, h) => h.at <= s.head.at
    case PopNext(_, h, r) => h.at <= s.head.at && h.at <= r.at <= s.tail.at && (h.node == r.node <==> h.at == r.at)
    case PopHelp(_, h, n) => h.at <= s.head.at && h.at + 1 < |s.hist| && n == s.hist[h.at + 1]
    case PopSwap(_, h, r, n) =>
      h.at <= s.head.at && h.at < r.at <= s.tail.at < |s.hist| && n == s.hist[h.at + 1] && n != NULL
    case PopValue(h, m) => m.at == h.at + 1 && m.at <= s.head.at
    case _ => true
  }

  ghost predicate Snapshots(s: State)
  {
    forall t | t in s.threads :: SnapshotOK(s, s.threads[t].pc)
  }

  /** The event a running operation has already logged, if any. */
  function Logged(s: State, pc: Pc): Option<Event>
  {
    match pc
    case PushSwing(_, v, _) => Some(Enq(v))
    case PushCount(v) => Some(Enq(v))
    case PopEmpty => Some(Empty)
    case PopValue(_, m) => Some(Deq(s.ValOf(m.node)))
    case PopFree(_, v) => Some(Deq(v))
    case PopCount(v) => Some(Deq(v))
    case _ => None
  }

  ghost predicate PointOK(s: State, op: nat, invoked: nat, lin: nat, event: Event)
  {
    invoked <= lin < |s.log| && s.log[lin] == Entry(op, event)
  }

  ghost predicate Unlogged(log: seq<Entry>, op: nat)
  {
    forall i | 0 <= i < |log| :: log[i].op != op
  }

  ghost predicate ThreadLog(s: State, th: Thread)
  {
    && th.op < s.nextOp && th.invoked <= |s.log|
    && match Logged(s, th.pc)
       case Some(event) => PointOK(s, th.op, th.invoked, th.lin, event)
       case None => Unlogged(s.log, th.op)
  }

  ghost predicate LogOK(log: seq<Entry>, nextOp: nat)
  {
    && (forall i | 0 <= i < |log| :: log[i].op < nextOp)
    && (forall i, j | 0 <= i < j < |log| :: log[i].op != log[j].op)
  }

  ghost predicate Running(s: State, t: Tid)
  {
    t in s.threads && !s.threads[t].pc.Idle?
  }

  /** Every thread's linearization point lies inside its operation, at most one each. */
  ghost predicate Points(s: State)
  {
    && LogOK(s.log, s.nextOp)
    && (forall t | Running(s, t) :: ThreadLog(s, s.threads[t]))
    && (forall t1, t2 | Running(s, t1) && Running(s, t2) && t1 != t2 :: s.threads[t1].op != s.threads[t2].op)
  }

  ghost predicate ResponseOK(s: State, r: Response)
  {
    PointOK(s, r.op, r.invoked, r.lin, r.event) && r.lin < r.returned <= |s.log|
  }

  ghost predicate Answers(s: State)
  {
    forall r <- s.responses :: ResponseOK(s, r)
  }

  ghost predicate Inv(s: State)
  {
    && Shape(s) && Links(s) && Private(s) && Snapshots(s) && Points(s) && Answers(s)
    && Replay(s.log) == Some(Contents(s))
  }

  // --------------------------------------------------- the invariant is kept

  lemma InitInv(s: State)
    requires Init(s)
    ensures Inv(s)
  {
    forall r | Tracked(s, r) ensures r == s.head { }
    assert Contents(s) == [];
  }

  /** Only thread `t` changes its snapshots, and only to tracked ones. */
  lemma TrackedBy(s: State, s': State, t: Tid)
    requires t in s.threads && t in s'.threads && s'.hist == s.hist && s.head.at <= s'.head.at
    requires s'.threads == s.threads[t := s'.threads[t]]
    requires forall r <- Held(s'.threads[t].pc) :: Tracked(s, r)
    ensures forall r | Tracked(s', r) :: Tracked(s, r)
  {
    forall r | Tracked(s', r) ensures Tracked(s, r) {
      if u :| u in s'.threads && u != t && r in Held(s'.threads[u].pc) {
        assert s.threads[u] == s'.threads[u];
      }
    }
  }

  lemma NodesBy(s: State, s': State, t: Tid)
    requires Inv(s) && t in s.threads && t in s'.threads
    requires s'.hist == s.hist && s'.next == s.next && s'.val == s.val
    requires s'.threads == s.threads[t := s'.threads[t]]
    requires forall r | Tracked(s', r) :: Tracked(s, r)
    requires var pc, pc' := s.threads[t].pc, s'.threads[t].pc;
             Carries(pc') ==> Carries(pc) && pc'.e == pc.e && pc'.v == pc.v
    ensures Links(s') && Private(s')
  {
    forall r | Tracked(s', r) ensures RefOK(s', r) { assert RefOK(s, r); }
    forall u | u in s'.threads && Carries(s'.threads[u].pc)
      ensures PrivateNode(s', s'.threads[u].pc.e, s'.threads[u].pc.v)
    {
      assert PrivateNode(s, s.threads[u].pc.e, s.threads[u].pc.v);
    }
  }

  /** Head, tail and history only grow, so what is known of a snapshot stays true. */
  lemma SnapshotsBy(s: State, s': State, t: Tid)
    requires Inv(s) && t in s.threads && t in s'.threads && Shape(s')
    requires s'.threads == s.threads[t := s'.threads[t]] && SnapshotOK(s', s'.threads[t].pc)
    requires s.hist <= s'.hist && s.head.at <= s'.head.at && s.tail.at <= s'.tail.at
    ensures Snapshots(s')
  {
    hide Links;
    forall u | u in s'.threads ensures SnapshotOK(s', s'.threads[u].pc) {
      assert SnapshotOK(s, s.threads[u].pc);
    }
  }

  /** A step of `t` that changes nothing other operations rely on: queue->tail
      may move forward, and `t` goes on with snapshots that are tracked. */
  ghost predicate Quiet(s: State, s': State, t: Tid)
  {
    && t in s.threads && t in s'.threads && !s.threads[t].pc.Idle?
    && s'.(tail := s.tail, nelts := s.nelts, threads := s.threads, responses := s.responses, owned := s.owned) == s
    && s'.threads == s.threads[t := s.threads[t].(pc := s'.threads[t].pc)]
    && s.tail.at <= s'.tail.at && Shape(s')
    && (forall r <- Held(s'.threads[t].pc) :: Tracked(s, r))
    && SnapshotOK(s', s'.threads[t].pc)
    && (var pc, pc' := s.threads[t].pc, s'.threads[t].pc;
        && (Carries(pc') ==> Carries(pc) && pc'.e == pc.e && pc'.v == pc.v)
        && (pc'.Idle? || Logged(s, pc') == Logged(s, pc)))
    && forall r <- s'.responses :: r in s.responses || ResponseOK(s, r)
  }

  lemma QuietPoints(s: State, s': State, t: Tid)
    requires Inv(s) && Quiet(s, s', t)
    ensures Points(s') && Answers(s')
  {
    hide Links, Private, Shape, Contents, Replay;
    forall u | Running(s', u)
      ensures Running(s, u) && s'.threads[u].op == s.threads[u].op && ThreadLog(s', s'.threads[u])
    {
      assert Running(s, u);
      assert ThreadLog(s, s.threads[u]);
    }
    forall r <- s'.responses ensures ResponseOK(s', r) {
      assert ResponseOK(s, r);
    }
  }

  lemma QuietInv(s: State, s': State, t: Tid)
    requires Inv(s) && Quiet(s, s', t)
    ensures Inv(s')
  {
    hide Links, Private, Snapshots;
    TrackedBy(s, s', t);
    NodesBy(s, s', t);
    SnapshotsBy(s, s', t);
    QuietPoints(s, s', t);
    assert Contents(s') == Contents(s);
  }


  // ------------------------------------------------ the steps that are quiet

  /** Two tracked snapshots with the same address were taken at the same position:
      the compare-and-swap on addresses cannot be fooled by recycling. */
  lemma SameNode(s: State, r1: Ref, r2: Ref)
    requires Inv(s) && Tracked(s, r1) && Tracked(s, r2) && r1.node == r2.node
    ensures r1 == r2
  {
  }

  /** What a step of `t` may use about its own snapshots. */
  ghost predicate View(s: State, t: Tid)
  {
    && Shape(s) && Running(s, t) && SnapshotOK(s, s.threads[t].pc)
    && Tracked(s, s.head) && RefOK(s, s.head) && Tracked(s, s.tail) && RefOK(s, s.tail)
    && forall r <- Held(s.threads[t].pc) :: Tracked(s, r) && RefOK(s, r)
  }

  lemma HasView(s: State, t: Tid)
    requires Inv(s) && Running(s, t)
    ensures View(s, t) && ThreadLog(s, s.threads[t])
    ensures forall r <- Held(s.threads[t].pc) :: r.node == s.tail.node ==> r == s.tail
  {
  }

  lemma ReadQuiet(s: State, t: Tid)
    requires View(s, t)
    requires var pc := s.threads[t].pc; pc.PushTail? || pc.PopHead? || pc.PopFree? || pc.PopValue?
    ensures Quiet(s, Run(s, t), t)
  {
  }

  lemma ReadTailQuiet(s: State, t: Tid)
    requires View(s, t) && s.threads[t].pc.PopTail?
    requires s.threads[t].pc.h.node == s.tail.node ==> s.threads[t].pc.h == s.tail
    ensures Quiet(s, Run(s, t), t)
  {
    assert RefOK(s, s.threads[t].pc.h);
  }

  /** queue->tail is only ever swapped from a node to the node linked after it. */
  lemma SwapTailOK(s: State, r: Ref, n: Node)
    requires Shape(s) && RefOK(s, r) && r.at + 1 < |s.hist| && n == s.hist[r.at + 1]
    requires r.node == s.tail.node ==> r == s.tail
    ensures var s' := SwapTail(s, r, n);
            Shape(s') && s.tail.at <= s'.tail.at && s'.(tail := s.tail) == s
  {
  }

  lemma SwapTailQuiet(s: State, t: Tid, r: Ref)
    requires View(s, t)
    requires var pc := s.threads[t].pc; pc.PushHelp? || pc.PushSwing? || pc.PopHelp?
    requires r in Held(s.threads[t].pc) && (r.node == s.tail.node ==> r == s.tail)
    ensures Quiet(s, Run(s, t), t)
  {
    match s.threads[t].pc
    case PushHelp(e, v, _, n) => SwapTailOK(s, r, n);
    case PushSwing(e, v, _) => SwapTailOK(s, r, e);
    case PopHelp(try, _, n) => SwapTailOK(s, r, n);
  }

  lemma ReturnQuiet(s: State, t: Tid)
    requires View(s, t) && ThreadLog(s, s.threads[t])
    requires var pc := s.threads[t].pc; pc.PushCount? || pc.PopCount? || pc.PopEmpty?
    ensures Quiet(s, Run(s, t), t)
  {
  }

  /** The read of head->next, unless it finds the queue empty for a trypop. */
  lemma NextQuiet(s: State, t: Tid)
    requires View(s, t) && s.threads[t].pc.PopNext? && !Run(s, t).threads[t].pc.PopEmpty?
    ensures Quiet(s, Run(s, t), t)
  {
    var pc := s.threads[t].pc;
    assert RefOK(s, pc.h);
    if s.NextOf(pc.h.node) != NULL { assert s.hist[pc.h.at + 1] != NULL; }
  }

  /** A failed swap of queue->head or of tail->next. */
  lemma FailQuiet(s: State, t: Tid)
    requires View(s, t)
    requires match s.threads[t].pc
             case PopSwap(_, h, _, _) => s.head.node != h.node
             case PushLink(_, _, r) => s.NextOf(r.node) != NULL
             case _ => false
    ensures Quiet(s, Run(s, t), t)
  {
    if s.threads[t].pc.PushLink? { assert RefOK(s, s.threads[t].pc.r); }
  }

  ghost predicate IsQuiet(s: State, t: Tid)
    requires t in s.threads
  {
    match s.threads[t].pc
    case PopSwap(_, h, _, _) => s.head.node != h.node
    case PushLink(_, _, r) => s.NextOf(r.node) != NULL
    case PopNext(_, h, r) => !Run(s, t).threads[t].pc.PopEmpty?
    case Idle => false
    case _ => true
  }

  lemma RunQuiet(s: State, t: Tid)
    requires View(s, t) && ThreadLog(s, s.threads[t]) && IsQuiet(s, t)
    requires forall r <- Held(s.threads[t].pc) :: r.node == s.tail.node ==> r == s.tail
    ensures Quiet(s, Run(s, t), t)
  {
    match s.threads[t].pc
    case PushTail(_, _) => ReadQuiet(s, t);
    case PopHead(_) => ReadQuiet(s, t);
    case PopValue(_, _) => ReadQuiet(s, t);
    case PopFree(_, _) => ReadQuiet(s, t);
    case PopTail(_, _) => ReadTailQuiet(s, t);
    case PushHelp(_, _, r, _) => SwapTailQuiet(s, t, r);
    case PushSwing(_, _, r) => SwapTailQuiet(s, t, r);
    case PopHelp(_, h, _) => SwapTailQuiet(s, t, h);
    case PushCount(_) => ReturnQuiet(s, t);
    case PopCount(_) => ReturnQuiet(s, t);
    case PopEmpty => ReturnQuiet(s, t);
    case PopNext(_, _, _) => NextQuiet(s, t);
    case PopSwap(_, _, _, _) => FailQuiet(s, t);
    case PushLink(_, _, _) => FailQuiet(s, t);
  }

  lemma QuietRun(s: State, t: Tid)
    requires Inv(s) && Running(s, t) && IsQuiet(s, t)
    ensures Inv(Run(s, t))
  {
    HasView(s, t);
    RunQuiet(s, t);
    QuietInv(s, Run(s, t), t);
  }

  // --------------------------------------------------- linearization points

  /** A step of `t` that logs `event`, its first and only one. */
  ghost predicate Logs(s: State, s': State, t: Tid, event: Event)
  {
    && Running(s, t) && t in s'.threads && s'.val == s.val && s'.nextOp == s.nextOp
    && Logged(s, s.threads[t].pc) == None
    && s'.log == s.log + [Entry(s.threads[t].op, event)]
    && s'.responses == s.responses
    && s'.threads == s.threads[t := s.threads[t].(pc := s'.threads[t].pc, lin := |s.log|)]
    && Logged(s', s'.threads[t].pc) == Some(event)
  }

  lemma LogsPoints(s: State, s': State, t: Tid, event: Event)
    requires Inv(s) && Logs(s, s', t, event)
    ensures Points(s') && Answers(s')
  {
    hide Shape, Links, Private, Snapshots, Contents, Replay;
    assert ThreadLog(s, s.threads[t]) && Running(s', t);
    assert LogOK(s'.log, s'.nextOp);
    forall u | Running(s', u) && u != t
      ensures Running(s, u) && s'.threads[u].op == s.threads[u].op && ThreadLog(s', s'.threads[u])
    {
      assert Running(s, u);
      assert ThreadLog(s, s.threads[u]);
    }
    forall r <- s'.responses ensures ResponseOK(s', r) { assert ResponseOK(s, r); }
  }

  lemma ReplayAppend(log: seq<Entry>, entry: Entry)
    ensures Replay(log + [entry]) ==
            match Replay(log)
            case None => None
            case Some(q) =>
              match entry.event
              case Enq(v) => Some(q + [v])
              case Deq(v) => if q != [] && q[0] == v then Some(q[1..]) else None
              case Empty => if q == [] then Some(q) else None
  {
    assert (log + [entry])[..|log|] == log;
  }

  // Linking a node: the linearization point of push and trypush.

  ghost predicate LinksNow(s: State, t: Tid)
  {
    Running(s, t) && s.threads[t].pc.PushLink? && s.NextOf(s.threads[t].pc.r.node) == NULL
  }

  /** A node whose `next` is null is the last one, and then queue->tail points to it. */
  lemma LinkAtEnd(s: State, t: Tid)
    requires View(s, t) && LinksNow(s, t)
    ensures s.threads[t].pc.r == s.tail && s.tail.at == |s.hist| - 1
  {
    assert RefOK(s, s.threads[t].pc.r);
  }

  lemma LinkTracked(s: State, t: Tid)
    requires View(s, t) && LinksNow(s, t)
    ensures forall r | Tracked(Run(s, t), r) :: Tracked(s, r) || r == Ref(s.threads[t].pc.e, |s.hist|)
  {
    var s' := Run(s, t);
    forall r | Tracked(s', r) ensures Tracked(s, r) || r == Ref(s.threads[t].pc.e, |s.hist|) {
      if u :| u in s'.threads && u != t && r in Held(s'.threads[u].pc) {
        assert s.threads[u] == s'.threads[u];
      }
    }
  }

  lemma LinkNodes(s: State, t: Tid)
    requires Inv(s) && View(s, t) && LinksNow(s, t)
    ensures Links(Run(s, t)) && Private(Run(s, t))
  {
    hide Snapshots, Points, Answers, Replay, Shape, Contents;
    var s' := Run(s, t);
    var e := s.threads[t].pc.e;
    LinkTracked(s, t);
    LinkAtEnd(s, t);
    assert PrivateNode(s, e, s.threads[t].pc.v);
    forall r | Tracked(s', r) ensures RefOK(s', r) {
      if r != Ref(e, |s.hist|) {
        assert RefOK(s, r);
        if r.node == s.tail.node { SameNode(s, r, s.tail); }
      }
    }
    forall u | u in s'.threads && Carries(s'.threads[u].pc)
      ensures PrivateNode(s', s'.threads[u].pc.e, s'.threads[u].pc.v)
    {
      assert PrivateNode(s, s.threads[u].pc.e, s.threads[u].pc.v);
    }
  }

  lemma LinkShape(s: State, t: Tid)
    requires View(s, t) && LinksNow(s, t) && s.threads[t].pc.e != NULL
    ensures Shape(Run(s, t)) && SnapshotOK(Run(s, t), Run(s, t).threads[t].pc)
  {
    LinkAtEnd(s, t);
  }

  lemma LinkContents(s: State, t: Tid)
    requires Inv(s) && LinksNow(s, t)
    ensures Contents(Run(s, t)) == Contents(s) + [s.threads[t].pc.v]
  {
    var pc := s.threads[t].pc;
    assert PrivateNode(s, pc.e, pc.v);
    var from := s.head.at + 1;
    assert (s.hist + [pc.e])[from..] == s.hist[from..] + [pc.e];
  }

  lemma LinkInv(s: State, t: Tid)
    requires Inv(s) && LinksNow(s, t)
    ensures Inv(Run(s, t))
  {
    hide Links, Snapshots, Points;
    HasView(s, t);
    assert PrivateNode(s, s.threads[t].pc.e, s.threads[t].pc.v);
    LinkNodes(s, t);
    LinkShape(s, t);
    SnapshotsBy(s, Run(s, t), t);
    LinkContents(s, t);
    LogsPoints(s, Run(s, t), t, Enq(s.threads[t].pc.v));
    ReplayAppend(s.log, Entry(s.threads[t].op, Enq(s.threads[t].pc.v)));
  }

  // Swapping queue->head: the linearization point of pop and trypop.

  ghost predicate Dequeues(s: State, t: Tid)
  {
    Running(s, t) && s.threads[t].pc.PopSwap? && s.threads[t].pc.h.node == s.head.node
  }

  lemma DequeueShape(s: State, t: Tid)
    requires View(s, t) && Dequeues(s, t) && s.threads[t].pc.h == s.head
    ensures Shape(Run(s, t)) && SnapshotOK(Run(s, t), Run(s, t).threads[t].pc)
    ensures forall r <- Held(Run(s, t).threads[t].pc) :: Tracked(s, r)
  {
  }

  lemma DequeueContents(s: State, t: Tid)
    requires View(s, t) && Dequeues(s, t) && s.threads[t].pc.h == s.head
    ensures Contents(s) != [] && Contents(s)[0] == s.ValOf(s.threads[t].pc.n)
    ensures Contents(Run(s, t)) == Contents(s)[1..]
  {
    var from := s.head.at + 1;
    assert s.hist[from + 1..] == s.hist[from..][1..];
  }

  lemma DequeueInv(s: State, t: Tid)
    requires Inv(s) && Dequeues(s, t)
    ensures Inv(Run(s, t))
  {
    hide Links, Private, Snapshots, Points, Contents;
    HasView(s, t);
    SameNode(s, s.threads[t].pc.h, s.head);
    DequeueShape(s, t);
    TrackedBy(s, Run(s, t), t);
    NodesBy(s, Run(s, t), t);
    SnapshotsBy(s, Run(s, t), t);
    DequeueContents(s, t);
    var event := Deq(s.ValOf(s.threads[t].pc.n));
    LogsPoints(s, Run(s, t), t, event);
    ReplayAppend(s.log, Entry(s.threads[t].op, event));
  }

  // Finding the queue empty: the linearization point of a trypop that returns 0.

  ghost predicate SeesEmpty(s: State, t: Tid)
  {
    Running(s, t) && s.threads[t].pc.PopNext? && Run(s, t).threads[t].pc.PopEmpty?
  }

  /** A trypop reports empty only if the queue is empty when `next` is read. */
  lemma EmptyContents(s: State, t: Tid)
    requires View(s, t) && SeesEmpty(s, t)
    ensures Contents(s) == []
  {
    assert RefOK(s, s.threads[t].pc.h);
  }

  lemma EmptyShape(s: State, t: Tid)
    requires View(s, t) && SeesEmpty(s, t)
    ensures Shape(Run(s, t)) && SnapshotOK(Run(s, t), Run(s, t).threads[t].pc)
    ensures Held(Run(s, t).threads[t].pc) == {} && Contents(Run(s, t)) == Contents(s)
  {
  }

  lemma EmptyInv(s: State, t: Tid)
    requires Inv(s) && SeesEmpty(s, t)
    ensures Inv(Run(s, t))
  {
    hide Links, Private;
    HasView(s, t);
    EmptyContents(s, t);
    EmptyShape(s, t);
    TrackedBy(s, Run(s, t), t);
    NodesBy(s, Run(s, t), t);
    SnapshotsBy(s, Run(s, t), t);
    LogsPoints(s, Run(s, t), t, Empty);
    ReplayAppend(s.log, Entry(s.threads[t].op, Empty));
  }

  // ------------------------------------------------------------- invocations

  lemma InvokePoints(s: State, s': State, t: Tid)
    requires Inv(s) && t in s.threads && t in s'.threads
    requires s'.log == s.log && s'.responses == s.responses && s'.nextOp == s.nextOp + 1
    requires s'.threads == s.threads[t := s'.threads[t]]
    requires var th := s'.threads[t]; th.op == s.nextOp && th.invoked == |s.log| && Logged(s', th.pc) == None
    requires forall r | Tracked(s, r) :: s'.ValOf(r.node) == s.ValOf(r.node)
    ensures Points(s') && Answers(s')
  {
    hide Shape, Links, Private, Snapshots, Contents, Replay;
    forall u | Running(s', u) && u != t
      ensures Running(s, u) && s'.threads[u].op < s.nextOp && ThreadLog(s', s'.threads[u])
    {
      assert Running(s, u);
      assert ThreadLog(s, s.threads[u]);
      if s.threads[u].pc.PopValue? { assert Tracked(s, s.threads[u].pc.m); }
    }
    forall u1, u2 | Running(s', u1) && Running(s', u2) && u1 != u2
      ensures s'.threads[u1].op != s'.threads[u2].op
    {
      if u1 != t && u2 != t { assert Running(s, u1) && Running(s, u2); }
    }
    assert LogOK(s'.log, s'.nextOp);
    assert ThreadLog(s', s'.threads[t]);
    forall r <- s'.responses ensures ResponseOK(s', r) { assert ResponseOK(s, r); }
  }

  lemma InvokePushNodes(s: State, t: Tid, e: Node, v: Value)
    requires Inv(s) && t in s.threads && s.threads[t].pc.Idle? && Available(s, e)
    ensures Links(InvokePush(s, t, e, v)) && Private(InvokePush(s, t, e, v))
  {
    var s' := InvokePush(s, t, e, v);
    TrackedBy(s, s', t);
    forall r | Tracked(s', r) ensures RefOK(s', r) { assert RefOK(s, r) && r.node != e; }
    forall u | u in s'.threads && Carries(s'.threads[u].pc)
      ensures PrivateNode(s', s'.threads[u].pc.e, s'.threads[u].pc.v)
    {
      if u != t { assert PrivateNode(s, s.threads[u].pc.e, s.threads[u].pc.v); }
    }
  }

  lemma InvokePushInv(s: State, t: Tid, e: Node, v: Value)
    requires Inv(s) && t in s.threads && s.threads[t].pc.Idle? && Available(s, e)
    ensures Inv(InvokePush(s, t, e, v))
  {
    hide Links, Snapshots;
    var s' := InvokePush(s, t, e, v);
    InvokePushNodes(s, t, e, v);
    SnapshotsBy(s, s', t);
    InvokePoints(s, s', t);
    forall i | s.head.at < i < |s.hist| ensures s'.ValOf(s.hist[i]) == s.ValOf(s.hist[i]) {
      assert Tracked(s, Ref(s.hist[i], i));
    }
    assert Contents(s') == Contents(s);
  }

  lemma InvokePopInv(s: State, t: Tid, try: bool)
    requires Inv(s) && t in s.threads && s.threads[t].pc.Idle?
    ensures Inv(InvokePop(s, t, try))
  {
    var s' := InvokePop(s, t, try);
    TrackedBy(s, s', t);
    NodesBy(s, s', t);
    SnapshotsBy(s, s', t);
    InvokePoints(s, s', t);
    assert Contents(s') == Contents(s);
  }

  /** The invariant does not look at the record. */
  lemma RecordedInv(s: State, call: Call, nodes: set<Node>)
    requires Inv(s)
    ensures Inv(Recorded(s, call, nodes))
  {
    var s' := Recorded(s, call, nodes);
    forall r | Tracked(s', r) ensures Tracked(s, r) && RefOK(s', r) {
      if t :| t in s'.threads && r in Held(s'.threads[t].pc) { assert t in s.threads; }
      assert RefOK(s, r);
    }
    forall t | t in s'.threads && Carries(s'.threads[t].pc)
      ensures PrivateNode(s', s'.threads[t].pc.e, s'.threads[t].pc.v)
    {
      assert PrivateNode(s, s.threads[t].pc.e, s.threads[t].pc.v);
    }
    forall t | t in s'.threads ensures SnapshotOK(s', s'.threads[t].pc) {
      assert SnapshotOK(s, s.threads[t].pc);
    }
    RecordedPoints(s, call, nodes);
  }

  lemma RecordedPoints(s: State, call: Call, nodes: set<Node>)
    requires Points(s) && Answers(s)
    ensures Points(Recorded(s, call, nodes)) && Answers(Recorded(s, call, nodes))
  {
    var s' := Recorded(s, call, nodes);
    forall t | Running(s', t) ensures Running(s, t) && ThreadLog(s', s'.threads[t]) {
      assert Running(s, t) && ThreadLog(s, s.threads[t]);
    }
    forall r <- s'.responses ensures ResponseOK(s', r) { assert ResponseOK(s, r); }
  }

  lemma RunInv(s: State, t: Tid)
    requires Inv(s) && Running(s, t)
    ensures Inv(Run(s, t))
  {
    if IsQuiet(s, t) { QuietRun(s, t); }
    else if LinksNow(s, t) { LinkInv(s, t); }
    else if Dequeues(s, t) { DequeueInv(s, t); }
    else { EmptyInv(s, t); }
  }

  lemma StepInv(s: State, s': State)
    requires Inv(s) && Step(s, s')
    ensures Inv(s')
  {
    if t :| t in s.threads && !s.threads[t].pc.Idle? && s' == Run(s, t) {
      RunInv(s, t);
    } else if t, e, v :| t in s.threads && s.threads[t].pc.Idle? && Available(s, e)
                         && s' == Recorded(InvokePush(s, t, e, v), Push(v), {e}) {
      InvokePushInv(s, t, e, v);
      RecordedInv(InvokePush(s, t, e, v), Push(v), {e});
    } else {
      var t, try :| t in s.threads && s.threads[t].pc.Idle? && s' == Recorded(InvokePop(s, t, try), Pop(try), {});
      InvokePopInv(s, t, try);
      RecordedInv(InvokePop(s, t, try), Pop(try), {});
    }
  }

  // ------------------------------------------------------------- main results

  lemma {:induction false} Reachable(run: seq<State>, i: nat)
    requires Execution(run) && i < |run|
    ensures Inv(run[i])
  {
    if i == 0 { InitInv(run[0]); }
    else {
      Reachable(run, i - 1);
      StepInv(run[i - 1], run[i]);
    }
  }

  // ------------------------------------------ operations and effects correspond

  /** An operation has one number: that of one response, or of one running thread. */
  ghost predicate Once(s: State)
  {
    && (forall j | 0 <= j < |s.responses| :: s.responses[j].op < s.nextOp)
    && (forall j, k | 0 <= j < k < |s.responses| :: s.responses[j].op != s.responses[k].op)
    && (forall j, t | 0 <= j < |s.responses| && Running(s, t) :: s.responses[j].op != s.threads[t].op)
  }

  ghost predicate Answered(s: State, k: nat)
  {
    exists j :: 0 <= j < |s.responses| && s.responses[j].lin == k
  }

  ghost predicate HasLogged(s: State, t: Tid)
  {
    Running(s, t) && Logged(s, s.threads[t].pc).Some?
  }

  ghost predicate Pending(s: State, k: nat)
  {
    exists t :: HasLogged(s, t) && s.threads[t].lin == k
  }

  /** Everything in the log is the effect of a finished or of a running operation. */
  ghost predicate Explained(s: State)
  {
    forall k | 0 <= k < |s.log| :: Answered(s, k) || Pending(s, k)
  }

  /** What a step of `t` does to its number, to the log and to the responses. */
  ghost predicate Accounts(s: State, s': State, t: Tid)
  {
    && t in s.threads && t in s'.threads
    && s'.threads == s.threads[t := s'.threads[t]] && s'.nextOp == s.nextOp
    && s'.threads[t].op == s.threads[t].op
    && if s'.threads[t].pc.Idle? then
         && s'.log == s.log && |s'.responses| == |s.responses| + 1 && s'.responses[..|s.responses|] == s.responses
         && s'.responses[|s.responses|].op == s.threads[t].op
         && s'.responses[|s.responses|].lin == s.threads[t].lin
       else
         && s'.responses == s.responses
         && if s'.log == s.log then
              HasLogged(s, t) ==> HasLogged(s', t) && s'.threads[t].lin == s.threads[t].lin
            else
              && !HasLogged(s, t) && HasLogged(s', t)
              && |s'.log| == |s.log| + 1 && s'.threads[t].lin == |s.log|
  }

  lemma RunAccounts(s: State, t: Tid)
    requires Running(s, t)
    ensures Accounts(s, Run(s, t), t)
  {
    hide Links, Contents, Replay;
    match s.threads[t].pc
    case PushLink(_, _, _) =>
    case PushCount(_) =>
    case PopNext(_, _, _) =>
    case PopSwap(_, _, _, _) =>
    case PopCount(_) =>
    case PopEmpty =>
    case _ =>
  }

  lemma AccountsOnce(s: State, s': State, t: Tid)
    requires Points(s) && Once(s) && Running(s, t) && Accounts(s, s', t)
    ensures Once(s')
  {
    assert ThreadLog(s, s.threads[t]);
    forall j | 0 <= j < |s'.responses|
      ensures s'.responses[j] == if j < |s.responses| then s.responses[j] else s'.responses[|s.responses|]
    {
      if j < |s.responses| { assert s'.responses[..|s.responses|][j] == s.responses[j]; }
    }
    forall j, u | 0 <= j < |s'.responses| && Running(s', u) ensures s'.responses[j].op != s'.threads[u].op {
      assert Running(s, u);
    }
  }

  lemma AccountsExplained(s: State, s': State, t: Tid)
    requires Explained(s) && Running(s, t) && Accounts(s, s', t)
    ensures Explained(s')
  {
    hide Logged;
    var n := |s.responses|;
    forall k | 0 <= k < |s'.log| ensures Answered(s', k) || Pending(s', k) {
      if k == |s.log| {
        assert HasLogged(s', t);
      } else if Answered(s, k) {
        var j :| 0 <= j < n && s.responses[j].lin == k;
        assert s'.responses[..n][j] == s.responses[j] || s'.responses == s.responses;
        assert s'.responses[j].lin == k;
      } else {
        var u :| HasLogged(s, u) && s.threads[u].lin == k;
        StillLogged(s, s', t, u);
      }
    }
  }

  lemma StillLogged(s: State, s': State, t: Tid, u: Tid)
    requires HasLogged(s, u) && Running(s, t) && Accounts(s, s', t)
    ensures Answered(s', s.threads[u].lin) || Pending(s', s.threads[u].lin)
  {
    if u != t {
      assert HasLogged(s', u);
    } else if s'.threads[t].pc.Idle? {
      assert s'.responses[|s.responses|].lin == s.threads[t].lin;
    } else {
      assert HasLogged(s', t);
    }
  }

  lemma InvokeOnce(s: State, s': State, t: Tid)
    requires Once(s) && Explained(s) && t in s.threads && s.threads[t].pc.Idle? && t in s'.threads
    requires s'.threads == s.threads[t := s'.threads[t]] && s'.threads[t].op == s.nextOp && s'.nextOp == s.nextOp + 1
    requires s'.log == s.log && s'.responses == s.responses
    ensures Once(s') && Explained(s')
  {
    hide Logged;
    forall j, u | 0 <= j < |s'.responses| && Running(s', u) ensures s'.responses[j].op != s'.threads[u].op {
      if u != t { assert Running(s, u); }
    }
    forall k | 0 <= k < |s'.log| ensures Answered(s', k) || Pending(s', k) {
      if !Answered(s, k) {
        var u :| HasLogged(s, u) && s.threads[u].lin == k;
        SameLogged(s, s', u);
      } else {
        var j :| 0 <= j < |s.responses| && s.responses[j].lin == k;
        assert s'.responses[j].lin == k;
      }
    }
  }

  /** Whether an operation has taken effect shows in where it is. */
  lemma SameLogged(s: State, s': State, u: Tid)
    requires HasLogged(s, u) && u in s'.threads && s'.threads[u] == s.threads[u]
    ensures HasLogged(s', u)
  {
  }

  lemma OnceStep(s: State, s': State)
    requires Points(s) && Once(s) && Explained(s) && Step(s, s')
    ensures Once(s') && Explained(s')
  {
    hide Points, Once, Explained, Accounts;
    if t :| t in s.threads && !s.threads[t].pc.Idle? && s' == Run(s, t) {
      RunAccounts(s, t);
      AccountsOnce(s, s', t);
      AccountsExplained(s, s', t);
    } else if t, e, v :| t in s.threads && s.threads[t].pc.Idle? && Available(s, e)
                         && s' == Recorded(InvokePush(s, t, e, v), Push(v), {e}) {
      InvokeOnce(s, s', t);
    } else {
      var t, try :| t in s.threads && s.threads[t].pc.Idle? && s' == Recorded(InvokePop(s, t, try), Pop(try), {});
      InvokeOnce(s, s', t);
    }
  }

  lemma OnceInit(s: State)
    requires Init(s)
    ensures Once(s) && Explained(s)
  {
  }

  lemma HasPoints(s: State)
    requires Inv(s)
    ensures Points(s)
  {
  }

  lemma {:induction false} OnceReachable(run: seq<State>, i: nat)
    requires Execution(run) && i < |run|
    ensures Once(run[i]) && Explained(run[i])
  {
    hide Step, Once, Explained, Inv, Init;
    if i == 0 {
      OnceInit(run[0]);
    } else {
      Reachable(run, i - 1);
      HasPoints(run[i - 1]);
      OnceReachable(run, i - 1);
      OnceStep(run[i - 1], run[i]);
    }
  }

  /** In every execution, each finished operation took effect as one atomic enqueue,
      dequeue or test for emptiness of a sequential FIFO queue, between its call and its
      return.  No operation took effect twice, and no two share an effect. */
  lemma Linearizable(run: seq<State>, i: nat)
    requires Execution(run) && i < |run|
    ensures var s := run[i];
            && s.head.at < |s.hist|
            && Replay(s.log) == Some(Contents(s))
            && (forall j, k | 0 <= j < k < |s.log| :: s.log[j].op != s.log[k].op)
            && (forall r <- s.responses ::
                  r.invoked <= r.lin < r.returned <= |s.log| && s.log[r.lin] == Entry(r.op, r.event))
            && forall j, k | 0 <= j < k < |s.responses| :: s.responses[j].op != s.responses[k].op
  {
    Reachable(run, i);
    OnceReachable(run, i);
    forall r <- run[i].responses ensures ResponseOK(run[i], r) { }
  }

  /** An operation that has not returned either has taken effect, after its call, and has
      the answer it is going to give, or has left no trace; and there are no other
      effects than those of finished and of running operations. */
  lemma PendingEffects(run: seq<State>, i: nat)
    requires Execution(run) && i < |run|
    ensures var s := run[i];
            && (forall t | Running(s, t) ::
                  match Logged(s, s.threads[t].pc)
                  case Some(event) =>
                    && s.threads[t].invoked <= s.threads[t].lin < |s.log|
                    && s.log[s.threads[t].lin] == Entry(s.threads[t].op, event)
                  case None => forall k | 0 <= k < |s.log| :: s.log[k].op != s.threads[t].op)
            && (forall j, t | 0 <= j < |s.responses| && Running(s, t) :: s.responses[j].op != s.threads[t].op)
            && forall k | 0 <= k < |s.log| :: Answered(s, k) || Pending(s, k)
  {
    Reachable(run, i);
    OnceReachable(run, i);
    var s := run[i];
    hide Logged, Execution, Shape, Links, Private, Snapshots, Answers, Replay, Contents, Answered, Pending;
    assert forall t | Running(s, t) :: ThreadLog(s, s.threads[t]);
  }

  /** Head never passes tail, tail is the last node or the one before it, and a
      pop that is about to swap queue->head has a non-null successor in hand. */
  lemma HeadTailNext(run: seq<State>, i: nat, t: Tid)
    requires Execution(run) && i < |run| && t in run[i].threads
    ensures var s := run[i];
            && s.head.at <= s.tail.at < |s.hist| <= s.tail.at + 2
            && s.hist[s.head.at] == s.head.node && s.hist[s.tail.at] == s.tail.node
            && (s.threads[t].pc.PopSwap? ==> s.threads[t].pc.n != NULL)
  {
    Reachable(run, i);
    assert SnapshotOK(run[i], run[i].threads[t].pc);
  }

  /** Following `next` from `n`, `k` times. */
  function Walk(s: State, n: Node, k: nat): Node
  {
    if k == 0 then n else s.NextOf(Walk(s, n, k - 1))
  }

  lemma {:induction false} WalkHist(s: State, k: nat)
    requires Inv(s) && s.head.at + k < |s.hist|
    ensures Walk(s, s.head.node, k) == s.hist[s.head.at + k]
  {
    if k > 0 {
      WalkHist(s, k - 1);
      assert Tracked(s, Ref(s.hist[s.head.at + k - 1], s.head.at + k - 1));
    }
  }

  /** The abstract queue is what a walk along `next` from the dummy head meets:
      exactly its values, in order, and then null. */
  lemma ContentsIsTheList(run: seq<State>, i: nat)
    requires Execution(run) && i < |run|
    ensures var s := run[i];
            && s.head.at < |s.hist|
            && (forall k | 0 <= k < |Contents(s)| ::
                  Walk(s, s.head.node, k + 1) != NULL && Contents(s)[k] == s.ValOf(Walk(s, s.head.node, k + 1)))
            && Walk(s, s.head.node, |Contents(s)| + 1) == NULL
  {
    Reachable(run, i);
    var s := run[i];
    forall k | 0 <= k <= |Contents(s)|
      ensures Walk(s, s.head.node, k) == s.hist[s.head.at + k] && s.hist[s.head.at + k] != NULL
    {
      WalkHist(s, k);
    }
    var last := |s.hist| - 1;
    assert Tracked(s, Ref(s.hist[last], last)) && last == s.head.at + |Contents(s)|;
    assert RefOK(s, Ref(s.hist[last], last));
  }

  // -------------------------------------------------------- the element count

  predicate Uncounted(pc: Pc) { pc.PushSwing? || pc.PushCount? }
  predicate Overcounted(pc: Pc) { pc.PopValue? || pc.PopFree? || pc.PopCount? }

  /** Pushes that have linked a node but not yet incremented nelts. */
  ghost function Incs(s: State): set<Tid> { set t | t in s.threads && Uncounted(s.threads[t].pc) }
  /** Pops that have taken a node but not yet decremented nelts. */
  ghost function Decs(s: State): set<Tid> { set t | t in s.threads && Overcounted(s.threads[t].pc) }

  function Bit(b: bool): nat { if b then 1 else 0 }

  ghost predicate Balanced(nelts: nat, incs: nat, length: nat, decs: nat)
  {
    nelts < UINT32 && (nelts + incs - length - decs) % UINT32 == 0
  }

  ghost predicate Counted(s: State)
    requires s.head.at < |s.hist|
  {
    Balanced(s.nelts, |Incs(s)|, |Contents(s)|, |Decs(s)|)
  }

  lemma Without(ts: set<Tid>, t: Tid)
    ensures |ts| == |ts - {t}| + Bit(t in ts)
  {
    if t in ts { assert ts == (ts - {t}) + {t}; } else { assert ts == ts - {t}; }
  }

  lemma PendingBy(s: State, s': State, t: Tid)
    requires t in s.threads && t in s'.threads && s'.threads == s.threads[t := s'.threads[t]]
    ensures |Incs(s')| + Bit(Uncounted(s.threads[t].pc)) == |Incs(s)| + Bit(Uncounted(s'.threads[t].pc))
    ensures |Decs(s')| + Bit(Overcounted(s.threads[t].pc)) == |Decs(s)| + Bit(Overcounted(s'.threads[t].pc))
  {
    assert Incs(s') - {t} == Incs(s) - {t};
    assert Decs(s') - {t} == Decs(s) - {t};
    Without(Incs(s), t); Without(Incs(s'), t);
    Without(Decs(s), t); Without(Decs(s'), t);
  }

  lemma ContentsLength(s: State, t: Tid)
    requires Inv(s) && Running(s, t)
    ensures var s' := Run(s, t);
            && s'.head.at < |s'.hist|
            && |Contents(s')| + Bit(Dequeues(s, t)) == |Contents(s)| + Bit(LinksNow(s, t))
  {
    hide Links, Private, Points, Answers, Inv;
    RunInv(s, t);
    HasView(s, t);
    if Dequeues(s, t) { SameNode(s, s.threads[t].pc.h, s.head); }
  }

  lemma PhasesRun(s: State, t: Tid)
    requires Running(s, t)
    ensures var s', pc := Run(s, t), s.threads[t].pc;
            && t in s'.threads
            && s'.threads == s.threads[t := s'.threads[t]]
            && Bit(Uncounted(s'.threads[t].pc)) + Bit(pc.PushCount?) == Bit(Uncounted(pc)) + Bit(LinksNow(s, t))
            && Bit(Overcounted(s'.threads[t].pc)) + Bit(pc.PopCount?) == Bit(Overcounted(pc)) + Bit(Dequeues(s, t))
            && s'.nelts == if pc.PushCount? then (s.nelts + 1) % UINT32
                           else if pc.PopCount? then (s.nelts + UINT32 - 1) % UINT32 else s.nelts
  {
    match s.threads[t].pc
    case PushLink(_, _, _) =>
    case PopNext(_, _, _) =>
    case PopSwap(_, _, _, _) =>
    case PushCount(_) =>
    case PopCount(_) =>
    case _ =>
  }

  lemma BalancedRun(n: nat, i: nat, c: nat, d: nat, i': nat, c': nat, d': nat, link: bool, deq: bool, inc: bool,
                    dec: bool)
    requires Balanced(n, i, c, d) && !(inc && dec)
    requires i' + Bit(inc) == i + Bit(link) && d' + Bit(dec) == d + Bit(deq) && c' + Bit(deq) == c + Bit(link)
    ensures Balanced(if inc then (n + 1) % UINT32 else if dec then (n + UINT32 - 1) % UINT32 else n, i', c', d')
  {
  }

  lemma CountedRun(s: State, t: Tid)
    requires Inv(s) && Running(s, t) && Counted(s)
    ensures Run(s, t).head.at < |Run(s, t).hist| && Counted(Run(s, t))
  {
    var s', pc := Run(s, t), s.threads[t].pc;
    hide Links, Private, Points, Answers, Replay, Run, Incs, Decs;
    ContentsLength(s, t);
    PhasesRun(s, t);
    PendingBy(s, s', t);
    BalancedRun(s.nelts, |Incs(s)|, |Contents(s)|, |Decs(s)|, |Incs(s')|, |Contents(s')|, |Decs(s')|,
                LinksNow(s, t), Dequeues(s, t), pc.PushCount?, pc.PopCount?);
  }

  lemma CountedInvoke(s: State, s': State, t: Tid)
    requires t in s.threads && t in s'.threads && s'.threads == s.threads[t := s'.threads[t]]
    requires s.threads[t].pc.Idle? && (s'.threads[t].pc.PushTail? || s'.threads[t].pc.PopHead?)
    requires s.head.at < |s.hist| && s'.nelts == s.nelts && s'.hist == s.hist && s'.head == s.head
    requires Counted(s)
    ensures Counted(s')
  {
    PendingBy(s, s', t);
    assert |Contents(s')| == |Contents(s)|;
  }

  lemma CountedStep(s: State, s': State)
    requires Inv(s) && Counted(s) && Step(s, s')
    ensures s'.head.at < |s'.hist| && Counted(s')
  {
    hide Links, Private, Snapshots, Points, Answers;
    if t :| t in s.threads && !s.threads[t].pc.Idle? && s' == Run(s, t) {
      CountedRun(s, t);
    } else if t, e, v :| t in s.threads && s.threads[t].pc.Idle? && Available(s, e)
                         && s' == Recorded(InvokePush(s, t, e, v), Push(v), {e}) {
      CountedInvoke(s, s', t);
    } else {
      var t, try :| t in s.threads && s.threads[t].pc.Idle? && s' == Recorded(InvokePop(s, t, try), Pop(try), {});
      CountedInvoke(s, s', t);
    }
  }

  lemma CountedInit(s: State)
    requires Init(s)
    ensures s.head.at < |s.hist| && Counted(s)
  {
    assert Incs(s) == {} && Decs(s) == {};
  }

  lemma {:induction false} CountedReachable(run: seq<State>, i: nat)
    requires Execution(run) && i < |run|
    ensures run[i].head.at < |run[i].hist| && Counted(run[i])
  {
    if i == 0 {
      CountedInit(run[0]);
    } else {
      Reachable(run, i - 1);
      CountedReachable(run, i - 1);
      CountedStep(run[i - 1], run[i]);
    }
  }

  /** Whenever no push or pop is between its swap and its update of nelts, nelts
      is the length of the queue modulo 2^32. */
  lemma ElementCount(run: seq<State>, i: nat)
    requires Execution(run) && i < |run| && Incs(run[i]) == {} && Decs(run[i]) == {}
    ensures run[i].head.at < |run[i].hist| && run[i].nelts == |Contents(run[i])| % UINT32
  {
    CountedReachable(run, i);
  }
}
