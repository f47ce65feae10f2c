/**
 The lock-free slab pool of src/lib/frl_slab_pool.c (lines 57-152), as a state
 machine whose steps are single accesses to shared memory by any number of threads.

 A block is claimed by swapping its stack pointer to BUSY and released by storing
 a stack pointer; the ring grows by a compare-and-swap on `next`.  A slot is named
 by its block and its index in the block's arena.

 History variables, which no step reads to decide anything: `free` and the owner in
 `Busy` of a block, `x` in `AllocRead`, `ring` and `place` of the state.
 */
module LockFreeSlab {
  import Counting
  import opened Basics

  type Tid = nat
  type BlockId = nat

  const UINT32 := 0x1_0000_0000

  datatype Slot = Slot(block: BlockId, idx: nat)

  /** A stack pointer: BUSY, or `n` slots above the bottom of usage_stack. */
  datatype Sp = Busy(who: Tid) | At(n: nat)

  datatype Block = Block(sp: Sp, stack: seq<Slot>, next: BlockId, free: nat)
  {
    function Capacity(): int { |stack| - 1 }
  }

  /** Where a slot is. */
  datatype Place = Free(pos: nat) | Client | With(t: Tid)

  /** What the next step of a thread will do; comments give lines of frl_slab_pool.c. */
  datatype Pc =
    | Idle
    | AllocStart                                                             // 70
    | AllocSp(pb: BlockId, b: BlockId, last: BlockId)                        // 76
    | AllocCas(pb: BlockId, b: BlockId, last: BlockId, k: nat)               // 82
    | AllocRead(pb: BlockId, b: BlockId, k: nat, x: Slot)                    // 85
    | AllocStore(pb: BlockId, b: BlockId, k: nat, sl: Slot)                  // 86
    | AllocHead(pb: BlockId, b: BlockId, sl: Slot)                           // 92-96
    | AllocMove(pb: BlockId, b: BlockId, sl: Slot)                           // 97
    | AllocReturn(sl: Slot)                                                  // 98, 119
    | AllocNext1(pb: BlockId, b: BlockId, last: BlockId)                     // 100
    | AllocNext2(pb: BlockId, b: BlockId, last: BlockId)                     // 102-103
    | GrowRead(pb: BlockId, last: BlockId)                                   // 104
    | GrowCreate(pb: BlockId, last: BlockId, m: nat)                         // 105-113
    | GrowLink(pb: BlockId, last: BlockId, m: nat, b: BlockId, sl: Slot)     // 114
    | GrowMax(pb: BlockId, m: nat, b: BlockId, sl: Slot)                     // 117
    | GrowMove(pb: BlockId, b: BlockId, sl: Slot)                            // 118
    | GrowDestroy(b: BlockId, sl: Slot)                                      // 121
    | FreeHead(sl: Slot)                                                     // 129
    | FreeSp(b: BlockId, sl: Slot)                                           // 137
    | FreeCmp(b: BlockId, sl: Slot, k: nat)                                  // 141
    | FreeCas(b: BlockId, sl: Slot, k: nat, c: Slot)                         // 142
    | FreeSwap(b: BlockId, sl: Slot, k: nat, c: Slot)                        // 145
    | FreeRestore(b: BlockId, sl: Slot, k: nat)                              // 148
    | FreeStore(b: BlockId, sl: Slot, k: nat)                                // 151

  datatype State = State(
    blocks: map<BlockId, Block>,
    current: BlockId,                // pool->block
    maxCapacity: nat,                // pool->max_capacity
    header: map<Slot, BlockId>,      // mem->block of each slot
    held: multiset<Slot>,            // what clients have been given and not given back
    threads: map<Tid, Pc>,
    ring: seq<BlockId>,
    place: map<Slot, Place>)
  {
    function Go(t: Tid, pc: Pc): State { this.(threads := threads[t := pc]) }
    function Put(b: BlockId, block: Block): State { this.(blocks := blocks[b := block]) }
  }

  // ---------------------------------------------------------------- the steps

  function NewStack(b: BlockId, capacity: nat): (r: seq<Slot>)
    ensures |r| == capacity + 1
    ensures forall i | 1 <= i <= capacity :: r[i] == Slot(b, i - 1)
  {
    seq(capacity + 1, i requires 0 <= i <= capacity => Slot(b, if i == 0 then 0 else i - 1))
  }

  function NewPlaces(b: BlockId, capacity: nat): (r: map<Slot, Place>)
    ensures forall sl :: sl in r <==> sl.block == b && sl.idx < capacity
    ensures forall sl | sl in r :: r[sl] == Free(sl.idx + 1)
  {
    map i | 0 <= i < capacity :: Slot(b, i) := Free(i + 1)
  }

  /** frl_slab_pool_create with room for at least one slot (lines 338-361). */
  ghost predicate Init(s: State)
  {
    && s.maxCapacity >= 1
    && s.blocks == map[s.current :=
                         Block(At(s.maxCapacity), NewStack(s.current, s.maxCapacity), s.current, s.maxCapacity)]
    && s.held == multiset{} && s.header == map[]
    && s.ring == [s.current] && s.place == NewPlaces(s.current, s.maxCapacity)
    && forall t <- s.threads :: s.threads[t].Idle?
  }

  /** Every address a thread is about to read or write is one it may touch. */
  predicate Safe(s: State, pc: Pc)
  {
    match pc
    case AllocSp(_, b, _) => b in s.blocks
    case AllocCas(_, b, _, k) => b in s.blocks && k >= 1 && (s.blocks[b].sp == At(k) ==> k < |s.blocks[b].stack|)
    case AllocRead(_, b, k, _) => b in s.blocks && 1 <= k < |s.blocks[b].stack|
    case AllocStore(_, b, k, _) => b in s.blocks && k >= 1
    case AllocNext1(_, b, _) => b in s.blocks
    case AllocNext2(_, b, _) => b in s.blocks
    case GrowLink(_, last, _, _, _) => last in s.blocks
    case FreeHead(sl) => sl in s.header
    case FreeSp(b, _) => b in s.blocks
    case FreeCmp(b, _, k) => b in s.blocks && 1 <= k + 1 <= s.blocks[b].Capacity()
    case FreeCas(b, _, _, _) => b in s.blocks
    case FreeSwap(b, _, k, _) => b in s.blocks && 1 <= k + 1 <= s.blocks[b].Capacity()
    case FreeRestore(b, _, _) => b in s.blocks
    case FreeStore(b, _, _) => b in s.blocks
    case _ => true
  }

  /** One access by a running thread; creating a block is `Create` below. */
  function Run(s: State, t: Tid): State
    requires t in s.threads && Safe(s, s.threads[t])
  {
    match s.threads[t]
    case Idle => s
    case AllocStart => s.Go(t, AllocSp(s.current, s.current, s.current))
    case AllocSp(pb, b, last) =>
      (match s.blocks[b].sp
       case Busy(_) => s
       case At(k) => s.Go(t, if k == 0 then AllocNext1(pb, b, last) else AllocCas(pb, b, last, k)))
    case AllocCas(pb, b, last, k) =>
      var block := s.blocks[b];
      if block.sp == At(k) then
        var x := block.stack[k];
        s.Put(b, block.(sp := Busy(t), free := k - 1)).(place := s.place[x := With(t)])
         .Go(t, AllocRead(pb, b, k, x))
      else s.Go(t, AllocSp(pb, b, last))
    case AllocRead(pb, b, k, _) => s.Go(t, AllocStore(pb, b, k, s.blocks[b].stack[k]))
    case AllocStore(pb, b, k, sl) => s.Put(b, s.blocks[b].(sp := At(k - 1))).Go(t, AllocHead(pb, b, sl))
    case AllocHead(pb, b, sl) => s.(header := s.header[sl := b]).Go(t, AllocMove(pb, b, sl))
    case AllocMove(pb, b, sl) => s.(current := if s.current == pb then b else s.current).Go(t, AllocReturn(sl))
    case AllocReturn(sl) => s.(held := s.held + multiset{sl}, place := s.place[sl := Client]).Go(t, Idle)
    case AllocNext1(pb, b, last) => s.Go(t, AllocNext2(pb, b, if s.blocks[b].next == pb then b else last))
    case AllocNext2(pb, b, last) =>
      var n := s.blocks[b].next;
      s.Go(t, if n == pb then GrowRead(pb, last) else AllocSp(pb, n, last))
    case GrowRead(pb, last) => s.Go(t, GrowCreate(pb, last, s.maxCapacity))
    case GrowCreate(_, _, _) => s.Go(t, Idle)  // frl_slab_block_create failed: return NULL
    case GrowLink(pb, last, m, b, sl) =>
      if s.blocks[last].next == pb then
        s.Put(last, s.blocks[last].(next := b)).(ring := Insert(s.ring, last, b)).Go(t, GrowMax(pb, m, b, sl))
      else s.Go(t, GrowDestroy(b, sl))
    case GrowMax(pb, m, b, sl) =>
      s.(maxCapacity := if s.maxCapacity == m then 2 * m % UINT32 else s.maxCapacity).Go(t, GrowMove(pb, b, sl))
    case GrowMove(pb, b, sl) => s.(current := if s.current == pb then b else s.current).Go(t, AllocReturn(sl))
    case GrowDestroy(b, _) =>
      s.(blocks := s.blocks - {b}, place := map sl | sl in s.place && sl.block != b :: s.place[sl]).Go(t, AllocStart)
    case FreeHead(sl) => s.Go(t, FreeSp(s.header[sl], sl))
    case FreeSp(b, sl) =>
      (match s.blocks[b].sp
       case Busy(_) => s
       case At(k) => s.Go(t, FreeCmp(b, sl, k)))
    case FreeCmp(b, sl, k) => s.Go(t, FreeCas(b, sl, k, s.blocks[b].stack[k + 1]))
    case FreeCas(b, sl, k, c) =>
      if s.blocks[b].sp == At(k) then s.Put(b, s.blocks[b].(sp := Busy(t))).Go(t, FreeSwap(b, sl, k, c))
      else s.Go(t, FreeSp(b, sl))
    case FreeSwap(b, sl, k, c) =>
      var block := s.blocks[b];
      if block.stack[k + 1] == c then
        s.Put(b, block.(stack := block.stack[k + 1 := sl])).Go(t, FreeStore(b, sl, k))
      else s.Go(t, FreeRestore(b, sl, k))
    case FreeRestore(b, sl, k) => s.Put(b, s.blocks[b].(sp := At(k))).Go(t, FreeSp(b, sl))
    case FreeStore(b, sl, k) =>
      s.Put(b, s.blocks[b].(sp := At(k + 1), free := k + 1)).(place := s.place[sl := Free(k + 1)]).Go(t, Idle)
  }

  /** `b` inserted behind `last`. */
  function Insert(ring: seq<BlockId>, last: BlockId, b: BlockId): seq<BlockId>
  {
    if ring == [] then [b]
    else if ring[0] == last then [last, b] + ring[1..]
    else [ring[0]] + Insert(ring[1..], last, b)
  }

  /** frl_slab_block_create succeeds at the unused address `b`; the top slot is
      taken and the block aimed at `pb` before anybody else can see it (105-113). */
  function Create(s: State, t: Tid, b: BlockId): State
    requires t in s.threads && s.threads[t].GrowCreate? && s.threads[t].m >= 1
  {
    var GrowCreate(pb, last, m) := s.threads[t];
    var n, sl := 2 * m, Slot(b, 2 * m - 1);
    s.Put(b, Block(At(n - 1), NewStack(b, n), pb, n - 1))
     .(place := s.place + NewPlaces(b, n)[sl := With(t)], header := s.header[sl := b])
     .Go(t, GrowLink(pb, last, m, b, sl))
  }

  /** A client gives back a slot it holds. */
  function InvokeFree(s: State, t: Tid, sl: Slot): State
  {
    s.(held := s.held - multiset{sl}, place := s.place[sl := With(t)]).Go(t, FreeHead(sl))
  }

  ghost predicate Running(s: State, t: Tid) { t in s.threads && !s.threads[t].Idle? }
  ghost predicate Resting(s: State, t: Tid) { t in s.threads && s.threads[t].Idle? }

  /** Clients free only what they hold; blocks of 2^32 slots or more cannot be had. */
  ghost predicate Step(s: State, s': State)
  {
    || (exists t :: Running(s, t) && Safe(s, s.threads[t]) && s' == Run(s, t))
    || (exists t, b :: t in s.threads && s.threads[t].GrowCreate? && 1 <= s.threads[t].m && 2 * s.threads[t].m < UINT32
          && b !in s.blocks && s' == Create(s, t, b))
    || (exists t :: Resting(s, t) && s' == s.Go(t, AllocStart))
    || (exists t, sl :: Resting(s, t) && sl in s.held && s' == InvokeFree(s, t, sl))
  }

  ghost predicate Execution(run: seq<State>)
  {
    && |run| > 0 && Init(run[0])
    && forall i | 0 <= i < |run| - 1 :: Step(run[i], run[i + 1])
  }

  // ------------------------------------------------------------- the invariant

  /** The slot a thread has in transit. */
  function Carried(pc: Pc): Option<Slot>
  {
    match pc
    case AllocRead(_, _, _, x) => Some(x)
    case AllocStore(_, _, _, sl) => Some(sl)
    case AllocHead(_, _, sl) => Some(sl)
    case AllocMove(_, _, sl) => Some(sl)
    case AllocReturn(sl) => Some(sl)
    case GrowLink(_, _, _, _, sl) => Some(sl)
    case GrowMax(_, _, _, sl) => Some(sl)
    case GrowMove(_, _, sl) => Some(sl)
    case GrowDestroy(_, sl) => Some(sl)
    case FreeHead(sl) => Some(sl)
    case FreeSp(_, sl) => Some(sl)
    case FreeCmp(_, sl, _) => Some(sl)
    case FreeCas(_, sl, _, _) => Some(sl)
    case FreeSwap(_, sl, _, _) => Some(sl)
    case FreeRestore(_, sl, _) => Some(sl)
    case FreeStore(_, sl, _) => Some(sl)
    case _ => None
  }

  /** The block whose stack pointer a thread has swapped to BUSY. */
  function Locked(pc: Pc): Option<BlockId>
  {
    match pc
    case AllocRead(_, b, _, _) => Some(b)
    case AllocStore(_, b, _, _) => Some(b)
    case FreeSwap(b, _, _, _) => Some(b)
    case FreeRestore(b, _, _) => Some(b)
    case FreeStore(b, _, _) => Some(b)
    case _ => None
  }

  /** The block a thread has created but not published. */
  function Unpublished(pc: Pc): Option<BlockId>
  {
    match pc
    case GrowLink(_, _, _, b, _) => Some(b)
    case GrowDestroy(b, _) => Some(b)
    case _ => None
  }

  ghost predicate Distinct(ring: seq<BlockId>)
  {
    forall i, j | 0 <= i < j < |ring| :: ring[i] != ring[j]
  }

  function Successor(ring: seq<BlockId>, i: nat): BlockId
    requires i < |ring|
  {
    ring[if i + 1 < |ring| then i + 1 else 0]
  }

  ghost predicate Hop(s: State, i: nat)
    requires i < |s.ring|
  {
    s.ring[i] in s.blocks && s.blocks[s.ring[i]].next == Successor(s.ring, i)
  }

  /** The published blocks form one cycle through `next`. */
  ghost predicate RingOK(s: State)
  {
    && |s.ring| > 0 && Distinct(s.ring) && s.current in s.ring && s.maxCapacity >= 1
    && (forall b <- s.ring :: b in s.blocks)
    && (forall i | 0 <= i < |s.ring| :: Hop(s, i))
  }

  ghost predicate BlockOK(s: State, b: BlockId)
    requires b in s.blocks
  {
    var block := s.blocks[b];
    && block.free < |block.stack|
    && (forall i | 1 <= i <= block.free ::
          block.stack[i] in s.place && block.stack[i].block == b && s.place[block.stack[i]] == Free(i))
    && match block.sp
       case At(n) => n == block.free
       case Busy(t) => t in s.threads && Locked(s.threads[t]) == Some(b)
  }

  ghost predicate SlotOK(s: State, sl: Slot)
  {
    && (sl in s.place <==> sl.block in s.blocks && sl.idx < s.blocks[sl.block].Capacity())
    && s.held[sl] == (if sl in s.place && s.place[sl].Client? then 1 else 0)
    && (sl in s.place ==>
          match s.place[sl]
          case Free(i) => 1 <= i <= s.blocks[sl.block].free < |s.blocks[sl.block].stack|
              && s.blocks[sl.block].stack[i] == sl
          case Client => sl.block in s.ring && sl in s.header && s.header[sl] == sl.block
          case With(t) => t in s.threads && Carried(s.threads[t]) == Some(sl))
  }

  /** The published blocks a thread has addresses of. */
  function Refs(pc: Pc): set<BlockId>
  {
    match pc
    case AllocSp(pb, b, last) => {pb, b, last}
    case AllocCas(pb, b, last, _) => {pb, b, last}
    case AllocRead(pb, b, _, _) => {pb, b}
    case AllocStore(pb, b, _, _) => {pb, b}
    case AllocHead(pb, b, _) => {pb, b}
    case AllocMove(pb, b, _) => {pb, b}
    case AllocReturn(sl) => {sl.block}
    case AllocNext1(pb, b, last) => {pb, b, last}
    case AllocNext2(pb, b, last) => {pb, b, last}
    case GrowRead(pb, last) => {pb, last}
    case GrowCreate(pb, last, _) => {pb, last}
    case GrowLink(pb, last, _, _, _) => {pb, last}
    case GrowMax(pb, _, b, _) => {pb, b}
    case GrowMove(pb, b, _) => {pb, b}
    case FreeHead(sl) => {sl.block}
    case FreeSp(b, sl) => {b, sl.block}
    case FreeCmp(b, sl, _) => {b, sl.block}
    case FreeCas(b, sl, _, _) => {b, sl.block}
    case FreeSwap(b, sl, _, _) => {b, sl.block}
    case FreeRestore(b, sl, _) => {b, sl.block}
    case FreeStore(b, sl, _) => {b, sl.block}
    case _ => {}
  }

  /** The slot in transit has its header written. */
  predicate Written(pc: Pc)
  {
    pc.AllocMove? || pc.AllocReturn? || pc.GrowLink? || pc.GrowMax? || pc.GrowMove? || pc.FreeHead?
  }

  ghost predicate Mine(s: State, t: Tid, sl: Slot) { sl in s.place && s.place[sl] == With(t) }
  ghost predicate Headed(s: State, sl: Slot) { sl in s.header && s.header[sl] == sl.block }
  ghost predicate Holds(s: State, t: Tid, b: BlockId) { b in s.blocks && s.blocks[b].sp == Busy(t) }

  ghost predicate Unseen(s: State, b: BlockId, sl: Slot)
  {
    b !in s.ring && b in s.blocks && sl.block == b && sl.idx == s.blocks[b].Capacity() - 1
    && s.blocks[b].sp == At(s.blocks[b].Capacity() - 1)
  }

  /** What a thread knows about numbers and stack contents. */
  ghost predicate Detail(s: State, pc: Pc)
  {
    match pc
    case AllocCas(_, _, _, k) => k >= 1
    case AllocRead(_, b, k, x) =>
      && x.block == b && b in s.blocks && 1 <= k < |s.blocks[b].stack|
      && s.blocks[b].free == k - 1 && s.blocks[b].stack[k] == x
    case AllocStore(_, b, k, sl) => sl.block == b && b in s.blocks && k >= 1 && s.blocks[b].free == k - 1
    case AllocHead(_, b, sl) => sl.block == b
    case AllocMove(_, b, sl) => sl.block == b
    case GrowCreate(_, _, m) => m >= 1
    case GrowLink(pb, last, m, b, sl) => 1 <= m && 2 * m < UINT32 && Unseen(s, b, sl) && s.blocks[b].next == pb
    case GrowMax(_, m, b, sl) => 1 <= m && 2 * m < UINT32 && sl.block == b
    case GrowMove(_, b, sl) => sl.block == b
    case GrowDestroy(b, sl) => Unseen(s, b, sl)
    case FreeSp(b, sl) => sl.block == b
    case FreeCmp(b, sl, k) => sl.block == b && b in s.blocks && k < s.blocks[b].Capacity()
    case FreeCas(b, sl, k, c) => sl.block == b && b in s.blocks && k < s.blocks[b].Capacity()
    case FreeSwap(b, sl, k, c) => sl.block == b && b in s.blocks && k < s.blocks[b].Capacity() && s.blocks[b].free == k
    case FreeRestore(b, sl, k) => sl.block == b && b in s.blocks && k < s.blocks[b].Capacity() && s.blocks[b].free == k
    case FreeStore(b, sl, k) =>
      && sl.block == b && b in s.blocks && k < s.blocks[b].Capacity()
      && s.blocks[b].free == k && s.blocks[b].stack[k + 1] == sl
    case _ => true
  }

  ghost predicate ThreadOK(s: State, t: Tid, pc: Pc)
  {
    && (forall b <- Refs(pc) :: b in s.ring)
    && (Carried(pc).Some? ==> Mine(s, t, Carried(pc).value) && (Written(pc) ==> Headed(s, Carried(pc).value)))
    && (Locked(pc).Some? ==> Holds(s, t, Locked(pc).value))
    && Detail(s, pc)
  }

  ghost predicate Blocks(s: State) { forall b | b in s.blocks :: BlockOK(s, b) }
  ghost predicate Slots(s: State) { forall sl :: SlotOK(s, sl) }
  ghost predicate Threads(s: State) { forall t | t in s.threads :: ThreadOK(s, t, s.threads[t]) }

  ghost predicate Inv(s: State)
  {
    RingOK(s) && Blocks(s) && Slots(s) && Threads(s)
  }

  lemma InitInv(s: State)
    requires Init(s)
    ensures Inv(s)
  {
    forall sl ensures SlotOK(s, sl) { }
  }

  lemma RingKept(s: State, s': State)
    requires RingOK(s) && s'.ring == s.ring && s'.current in s.ring && s'.maxCapacity >= 1
    requires forall b <- s.ring | b in s.blocks :: b in s'.blocks && s'.blocks[b].next == s.blocks[b].next
    ensures RingOK(s')
  {
    forall i | 0 <= i < |s'.ring| ensures Hop(s', i) { assert Hop(s, i); }
  }

  // ------------------------------------------ what other threads rely on

  /** What thread `u`, at `pc`, knows in `s` is still so in `s'`. */
  ghost predicate Undisturbed(s: State, s': State, u: Tid, pc: Pc)
  {
    && (forall b <- s.ring | b in s.blocks ::
          b in s'.ring && b in s'.blocks && |s'.blocks[b].stack| == |s.blocks[b].stack|)
    && (Carried(pc).Some? && Mine(s, u, Carried(pc).value) ==>
          Mine(s', u, Carried(pc).value) && (Headed(s, Carried(pc).value) ==> Headed(s', Carried(pc).value)))
    && (Locked(pc).Some? && Holds(s, u, Locked(pc).value) ==>
          var b := Locked(pc).value; b in s'.blocks && s'.blocks[b].(next := s.blocks[b].next) == s.blocks[b])
    && (Unpublished(pc).Some? ==>
          var b := Unpublished(pc).value;
          b in s.blocks && b !in s.ring ==> b in s'.blocks && s'.blocks[b] == s.blocks[b] && b !in s'.ring)
  }

  lemma ThreadKept(s: State, s': State, u: Tid, pc: Pc)
    requires RingOK(s) && ThreadOK(s, u, pc) && Undisturbed(s, s', u, pc)
    ensures ThreadOK(s', u, pc)
  {
    assert forall b <- Refs(pc) :: b in s'.ring;
    assert Detail(s', pc);
  }

  // --------------------------------------------- steps that change one thread

  /** A step that changes nothing but the program counter of `t`, pool->block
      and pool->max_capacity. */
  ghost predicate Local(s: State, s': State, t: Tid)
  {
    && t in s.threads && t in s'.threads
    && s'.(current := s.current, maxCapacity := s.maxCapacity, threads := s.threads) == s
    && s'.threads == s.threads[t := s'.threads[t]] && s'.current in s.ring && s'.maxCapacity >= 1
    && Carried(s'.threads[t]) == Carried(s.threads[t]) && Locked(s'.threads[t]) == Locked(s.threads[t])
    && ThreadOK(s', t, s'.threads[t])
  }

  lemma LocalBlocks(s: State, s': State, t: Tid)
    requires Inv(s) && Local(s, s', t)
    ensures RingOK(s') && Blocks(s')
  {
    RingKept(s, s');
    forall b | b in s'.blocks ensures BlockOK(s', b) { assert BlockOK(s, b); }
  }

  lemma LocalSlots(s: State, s': State, t: Tid)
    requires Inv(s) && Local(s, s', t)
    ensures Slots(s')
  {
    forall sl ensures SlotOK(s', sl) { assert SlotOK(s, sl); }
  }

  lemma LocalThreads(s: State, s': State, t: Tid)
    requires Inv(s) && Local(s, s', t)
    ensures Threads(s')
  {
    forall u | u in s'.threads ensures ThreadOK(s', u, s'.threads[u]) {
      if u != t {
        assert ThreadOK(s, u, s.threads[u]);
        ThreadKept(s, s', u, s.threads[u]);
      }
    }
  }

  lemma LocalInv(s: State, s': State, t: Tid)
    requires Inv(s) && Local(s, s', t)
    ensures Inv(s')
  {
    LocalBlocks(s, s', t);
    LocalSlots(s, s', t);
    LocalThreads(s, s', t);
  }

  lemma RingMember(s: State, b: BlockId)
    requires RingOK(s) && b in s.ring
    ensures b in s.blocks && s.blocks[b].next in s.ring
  {
    var i :| 0 <= i < |s.ring| && s.ring[i] == b;
    assert Hop(s, i) && Successor(s.ring, i) in s.ring;
  }

  /** What the step of `t` may use. */
  ghost predicate View(s: State, t: Tid)
  {
    && Running(s, t) && ThreadOK(s, t, s.threads[t]) && s.current in s.ring && s.maxCapacity >= 1
    && (forall b <- Refs(s.threads[t]) :: b in s.ring && b in s.blocks && s.blocks[b].next in s.ring && BlockOK(s, b))
  }

  lemma HasView(s: State, t: Tid)
    requires Inv(s) && Running(s, t)
    ensures View(s, t)
  {
    forall b <- Refs(s.threads[t]) ensures b in s.ring && b in s.blocks && s.blocks[b].next in s.ring && BlockOK(s, b) {
      assert ThreadOK(s, t, s.threads[t]);
      RingMember(s, b);
    }
  }

  /** Every access of every thread is to a block, a header or a stack cell that exists;
      in particular the unlocked read of the cell above the stack pointer (141). */
  lemma RunsSafely(s: State, t: Tid)
    requires View(s, t)
    ensures Safe(s, s.threads[t])
  {
    if s.threads[t].AllocCas? { assert BlockOK(s, s.threads[t].b); }
  }

  function SlotsOf(b: BlockId, n: nat): (r: set<Slot>)
    ensures |r| == n && forall sl :: sl in r <==> sl.block == b && sl.idx < n
  {
    if n == 0 then {} else SlotsOf(b, n - 1) + {Slot(b, n - 1)}
  }

  /** A slot that is not free leaves room on its block's stack. */
  lemma RoomFor(s: State, sl: Slot)
    requires Inv(s) && sl in s.place && !s.place[sl].Free?
    ensures sl.block in s.blocks && s.blocks[sl.block].free < s.blocks[sl.block].Capacity()
  {
    assert SlotOK(s, sl);
    var block := s.blocks[sl.block];
    assert BlockOK(s, sl.block);
    var xs := block.stack[1..block.free + 1];
    forall i | 0 <= i < |xs|
      ensures xs[i] in s.place && xs[i].block == sl.block && s.place[xs[i]] == Free(i + 1)
      ensures xs[i].idx < block.Capacity()
    {
      assert xs[i] == block.stack[i + 1];
      assert SlotOK(s, xs[i]);
    }
    Counting.Pigeons(xs, SlotsOf(sl.block, block.Capacity()), sl);
  }

  ghost predicate IsLocal(s: State, t: Tid)
    requires t in s.threads
  {
    match s.threads[t]
    case Idle => false
    case AllocCas(_, b, _, k) => b in s.blocks && s.blocks[b].sp != At(k)
    case AllocStore(_, _, _, _) => false
    case AllocHead(_, _, _) => false
    case AllocReturn(_) => false
    case GrowLink(pb, last, _, _, _) => last in s.blocks && s.blocks[last].next != pb
    case GrowDestroy(_, _) => false
    case FreeCas(b, _, k, _) => b in s.blocks && s.blocks[b].sp != At(k)
    case FreeSwap(b, _, k, c) => b in s.blocks && k + 1 < |s.blocks[b].stack| && s.blocks[b].stack[k + 1] != c
    case FreeRestore(_, _, _) => false
    case FreeStore(_, _, _) => false
    case _ => true
  }

  lemma LocalAlloc(s: State, t: Tid)
    requires View(s, t) && IsLocal(s, t) && Safe(s, s.threads[t])
    requires var pc := s.threads[t];
             pc.AllocStart? || pc.AllocSp? || pc.AllocCas? || pc.AllocRead? || pc.AllocNext1? || pc.AllocNext2?
    ensures Local(s, Run(s, t), t)
  {
  }

  lemma LocalGrow(s: State, t: Tid)
    requires View(s, t) && IsLocal(s, t) && Safe(s, s.threads[t])
    requires s.threads[t].AllocMove? || s.threads[t].GrowRead? || s.threads[t].GrowCreate?
    ensures Local(s, Run(s, t), t)
  {
    hide Distinct;
  }

  lemma LocalLink(s: State, t: Tid)
    requires View(s, t) && IsLocal(s, t) && Safe(s, s.threads[t])
    requires s.threads[t].GrowLink? || s.threads[t].GrowMax? || s.threads[t].GrowMove?
    ensures Local(s, Run(s, t), t)
  {
    hide Distinct;
  }

  lemma LocalFree(s: State, t: Tid)
    requires View(s, t) && IsLocal(s, t) && Safe(s, s.threads[t])
    requires s.threads[t].FreeHead? || s.threads[t].FreeCmp?
    ensures Local(s, Run(s, t), t)
  {
    hide BlockOK;
  }

  lemma LocalFreeFails(s: State, t: Tid)
    requires View(s, t) && IsLocal(s, t) && Safe(s, s.threads[t])
    requires s.threads[t].FreeCas? || s.threads[t].FreeSwap?
    ensures Local(s, Run(s, t), t)
  {
    hide BlockOK;
  }

  lemma LocalFreeSp(s: State, t: Tid)
    requires View(s, t) && Safe(s, s.threads[t]) && s.threads[t].FreeSp?
    requires s.blocks[s.threads[t].b].free < s.blocks[s.threads[t].b].Capacity()
    ensures Local(s, Run(s, t), t)
  {
    assert BlockOK(s, s.threads[t].b);
  }

  lemma LocalRun(s: State, t: Tid)
    requires Inv(s) && Running(s, t) && IsLocal(s, t) && Safe(s, s.threads[t])
    ensures Inv(Run(s, t))
  {
    HasView(s, t);
    var pc := s.threads[t];
    if pc.FreeSp? {
      RoomFor(s, pc.sl);
      LocalFreeSp(s, t);
    } else if pc.FreeHead? || pc.FreeCmp? {
      LocalFree(s, t);
    } else if pc.FreeCas? || pc.FreeSwap? {
      LocalFreeFails(s, t);
    } else if pc.AllocMove? || pc.GrowRead? || pc.GrowCreate? {
      LocalGrow(s, t);
    } else if pc.GrowLink? || pc.GrowMax? || pc.GrowMove? {
      LocalLink(s, t);
    } else {
      LocalAlloc(s, t);
    }
    LocalInv(s, Run(s, t), t);
  }

  // ------------------------------------- steps that change one block, one slot

  /** Thread `t` changes the stack of published block `b` or the place of slot `x`,
      of which no other thread knows anything. */
  ghost predicate Touches(s: State, s': State, t: Tid, b: BlockId, x: Slot)
  {
    && t in s.threads && t in s'.threads && b in s.ring && b in s.blocks && b in s'.blocks
    && s'.threads == s.threads[t := s'.threads[t]]
    && s'.ring == s.ring && s'.current == s.current && s'.maxCapacity == s.maxCapacity
    && s'.blocks == s.blocks[b := s'.blocks[b]]
    && s'.blocks[b].next == s.blocks[b].next && |s'.blocks[b].stack| == |s.blocks[b].stack|
    && (s.blocks[b].sp.Busy? && s.blocks[b].sp.who != t ==> s'.blocks[b] == s.blocks[b])
    && x.block == b && x in s.place && x in s'.place && s'.place == s.place[x := s'.place[x]]
    && (s.place[x].With? ==> s.place[x].t == t)
    && (forall y | y != x ::
          s'.held[y] == s.held[y] && (y in s.header ==> y in s'.header && s'.header[y] == s.header[y]))
    && (forall i | 1 <= i <= s.blocks[b].free < |s.blocks[b].stack| && s.blocks[b].stack[i] != x ::
          i <= s'.blocks[b].free < |s'.blocks[b].stack| && s'.blocks[b].stack[i] == s.blocks[b].stack[i])
    && BlockOK(s', b) && SlotOK(s', x) && ThreadOK(s', t, s'.threads[t])
    && (Carried(s.threads[t]).Some? ==> Carried(s.threads[t]) == Some(x))
    && (Locked(s.threads[t]).Some? ==> Locked(s.threads[t]) == Some(b))
  }

  lemma TouchesBlocks(s: State, s': State, t: Tid, b: BlockId, x: Slot)
    requires Inv(s) && Touches(s, s', t, b, x)
    ensures RingOK(s') && Blocks(s')
  {
    RingKept(s, s');
    forall c | c in s'.blocks ensures BlockOK(s', c) {
      if c != b {
        assert BlockOK(s, c);
      }
    }
  }

  lemma TouchesSlots(s: State, s': State, t: Tid, b: BlockId, x: Slot)
    requires Inv(s) && Touches(s, s', t, b, x)
    ensures Slots(s')
  {
    forall y ensures SlotOK(s', y) {
      assert SlotOK(s, y);
    }
  }

  lemma TouchesThreads(s: State, s': State, t: Tid, b: BlockId, x: Slot)
    requires Inv(s) && Touches(s, s', t, b, x)
    ensures Threads(s')
  {
    forall u | u in s'.threads ensures ThreadOK(s', u, s'.threads[u]) {
      if u != t {
        assert ThreadOK(s, u, s.threads[u]);
        ThreadKept(s, s', u, s.threads[u]);
      }
    }
  }

  lemma TouchesInv(s: State, s': State, t: Tid, b: BlockId, x: Slot)
    requires Inv(s) && Touches(s, s', t, b, x)
    ensures Inv(s')
  {
    TouchesBlocks(s, s', t, b, x);
    TouchesSlots(s, s', t, b, x);
    TouchesThreads(s, s', t, b, x);
  }

  /** Claiming a block for an allocation takes its top slot into transit. */
  lemma ClaimTouches(s: State, t: Tid)
    requires View(s, t) && s.threads[t].AllocCas? && Safe(s, s.threads[t]) && !IsLocal(s, t)
    requires var b, k := s.threads[t].b, s.threads[t].k;
             s.blocks[b].stack[k] in s.place ==> SlotOK(s, s.blocks[b].stack[k])
    ensures var b, k := s.threads[t].b, s.threads[t].k;
            Touches(s, Run(s, t), t, b, s.blocks[b].stack[k])
  {
    assert BlockOK(s, s.threads[t].b);
  }

  /** A thread working on the slot `sl` it carries. */
  lemma AllocTouches(s: State, t: Tid, sl: Slot)
    requires View(s, t) && Safe(s, s.threads[t]) && Carried(s.threads[t]) == Some(sl) && SlotOK(s, sl)
    requires s.threads[t].AllocStore? || s.threads[t].AllocHead? || s.threads[t].AllocReturn?
    ensures sl.block in s.blocks && Touches(s, Run(s, t), t, sl.block, sl)
  {
    hide Distinct, Unseen, Insert, Safe;
    assert BlockOK(s, sl.block);
  }

  lemma FreeTouches(s: State, t: Tid, sl: Slot)
    requires View(s, t) && Safe(s, s.threads[t]) && Carried(s.threads[t]) == Some(sl) && SlotOK(s, sl)
    requires s.threads[t].FreeCas? || s.threads[t].FreeSwap?
    requires !IsLocal(s, t)
    ensures Touches(s, Run(s, t), t, sl.block, sl)
  {
    assert BlockOK(s, sl.block);
    hide Distinct, RingOK, ThreadOK, Successor, Hop, Insert;
  }

  lemma ReleaseTouches(s: State, t: Tid, sl: Slot)
    requires View(s, t) && Safe(s, s.threads[t]) && Carried(s.threads[t]) == Some(sl) && SlotOK(s, sl)
    requires s.threads[t].FreeRestore? || s.threads[t].FreeStore?
    ensures Touches(s, Run(s, t), t, sl.block, sl)
  {
    hide Distinct, Unseen, Insert, Safe;
    assert BlockOK(s, sl.block);
  }

  lemma InvokeFreeTouches(s: State, t: Tid, sl: Slot)
    requires Resting(s, t) && sl in s.held && SlotOK(s, sl)
    requires sl.block in s.blocks && BlockOK(s, sl.block)
    ensures Touches(s, InvokeFree(s, t, sl), t, sl.block, sl)
  {
  }

  lemma InvokeFreeInv(s: State, t: Tid, sl: Slot)
    requires Inv(s) && Resting(s, t) && sl in s.held
    ensures Inv(InvokeFree(s, t, sl))
  {
    assert SlotOK(s, sl);
    RingMember(s, sl.block);
    InvokeFreeTouches(s, t, sl);
    TouchesInv(s, InvokeFree(s, t, sl), t, sl.block, sl);
  }

  lemma TouchingRun(s: State, t: Tid)
    requires Inv(s) && Running(s, t) && Safe(s, s.threads[t]) && !IsLocal(s, t)
    requires !s.threads[t].GrowLink? && !s.threads[t].GrowDestroy?
    ensures Inv(Run(s, t))
  {
    HasView(s, t);
    var pc := s.threads[t];
    if pc.AllocCas? {
      var x := s.blocks[pc.b].stack[pc.k];
      assert SlotOK(s, x);
      ClaimTouches(s, t);
      TouchesInv(s, Run(s, t), t, pc.b, x);
    } else {
      var sl := Carried(pc).value;
      assert SlotOK(s, sl);
      if pc.AllocStore? || pc.AllocHead? || pc.AllocReturn? { AllocTouches(s, t, sl); }
      else if pc.FreeCas? || pc.FreeSwap? { FreeTouches(s, t, sl); }
      else { ReleaseTouches(s, t, sl); }
      TouchesInv(s, Run(s, t), t, sl.block, sl);
    }
  }

  // ------------------------------------------------------- growing the ring

  /** A slot in transit belongs to a published block, or is the top slot of the
      block its thread has just created. */
  lemma CarriedHome(s: State, u: Tid)
    requires u in s.threads && ThreadOK(s, u, s.threads[u]) && Carried(s.threads[u]).Some?
    ensures var y, pc := Carried(s.threads[u]).value, s.threads[u];
            && Mine(s, u, y)
            && (y.block in s.ring || (Unpublished(pc) == Some(y.block) && Unseen(s, y.block, y)))
    ensures Unpublished(s.threads[u]).Some? ==> Unpublished(s.threads[u]) == Some(Carried(s.threads[u]).value.block)
  {
    var pc := s.threads[u];
    assert Detail(s, pc);
    assert forall b <- Refs(pc) :: b in s.ring;
    if pc.GrowLink? || pc.GrowDestroy? { assert Unseen(s, pc.b, pc.sl); }
    else { assert Carried(pc).value.block in Refs(pc); }
  }

  /** Nobody but `t` knows of the block `t` has created. */
  lemma OnlyOwner(s: State, t: Tid, u: Tid)
    requires Inv(s) && t in s.threads && u in s.threads && u != t && Unpublished(s.threads[t]).Some?
    ensures var b := Unpublished(s.threads[t]).value;
            && b !in s.ring && b != s.current && b in s.blocks
            && b !in Refs(s.threads[u]) && Unpublished(s.threads[u]) != Some(b)
            && Locked(s.threads[u]) != Some(b)
            && (Carried(s.threads[u]).Some? ==> Carried(s.threads[u]).value.block != b)
  {
    assert ThreadOK(s, t, s.threads[t]) && ThreadOK(s, u, s.threads[u]);
    CarriedHome(s, t);
    if Carried(s.threads[u]).Some? { CarriedHome(s, u); }
  }

  /** A block that has not been published has given out no slot. */
  lemma NothingGivenOut(s: State, b: BlockId, sl: Slot)
    requires Inv(s) && b !in s.ring && sl.block == b
    ensures s.held[sl] == 0
  {
    assert SlotOK(s, sl);
  }

  /** Apart from `b` and thread `t` nothing has changed. */
  ghost predicate Beside(s: State, s': State, t: Tid, b: BlockId)
  {
    && t in s.threads && t in s'.threads && Carried(s.threads[t]) == None && Locked(s.threads[t]) == None
    && s'.threads == s.threads[t := s'.threads[t]]
    && b !in s.blocks && b in s'.blocks && s'.blocks == s.blocks[b := s'.blocks[b]]
    && s'.ring == s.ring && s'.current == s.current && s'.maxCapacity == s.maxCapacity && s'.held == s.held
  }

  /** The slots of `b` have got places, the one on top with thread `t`. */
  ghost predicate Placed(s: State, s': State, t: Tid, b: BlockId)
    requires b in s'.blocks
  {
    && (forall y: Slot | y.block != b ::
          && (y in s'.place <==> y in s.place) && (y in s.place ==> s'.place[y] == s.place[y])
          && (y in s.header ==> y in s'.header && s'.header[y] == s.header[y]))
    && (forall y: Slot | y.block == b ::
          && (y in s'.place <==> y.idx < s'.blocks[b].Capacity())
          && (y in s'.place ==>
                s'.place[y] == if y.idx == s'.blocks[b].Capacity() - 1 then With(t) else Free(y.idx + 1)))
  }

  /** All slots of `b` are on its stack, but the one on top has been taken. */
  ghost predicate Stacked(s': State, t: Tid, b: BlockId)
    requires b in s'.blocks && t in s'.threads
  {
    && s'.blocks[b].free == s'.blocks[b].Capacity() - 1
    && (forall i | 1 <= i < |s'.blocks[b].stack| :: s'.blocks[b].stack[i] == Slot(b, i - 1))
    && s'.blocks[b].sp == At(s'.blocks[b].free)
    && Carried(s'.threads[t]) == Some(Slot(b, s'.blocks[b].free))
  }

  /** Thread `t` has a new block `b`, whose top slot it holds. */
  ghost predicate Created(s: State, s': State, t: Tid, b: BlockId)
  {
    Beside(s, s', t, b) && Placed(s, s', t, b) && Stacked(s', t, b) && ThreadOK(s', t, s'.threads[t])
  }

  lemma CreatePlaces(s: State, t: Tid, b: BlockId, y: Slot)
    requires t in s.threads && s.threads[t].GrowCreate? && s.threads[t].m >= 1
    requires forall y: Slot | y.block == b :: y !in s.place
    ensures var s', n := Create(s, t, b), 2 * s.threads[t].m;
            && (y.block != b ==>
                  && (y in s'.place <==> y in s.place) && (y in s.place ==> s'.place[y] == s.place[y])
                  && (y in s.header ==> y in s'.header && s'.header[y] == s.header[y]))
            && (y.block == b ==>
                  && (y in s'.place <==> y.idx < n)
                  && (y in s'.place ==> s'.place[y] == if y.idx == n - 1 then With(t) else Free(y.idx + 1)))
  {
  }

  lemma CreatorOK(s: State, t: Tid, b: BlockId)
    requires t in s.threads && s.threads[t].GrowCreate? && 1 <= s.threads[t].m && 2 * s.threads[t].m < UINT32
    requires b !in s.blocks && b !in s.ring && s.threads[t].pb in s.ring && s.threads[t].last in s.ring
    requires forall y: Slot | y.block == b :: y !in s.place
    ensures ThreadOK(Create(s, t, b), t, Create(s, t, b).threads[t])
  {
    var s', n := Create(s, t, b), 2 * s.threads[t].m;
    CreatePlaces(s, t, b, Slot(b, n - 1));
    assert Mine(s', t, Slot(b, n - 1)) && Unseen(s', b, Slot(b, n - 1));
  }

  lemma CreateBeside(s: State, t: Tid, b: BlockId)
    requires t in s.threads && s.threads[t].GrowCreate? && s.threads[t].m >= 1 && b !in s.blocks
    ensures Beside(s, Create(s, t, b), t, b)
  {
    var s' := Create(s, t, b);
    assert s'.threads == s.threads[t := s'.threads[t]] && s'.blocks == s.blocks[b := s'.blocks[b]];
  }

  lemma CreateStacked(s: State, t: Tid, b: BlockId)
    requires t in s.threads && s.threads[t].GrowCreate? && 1 <= s.threads[t].m
    ensures b in Create(s, t, b).blocks && t in Create(s, t, b).threads
    ensures Stacked(Create(s, t, b), t, b) && Create(s, t, b).blocks[b].Capacity() == 2 * s.threads[t].m
  {
    var s', n := Create(s, t, b), 2 * s.threads[t].m;
    assert s'.blocks[b].stack == NewStack(b, n) && s'.blocks[b].Capacity() == n;
    assert s'.blocks[b].free == n - 1 && s'.blocks[b].sp == At(n - 1);
    assert Carried(s'.threads[t]) == Some(Slot(b, n - 1));
  }

  lemma CreateCreated(s: State, t: Tid, b: BlockId)
    requires t in s.threads && s.threads[t].GrowCreate? && 1 <= s.threads[t].m && 2 * s.threads[t].m < UINT32
    requires b !in s.blocks && b !in s.ring && s.threads[t].pb in s.ring && s.threads[t].last in s.ring
    requires forall y: Slot | y.block == b :: y !in s.place
    ensures Created(s, Create(s, t, b), t, b)
  {
    hide ThreadOK, Create, Stacked;
    forall y: Slot { CreatePlaces(s, t, b, y); }
    CreateBeside(s, t, b);
    CreateStacked(s, t, b);
    CreatorOK(s, t, b);
  }

  lemma CreatedSlot(s: State, s': State, t: Tid, b: BlockId, y: Slot)
    requires Created(s, s', t, b) && SlotOK(s, y) && b !in s.ring
    ensures SlotOK(s', y)
  {
    if y.block == b { assert y !in s.place; }
  }

  lemma CreatedSlots(s: State, s': State, t: Tid, b: BlockId)
    requires Slots(s) && Created(s, s', t, b) && b !in s.ring
    ensures Slots(s')
  {
    forall y ensures SlotOK(s', y) {
      assert SlotOK(s, y);
      CreatedSlot(s, s', t, b, y);
    }
  }

  lemma CreatedBlock(s: State, s': State, t: Tid, b: BlockId, c: BlockId)
    requires Created(s, s', t, b) && c in s.blocks && BlockOK(s, c)
    ensures BlockOK(s', c)
  {
  }

  lemma CreatedBlocks(s: State, s': State, t: Tid, b: BlockId)
    requires RingOK(s) && Blocks(s) && Created(s, s', t, b)
    ensures RingOK(s') && Blocks(s')
  {
    forall c | c in s.blocks ensures BlockOK(s', c) { CreatedBlock(s, s', t, b, c); }
    RingKept(s, s');
  }

  lemma CreatedThreads(s: State, s': State, t: Tid, b: BlockId)
    requires Inv(s) && Created(s, s', t, b)
    ensures Threads(s')
  {
    forall u | u in s'.threads ensures ThreadOK(s', u, s'.threads[u]) {
      if u != t {
        assert ThreadOK(s, u, s.threads[u]);
        if Carried(s.threads[u]).Some? { assert SlotOK(s, Carried(s.threads[u]).value); }
        ThreadKept(s, s', u, s.threads[u]);
      }
    }
  }

  lemma CreateInv(s: State, t: Tid, b: BlockId)
    requires Inv(s) && Running(s, t) && s.threads[t].GrowCreate? && 2 * s.threads[t].m < UINT32 && b !in s.blocks
    requires s.threads[t].m >= 1
    ensures Inv(Create(s, t, b))
  {
    HasView(s, t);
    if b in s.ring { RingMember(s, b); }
    forall y: Slot | y.block == b ensures y !in s.place { assert SlotOK(s, y); }
    assert s.threads[t].pb in Refs(s.threads[t]) && s.threads[t].last in Refs(s.threads[t]);
    CreateCreated(s, t, b);
    var s' := Create(s, t, b);
    CreatedSlots(s, s', t, b);
    CreatedBlocks(s, s', t, b);
    CreatedThreads(s, s', t, b);
  }

  lemma InsertAt(ring: seq<BlockId>, last: BlockId, b: BlockId, i: nat)
    requires i < |ring| && ring[i] == last && Distinct(ring)
    ensures Insert(ring, last, b) == ring[..i + 1] + [b] + ring[i + 1..]
  {
    if i > 0 {
      assert Distinct(ring[1..]);
      InsertAt(ring[1..], last, b, i - 1);
      assert ring[0] != last;
    }
  }

  lemma InsertDistinct(ring: seq<BlockId>, b: BlockId, i: nat)
    requires i < |ring| && Distinct(ring) && b !in ring
    ensures Distinct(ring[..i + 1] + [b] + ring[i + 1..])
  {
  }

  /** The swap of `next` has succeeded: `b` is on the ring between ring[i] and its successor. */
  ghost predicate Published(s: State, s': State, t: Tid, b: BlockId, i: nat)
  {
    && t in s.threads && t in s'.threads && Unpublished(s.threads[t]) == Some(b)
    && s'.threads == s.threads[t := s'.threads[t]]
    && Carried(s'.threads[t]) == Carried(s.threads[t]) && Locked(s.threads[t]) == None
    && i < |s.ring| && s.ring[i] in s.blocks && b in s.blocks && b !in s.ring
    && s.blocks[b].next == s.blocks[s.ring[i]].next
    && s'.blocks == s.blocks[s.ring[i] := s.blocks[s.ring[i]].(next := b)]
    && s'.ring == s.ring[..i + 1] + [b] + s.ring[i + 1..]
    && s'.(blocks := s.blocks, ring := s.ring, threads := s.threads) == s
    && ThreadOK(s', t, s'.threads[t])
  }

  lemma PublishedMembers(ring: seq<BlockId>, b: BlockId, i: nat)
    requires i < |ring|
    ensures forall c :: c in ring[..i + 1] + [b] + ring[i + 1..] <==> c in ring || c == b
  {
    assert ring == ring[..i + 1] + ring[i + 1..];
  }

  lemma LinkPublished(s: State, t: Tid, i: nat)
    requires View(s, t) && s.threads[t].GrowLink? && Safe(s, s.threads[t]) && !IsLocal(s, t)
    requires i < |s.ring| && s.ring[i] == s.threads[t].last && Distinct(s.ring)
    ensures Published(s, Run(s, t), t, s.threads[t].b, i)
  {
    hide Distinct, RingOK;
    var b := s.threads[t].b;
    InsertAt(s.ring, s.threads[t].last, b, i);
    PublishedMembers(s.ring, b, i);
    LinkerOK(s, t, i);
    assert s.blocks[b].next == s.threads[t].pb;
    assert Run(s, t).threads[t].GrowMax? && Run(s, t).ring == Insert(s.ring, s.threads[t].last, b);
  }

  lemma LinkerOK(s: State, t: Tid, i: nat)
    requires View(s, t) && s.threads[t].GrowLink? && Safe(s, s.threads[t]) && !IsLocal(s, t)
    requires i < |s.ring| && s.ring[i] == s.threads[t].last && Distinct(s.ring)
    ensures ThreadOK(Run(s, t), t, Run(s, t).threads[t])
  {
    hide Distinct, RingOK, BlockOK, Insert;
    InsertAt(s.ring, s.threads[t].last, s.threads[t].b, i);
    PublishedMembers(s.ring, s.threads[t].b, i);
  }

  lemma InsertSuccessor(ring: seq<BlockId>, b: BlockId, i: nat, j: nat)
    requires i < |ring| && j <= |ring|
    ensures var r := ring[..i + 1] + [b] + ring[i + 1..];
            if j == i then r[j] == ring[i] && Successor(r, j) == b
            else if j == i + 1 then r[j] == b && Successor(r, j) == Successor(ring, i)
            else if j < i then r[j] == ring[j] && Successor(r, j) == Successor(ring, j)
            else r[j] == ring[j - 1] && Successor(r, j) == Successor(ring, j - 1)
  {
  }

  lemma PublishedRing(s: State, s': State, t: Tid, b: BlockId, i: nat)
    requires RingOK(s) && Published(s, s', t, b, i)
    ensures RingOK(s')
  {
    InsertDistinct(s.ring, b, i);
    PublishedMembers(s.ring, b, i);
    forall j | 0 <= j < |s'.ring| ensures Hop(s', j) {
      InsertSuccessor(s.ring, b, i, j);
      assert Hop(s, i) && (j < i ==> Hop(s, j)) && (j > i + 1 ==> Hop(s, j - 1));
    }
  }

  lemma PublishedBlocks(s: State, s': State, t: Tid, b: BlockId, i: nat)
    requires Inv(s) && Published(s, s', t, b, i)
    ensures Blocks(s') && Slots(s')
  {
    PublishedMembers(s.ring, b, i);
    forall c | c in s'.blocks ensures BlockOK(s', c) { assert BlockOK(s, c); }
    forall y ensures SlotOK(s', y) { assert SlotOK(s, y); }
  }

  lemma PublishedThreads(s: State, s': State, t: Tid, b: BlockId, i: nat)
    requires Inv(s) && Published(s, s', t, b, i)
    ensures Threads(s')
  {
    hide RingOK, Blocks, Slots;
    PublishedMembers(s.ring, b, i);
    forall u | u in s'.threads ensures ThreadOK(s', u, s'.threads[u]) {
      if u != t {
        OnlyOwner(s, t, u);
        assert ThreadOK(s, u, s.threads[u]);
        ThreadKept(s, s', u, s.threads[u]);
      }
    }
  }

  lemma PublishInv(s: State, t: Tid)
    requires Inv(s) && Running(s, t) && s.threads[t].GrowLink? && Safe(s, s.threads[t]) && !IsLocal(s, t)
    ensures Inv(Run(s, t))
  {
    HasView(s, t);
    var i :| 0 <= i < |s.ring| && s.ring[i] == s.threads[t].last;
    var b, s' := s.threads[t].b, Run(s, t);
    LinkPublished(s, t, i);
    PublishedRing(s, s', t, b, i);
    PublishedBlocks(s, s', t, b, i);
    PublishedThreads(s, s', t, b, i);
  }

  /** The swap of `next` has failed: the new block is destroyed. */
  lemma DestroyInv(s: State, t: Tid)
    requires Inv(s) && t in s.threads && s.threads[t].GrowDestroy?
    ensures Inv(Run(s, t))
  {
    var s' := Run(s, t);
    DestroyBlocks(s, t);
    DestroySlots(s, t);
    forall u | u in s'.threads ensures ThreadOK(s', u, s'.threads[u]) {
      if u != t {
        OnlyOwner(s, t, u);
        assert ThreadOK(s, u, s.threads[u]);
        ThreadKept(s, s', u, s.threads[u]);
      }
    }
  }

  lemma DestroyBlocks(s: State, t: Tid)
    requires Inv(s) && t in s.threads && s.threads[t].GrowDestroy?
    ensures RingOK(Run(s, t)) && Blocks(Run(s, t))
  {
    var s' := Run(s, t);
    assert ThreadOK(s, t, s.threads[t]);
    RingKept(s, s');
    forall c | c in s'.blocks ensures BlockOK(s', c) { assert BlockOK(s, c); }
  }

  lemma DestroySlots(s: State, t: Tid)
    requires Inv(s) && t in s.threads && s.threads[t].GrowDestroy?
    ensures Slots(Run(s, t))
  {
    var s' := Run(s, t);
    assert ThreadOK(s, t, s.threads[t]);
    forall y ensures SlotOK(s', y) {
      assert SlotOK(s, y);
    }
  }

  lemma StepInv(s: State, s': State)
    requires Inv(s) && Step(s, s')
    ensures Inv(s')
  {
    if t :| Running(s, t) && Safe(s, s.threads[t]) && s' == Run(s, t) {
      if IsLocal(s, t) { LocalRun(s, t); }
      else if s.threads[t].GrowDestroy? { DestroyInv(s, t); }
      else if s.threads[t].GrowLink? { PublishInv(s, t); }
      else { TouchingRun(s, t); }
    } else if t, b :| t in s.threads && s.threads[t].GrowCreate? && 1 <= s.threads[t].m && 2 * s.threads[t].m < UINT32
                      && b !in s.blocks && s' == Create(s, t, b) {
      CreateInv(s, t, b);
    } else if t :| Resting(s, t) && s' == s.Go(t, AllocStart) {
      LocalInv(s, s', t);
    } else {
      var t, sl :| Resting(s, t) && sl in s.held && s' == InvokeFree(s, t, sl);
      InvokeFreeInv(s, t, sl);
    }
  }

  // ------------------------------------------------------------- main results

  lemma {:induction false} Reachable(run: seq<State>, i: nat)
    requires Execution(run) && i < |run|
    ensures Inv(run[i])
  {
    if i == 0 { InitInv(run[0]); }
    else {
      Reachable(run, i - 1);
      StepInv(run[i - 1], run[i]);
    }
  }

  /** A slot on the free part of its block's stack. */
  ghost predicate OnStack(s: State, sl: Slot)
  {
    sl.block in s.blocks
    && exists i :: 1 <= i <= s.blocks[sl.block].free < |s.blocks[sl.block].stack| && s.blocks[sl.block].stack[i] == sl
  }

  ghost predicate InTransit(s: State, t: Tid, sl: Slot)
  {
    t in s.threads && Carried(s.threads[t]) == Some(sl)
  }

  lemma OnePlace(s: State, sl: Slot)
    requires Inv(s)
    ensures OnStack(s, sl) ==> sl in s.place && s.place[sl].Free?
    ensures sl in s.held ==> sl in s.place && s.place[sl].Client?
    ensures forall t | InTransit(s, t, sl) :: sl in s.place && s.place[sl] == With(t)
  {
    assert SlotOK(s, sl);
    if OnStack(s, sl) { assert BlockOK(s, sl.block); }
    forall t | InTransit(s, t, sl) ensures sl in s.place && s.place[sl] == With(t) {
      assert ThreadOK(s, t, s.threads[t]);
    }
  }

  /** Every slot of a published block is exactly one of: on the free stack of that
      block, held by a client, in transit in one thread.  So no slot is ever with
      two holders, and none is lost. */
  lemma SlotsAreConserved(run: seq<State>, i: nat, sl: Slot)
    requires Execution(run) && i < |run| && sl.block in run[i].ring
    ensures var s := run[i];
            && sl.block in s.blocks
            && s.held[sl] <= 1
            && (sl.idx < s.blocks[sl.block].Capacity() ==>
                  OnStack(s, sl) || sl in s.held || exists t :: InTransit(s, t, sl))
            && !(OnStack(s, sl) && sl in s.held)
            && (forall t | InTransit(s, t, sl) :: !OnStack(s, sl) && sl !in s.held)
            && (forall t, u | InTransit(s, t, sl) && InTransit(s, u, sl) :: t == u)
  {
    Reachable(run, i);
    var s := run[i];
    RingMember(s, sl.block);
    OnePlace(s, sl);
    assert SlotOK(s, sl);
    if sl in s.place && s.place[sl].With? { assert InTransit(s, s.place[sl].t, sl); }
  }

  /** Outside the moments when one thread has it BUSY, a block's stack pointer is
      the number of its free slots, and these are distinct slots of that block. */
  lemma StacksAreSound(run: seq<State>, i: nat, b: BlockId)
    requires Execution(run) && i < |run| && b in run[i].ring
    ensures var s := run[i];
            && b in s.blocks
            && var block := s.blocks[b];
               && block.free <= block.Capacity()
               && (block.sp.At? ==> block.sp.n == block.free)
               && (block.sp.Busy? ==> block.sp.who in s.threads && Locked(s.threads[block.sp.who]) == Some(b))
               && (forall j | 1 <= j <= block.free ::
                     block.stack[j].block == b && block.stack[j].idx < block.Capacity())
               && (forall j, k | 1 <= j < k <= block.free :: block.stack[j] != block.stack[k])
  {
    Reachable(run, i);
    var s := run[i];
    RingMember(s, b);
    assert BlockOK(s, b);
    forall j | 1 <= j <= s.blocks[b].free ensures s.blocks[b].stack[j].idx < s.blocks[b].Capacity() {
      assert SlotOK(s, s.blocks[b].stack[j]);
    }
  }

  /** Every access is to something that exists; the unlocked read of the cell above
      the stack pointer, and the swap into it, stay at indices 1..capacity. */
  lemma AccessesAreSafe(run: seq<State>, i: nat, t: Tid)
    requires Execution(run) && i < |run| && t in run[i].threads
    ensures Safe(run[i], run[i].threads[t])
  {
    Reachable(run, i);
    if Running(run[i], t) {
      HasView(run[i], t);
      RunsSafely(run[i], t);
    }
  }

  /** Alone, a free whose swap at line 145 fails has changed nothing at all once it has
      restored the stack pointer (148). */
  lemma FailedSwapAlone(s: State, t: Tid)
    requires t in s.threads && s.threads[t].FreeCas? && s.threads[t].b in s.blocks
    requires var FreeCas(b, sl, k, c) := s.threads[t];
             k + 1 < |s.blocks[b].stack| && s.blocks[b].sp == At(k) && s.blocks[b].stack[k + 1] != c
    ensures var s1 := Run(s, t);
            && t in s1.threads && Safe(s1, s1.threads[t])
            && var s2 := Run(s1, t);
               && t in s2.threads && Safe(s2, s2.threads[t])
               && Run(s2, t) == s.Go(t, FreeSp(s.threads[t].b, s.threads[t].sl))
  {
    var FreeCas(b, sl, k, c) := s.threads[t];
    var s1 := Run(s, t);
    assert s1 == s.Put(b, s.blocks[b].(sp := Busy(t))).Go(t, FreeSwap(b, sl, k, c));
    var s2 := Run(s1, t);
    assert s2 == s1.Go(t, FreeRestore(b, sl, k));
    assert Run(s2, t) == s2.Put(b, s.blocks[b]).Go(t, FreeSp(b, sl));
    assert s2.Put(b, s.blocks[b]).blocks == s.blocks;
  }

  /** Between the claim of a block at line 142 and the restoring of its stack pointer. */
  predicate Restoring(pc: Pc) { pc.FreeSwap? || pc.FreeRestore? }

  /** The block that a free works on, and the number of free slots it has seen there. */
  function Aim(pc: Pc): (BlockId, nat)
  {
    match pc
    case FreeCas(b, _, k, _) => (b, k)
    case FreeSwap(b, _, k, _) => (b, k)
    case FreeRestore(b, _, k) => (b, k)
    case _ => (0, 0)
  }

  /** Block `b` exists before and after, and all of it but its `next` is the same. */
  predicate SameStack(s: State, s': State, b: BlockId)
  {
    b in s.blocks && b in s'.blocks && s'.blocks[b] == s.blocks[b].(next := s'.blocks[b].next)
  }

  /** The steps of `u` that change a block. */
  predicate Writes(pc: Pc)
  {
    || pc.AllocCas? || pc.AllocStore? || pc.GrowLink? || pc.GrowDestroy?
    || pc.FreeCas? || pc.FreeSwap? || pc.FreeRestore? || pc.FreeStore?
  }

  lemma ReadersMove(s: State, u: Tid)
    requires Running(s, u) && Safe(s, s.threads[u]) && !Writes(s.threads[u])
    ensures u in Run(s, u).threads && Run(s, u).threads == s.threads[u := Run(s, u).threads[u]]
    ensures Run(s, u).blocks == s.blocks
  {
    hide Insert;
    match s.threads[u]
    case AllocSp(_, b, _) => if s.blocks[b].sp.At? { }
    case FreeSp(b, _) => if s.blocks[b].sp.At? { }
    case _ =>
  }

  lemma WritersMove(s: State, u: Tid)
    requires Running(s, u) && Safe(s, s.threads[u]) && Writes(s.threads[u])
    ensures u in Run(s, u).threads && Run(s, u).threads == s.threads[u := Run(s, u).threads[u]]
  {
    hide Insert;
    match s.threads[u]
    case AllocCas(_, _, _, _) =>
    case AllocStore(_, _, _, _) =>
    case GrowLink(_, _, _, _, _) =>
    case GrowDestroy(_, _) =>
    case FreeCas(_, _, _, _) =>
    case FreeSwap(_, _, _, _) =>
    case FreeRestore(_, _, _) =>
    case FreeStore(_, _, _) =>
  }

  lemma OnlyOneMoves(s: State, u: Tid)
    requires Running(s, u) && Safe(s, s.threads[u])
    ensures u in Run(s, u).threads && Run(s, u).threads == s.threads[u := Run(s, u).threads[u]]
  {
    if Writes(s.threads[u]) { WritersMove(s, u); } else { ReadersMove(s, u); }
  }

  /** While thread `t` has claimed a block, nobody else changes its stack. */
  lemma OthersKeepOut(s: State, u: Tid, t: Tid)
    requires View(s, u) && Safe(s, s.threads[u]) && t != u
    requires t in s.threads && Locked(s.threads[t]).Some? && Holds(s, t, Locked(s.threads[t]).value)
    ensures SameStack(s, Run(s, u), Locked(s.threads[t]).value)
  {
    hide Distinct, RingOK, Insert, BlockOK;
    if !Writes(s.threads[u]) {
      ReadersMove(s, u);
    } else {
      match s.threads[u]
      case AllocCas(_, _, _, _) =>
      case AllocStore(_, _, _, _) =>
      case GrowLink(_, _, _, _, _) =>
      case GrowDestroy(_, _) =>
      case FreeCas(_, _, _, _) =>
      case FreeSwap(_, _, _, _) =>
      case FreeRestore(_, _, _) =>
      case FreeStore(_, _, _) =>
    }
  }

  lemma RunKeepsOut(s: State, u: Tid, t: Tid)
    requires View(s, u) && Safe(s, s.threads[u]) && t in s.threads && t in Run(s, u).threads
    requires Restoring(s.threads[t]) && Restoring(Run(s, u).threads[t]) && Holds(s, t, Aim(s.threads[t]).0)
    ensures Aim(Run(s, u).threads[t]) == Aim(s.threads[t]) && SameStack(s, Run(s, u), Aim(s.threads[t]).0)
  {
    OnlyOneMoves(s, u);
    if u != t {
      hide Run;
      OthersKeepOut(s, u, t);
    } else {
      OwnRestoring(s, t);
    }
  }

  lemma StepKeepsOut(s: State, s': State, t: Tid)
    requires Inv(s) && Step(s, s') && t in s.threads && t in s'.threads
    requires Restoring(s.threads[t]) && Restoring(s'.threads[t])
    ensures Aim(s'.threads[t]) == Aim(s.threads[t]) && SameStack(s, s', Aim(s.threads[t]).0)
  {
    hide Inv, Run, Create, InvokeFree, Safe, Holds, Aim, SameStack, Restoring;
    ClaimHolds(s, t);
    if u :| Running(s, u) && Safe(s, s.threads[u]) && s' == Run(s, u) {
      HasView(s, u);
      RunKeepsOut(s, u, t);
    } else if u, b :| u in s.threads && s.threads[u].GrowCreate? && 1 <= s.threads[u].m && 2 * s.threads[u].m < UINT32
                      && b !in s.blocks && s' == Create(s, u, b) {
      CreateKeepsOut(s, u, b, t);
    } else if u :| Resting(s, u) && s' == s.Go(u, AllocStart) {
      RestingKeepsOut(s, s', u, t);
    } else {
      var u, sl :| Resting(s, u) && sl in s.held && s' == InvokeFree(s, u, sl);
      InvokeFreeMoves(s, u, sl);
      RestingKeepsOut(s, s', u, t);
    }
  }

  lemma RestingKeepsOut(s: State, s': State, u: Tid, t: Tid)
    requires Resting(s, u) && t in s.threads && Restoring(s.threads[t]) && SameStack(s, s, Aim(s.threads[t]).0)
    requires u in s'.threads && s'.threads == s.threads[u := s'.threads[u]] && s'.blocks == s.blocks
    ensures t in s'.threads && s'.threads[t] == s.threads[t] && SameStack(s, s', Aim(s.threads[t]).0)
  {
  }

  lemma InvokeFreeMoves(s: State, u: Tid, sl: Slot)
    requires u in s.threads
    ensures u in InvokeFree(s, u, sl).threads && InvokeFree(s, u, sl).blocks == s.blocks
    ensures InvokeFree(s, u, sl).threads == s.threads[u := InvokeFree(s, u, sl).threads[u]]
  {
  }

  lemma ClaimHolds(s: State, t: Tid)
    requires Inv(s) && t in s.threads && Restoring(s.threads[t])
    ensures Holds(s, t, Aim(s.threads[t]).0) && SameStack(s, s, Aim(s.threads[t]).0)
  {
    assert ThreadOK(s, t, s.threads[t]);
  }

  lemma CreateKeepsOut(s: State, u: Tid, b: BlockId, t: Tid)
    requires u in s.threads && s.threads[u].GrowCreate? && s.threads[u].m >= 1 && b !in s.blocks
    requires t in s.threads && Restoring(s.threads[t]) && SameStack(s, s, Aim(s.threads[t]).0)
    ensures t in Create(s, u, b).threads && Create(s, u, b).threads[t] == s.threads[t]
    ensures SameStack(s, Create(s, u, b), Aim(s.threads[t]).0)
  {
    CreateBeside(s, u, b);
  }

  lemma OwnRestoring(s: State, t: Tid)
    requires Running(s, t) && Safe(s, s.threads[t]) && Restoring(s.threads[t])
    requires t in Run(s, t).threads && Restoring(Run(s, t).threads[t])
    ensures Aim(Run(s, t).threads[t]) == Aim(s.threads[t]) && SameStack(s, Run(s, t), Aim(s.threads[t]).0)
  {
  }

  /** Step by thread `t` itself, as its place in the code has changed. */
  lemma MovedItself(s: State, s': State, t: Tid)
    requires Step(s, s') && t in s.threads && t in s'.threads && s'.threads[t] != s.threads[t]
    requires s.threads[t].FreeCas? || s.threads[t].FreeRestore?
    ensures Safe(s, s.threads[t]) && s' == Run(s, t)
  {
    hide Run, Create;
    if u :| Running(s, u) && Safe(s, s.threads[u]) && s' == Run(s, u) {
      OnlyOneMoves(s, u);
    } else if u, b :| u in s.threads && s.threads[u].GrowCreate? && 1 <= s.threads[u].m && 2 * s.threads[u].m < UINT32
                      && b !in s.blocks && s' == Create(s, u, b) {
      CreateBeside(s, u, b);
    }
  }

  lemma Claimed(s: State, t: Tid)
    requires t in s.threads && s.threads[t].FreeCas? && Safe(s, s.threads[t])
    requires t in Run(s, t).threads && Run(s, t).threads[t].FreeSwap?
    ensures var s', b := Run(s, t), Aim(s.threads[t]).0;
            && Aim(s'.threads[t]) == Aim(s.threads[t]) && b in s.blocks && b in s'.blocks
            && s.blocks[b].sp == At(Aim(s.threads[t]).1) && s'.blocks[b] == s.blocks[b].(sp := Busy(t))
  {
  }

  lemma {:induction false} KeptOut(run: seq<State>, i: nat, m: nat, t: Tid)
    requires Execution(run) && i < m < |run|
    requires forall n | i <= n <= m :: t in run[n].threads && Restoring(run[n].threads[t])
    ensures Aim(run[m].threads[t]) == Aim(run[i].threads[t]) && SameStack(run[i], run[m], Aim(run[i].threads[t]).0)
    decreases m
  {
    hide Inv, Step, Aim, Restoring;
    Reachable(run, m - 1);
    assert Step(run[m - 1], run[m - 1 + 1]);
    StepKeepsOut(run[m - 1], run[m], t);
    if i < m - 1 {
      KeptOut(run, i, m - 1, t);
    }
  }

  /** From the claim at step `i` to the restoring of the stack pointer at step `j`, after
      the swap at line 145 has failed, the block has not changed, whatever the other
      threads have done meanwhile; only its `next` may be another. */
  lemma FailedSwapRestores(run: seq<State>, i: nat, j: nat, t: Tid)
    requires Execution(run) && i + 1 < j < |run| - 1 && t in run[i].threads && t in run[j + 1].threads
    requires run[i].threads[t].FreeCas?
    requires forall n | i < n <= j :: t in run[n].threads && Restoring(run[n].threads[t])
    requires run[i + 1].threads[t].FreeSwap? && run[j].threads[t].FreeRestore? && run[j + 1].threads[t].FreeSp?
    ensures SameStack(run[i], run[j + 1], run[i].threads[t].b)
  {
    hide Inv, Step, Run;
    assert Step(run[i], run[i + 1]) && Step(run[j], run[j + 1]);
    MovedItself(run[i], run[i + 1], t);
    Claimed(run[i], t);
    KeptOut(run, i + 1, j, t);
    MovedItself(run[j], run[j + 1], t);
    Released(run[j], t);
  }

  lemma Released(s: State, t: Tid)
    requires t in s.threads && s.threads[t].FreeRestore? && Safe(s, s.threads[t])
    ensures var s', b := Run(s, t), Aim(s.threads[t]).0;
            b in s.blocks && b in s'.blocks && s'.blocks[b] == s.blocks[b].(sp := At(Aim(s.threads[t]).1))
  {
  }

  /** Following `next` from block `b`, `k` times. */
  function Follow(s: State, b: BlockId, k: nat): BlockId
  {
    if k == 0 then b
    else
      var c := Follow(s, b, k - 1);
      if c in s.blocks then s.blocks[c].next else c
  }

  function Around(ring: seq<BlockId>, j: nat, k: nat): BlockId
    requires j < |ring| && k <= |ring|
  {
    ring[if j + k < |ring| then j + k else j + k - |ring|]
  }

  lemma NextOnRing(s: State, j: nat)
    requires RingOK(s) && j < |s.ring|
    ensures s.ring[j] in s.blocks && s.blocks[s.ring[j]].next == Successor(s.ring, j)
  {
    assert Hop(s, j);
  }

  lemma {:induction false} FollowRing(s: State, j: nat, k: nat)
    requires RingOK(s) && j < |s.ring| && k <= |s.ring|
    ensures Follow(s, s.ring[j], k) == Around(s.ring, j, k)
  {
    if k > 0 {
      FollowRing(s, j, k - 1);
      NextOnRing(s, if j + k - 1 < |s.ring| then j + k - 1 else j + k - 1 - |s.ring|);
    }
  }

  lemma AroundCovers(ring: seq<BlockId>, j: nat, b: BlockId)
    requires j < |ring| && b in ring
    ensures exists k :: 0 <= k < |ring| && Around(ring, j, k) == b
  {
    var l :| 0 <= l < |ring| && ring[l] == b;
    assert Around(ring, j, if l >= j then l - j else l + |ring| - j) == b;
  }

  ghost predicate Meets(s: State, b: BlockId, k: nat)
  {
    k < |s.ring| && Follow(s, s.current, k) == b
  }

  /** From pool->block, following `next` meets every published block exactly once
      and then comes back: the published blocks form a single cycle. */
  lemma SingleCycle(run: seq<State>, i: nat)
    requires Execution(run) && i < |run|
    ensures var s := run[i];
            && Follow(s, s.current, |s.ring|) == s.current
            && (forall k | 0 <= k < |s.ring| :: Follow(s, s.current, k) in s.ring)
            && (forall k, l | 0 <= k < l < |s.ring| :: Follow(s, s.current, k) != Follow(s, s.current, l))
            && (forall b <- s.ring :: exists k :: Meets(s, b, k))
  {
    Reachable(run, i);
    var s := run[i];
    var j :| 0 <= j < |s.ring| && s.ring[j] == s.current;
    forall k | 0 <= k <= |s.ring| ensures Follow(s, s.current, k) == Around(s.ring, j, k) {
      FollowRing(s, j, k);
    }
    forall b <- s.ring ensures exists k :: Meets(s, b, k) {
      AroundCovers(s.ring, j, b);
      var k :| 0 <= k < |s.ring| && Around(s.ring, j, k) == b;
      assert Meets(s, b, k);
    }
  }

  /** A block that is about to be destroyed after losing the swap of `next` is on
      nobody's path: it is not on the ring, no other thread has its address, and no
      client holds one of its slots. */
  lemma LoserWasNeverSeen(run: seq<State>, i: nat, t: Tid, u: Tid, sl: Slot)
    requires Execution(run) && i < |run| && t in run[i].threads && u in run[i].threads && u != t
    requires Unpublished(run[i].threads[t]).Some?
    requires sl.block == Unpublished(run[i].threads[t]).value
    ensures var s, b := run[i], sl.block;
            && b !in s.ring && b != s.current
            && b !in Refs(s.threads[u]) && Unpublished(s.threads[u]) != Some(b)
            && (forall c <- s.ring :: c in s.blocks && s.blocks[c].next != b)
            && sl !in s.held && !InTransit(s, u, sl)
  {
    Reachable(run, i);
    OnlyOwner(run[i], t, u);
    NothingGivenOut(run[i], sl.block, sl);
    forall c <- run[i].ring ensures c in run[i].blocks && run[i].blocks[c].next != sl.block { RingMember(run[i], c); }
  }
}
