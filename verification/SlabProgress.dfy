/**
 When the lock-free pool of module LockFreeSlab gives out a slot: palloc returns NULL
 only after a block could not be created, and a palloc or pfree that runs alone comes to
 its end, from every reachable state in which no block is claimed.
 */
module SlabProgress {
  import opened Basics
  import opened LockFreeSlab

  predicate Allocating(pc: Pc)
  {
    || pc.AllocStart? || pc.AllocSp? || pc.AllocCas? || pc.AllocRead? || pc.AllocStore? || pc.AllocHead?
    || pc.AllocMove? || pc.AllocReturn? || pc.AllocNext1? || pc.AllocNext2?
    || pc.GrowRead? || pc.GrowCreate? || pc.GrowLink? || pc.GrowMax? || pc.GrowMove? || pc.GrowDestroy?
  }

  // ------------------------------------------------------------ how palloc ends

  lemma LastOfRun(s: State, t: Tid)
    requires Running(s, t) && Safe(s, s.threads[t]) && Allocating(s.threads[t])
    requires t in Run(s, t).threads && Run(s, t).threads[t].Idle?
    ensures if s.threads[t].GrowCreate? then Run(s, t) == s.Go(t, Idle)
            else s.threads[t].AllocReturn? && Run(s, t).held == s.held + multiset{s.threads[t].sl}
  {
    hide Insert;
    match s.threads[t]
    case AllocSp(_, _, _) =>
    case AllocCas(_, _, _, _) =>
    case GrowLink(_, _, _, _, _) =>
    case _ =>
  }

  /** The step with which a palloc ends is its own. */
  lemma EndsItself(s: State, s': State, t: Tid)
    requires Step(s, s') && t in s.threads && t in s'.threads && Allocating(s.threads[t]) && s'.threads[t].Idle?
    ensures Safe(s, s.threads[t]) && s' == Run(s, t)
  {
    hide Run, Create;
    if u :| Running(s, u) && Safe(s, s.threads[u]) && s' == Run(s, u) {
      OnlyOneMoves(s, u);
    } else if u, b :| u in s.threads && s.threads[u].GrowCreate? && 1 <= s.threads[u].m && 2 * s.threads[u].m < UINT32
                      && b !in s.blocks && s' == Create(s, u, b) {
      CreateBeside(s, u, b);
      CreatorLinks(s, u, b);
    }
  }

  lemma CreatorLinks(s: State, u: Tid, b: BlockId)
    requires u in s.threads && s.threads[u].GrowCreate? && s.threads[u].m >= 1
    ensures u in Create(s, u, b).threads && Create(s, u, b).threads[u].GrowLink?
  {
  }

  /** palloc ends with a slot for its client, one that nobody held; or else no block could
      be created, and it has changed nothing in its last step. */
  lemma NullMeansNoMemory(run: seq<State>, i: nat, t: Tid)
    requires Execution(run) && i < |run| - 1 && t in run[i].threads && t in run[i + 1].threads
    requires Allocating(run[i].threads[t]) && run[i + 1].threads[t].Idle?
    ensures var s, s' := run[i], run[i + 1];
            if s.threads[t].GrowCreate? then s' == s.Go(t, Idle)
            else exists sl :: s.held[sl] == 0 && s'.held == s.held + multiset{sl}
  {
    var s := run[i];
    assert Step(run[i], run[i + 1]);
    EndsItself(s, run[i + 1], t);
    LastOfRun(s, t);
    if !s.threads[t].GrowCreate? {
      Reachable(run, i);
      ReturnsNew(s, t);
    }
  }

  lemma ReturnsNew(s: State, t: Tid)
    requires Inv(s) && t in s.threads && s.threads[t].AllocReturn?
    ensures s.held[s.threads[t].sl] == 0
  {
    assert ThreadOK(s, t, s.threads[t]) && SlotOK(s, s.threads[t].sl);
  }

  // ------------------------------------------------------------- running alone

  /** One step of `t`; if it asks for a block it gets one at address `b`. */
  function One(s: State, t: Tid, b: BlockId): State
  {
    if t !in s.threads || !Safe(s, s.threads[t]) then s
    else if s.threads[t].GrowCreate? && s.threads[t].m >= 1 then Create(s, t, b)
    else Run(s, t)
  }

  /** `n` steps of `t`, and of no other thread. */
  function Alone(s: State, t: Tid, b: BlockId, n: nat): State
    decreases n
  {
    if n == 0 then s else Alone(One(s, t, b), t, b, n - 1)
  }

  lemma {:induction false} IdleAlone(s: State, t: Tid, b: BlockId, n: nat)
    requires t in s.threads && s.threads[t].Idle?
    ensures Alone(s, t, b, n) == s
    decreases n
  {
    if n > 0 { IdleAlone(s, t, b, n - 1); }
  }

  lemma GoGo(s: State, t: Tid, pc: Pc, pc': Pc)
    ensures s.Go(t, pc).Go(t, pc') == s.Go(t, pc')
  {
    assert s.threads[t := pc][t := pc'] == s.threads[t := pc'];
  }

  /** No block is claimed, and stack pointers are inside their stacks. */
  ghost predicate Quiet(s: State)
  {
    && RingOK(s)
    && forall c | c in s.ring :: c in s.blocks && s.blocks[c].sp.At? && s.blocks[c].sp.n < |s.blocks[c].stack|
  }

  lemma IsQuiet(s: State)
    requires Inv(s) && forall c | c in s.ring && c in s.blocks :: s.blocks[c].sp.At?
    ensures Quiet(s)
  {
    forall c | c in s.ring ensures c in s.blocks && s.blocks[c].sp.n < |s.blocks[c].stack| {
      RingMember(s, c);
      assert BlockOK(s, c);
    }
  }

  // ------------------------------------------------------- taking a free slot

  predicate HasFree(s: State, c: BlockId)
  {
    c in s.blocks && s.blocks[c].sp.At? && 1 <= s.blocks[c].sp.n < |s.blocks[c].stack|
  }

  /** Thread `t` has got the top slot of block `c`; pool->block is now `c`, if it was `pb`. */
  ghost predicate Took(s: State, s': State, t: Tid, pb: BlockId, c: BlockId)
  {
    && HasFree(s, c)
    && var k := s.blocks[c].sp.n;
       var sl := s.blocks[c].stack[k];
       && s'.held == s.held + multiset{sl} && sl in s'.header && s'.header[sl] == c
       && s'.blocks == s.blocks[c := s.blocks[c].(sp := At(k - 1), free := k - 1)]
       && s'.ring == s.ring && s'.maxCapacity == s.maxCapacity
       && s'.current == (if s.current == pb then c else s.current)
       && s'.threads == s.threads[t := Idle]
  }

  lemma TakesAlone(s: State, t: Tid, b: BlockId, pb: BlockId, c: BlockId, last: BlockId, n: nat)
    requires HasFree(s, c) && n >= 7
    ensures Took(s, Alone(s.Go(t, AllocSp(pb, c, last)), t, b, n), t, pb, c)
  {
    hide One, Alone;
    var k := s.blocks[c].sp.n;
    var s0, s1 := s.Go(t, AllocSp(pb, c, last)), s.Go(t, AllocCas(pb, c, last, k));
    Tries(s, t, b, pb, c, last);
    var s4 := Claims(s1, t, b, c, k);
    var s7 := Delivers(s4, t, b, c, pb, s.blocks[c].stack[k]);
    IdleAlone(s7, t, b, n - 7);
    UnfoldFour(s0, t, b, n);
    UnfoldThree(s4, t, b, n - 4);
    assert s7.threads == s.threads[t := Idle];
  }

  /** Lines 76-81. */
  lemma Tries(s: State, t: Tid, b: BlockId, pb: BlockId, c: BlockId, last: BlockId)
    requires c in s.blocks && s.blocks[c].sp.At? && s.blocks[c].sp.n >= 1
    ensures One(s.Go(t, AllocSp(pb, c, last)), t, b) == s.Go(t, AllocCas(pb, c, last, s.blocks[c].sp.n))
  {
    GoGo(s, t, AllocSp(pb, c, last), AllocCas(pb, c, last, s.blocks[c].sp.n));
  }

  lemma UnfoldThree(s: State, t: Tid, b: BlockId, n: nat)
    requires n >= 3
    ensures Alone(s, t, b, n) == Alone(One(One(One(s, t, b), t, b), t, b), t, b, n - 3)
  {
    hide One;
    assert Alone(s, t, b, n) == Alone(One(s, t, b), t, b, n - 1);
    assert Alone(One(s, t, b), t, b, n - 1) == Alone(One(One(s, t, b), t, b), t, b, n - 2);
  }

  lemma UnfoldFour(s: State, t: Tid, b: BlockId, n: nat)
    requires n >= 4
    ensures Alone(s, t, b, n) == Alone(One(One(One(One(s, t, b), t, b), t, b), t, b), t, b, n - 4)
  {
    hide One;
    UnfoldThree(s, t, b, n);
    var s3 := One(One(One(s, t, b), t, b), t, b);
    assert Alone(s3, t, b, n - 3) == Alone(One(s3, t, b), t, b, n - 4);
  }

  /** Lines 82-86. */
  lemma Claims(s: State, t: Tid, b: BlockId, c: BlockId, k: nat) returns (s': State)
    requires t in s.threads && s.threads[t].AllocCas? && s.threads[t].b == c && s.threads[t].k == k
    requires c in s.blocks && s.blocks[c].sp == At(k) && 1 <= k < |s.blocks[c].stack|
    ensures s' == One(One(One(s, t, b), t, b), t, b)
    ensures s'.threads == s.threads[t := AllocHead(s.threads[t].pb, c, s.blocks[c].stack[k])]
    ensures s'.blocks == s.blocks[c := s.blocks[c].(sp := At(k - 1), free := k - 1)]
    ensures s'.ring == s.ring && s'.held == s.held && s'.current == s.current && s'.maxCapacity == s.maxCapacity
  {
    var x := s.blocks[c].stack[k];
    var s1 := One(s, t, b);
    assert s1.threads[t] == AllocRead(s.threads[t].pb, c, k, x);
    var s2 := One(s1, t, b);
    assert s2 == s1.Go(t, AllocStore(s.threads[t].pb, c, k, x));
    s' := One(s2, t, b);
    assert s'.threads[t] == AllocHead(s.threads[t].pb, c, x);
    assert s'.threads == s.threads[t := s'.threads[t]];
    assert s'.blocks[c] == s.blocks[c].(sp := At(k - 1), free := k - 1);
    assert s'.blocks == s.blocks[c := s'.blocks[c]];
  }

  /** Lines 92-98. */
  lemma Delivers(s: State, t: Tid, b: BlockId, c: BlockId, pb: BlockId, sl: Slot) returns (s': State)
    requires t in s.threads && s.threads[t] == AllocHead(pb, c, sl)
    ensures s' == One(One(One(s, t, b), t, b), t, b)
    ensures s'.threads == s.threads[t := Idle] && s'.blocks == s.blocks && s'.ring == s.ring
    ensures s'.held == s.held + multiset{sl} && s'.maxCapacity == s.maxCapacity
    ensures s'.current == (if s.current == pb then c else s.current)
    ensures sl in s'.header && s'.header[sl] == c
  {
    var s1 := One(s, t, b);
    assert s1.threads[t] == AllocMove(pb, c, sl);
    var s2 := One(s1, t, b);
    assert s2.threads[t] == AllocReturn(sl);
    s' := One(s2, t, b);
    assert s'.threads == s.threads[t := Idle];
  }

  // ------------------------------------------------------------ adding a block

  /** Thread `t` has put a block at address `b` into the ring, twice as big as the last one
      was, and has got its top slot. */
  ghost predicate Grew(s: State, s': State, t: Tid, pb: BlockId, b: BlockId)
  {
    var m := s.maxCapacity;
    && m >= 1 && s'.held == s.held + multiset{Slot(b, 2 * m - 1)}
    && Slot(b, 2 * m - 1) in s'.header && s'.header[Slot(b, 2 * m - 1)] == b
    && s'.blocks.Keys == s.blocks.Keys + {b} && s'.blocks[b].Capacity() == 2 * m && s'.blocks[b].sp == At(2 * m - 1)
    && b in s'.ring && |s'.ring| == |s.ring| + 1 && (forall c <- s.ring :: c in s'.ring)
    && s'.maxCapacity == 2 * m && s'.current == (if s.current == pb then b else s.current)
    && s'.threads == s.threads[t := Idle]
  }

  lemma InsertGrows(ring: seq<BlockId>, last: BlockId, b: BlockId)
    ensures var r := Insert(ring, last, b);
            |r| == |ring| + 1 && b in r && forall c <- ring :: c in r
  {
    if ring != [] && ring[0] != last {
      InsertGrows(ring[1..], last, b);
      assert ring == [ring[0]] + ring[1..];
    }
  }

  lemma GrowsAlone(s: State, t: Tid, b: BlockId, pb: BlockId, last: BlockId, n: nat)
    requires b !in s.blocks && last in s.blocks && s.blocks[last].next == pb
    requires 1 <= s.maxCapacity && 2 * s.maxCapacity < UINT32 && n >= 7
    ensures Grew(s, Alone(s.Go(t, GrowRead(pb, last)), t, b, n), t, pb, b)
  {
    hide One, Alone;
    var m := s.maxCapacity;
    var s0, s1 := s.Go(t, GrowRead(pb, last)), s.Go(t, GrowCreate(pb, last, m));
    ReadsMax(s, t, b, pb, last);
    var s3 := Links(s1, t, b, pb, last, m);
    var s6 := Publishes(s3, t, b, pb, m);
    UnfoldThree(s0, t, b, n);
    UnfoldThree(s3, t, b, n - 3);
    IdleAlone(s6, t, b, n - 6);
    assert s6.threads == s.threads[t := Idle];
    InsertGrows(s.ring, last, b);
  }

  /** Line 104. */
  lemma ReadsMax(s: State, t: Tid, b: BlockId, pb: BlockId, last: BlockId)
    ensures One(s.Go(t, GrowRead(pb, last)), t, b) == s.Go(t, GrowCreate(pb, last, s.maxCapacity))
  {
    GoGo(s, t, GrowRead(pb, last), GrowCreate(pb, last, s.maxCapacity));
  }

  /** Lines 105-114. */
  lemma Links(s: State, t: Tid, b: BlockId, pb: BlockId, last: BlockId, m: nat) returns (s': State)
    requires t in s.threads && s.threads[t] == GrowCreate(pb, last, m) && m >= 1
    requires b !in s.blocks && last in s.blocks && s.blocks[last].next == pb
    ensures s' == One(One(s, t, b), t, b)
    ensures s'.threads == s.threads[t := GrowMax(pb, m, b, Slot(b, 2 * m - 1))]
    ensures s'.blocks.Keys == s.blocks.Keys + {b}
    ensures s'.blocks[b].Capacity() == 2 * m && s'.blocks[b].sp == At(2 * m - 1)
    ensures s'.ring == Insert(s.ring, last, b) && s'.held == s.held && s'.current == s.current
    ensures s'.maxCapacity == s.maxCapacity
    ensures Slot(b, 2 * m - 1) in s'.header && s'.header[Slot(b, 2 * m - 1)] == b
  {
    Creates(s, t, b, pb, last, m);
    s' := One(One(s, t, b), t, b);
    Swings(Create(s, t, b), t, b, pb, last, m);
    hide One, Insert;
    assert s'.threads == s.threads[t := s'.threads[t]];
  }

  lemma Creates(s: State, t: Tid, b: BlockId, pb: BlockId, last: BlockId, m: nat)
    requires t in s.threads && s.threads[t] == GrowCreate(pb, last, m) && m >= 1
    requires b !in s.blocks && last in s.blocks
    ensures var s' := Create(s, t, b);
            && One(s, t, b) == s'
            && s'.threads == s.threads[t := GrowLink(pb, last, m, b, Slot(b, 2 * m - 1))]
            && last in s'.blocks && s'.blocks[last] == s.blocks[last] && s'.blocks.Keys == s.blocks.Keys + {b}
            && s'.blocks[b].Capacity() == 2 * m && s'.blocks[b].sp == At(2 * m - 1)
            && s'.ring == s.ring && s'.held == s.held && s'.current == s.current && s'.maxCapacity == s.maxCapacity
            && Slot(b, 2 * m - 1) in s'.header && s'.header[Slot(b, 2 * m - 1)] == b
  {
    hide Insert;
  }

  lemma Swings(s: State, t: Tid, b: BlockId, pb: BlockId, last: BlockId, m: nat)
    requires t in s.threads && m >= 1 && s.threads[t] == GrowLink(pb, last, m, b, Slot(b, 2 * m - 1))
    requires last in s.blocks && s.blocks[last].next == pb
    ensures One(s, t, b) == s.Put(last, s.blocks[last].(next := b)).(ring := Insert(s.ring, last, b))
                             .Go(t, GrowMax(pb, m, b, Slot(b, 2 * m - 1)))
  {
    hide Insert;
  }

  /** Lines 117-119. */
  lemma Publishes(s: State, t: Tid, b: BlockId, pb: BlockId, m: nat) returns (s': State)
    requires t in s.threads && s.threads[t].GrowMax? && s.threads[t].pb == pb && s.threads[t].m == m
    requires s.threads[t].b == b && s.maxCapacity == m && 2 * m < UINT32
    ensures s' == One(One(One(s, t, b), t, b), t, b)
    ensures s'.threads == s.threads[t := Idle] && s'.blocks == s.blocks && s'.ring == s.ring && s'.header == s.header
    ensures s'.held == s.held + multiset{s.threads[t].sl} && s'.maxCapacity == 2 * m
    ensures s'.current == (if s.current == pb then b else s.current)
  {
    var sl := s.threads[t].sl;
    var s1 := One(s, t, b);
    assert s1.threads[t] == GrowMove(pb, b, sl);
    var s2 := One(s1, t, b);
    assert s2.threads[t] == AllocReturn(sl);
    s' := One(s2, t, b);
    assert s'.threads == s.threads[t := Idle];
  }

  // --------------------------------------------------------------- the search

  predicate Exhausted(s: State, c: BlockId) { c in s.blocks && s.blocks[c].sp == At(0) }

  /** The search from the `k`-th block after pool->block, which is ring[j], has ended: at
      the first block that is not exhausted or, if all are, with a new one. */
  ghost predicate Ended(s: State, s': State, t: Tid, b: BlockId, j: nat, k: nat)
    requires j < |s.ring| && k <= |s.ring|
  {
    || (exists l :: FirstFree(s, j, k, l) && Took(s, s', t, s.ring[j], Around(s.ring, j, l)))
    || ((forall l | k <= l < |s.ring| :: Exhausted(s, Around(s.ring, j, l))) && Grew(s, s', t, s.ring[j], b))
  }

  ghost predicate FirstFree(s: State, j: nat, k: nat, l: nat)
    requires j < |s.ring|
  {
    && k <= l < |s.ring| && !Exhausted(s, Around(s.ring, j, l))
    && forall i | k <= i < l :: Exhausted(s, Around(s.ring, j, i))
  }

  /** An exhausted block is left behind in three steps (76-80 and 100-103). */
  lemma PassesAlone(s: State, t: Tid, b: BlockId, pb: BlockId, c: BlockId, last: BlockId, n: nat)
    requires Exhausted(s, c) && n >= 3
    ensures Alone(s.Go(t, AllocSp(pb, c, last)), t, b, n)
         == Alone(s.Go(t, if s.blocks[c].next == pb then GrowRead(pb, c) else AllocSp(pb, s.blocks[c].next, last)),
                  t, b, n - 3)
  {
    hide One, Alone;
    Misses(s, t, b, pb, c, last);
    ReadsNext(s, t, b, pb, c, last);
    Moves(s, t, b, pb, c, if s.blocks[c].next == pb then c else last);
    UnfoldThree(s.Go(t, AllocSp(pb, c, last)), t, b, n);
  }

  lemma Misses(s: State, t: Tid, b: BlockId, pb: BlockId, c: BlockId, last: BlockId)
    requires Exhausted(s, c)
    ensures One(s.Go(t, AllocSp(pb, c, last)), t, b) == s.Go(t, AllocNext1(pb, c, last))
  {
    GoGo(s, t, AllocSp(pb, c, last), AllocNext1(pb, c, last));
  }

  lemma ReadsNext(s: State, t: Tid, b: BlockId, pb: BlockId, c: BlockId, last: BlockId)
    requires c in s.blocks
    ensures One(s.Go(t, AllocNext1(pb, c, last)), t, b)
         == s.Go(t, AllocNext2(pb, c, if s.blocks[c].next == pb then c else last))
  {
    GoGo(s, t, AllocNext1(pb, c, last), AllocNext2(pb, c, if s.blocks[c].next == pb then c else last));
  }

  lemma Moves(s: State, t: Tid, b: BlockId, pb: BlockId, c: BlockId, last: BlockId)
    requires c in s.blocks
    ensures One(s.Go(t, AllocNext2(pb, c, last)), t, b)
         == s.Go(t, if s.blocks[c].next == pb then GrowRead(pb, last) else AllocSp(pb, s.blocks[c].next, last))
  {
    var n := s.blocks[c].next;
    GoGo(s, t, AllocNext2(pb, c, last), if n == pb then GrowRead(pb, last) else AllocSp(pb, n, last));
  }

  lemma NextAround(s: State, j: nat, k: nat)
    requires Quiet(s) && j < |s.ring| && k < |s.ring|
    ensures Around(s.ring, j, k) in s.blocks
    ensures !Exhausted(s, Around(s.ring, j, k)) ==> HasFree(s, Around(s.ring, j, k))
    ensures s.maxCapacity >= 1
    ensures s.blocks[Around(s.ring, j, k)].next == Around(s.ring, j, k + 1)
    ensures Around(s.ring, j, k + 1) == s.ring[j] <==> k + 1 == |s.ring|
  {
    NextOnRing(s, if j + k < |s.ring| then j + k else j + k - |s.ring|);
  }

  lemma {:induction false} SearchesAlone(s: State, t: Tid, b: BlockId, j: nat, k: nat, last: BlockId, n: nat)
    requires Quiet(s) && j < |s.ring| && k < |s.ring|
    requires b !in s.blocks && 2 * s.maxCapacity < UINT32 && n >= 3 * (|s.ring| - k) + 7
    ensures Ended(s, Alone(s.Go(t, AllocSp(s.ring[j], Around(s.ring, j, k), last)), t, b, n), t, b, j, k)
    decreases |s.ring| - k
  {
    hide Took, Grew, Alone, One, Quiet, HasFree, Exhausted, Ended, Around;
    var c := Around(s.ring, j, k);
    NextAround(s, j, k);
    if !Exhausted(s, c) {
      TakesAlone(s, t, b, s.ring[j], c, last, n);
      FoundHere(s, Alone(s.Go(t, AllocSp(s.ring[j], c, last)), t, b, n), t, b, j, k);
    } else {
      PassesAlone(s, t, b, s.ring[j], c, last, n);
      if k + 1 == |s.ring| {
        GrowsAlone(s, t, b, s.ring[j], c, n - 3);
        FoundNone(s, Alone(s.Go(t, GrowRead(s.ring[j], c)), t, b, n - 3), t, b, j, k);
      } else {
        SearchesAlone(s, t, b, j, k + 1, last, n - 3);
        var s' := Alone(s.Go(t, AllocSp(s.ring[j], Around(s.ring, j, k + 1), last)), t, b, n - 3);
        SearchedFrom(s, s', t, b, j, k);
      }
    }
  }

  lemma FoundHere(s: State, s': State, t: Tid, b: BlockId, j: nat, k: nat)
    requires j < |s.ring| && k < |s.ring| && !Exhausted(s, Around(s.ring, j, k))
    requires Took(s, s', t, s.ring[j], Around(s.ring, j, k))
    ensures Ended(s, s', t, b, j, k)
  {
    hide Took, Grew;
    assert FirstFree(s, j, k, k);
  }

  lemma FoundNone(s: State, s': State, t: Tid, b: BlockId, j: nat, k: nat)
    requires j < |s.ring| && k + 1 == |s.ring| && Exhausted(s, Around(s.ring, j, k)) && Grew(s, s', t, s.ring[j], b)
    ensures Ended(s, s', t, b, j, k)
  {
    hide Took, Grew;
  }

  lemma SearchedFrom(s: State, s': State, t: Tid, b: BlockId, j: nat, k: nat)
    requires j < |s.ring| && k + 1 < |s.ring| && Exhausted(s, Around(s.ring, j, k)) && Ended(s, s', t, b, j, k + 1)
    ensures Ended(s, s', t, b, j, k)
  {
    hide Took, Grew;
    if l :| FirstFree(s, j, k + 1, l) && Took(s, s', t, s.ring[j], Around(s.ring, j, l)) {
      assert FirstFree(s, j, k, l);
    }
  }

  // ------------------------------------------------------------------- results

  /** The address that `next` leads to from pool->block after `l` blocks, all exhausted. */
  ghost predicate FirstFreeAt(s: State, l: nat, c: BlockId)
  {
    && l < |s.ring| && c == Follow(s, s.current, l) && !Exhausted(s, c)
    && forall i | 0 <= i < l :: Exhausted(s, Follow(s, s.current, i))
  }

  /** A palloc that runs alone from its call ends, after at most 3 steps for each block and
      8 more, if no block is claimed.  It gets the top slot of the first block with a free
      slot after pool->block, and then no block is created; or if there is none, and a
      block can be had, it gets the top slot of a new block. */
  lemma PallocEndsAlone(run: seq<State>, i: nat, t: Tid, b: BlockId)
    requires Execution(run) && i < |run| && t in run[i].threads && run[i].threads[t].AllocStart?
    requires forall c | c in run[i].ring && c in run[i].blocks :: run[i].blocks[c].sp.At?
    requires b !in run[i].blocks && 2 * run[i].maxCapacity < UINT32
    ensures var s := run[i];
            var s' := Alone(s, t, b, 3 * |s.ring| + 8);
            || (exists l, c :: FirstFreeAt(s, l, c) && Took(s, s', t, s.current, c))
            || ((forall c <- s.ring :: Exhausted(s, c)) && Grew(s, s', t, s.current, b))
  {
    hide Took, Grew, Alone, Inv, Quiet, Ended, FirstFreeAt, Exhausted;
    var s := run[i];
    Reachable(run, i);
    IsQuiet(s);
    var j := CurrentAt(s);
    var n := 3 * |s.ring| + 8;
    StartsAlone(s, t, b, n);
    SearchesAlone(s, t, b, j, 0, s.current, n - 1);
    SearchCovers(s, Alone(s, t, b, n), t, b, j);
  }

  lemma CurrentAt(s: State) returns (j: nat)
    requires Quiet(s)
    ensures j < |s.ring| && s.ring[j] == s.current && RingOK(s)
  {
    j :| 0 <= j < |s.ring| && s.ring[j] == s.current;
  }

  lemma StartsAlone(s: State, t: Tid, b: BlockId, n: nat)
    requires t in s.threads && s.threads[t].AllocStart? && n >= 1
    ensures Alone(s, t, b, n) == Alone(s.Go(t, AllocSp(s.current, s.current, s.current)), t, b, n - 1)
  {
    assert One(s, t, b) == s.Go(t, AllocSp(s.current, s.current, s.current));
  }

  lemma SearchCovers(s: State, s': State, t: Tid, b: BlockId, j: nat)
    requires RingOK(s) && j < |s.ring| && s.ring[j] == s.current && Ended(s, s', t, b, j, 0)
    ensures || (exists l, c :: FirstFreeAt(s, l, c) && Took(s, s', t, s.current, c))
            || ((forall c <- s.ring :: Exhausted(s, c)) && Grew(s, s', t, s.current, b))
  {
    hide Took, Grew;
    forall k | 0 <= k < |s.ring| ensures Follow(s, s.current, k) == Around(s.ring, j, k) {
      FollowRing(s, j, k);
    }
    if l :| FirstFree(s, j, 0, l) && Took(s, s', t, s.current, Around(s.ring, j, l)) {
      assert FirstFreeAt(s, l, Around(s.ring, j, l));
    } else {
      forall c <- s.ring ensures Exhausted(s, c) {
        AroundCovers(s.ring, j, c);
      }
    }
  }

  // ------------------------------------------- palloc, wherever it has been stopped

  /** After `n` steps alone thread `t` has got a slot. */
  ghost predicate Gets(s: State, t: Tid, b: BlockId, n: nat)
  {
    var s' := Alone(s, t, b, n);
    t in s'.threads && s'.threads[t].Idle? && exists sl :: Given(s, s', sl)
  }

  ghost predicate Given(s: State, s': State, sl: Slot) { s'.held == s.held + multiset{sl} }

  lemma ThenGets(s: State, t: Tid, b: BlockId, n: nat)
    requires n >= 1 && One(s, t, b).held == s.held && Gets(One(s, t, b), t, b, n - 1)
    ensures Gets(s, t, b, n)
  {
    hide One;
    var s' := Alone(One(s, t, b), t, b, n - 1);
    var sl :| Given(One(s, t, b), s', sl);
    assert Given(s, s', sl);
  }

  lemma AtReturn(s: State, t: Tid, b: BlockId, n: nat)
    requires t in s.threads && s.threads[t].AllocReturn? && n >= 1
    ensures Gets(s, t, b, n)
  {
    var s' := One(s, t, b);
    assert s'.threads[t].Idle? && Given(s, s', s.threads[t].sl);
    IdleAlone(s', t, b, n - 1);
  }

  lemma AtMove(s: State, t: Tid, b: BlockId, n: nat)
    requires t in s.threads && (s.threads[t].AllocMove? || s.threads[t].GrowMove?) && n >= 2
    ensures Gets(s, t, b, n)
  {
    AtReturn(One(s, t, b), t, b, n - 1);
    ThenGets(s, t, b, n);
  }

  lemma AtHead(s: State, t: Tid, b: BlockId, n: nat)
    requires t in s.threads && (s.threads[t].AllocHead? || s.threads[t].GrowMax?) && n >= 3
    ensures Gets(s, t, b, n)
  {
    AtMove(One(s, t, b), t, b, n - 1);
    ThenGets(s, t, b, n);
  }

  lemma AtStore(s: State, t: Tid, b: BlockId, n: nat)
    requires t in s.threads && s.threads[t].AllocStore? && Safe(s, s.threads[t]) && n >= 4
    ensures Gets(s, t, b, n)
  {
    AtHead(One(s, t, b), t, b, n - 1);
    ThenGets(s, t, b, n);
  }

  lemma AtRead(s: State, t: Tid, b: BlockId, n: nat)
    requires t in s.threads && s.threads[t].AllocRead? && Safe(s, s.threads[t]) && n >= 5
    ensures Gets(s, t, b, n)
  {
    AtStore(One(s, t, b), t, b, n - 1);
    ThenGets(s, t, b, n);
  }

  /** What a search needs to come to its end. */
  ghost predicate CanSearch(s: State, t: Tid, b: BlockId)
  {
    Quiet(s) && t in s.threads && b !in s.blocks && 2 * s.maxCapacity < UINT32
  }

  lemma AtSp(s: State, t: Tid, b: BlockId, pb: BlockId, c: BlockId, last: BlockId, n: nat)
    requires CanSearch(s, t, b) && pb in s.ring && c in s.ring && n >= 3 * |s.ring| + 7
    ensures Gets(s.Go(t, AllocSp(pb, c, last)), t, b, n)
  {
    hide One, Alone, Quiet, Took, Grew;
    var j :| 0 <= j < |s.ring| && s.ring[j] == pb;
    AroundCovers(s.ring, j, c);
    var k :| 0 <= k < |s.ring| && Around(s.ring, j, k) == c;
    SearchesAlone(s, t, b, j, k, last, n);
    EndedGets(s, Alone(s.Go(t, AllocSp(pb, c, last)), t, b, n), t, b, j, k);
    var s' := Alone(s.Go(t, AllocSp(pb, c, last)), t, b, n);
    var sl :| Given(s, s', sl);
    assert Given(s.Go(t, AllocSp(pb, c, last)), s', sl);
  }

  lemma EndedGets(s: State, s': State, t: Tid, b: BlockId, j: nat, k: nat)
    requires j < |s.ring| && k <= |s.ring| && t in s.threads && Ended(s, s', t, b, j, k)
    ensures t in s'.threads && s'.threads[t].Idle? && exists sl :: Given(s, s', sl)
  {
    if l :| FirstFree(s, j, k, l) && Took(s, s', t, s.ring[j], Around(s.ring, j, l)) {
      var c := Around(s.ring, j, l);
      assert Given(s, s', s.blocks[c].stack[s.blocks[c].sp.n]);
    } else {
      assert Given(s, s', Slot(b, 2 * s.maxCapacity - 1));
    }
  }

  lemma AtStart(s: State, t: Tid, b: BlockId, n: nat)
    requires CanSearch(s, t, b) && s.threads[t].AllocStart? && n >= 3 * |s.ring| + 8
    ensures Gets(s, t, b, n)
  {
    AtSp(s, t, b, s.current, s.current, s.current, n - 1);
    assert One(s, t, b) == s.Go(t, AllocSp(s.current, s.current, s.current));
    ThenGets(s, t, b, n);
  }

  lemma AtCas(s: State, t: Tid, b: BlockId, n: nat)
    requires CanSearch(s, t, b) && s.threads[t].AllocCas? && Safe(s, s.threads[t]) && n >= 3 * |s.ring| + 8
    requires s.threads[t].pb in s.ring && s.threads[t].b in s.ring
    ensures Gets(s, t, b, n)
  {
    var AllocCas(pb, c, last, k) := s.threads[t];
    if s.blocks[c].sp == At(k) {
      AtRead(One(s, t, b), t, b, n - 1);
    } else {
      assert One(s, t, b) == s.Go(t, AllocSp(pb, c, last));
      AtSp(s, t, b, pb, c, last, n - 1);
    }
    ThenGets(s, t, b, n);
  }

  /** A block has been lost or has not been of use: the search starts over. */
  lemma AtDestroy(s: State, t: Tid, b: BlockId, n: nat)
    requires Quiet(s) && t in s.threads && s.threads[t].GrowDestroy? && s.threads[t].b !in s.ring
    requires (b == s.threads[t].b || b !in s.blocks) && 2 * s.maxCapacity < UINT32 && n >= 3 * |s.ring| + 9
    ensures Gets(s, t, b, n)
  {
    var s' := One(s, t, b);
    assert s'.blocks == s.blocks - {s.threads[t].b} && s'.ring == s.ring && s'.threads[t].AllocStart?;
    StillQuiet(s, s');
    AtStart(s', t, b, n - 1);
    ThenGets(s, t, b, n);
  }

  /** What is not on the ring does not matter. */
  lemma StillQuiet(s: State, s': State)
    requires Quiet(s) && s'.ring == s.ring && s'.current == s.current && s'.maxCapacity == s.maxCapacity
    requires forall c <- s.ring | c in s.blocks :: c in s'.blocks && s'.blocks[c] == s.blocks[c]
    ensures Quiet(s')
  {
    RingKept(s, s');
  }

  lemma AtLink(s: State, t: Tid, b: BlockId, n: nat)
    requires Quiet(s) && t in s.threads && s.threads[t].GrowLink? && s.threads[t].last in s.ring
    requires s.threads[t].b !in s.ring && (b == s.threads[t].b || b !in s.blocks)
    requires 2 * s.maxCapacity < UINT32 && n >= 3 * |s.ring| + 10
    ensures Gets(s, t, b, n)
  {
    hide Insert;
    var GrowLink(pb, last, m, d, sl) := s.threads[t];
    if s.blocks[last].next == pb {
      AtHead(One(s, t, b), t, b, n - 1);
    } else {
      assert One(s, t, b) == s.Go(t, GrowDestroy(d, sl));
      StillQuiet(s, One(s, t, b));
      AtDestroy(One(s, t, b), t, b, n - 1);
    }
    ThenGets(s, t, b, n);
  }

  lemma AtCreate(s: State, t: Tid, b: BlockId, n: nat)
    requires CanSearch(s, t, b) && s.threads[t].GrowCreate? && s.threads[t].m >= 1 && s.threads[t].last in s.ring
    requires n >= 3 * |s.ring| + 11
    ensures Gets(s, t, b, n)
  {
    var s' := One(s, t, b);
    CreateBeside(s, t, b);
    CreatorLinks(s, t, b);
    hide Insert, Create;
    assert s' == Create(s, t, b) && s'.ring == s.ring;
    StillQuiet(s, s');
    assert s'.threads[t].last == s.threads[t].last && s'.threads[t].b == b;
    AtLink(s', t, b, n - 1);
    ThenGets(s, t, b, n);
  }

  lemma AtGrow(s: State, t: Tid, b: BlockId, pb: BlockId, last: BlockId, n: nat)
    requires CanSearch(s, t, b) && last in s.ring && n >= 3 * |s.ring| + 12
    ensures Gets(s.Go(t, GrowRead(pb, last)), t, b, n)
  {
    var s' := s.Go(t, GrowCreate(pb, last, s.maxCapacity));
    ReadsMax(s, t, b, pb, last);
    StillQuiet(s, s');
    AtCreate(s', t, b, n - 1);
    ThenGets(s.Go(t, GrowRead(pb, last)), t, b, n);
  }

  lemma AtNext(s: State, t: Tid, b: BlockId, pb: BlockId, c: BlockId, last: BlockId, n: nat)
    requires CanSearch(s, t, b) && pb in s.ring && c in s.ring && last in s.ring && n >= 3 * |s.ring| + 13
    ensures Gets(s.Go(t, AllocNext2(pb, c, last)), t, b, n)
  {
    RingMember(s, c);
    Moves(s, t, b, pb, c, last);
    if s.blocks[c].next == pb {
      AtGrow(s, t, b, pb, last, n - 1);
    } else {
      AtSp(s, t, b, pb, s.blocks[c].next, last, n - 1);
    }
    ThenGets(s.Go(t, AllocNext2(pb, c, last)), t, b, n);
  }

  lemma AtNext1(s: State, t: Tid, b: BlockId, n: nat)
    requires CanSearch(s, t, b) && s.threads[t].AllocNext1? && n >= 3 * |s.ring| + 14
    requires s.threads[t].pb in s.ring && s.threads[t].b in s.ring && s.threads[t].last in s.ring
    ensures Gets(s, t, b, n)
  {
    var AllocNext1(pb, c, last) := s.threads[t];
    RingMember(s, c);
    assert s == s.Go(t, AllocNext1(pb, c, last));
    ReadsNext(s, t, b, pb, c, last);
    AtNext(s, t, b, pb, c, if s.blocks[c].next == pb then c else last, n - 1);
    ThenGets(s, t, b, n);
  }

  /** Where a palloc may be that still searches, or adds a block. */
  lemma SearchingGets(s: State, t: Tid, b: BlockId, n: nat)
    requires Inv(s) && CanSearch(s, t, b) && Allocating(s.threads[t]) && n >= 3 * |s.ring| + 14
    requires Carried(s.threads[t]) == None
    ensures Gets(s, t, b, n)
  {
    HasView(s, t);
    RunsSafely(s, t);
    assert s == s.Go(t, s.threads[t]);
    hide Quiet, Inv, BlockOK;
    match s.threads[t]
    case AllocStart => AtStart(s, t, b, n);
    case AllocSp(pb, c, last) => AtSp(s, t, b, pb, c, last, n);
    case AllocCas(_, _, _, _) => AtCas(s, t, b, n);
    case AllocNext1(_, _, _) => AtNext1(s, t, b, n);
    case AllocNext2(pb, c, last) => AtNext(s, t, b, pb, c, last, n);
    case GrowRead(pb, last) => AtGrow(s, t, b, pb, last, n);
    case GrowCreate(_, _, _) => AtCreate(s, t, b, n);
  }

  /** Where it may be that has a slot. */
  lemma CarryingGets(s: State, t: Tid, b: BlockId, n: nat)
    requires Inv(s) && CanSearch(s, t, b) && Allocating(s.threads[t]) && n >= 3 * |s.ring| + 14
    requires Carried(s.threads[t]).Some?
    ensures Gets(s, t, b, n)
  {
    HasView(s, t);
    RunsSafely(s, t);
    hide Quiet, Inv, BlockOK;
    match s.threads[t]
    case AllocRead(_, _, _, _) => AtRead(s, t, b, n);
    case AllocStore(_, _, _, _) => AtStore(s, t, b, n);
    case AllocHead(_, _, _) => AtHead(s, t, b, n);
    case AllocMove(_, _, _) => AtMove(s, t, b, n);
    case AllocReturn(_) => AtReturn(s, t, b, n);
    case GrowLink(_, _, _, _, _) => AtLink(s, t, b, n);
    case GrowMax(_, _, _, _) => AtHead(s, t, b, n);
    case GrowMove(_, _, _) => AtMove(s, t, b, n);
    case GrowDestroy(_, _) => AtDestroy(s, t, b, n);
  }

  /** Wherever a palloc has been stopped, if no block is claimed and memory can be had, it
      gets a slot when it goes on alone, in at most 3 steps for each block and 14 more. */
  lemma StoppedPallocEnds(run: seq<State>, i: nat, t: Tid, b: BlockId)
    requires Execution(run) && i < |run| && t in run[i].threads && Allocating(run[i].threads[t])
    requires forall c | c in run[i].ring && c in run[i].blocks :: run[i].blocks[c].sp.At?
    requires b !in run[i].blocks && 2 * run[i].maxCapacity < UINT32
    ensures Gets(run[i], t, b, 3 * |run[i].ring| + 14)
  {
    Reachable(run, i);
    IsQuiet(run[i]);
    if Carried(run[i].threads[t]) == None {
      SearchingGets(run[i], t, b, 3 * |run[i].ring| + 14);
    } else {
      CarryingGets(run[i], t, b, 3 * |run[i].ring| + 14);
    }
  }

  /** While another thread has claimed the block that a palloc or a pfree has come to, it does
      not get on alone, however long it runs: it reads BUSY again and again. */
  lemma {:induction false} SpinsOnClaimed(s: State, t: Tid, b: BlockId, n: nat)
    requires t in s.threads && (s.threads[t].AllocSp? || s.threads[t].FreeSp?)
    requires s.threads[t].b in s.blocks && s.blocks[s.threads[t].b].sp.Busy?
    ensures Alone(s, t, b, n) == s
    decreases n
  {
    if n > 0 {
      SpinsOnClaimed(s, t, b, n - 1);
    }
  }

  /** A palloc that has come to a block with a free slot takes the top one, even if what it
      has read of the stack pointer is out of date. */
  lemma TakesWhereItIs(run: seq<State>, i: nat, t: Tid, b: BlockId)
    requires Execution(run) && i < |run| && t in run[i].threads
    requires run[i].threads[t].AllocSp? || run[i].threads[t].AllocCas?
    requires HasFree(run[i], run[i].threads[t].b)
    ensures Took(run[i], Alone(run[i], t, b, 8), t, run[i].threads[t].pb, run[i].threads[t].b)
  {
    Reachable(run, i);
    HasView(run[i], t);
    RunsSafely(run[i], t);
    TakesHere(run[i], t, b);
  }

  lemma TakesHere(s: State, t: Tid, b: BlockId)
    requires t in s.threads && (s.threads[t].AllocSp? || s.threads[t].AllocCas?)
    requires Safe(s, s.threads[t]) && HasFree(s, s.threads[t].b)
    ensures Took(s, Alone(s, t, b, 8), t, s.threads[t].pb, s.threads[t].b)
  {
    var pb, c, last := s.threads[t].pb, s.threads[t].b, s.threads[t].last;
    if s.threads[t].AllocSp? {
      assert s == s.Go(t, AllocSp(pb, c, last));
      TakesAlone(s, t, b, pb, c, last, 8);
    } else if s.blocks[c].sp == At(s.threads[t].k) {
      hide One, Alone;
      Tries(s, t, b, pb, c, last);
      assert s == s.Go(t, AllocCas(pb, c, last, s.threads[t].k));
      TakesAlone(s, t, b, pb, c, last, 9);
      AloneNext(s.Go(t, AllocSp(pb, c, last)), t, b, 9);
    } else {
      assert One(s, t, b) == s.Go(t, AllocSp(pb, c, last));
      hide One, Alone;
      TakesAlone(s, t, b, pb, c, last, 7);
      AloneNext(s, t, b, 8);
    }
  }

  lemma AloneNext(s: State, t: Tid, b: BlockId, n: nat)
    requires n >= 1
    ensures Alone(s, t, b, n) == Alone(One(s, t, b), t, b, n - 1)
  {
  }

  // -------------------------------------------- pfree, wherever it has been stopped

  predicate Freeing(pc: Pc)
  {
    pc.FreeHead? || pc.FreeSp? || pc.FreeCmp? || pc.FreeCas? || pc.FreeSwap? || pc.FreeRestore? || pc.FreeStore?
  }

  /** `sl` is on top of the stack of `c`, where there are `k` free slots below it. */
  function PutOn(block: Block, k: nat, sl: Slot): Block
    requires k + 1 < |block.stack|
  {
    block.(sp := At(k + 1), free := k + 1, stack := block.stack[k + 1 := sl])
  }

  /** After `n` steps alone thread `t` has put `sl` on the stack of `c` and is idle, and all
      else is as it was. */
  ghost predicate Puts(s: State, t: Tid, b: BlockId, n: nat, c: BlockId, k: nat, sl: Slot)
  {
    var s' := Alone(s, t, b, n);
    && c in s.blocks && k + 1 < |s.blocks[c].stack|
    && s'.blocks == s.blocks[c := PutOn(s.blocks[c], k, sl)]
    && s'.threads == s.threads[t := Idle] && s'.held == s.held && s'.header == s.header
    && s'.ring == s.ring && s'.current == s.current && s'.maxCapacity == s.maxCapacity
  }

  /** A step in which only `t` moves and at most the stack pointer of `c` changes. */
  ghost predicate Near(s: State, s': State, t: Tid, c: BlockId)
  {
    && c in s.blocks && c in s'.blocks && t in s.threads && t in s'.threads
    && s'.blocks == s.blocks[c := s'.blocks[c]] && s'.blocks[c].(sp := s.blocks[c].sp) == s.blocks[c]
    && s'.threads == s.threads[t := s'.threads[t]] && s'.held == s.held && s'.header == s.header
    && s'.ring == s.ring && s'.current == s.current && s'.maxCapacity == s.maxCapacity
  }

  lemma ThenPuts(s: State, t: Tid, b: BlockId, n: nat, c: BlockId, k: nat, sl: Slot)
    requires n >= 1 && Near(s, One(s, t, b), t, c) && Puts(One(s, t, b), t, b, n - 1, c, k, sl)
    ensures Puts(s, t, b, n, c, k, sl)
  {
    hide One;
    var s1 := One(s, t, b);
    assert Alone(s, t, b, n) == Alone(s1, t, b, n - 1);
    assert PutOn(s1.blocks[c], k, sl) == PutOn(s.blocks[c], k, sl);
    assert s.blocks[c := s1.blocks[c]][c := PutOn(s.blocks[c], k, sl)] == s.blocks[c := PutOn(s.blocks[c], k, sl)];
    assert s.threads[t := s1.threads[t]][t := Idle] == s.threads[t := Idle];
  }

  lemma AtFreeStore(s: State, t: Tid, b: BlockId, c: BlockId, k: nat, sl: Slot, n: nat)
    requires t in s.threads && s.threads[t] == FreeStore(c, sl, k) && c in s.blocks
    requires k + 1 < |s.blocks[c].stack| && s.blocks[c].stack[k + 1] == sl && n >= 1
    ensures Puts(s, t, b, n, c, k, sl)
  {
    var s' := One(s, t, b);
    assert s.blocks[c].stack[k + 1 := sl] == s.blocks[c].stack;
    assert s'.blocks == s.blocks[c := PutOn(s.blocks[c], k, sl)] && s'.threads == s.threads[t := Idle];
    IdleAlone(s', t, b, n - 1);
  }

  /** The swap of the cell succeeds. */
  lemma AtFreeSwap(s: State, t: Tid, b: BlockId, c: BlockId, k: nat, sl: Slot, x: Slot, n: nat)
    requires t in s.threads && s.threads[t] == FreeSwap(c, sl, k, x) && c in s.blocks
    requires k + 1 < |s.blocks[c].stack| && s.blocks[c].stack[k + 1] == x && n >= 2
    ensures Puts(s, t, b, n, c, k, sl)
  {
    Swaps(s, t, b, c, sl, k, x);
    var s1 := s.Put(c, s.blocks[c].(stack := s.blocks[c].stack[k + 1 := sl])).Go(t, FreeStore(c, sl, k));
    AtFreeStore(s1, t, b, c, k, sl, n - 1);
    hide One;
    assert Alone(s, t, b, n) == Alone(s1, t, b, n - 1);
    assert PutOn(s1.blocks[c], k, sl) == PutOn(s.blocks[c], k, sl) by {
      assert s.blocks[c].stack[k + 1 := sl][k + 1 := sl] == s.blocks[c].stack[k + 1 := sl];
    }
    assert s1.blocks[c := PutOn(s.blocks[c], k, sl)] == s.blocks[c := PutOn(s.blocks[c], k, sl)];
    assert s1.threads[t := Idle] == s.threads[t := Idle];
  }

  /** The block is claimed and the cell is as it was read. */
  lemma AtFreeCas(s: State, t: Tid, b: BlockId, c: BlockId, k: nat, sl: Slot, x: Slot, n: nat)
    requires t in s.threads && s.threads[t] == FreeCas(c, sl, k, x) && c in s.blocks && s.blocks[c].sp == At(k)
    requires k + 1 < |s.blocks[c].stack| && s.blocks[c].stack[k + 1] == x && n >= 3
    ensures Puts(s, t, b, n, c, k, sl)
  {
    ClaimsFor(s, t, b, c, sl, k, x);
    var s1 := One(s, t, b);
    assert Near(s, s1, t, c);
    AtFreeSwap(s1, t, b, c, k, sl, x, n - 1);
    ThenPuts(s, t, b, n, c, k, sl);
  }

  lemma AtFreeSp(s: State, t: Tid, b: BlockId, c: BlockId, k: nat, sl: Slot, n: nat)
    requires t in s.threads && s.threads[t] == FreeSp(c, sl) && c in s.blocks && s.blocks[c].sp == At(k)
    requires k + 1 < |s.blocks[c].stack| && n >= 5
    ensures Puts(s, t, b, n, c, k, sl)
  {
    var s1 := One(s, t, b);
    assert s1 == s.Go(t, FreeCmp(c, sl, k)) && Near(s, s1, t, c);
    AtFreeCmp(s1, t, b, c, k, sl, n - 1);
    ThenPuts(s, t, b, n, c, k, sl);
  }

  lemma AtFreeCmp(s: State, t: Tid, b: BlockId, c: BlockId, k: nat, sl: Slot, n: nat)
    requires t in s.threads && s.threads[t] == FreeCmp(c, sl, k) && c in s.blocks && s.blocks[c].sp == At(k)
    requires k + 1 < |s.blocks[c].stack| && n >= 4
    ensures Puts(s, t, b, n, c, k, sl)
  {
    var s1 := One(s, t, b);
    assert s1 == s.Go(t, FreeCas(c, sl, k, s.blocks[c].stack[k + 1])) && Near(s, s1, t, c);
    AtFreeCas(s1, t, b, c, k, sl, s.blocks[c].stack[k + 1], n - 1);
    ThenPuts(s, t, b, n, c, k, sl);
  }

  lemma AtFreeHead(s: State, t: Tid, b: BlockId, c: BlockId, k: nat, sl: Slot, n: nat)
    requires t in s.threads && s.threads[t] == FreeHead(sl) && sl in s.header && s.header[sl] == c
    requires c in s.blocks && s.blocks[c].sp == At(k) && k + 1 < |s.blocks[c].stack| && n >= 6
    ensures Puts(s, t, b, n, c, k, sl)
  {
    var s1 := One(s, t, b);
    assert s1 == s.Go(t, FreeSp(c, sl)) && Near(s, s1, t, c);
    AtFreeSp(s1, t, b, c, k, sl, n - 1);
    ThenPuts(s, t, b, n, c, k, sl);
  }

  lemma AtFreeRestore(s: State, t: Tid, b: BlockId, c: BlockId, k: nat, sl: Slot, n: nat)
    requires t in s.threads && s.threads[t] == FreeRestore(c, sl, k) && c in s.blocks
    requires k + 1 < |s.blocks[c].stack| && n >= 6
    ensures Puts(s, t, b, n, c, k, sl)
  {
    var s1 := One(s, t, b);
    assert s1.blocks[c].sp == At(k) && s1.threads[t] == FreeSp(c, sl) && Near(s, s1, t, c);
    AtFreeSp(s1, t, b, c, k, sl, n - 1);
    ThenPuts(s, t, b, n, c, k, sl);
  }

  /** The cell is not as it was read: the claim is given up. */
  lemma AtFailedSwap(s: State, t: Tid, b: BlockId, c: BlockId, k: nat, sl: Slot, x: Slot, n: nat)
    requires t in s.threads && s.threads[t] == FreeSwap(c, sl, k, x) && c in s.blocks
    requires k + 1 < |s.blocks[c].stack| && s.blocks[c].stack[k + 1] != x && n >= 7
    ensures Puts(s, t, b, n, c, k, sl)
  {
    var s1 := One(s, t, b);
    assert s1 == s.Go(t, FreeRestore(c, sl, k)) && Near(s, s1, t, c);
    AtFreeRestore(s1, t, b, c, k, sl, n - 1);
    ThenPuts(s, t, b, n, c, k, sl);
  }

  /** What has been read is out of date: the stack pointer, or just the cell. */
  lemma AtOldCas(s: State, t: Tid, b: BlockId, c: BlockId, k: nat, sl: Slot, n: nat)
    requires t in s.threads && s.threads[t].FreeCas? && s.threads[t].b == c && s.threads[t].sl == sl
    requires c in s.blocks && s.blocks[c].sp == At(k) && k + 1 < |s.blocks[c].stack| && n >= 8
    requires s.threads[t].k == k ==> s.blocks[c].stack[k + 1] != s.threads[t].c
    ensures Puts(s, t, b, n, c, k, sl)
  {
    var FreeCas(_, _, l, x) := s.threads[t];
    var s1 := One(s, t, b);
    if l == k {
      ClaimsFor(s, t, b, c, sl, k, x);
      assert Near(s, s1, t, c);
      AtFailedSwap(s1, t, b, c, k, sl, x, n - 1);
    } else {
      assert s1 == s.Go(t, FreeSp(c, sl)) && Near(s, s1, t, c);
      AtFreeSp(s1, t, b, c, k, sl, n - 1);
    }
    ThenPuts(s, t, b, n, c, k, sl);
  }

  lemma AtOldCmp(s: State, t: Tid, b: BlockId, c: BlockId, k: nat, l: nat, sl: Slot, n: nat)
    requires t in s.threads && s.threads[t] == FreeCmp(c, sl, l) && l != k && n >= 9
    requires c in s.blocks && s.blocks[c].sp == At(k) && k + 1 < |s.blocks[c].stack| && l + 1 < |s.blocks[c].stack|
    ensures Puts(s, t, b, n, c, k, sl)
  {
    var s1 := One(s, t, b);
    assert s1 == s.Go(t, FreeCas(c, sl, l, s.blocks[c].stack[l + 1])) && Near(s, s1, t, c);
    AtOldCas(s1, t, b, c, k, sl, n - 1);
    ThenPuts(s, t, b, n, c, k, sl);
  }

  /** What the invariant says of a pfree under way. */
  lemma FreeReady(s: State, t: Tid)
    requires Inv(s) && t in s.threads && Freeing(s.threads[t])
    requires var sl := s.threads[t].sl;
             sl.block in s.blocks ==> s.blocks[sl.block].sp.At? || s.blocks[sl.block].sp == Busy(t)
    ensures var pc, sl := s.threads[t], s.threads[t].sl;
            && sl.block in s.blocks && s.blocks[sl.block].free + 1 < |s.blocks[sl.block].stack|
            && (pc.FreeHead? ==> sl in s.header && s.header[sl] == sl.block)
            && (!pc.FreeHead? ==> pc.b == sl.block)
            && (Locked(pc) == None ==> s.blocks[sl.block].sp == At(s.blocks[sl.block].free))
            && (Locked(pc).Some? ==> pc.k == s.blocks[sl.block].free)
            && (pc.FreeCmp? || pc.FreeCas? ==> pc.k + 1 < |s.blocks[sl.block].stack|)
            && (pc.FreeStore? ==> s.blocks[sl.block].stack[pc.k + 1] == sl)
  {
    assert ThreadOK(s, t, s.threads[t]);
    RoomFor(s, s.threads[t].sl);
    assert BlockOK(s, s.threads[t].sl.block);
  }

  /** Wherever a pfree has been stopped, if no other thread has claimed its block, it ends
      when it goes on alone, in at most 9 steps: its slot is then on top of the stack of
      its own block, and all else is as it was. */
  lemma PfreeEndsAlone(run: seq<State>, i: nat, t: Tid, b: BlockId)
    requires Execution(run) && i < |run| && t in run[i].threads && Freeing(run[i].threads[t])
    requires var s, sl := run[i], run[i].threads[t].sl;
             sl.block in s.blocks ==> s.blocks[sl.block].sp.At? || s.blocks[sl.block].sp == Busy(t)
    ensures var s, sl := run[i], run[i].threads[t].sl;
            sl.block in s.blocks && Puts(s, t, b, 9, sl.block, s.blocks[sl.block].free, sl)
  {
    Reachable(run, i);
    FreeReady(run[i], t);
    hide Inv;
    FreesAlone(run[i], t, b);
  }

  lemma FreesAlone(s: State, t: Tid, b: BlockId)
    requires t in s.threads && Freeing(s.threads[t]) && s.threads[t].sl.block in s.blocks
    requires var pc, sl := s.threads[t], s.threads[t].sl;
             var block := s.blocks[sl.block];
             && block.free + 1 < |block.stack|
             && (pc.FreeHead? ==> sl in s.header && s.header[sl] == sl.block)
             && (!pc.FreeHead? ==> pc.b == sl.block)
             && (Locked(pc) == None ==> block.sp == At(block.free))
             && (Locked(pc).Some? ==> pc.k == block.free)
             && (pc.FreeCmp? || pc.FreeCas? ==> pc.k + 1 < |block.stack|)
             && (pc.FreeStore? ==> block.stack[pc.k + 1] == sl)
    ensures Puts(s, t, b, 9, s.threads[t].sl.block, s.blocks[s.threads[t].sl.block].free, s.threads[t].sl)
  {
    hide Puts, Alone, One;
    var sl := s.threads[t].sl;
    var c := sl.block;
    var k := s.blocks[c].free;
    match s.threads[t]
    case FreeHead(_) => AtFreeHead(s, t, b, c, k, sl, 9);
    case FreeSp(_, _) => AtFreeSp(s, t, b, c, k, sl, 9);
    case FreeCmp(_, _, l) => if l == k { AtFreeCmp(s, t, b, c, k, sl, 9); } else { AtOldCmp(s, t, b, c, k, l, sl, 9); }
    case FreeCas(_, _, l, x) =>
      if l == k && s.blocks[c].stack[k + 1] == x { AtFreeCas(s, t, b, c, k, sl, x, 9); }
      else { AtOldCas(s, t, b, c, k, sl, 9); }
    case FreeSwap(_, _, _, x) =>
      if s.blocks[c].stack[k + 1] == x { AtFreeSwap(s, t, b, c, k, sl, x, 9); }
      else { AtFailedSwap(s, t, b, c, k, sl, x, 9); }
    case FreeRestore(_, _, _) => AtFreeRestore(s, t, b, c, k, sl, 9);
    case FreeStore(_, _, _) => AtFreeStore(s, t, b, c, k, sl, 9);
  }

  /** Line 142. */
  lemma ClaimsFor(s: State, t: Tid, b: BlockId, c: BlockId, sl: Slot, k: nat, x: Slot)
    requires t in s.threads && s.threads[t] == FreeCas(c, sl, k, x) && c in s.blocks && s.blocks[c].sp == At(k)
    ensures One(s, t, b) == s.Put(c, s.blocks[c].(sp := Busy(t))).Go(t, FreeSwap(c, sl, k, x))
  {
  }

  /** Line 145. */
  lemma Swaps(s: State, t: Tid, b: BlockId, c: BlockId, sl: Slot, k: nat, x: Slot)
    requires t in s.threads && s.threads[t] == FreeSwap(c, sl, k, x)
    requires c in s.blocks && k + 1 < |s.blocks[c].stack| && s.blocks[c].stack[k + 1] == x
    ensures One(s, t, b)
         == s.Put(c, s.blocks[c].(stack := s.blocks[c].stack[k + 1 := sl])).Go(t, FreeStore(c, sl, k))
  {
  }
}
