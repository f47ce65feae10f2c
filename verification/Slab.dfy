/**
 The pool of src/lib/frl_slab_pool.c with the mutex, on values: what each operation
 does to the blocks, and what every run of operations keeps.  SlabPool.dfy holds the
 code that updates the blocks in place.
 */
module Slab {
  import opened Basics
  import opened Wire

  const MEM := 32  // SIZEOF_FRL_MEM_T: the header in front of every slot
  const GUARD := 4 // SIZEOF_FRL_MEM_SAFE_T: the flag behind every slot

  /** From one slot of a block to the next. */
  function Stride(per: nat): nat { per + MEM + GUARD }

  /** frl_slab_block_t.  `stack` is usage_stack[1..], all of it; the slots on it are the
      first `sp`, with sp == stack_pointer - usage_stack.  `live` are the slots that
      clients hold. */
  datatype Block = Block(base: nat, stack: seq<nat>, sp: nat, arena: Bytes, live: set<nat>)

  /** frl_slab_pool_t; ring[0] is pool->block, and each block's `next` is the one behind
      it.  `peak` is the largest number of slots that were live at one time. */
  datatype Pool = Pool(ring: seq<Block>, per: nat, max: nat, peak: nat)

  function Capacity(b: Block): nat { |b.stack| }

  function Address(base: nat, i: nat, per: nat): nat { base + i * Stride(per) }

  /** The address of slot `i`: arena + i * stride. */
  function Slot(b: Block, i: nat, per: nat): nat { Address(b.base, i, per) }

  /** Where the flag of slot `i` lies in the arena. */
  function GuardAt(i: nat, per: nat): nat { i * Stride(per) + per + MEM }

  // ------------------------------------------------------------- the operations

  /** The addresses of all slots in order. */
  function Slots(base: nat, n: nat, per: nat): (r: seq<nat>)
    ensures |r| == n
  {
    seq<nat>(n, i requires 0 <= i => Address(base, i, per))
  }

  /** The flags of the first `n` slots are written. */
  function Flagged(arena: Bytes, n: nat, per: nat): (r: Bytes)
    requires |arena| >= n * Stride(per) && n < 0x1_0000_0000
    ensures |r| == |arena|
  {
    if n == 0 then arena
    else
      var a := Flagged(arena, n - 1, per);
      FlagFits(n - 1, n, per);
      a[..GuardAt(n - 1, per)] + Enc32(n - 1) + a[GuardAt(n - 1, per) + GUARD..]
  }

  lemma {:induction false} Multiples(i: nat, j: nat, stride: nat)
    requires i < j
    ensures i * stride + stride <= j * stride
    decreases j
  {
    if j > i + 1 {
      Multiples(i, j - 1, stride);
    }
  }

  lemma FlagFits(i: nat, n: nat, per: nat)
    requires i < n
    ensures GuardAt(i, per) + GUARD <= (i + 1) * Stride(per) <= n * Stride(per)
  {
    Multiples(i, n, Stride(per));
  }

  /** Lines 11-44 and 264-272: a block with all its slots on the stack; `arena` is what
      the memory holds before. */
  function Fresh(base: nat, n: nat, per: nat, arena: Bytes): Block
    requires |arena| == n * Stride(per) && n < 0x1_0000_0000
  {
    Block(base, Slots(base, n, per), n, Flagged(arena, n, per), {})
  }

  /** The first block from ring[0] on with a free slot. */
  function Found(ring: seq<Block>): (j: nat)
    ensures j <= |ring| && (j < |ring| ==> ring[j].sp > 0)
    ensures forall i | 0 <= i < j :: ring[i].sp == 0
  {
    if ring == [] then 0 else if ring[0].sp > 0 then 0 else 1 + Found(ring[1..])
  }

  /** Lines 164-165 and 183-188: the slot on top of the stack is taken. */
  function Popped(b: Block): Block
    requires 0 < b.sp <= |b.stack|
  {
    b.(sp := b.sp - 1, live := b.live + {b.stack[b.sp - 1]})
  }

  /** Lines 208-209: a slot is put back. */
  function Pushed(b: Block, slot: nat): Block
    requires b.sp < |b.stack|
  {
    b.(sp := b.sp + 1, stack := b.stack[b.sp := slot], live := b.live - {slot})
  }

  function Live(ring: seq<Block>): nat
  {
    if ring == [] then 0 else |ring[0].live| + Live(ring[1..])
  }

  function Total(ring: seq<Block>): nat
  {
    if ring == [] then 0 else Capacity(ring[0]) + Total(ring[1..])
  }

  function Max(a: nat, b: nat): nat { if a >= b then a else b }

  /** Lines 164-171: block `j` has a free slot; it becomes pool->block. */
  function Taken(p: Pool, j: nat): Pool
    requires j < |p.ring| && 0 < p.ring[j].sp <= |p.ring[j].stack|
  {
    var ring := [Popped(p.ring[j])] + p.ring[j + 1..] + p.ring[..j];
    p.(ring := ring, peak := Max(p.peak, Live(ring)))
  }

  /** Lines 183-192: a new block is linked in behind the last and becomes pool->block. */
  function Grown(p: Pool, b: Block): Pool
    requires 0 < b.sp <= |b.stack|
  {
    var ring := [Popped(b)] + p.ring;
    p.(ring := ring, max := 2 * p.max, peak := Max(p.peak, Live(ring)))
  }

  function Top(b: Block): nat
    requires 0 < b.sp <= |b.stack|
  {
    b.stack[b.sp - 1]
  }

  /** frl_slab_palloc_lock_with (lines 159-196): the new pool and the pointer, MEM behind
      the slot.  `base` and `arena` are the address and the contents of the memory that
      malloc gives if another block is needed. */
  function Palloc(p: Pool, base: nat, arena: Bytes): (r: (Pool, nat))
    requires forall b | b in p.ring :: b.sp <= |b.stack|
    requires Found(p.ring) == |p.ring| ==> 0 < 2 * p.max < 0x1_0000_0000 && |arena| == 2 * p.max * Stride(p.per)
  {
    var j := Found(p.ring);
    if j < |p.ring| then (Taken(p, j), Top(p.ring[j]) + MEM)
    else
      var b := Fresh(base, 2 * p.max, p.per, arena);
      (Grown(p, b), Top(b) + MEM)
  }

  /** frl_slab_pfree_lock_with (lines 201-209) for a slot of block `i`. */
  function Pfree(p: Pool, i: nat, slot: nat): Pool
    requires i < |p.ring| && p.ring[i].sp < |p.ring[i].stack|
  {
    p.(ring := p.ring[i := Pushed(p.ring[i], slot)])
  }

  function Cleared(b: Block, per: nat): Block
    requires |b.arena| == |b.stack| * Stride(per) && |b.stack| < 0x1_0000_0000
  {
    Fresh(b.base, |b.stack|, per, b.arena)
  }

  /** frl_slab_pool_clear (lines 262-274). */
  function Clear(p: Pool): Pool
    requires forall b | b in p.ring :: |b.arena| == |b.stack| * Stride(p.per) && |b.stack| < 0x1_0000_0000
  {
    p.(ring := seq(|p.ring|, i requires 0 <= i < |p.ring| => Cleared(p.ring[i], p.per)))
  }

  /** A client writes a byte to the slot at `slot` of block `i`, `off` bytes into it. */
  function Store(p: Pool, i: nat, slot: nat, off: nat, v: Byte): Pool
    requires i < |p.ring| && p.ring[i].base <= slot && slot - p.ring[i].base + MEM + off < |p.ring[i].arena|
  {
    var b := p.ring[i];
    p.(ring := p.ring[i := b.(arena := b.arena[slot - b.base + MEM + off := v])])
  }

  /** frl_slab_pool_create (lines 345-352). */
  function Create(base: nat, capacity: nat, per: nat, arena: Bytes): Pool
    requires |arena| == capacity * Stride(per) && capacity < 0x1_0000_0000
  {
    Pool([Fresh(base, capacity, per, arena)], per, capacity, 0)
  }

  // -------------------------------------------------------------- the invariant

  ghost predicate IsSlot(b: Block, a: nat, per: nat)
  {
    exists i {:trigger Slot(b, i, per)} :: 0 <= i < |b.stack| && a == Slot(b, i, per)
  }

  predicate FlagOK(b: Block, i: nat, per: nat)
    requires |b.arena| == |b.stack| * Stride(per) && i < |b.stack|
  {
    FlagFits(i, |b.stack|, per);
    Dec32(b.arena[GuardAt(i, per)..GuardAt(i, per) + GUARD]) == i
  }

  ghost predicate Distinct(s: seq<nat>)
  {
    forall i, j | 0 <= i < j < |s| :: s[i] != s[j]
  }

  /** Slots are either free, once, or live; every entry of the stack, used or not, is a
      slot; and the flags are intact. */
  ghost predicate BlockOK(b: Block, per: nat)
  {
    && b.sp <= |b.stack| < 0x1_0000_0000 && |b.arena| == |b.stack| * Stride(per)
    && (forall k | 0 <= k < |b.stack| :: IsSlot(b, b.stack[k], per))
    && Distinct(b.stack[..b.sp])
    && (forall k | 0 <= k < b.sp :: b.stack[k] !in b.live)
    && (forall a | a in b.live :: IsSlot(b, a, per))
    && (forall i {:trigger Slot(b, i, per)} | 0 <= i < |b.stack| ::
        Slot(b, i, per) in b.stack[..b.sp] || Slot(b, i, per) in b.live)
    && |b.live| + b.sp == |b.stack|
    && (forall i {:trigger FlagOK(b, i, per)} | 0 <= i < |b.stack| :: FlagOK(b, i, per))
  }

  function End(b: Block): nat { b.base + |b.arena| }

  /** Two blocks do not overlap: malloc never gives the same memory twice. */
  predicate Apart(b: Block, d: Block) { End(b) <= d.base || End(d) <= b.base }

  function Pow2(n: nat): nat { if n == 0 then 1 else 2 * Pow2(n - 1) }

  ghost predicate BlocksOK(ring: seq<Block>, per: nat)
  {
    && (forall i | 0 <= i < |ring| :: BlockOK(ring[i], per))
    && (forall i, j | 0 <= i < j < |ring| :: Apart(ring[i], ring[j]))
  }

  /** The pool that was created for `c` slots: n blocks have c * (2^n - 1) slots, and no
      more than twice as many as were ever needed, and c. */
  ghost predicate PoolOK(p: Pool, c: nat)
  {
    && c >= 1 && |p.ring| >= 1 && BlocksOK(p.ring, p.per)
    && p.max == c * Pow2(|p.ring| - 1) && Total(p.ring) == c * (Pow2(|p.ring|) - 1)
    && Live(p.ring) <= p.peak && Total(p.ring) <= 2 * p.peak + c
  }

  /** Every stack pointer is inside its stack, and every arena has room for its slots:
      without that the operations have no meaning. */
  ghost predicate Fits(p: Pool)
  {
    forall b | b in p.ring :: b.sp <= |b.stack| < 0x1_0000_0000 && |b.arena| == |b.stack| * Stride(p.per)
  }

  // ------------------------------------------------------------ byte ranges

  /** The header, the user area and the flag of a slot lie between it and the next slot,
      so those of different slots do not overlap, in one block or in two. */
  lemma SlotsApart(b: Block, i: nat, d: Block, j: nat, per: nat)
    requires i < |b.stack| && j < |d.stack|
    requires |b.arena| == |b.stack| * Stride(per) && |d.arena| == |d.stack| * Stride(per)
    requires (b == d && i != j) || Apart(b, d)
    ensures Slot(b, i, per) + Stride(per) <= Slot(d, j, per) || Slot(d, j, per) + Stride(per) <= Slot(b, i, per)
    ensures b.base <= Slot(b, i, per) && Slot(b, i, per) + Stride(per) <= End(b)
  {
    Multiples(i, |b.stack|, Stride(per));
    Multiples(j, |d.stack|, Stride(per));
    if b == d {
      if i < j {
        Multiples(i, j, Stride(per));
      } else {
        Multiples(j, i, Stride(per));
      }
    }
  }

  // ------------------------------------------------------------ one block

  /** The flag of slot `i` is not touched by a change elsewhere. */
  lemma {:induction false} FlagsWritten(arena: Bytes, n: nat, per: nat, i: nat)
    requires |arena| >= n * Stride(per) && n < 0x1_0000_0000 && i < n
    ensures GuardAt(i, per) + GUARD <= |arena|
    ensures Flagged(arena, n, per)[GuardAt(i, per)..GuardAt(i, per) + GUARD] == Enc32(i)
  {
    hide Enc32;
    FlagFits(i, n, per);
    FlagFits(n - 1, n, per);
    var a := Flagged(arena, n - 1, per);
    var g := GuardAt(n - 1, per);
    var r := a[..g] + Enc32(n - 1) + a[g + GUARD..];
    assert Flagged(arena, n, per) == r;
    if i < n - 1 {
      FlagsWritten(arena, n - 1, per, i);
      Multiples(i, n - 1, Stride(per));
      assert r[GuardAt(i, per)..GuardAt(i, per) + GUARD] == a[GuardAt(i, per)..GuardAt(i, per) + GUARD];
    }
  }

  lemma FreshOK(base: nat, n: nat, per: nat, arena: Bytes)
    requires |arena| == n * Stride(per) && n < 0x1_0000_0000
    ensures BlockOK(Fresh(base, n, per, arena), per)
  {
    hide Enc32, Dec32, Flagged;
    var b := Fresh(base, n, per, arena);
    assert b.stack[..b.sp] == b.stack;
    forall k | 0 <= k < n ensures b.stack[k] == Slot(b, k, per) && IsSlot(b, b.stack[k], per) {
    }
    forall i, j | 0 <= i < j < n ensures b.stack[i] != b.stack[j] {
      Multiples(i, j, Stride(per));
    }
    forall i | 0 <= i < n ensures FlagOK(b, i, per) {
      FlagsWritten(arena, n, per, i);
      DecEnc(i);
    }
  }

  lemma PoppedOK(b: Block, per: nat)
    requires BlockOK(b, per) && b.sp > 0
    ensures BlockOK(Popped(b), per)
    ensures b.stack[b.sp - 1] !in b.live && b.stack[b.sp - 1] in Popped(b).live
  {
    hide Enc32, Dec32, Address, FlagOK, IsSlot;
    var r := Popped(b);
    var top := b.stack[b.sp - 1];
    assert b.stack[..b.sp] == r.stack[..r.sp] + [top];
    SameBlock(b, r, per);
  }

  /** Slots and flags only depend on the place, the size and the contents of a block. */
  lemma SameBlock(b: Block, r: Block, per: nat)
    requires r.base == b.base && |r.stack| == |b.stack|
    ensures forall a :: IsSlot(b, a, per) <==> IsSlot(r, a, per)
    ensures forall i: nat :: Slot(b, i, per) == Slot(r, i, per)
    ensures r.arena == b.arena && |b.arena| == |b.stack| * Stride(per) ==>
              forall i | 0 <= i < |b.stack| :: FlagOK(b, i, per) == FlagOK(r, i, per)
  {
    hide Enc32, Dec32;
    forall a ensures IsSlot(b, a, per) <==> IsSlot(r, a, per) {
      if IsSlot(b, a, per) {
        var i :| 0 <= i < |b.stack| && a == Slot(b, i, per);
        assert a == Slot(r, i, per);
      }
      if IsSlot(r, a, per) {
        var i :| 0 <= i < |r.stack| && a == Slot(r, i, per);
        assert a == Slot(b, i, per);
      }
    }
  }

  lemma PushedOK(b: Block, slot: nat, per: nat)
    requires BlockOK(b, per) && slot in b.live
    ensures b.sp < |b.stack| && BlockOK(Pushed(b, slot), per)
  {
    hide Enc32, Dec32;
    assert |b.live| >= 1 by {
      assert {slot} <= b.live;
      assert b.live == {slot} + (b.live - {slot});
    }
    var r := Pushed(b, slot);
    SameBlock(b, r, per);
    assert r.stack[..r.sp] == b.stack[..b.sp] + [slot];
    forall k | 0 <= k < r.sp ensures r.stack[k] !in r.live {
    }
  }

  /** A byte of the user area of slot `j` is not a byte of the flag of slot `i`. */
  lemma UserNotFlag(i: nat, j: nat, off: nat, per: nat)
    requires off < per
    ensures var at := j * Stride(per) + MEM + off;
            at < GuardAt(i, per) || at >= GuardAt(i, per) + GUARD
  {
    if i < j {
      Multiples(i, j, Stride(per));
    } else if j < i {
      Multiples(j, i, Stride(per));
    }
  }

  lemma StoreFlag(b: Block, slot: nat, off: nat, v: Byte, per: nat, i: nat)
    requires BlockOK(b, per) && IsSlot(b, slot, per) && off < per && i < |b.stack|
    requires b.base <= slot && slot - b.base + MEM + off < |b.arena|
    ensures FlagOK(b.(arena := b.arena[slot - b.base + MEM + off := v]), i, per)
  {
    hide Enc32, Dec32;
    var j :| 0 <= j < |b.stack| && slot == Slot(b, j, per);
    UserNotFlag(i, j, off, per);
    FlagFits(i, |b.stack|, per);
    assert FlagOK(b, i, per);
    var at, g := slot - b.base + MEM + off, GuardAt(i, per);
    assert at < g || at >= g + GUARD;
    assert b.arena[at := v][g..g + GUARD] == b.arena[g..g + GUARD];
  }

  lemma SlotInside(b: Block, slot: nat, per: nat)
    requires |b.arena| == |b.stack| * Stride(per) && IsSlot(b, slot, per)
    ensures b.base <= slot && slot - b.base + Stride(per) <= |b.arena|
  {
    var j :| 0 <= j < |b.stack| && slot == Slot(b, j, per);
    Multiples(j, |b.stack|, Stride(per));
  }

  /** A client that stays in its slot damages nothing. */
  lemma StoreOK(b: Block, slot: nat, off: nat, v: Byte, per: nat)
    requires BlockOK(b, per) && slot in b.live && off < per
    ensures b.base <= slot && slot - b.base + MEM + off < |b.arena|
    ensures BlockOK(b.(arena := b.arena[slot - b.base + MEM + off := v]), per)
  {
    hide Enc32, Dec32, Address;
    SlotInside(b, slot, per);
    var r := b.(arena := b.arena[slot - b.base + MEM + off := v]);
    SameBlock(b, r, per);
    forall i | 0 <= i < |r.stack| ensures FlagOK(r, i, per) {
      StoreFlag(b, slot, off, v, per, i);
    }
  }

  // ------------------------------------------------------------ the whole pool

  /** All slots that clients hold. */
  function AllLive(ring: seq<Block>): set<nat>
  {
    if ring == [] then {} else ring[0].live + AllLive(ring[1..])
  }

  lemma {:induction false} InAllLive(ring: seq<Block>, a: nat)
    ensures a in AllLive(ring) <==> exists i | 0 <= i < |ring| :: a in ring[i].live
  {
    if ring != [] {
      InAllLive(ring[1..], a);
      if exists i | 0 <= i < |ring| :: a in ring[i].live {
        var i :| 0 <= i < |ring| && a in ring[i].live;
        assert i > 0 ==> ring[1..][i - 1] == ring[i];
      }
    }
  }

  lemma {:induction false} Sums(r1: seq<Block>, r2: seq<Block>)
    ensures Total(r1 + r2) == Total(r1) + Total(r2)
    ensures Live(r1 + r2) == Live(r1) + Live(r2)
    ensures AllLive(r1 + r2) == AllLive(r1) + AllLive(r2)
  {
    if r1 == [] {
      assert r1 + r2 == r2;
    } else {
      assert (r1 + r2)[1..] == r1[1..] + r2;
      Sums(r1[1..], r2);
    }
  }

  /** What an operation does to the sums when it replaces block `i` by `b`, whether or not
      the ring is turned so that it begins there. */
  lemma Replaced(ring: seq<Block>, i: nat, b: Block)
    requires i < |ring|
    ensures ring[i := b] == ring[..i] + [b] + ring[i + 1..] && ring == ring[..i] + [ring[i]] + ring[i + 1..]
    ensures Total(ring[i := b]) + Capacity(ring[i]) == Total(ring) + Capacity(b)
    ensures Live(ring[i := b]) + |ring[i].live| == Live(ring) + |b.live|
    ensures Total([b] + ring[i + 1..] + ring[..i]) == Total(ring[i := b])
    ensures Live([b] + ring[i + 1..] + ring[..i]) == Live(ring[i := b])
  {
    var l, r := ring[..i], ring[i + 1..];
    Sums(l, [b]);
    Sums(l + [b], r);
    Sums(l, [ring[i]]);
    Sums(l + [ring[i]], r);
    Sums([b], r);
    Sums([b] + r, l);
    assert [b][1..] == [] && [ring[i]][1..] == [];
    assert ring == l + [ring[i]] + r;
    assert ring[i := b] == l + [b] + r;
  }

  /** If no block has a free slot, every slot is live. */
  lemma {:induction false} AllTaken(ring: seq<Block>, per: nat)
    requires forall i | 0 <= i < |ring| :: BlockOK(ring[i], per) && ring[i].sp == 0
    ensures Live(ring) == Total(ring)
  {
    if ring != [] {
      AllTaken(ring[1..], per);
    }
  }

  /** Live slots of different blocks are different. */
  lemma LiveApart(p: Pool, c: nat, i: nat, j: nat, a: nat)
    requires PoolOK(p, c) && i < |p.ring| && j < |p.ring| && a in p.ring[i].live && IsSlot(p.ring[j], a, p.per)
    ensures i == j
  {
    var b, d := p.ring[i], p.ring[j];
    var k :| 0 <= k < |b.stack| && a == Slot(b, k, p.per);
    var m :| 0 <= m < |d.stack| && a == Slot(d, m, p.per);
    if i != j {
      assert Apart(b, d) by {
        if i < j {
          assert Apart(p.ring[i], p.ring[j]);
        } else {
          assert Apart(p.ring[j], p.ring[i]);
        }
      }
      SlotsApart(b, k, d, m, p.per);
    }
  }

  /** The memory that malloc gives for another block is not in use. */
  ghost predicate Mallocs(p: Pool, base: nat, arena: Bytes)
  {
    && 0 < 2 * p.max < 0x1_0000_0000 && |arena| == 2 * p.max * Stride(p.per)
    && forall i | 0 <= i < |p.ring| :: base + |arena| <= p.ring[i].base || End(p.ring[i]) <= base
  }

  /** Turning the ring and changing a block where it lies keeps the blocks apart. */
  lemma TurnedOK(ring: seq<Block>, i: nat, b: Block, per: nat)
    requires BlocksOK(ring, per) && i < |ring| && BlockOK(b, per) && b.base == ring[i].base
             && |b.arena| == |ring[i].arena|
    ensures BlocksOK([b] + ring[i + 1..] + ring[..i], per) && BlocksOK(ring[i := b], per)
  {
    var t := [b] + ring[i + 1..] + ring[..i];
    var n := |ring|;
    forall k, m | 0 <= k < m < n ensures Apart(t[k], t[m]) {
      var k', m' := if k + i < n then k + i else k + i - n, if m + i < n then m + i else m + i - n;
      if k' < m' {
        assert Apart(ring[k'], ring[m']);
      } else {
        assert Apart(ring[m'], ring[k']);
      }
    }
  }

  /** palloc from a block with a free slot. */
  lemma TakenOK(p: Pool, c: nat, j: nat)
    requires PoolOK(p, c) && j < |p.ring| && p.ring[j].sp > 0 && p.ring[j].sp <= |p.ring[j].stack|
    ensures PoolOK(Taken(p, j), c)
    ensures Live(Taken(p, j).ring) == Live(p.ring) + 1 && Total(Taken(p, j).ring) == Total(p.ring)
  {
    var b := p.ring[j];
    assert BlockOK(b, p.per);
    PoppedOK(b, p.per);
    var d := Popped(b);
    assert d.base == b.base && |d.arena| == |b.arena| && Capacity(d) == Capacity(b);
    assert |d.live| == |b.live| + 1;
    assert BlocksOK(p.ring, p.per);
    var ring := [d] + p.ring[j + 1..] + p.ring[..j];
    assert Taken(p, j) == p.(ring := ring, peak := Max(p.peak, Live(ring)));
    hide BlockOK, BlocksOK, PoolOK, Total, Live, Popped, Taken;
    Replaced(p.ring, j, d);
    TurnedOK(p.ring, j, d, p.per);
    SameSize(p, c, ring);
  }

  lemma SameSize(p: Pool, c: nat, ring: seq<Block>)
    requires PoolOK(p, c) && BlocksOK(ring, p.per) && |ring| == |p.ring| && Total(ring) == Total(p.ring)
    ensures PoolOK(p.(ring := ring, peak := Max(p.peak, Live(ring))), c)
  {
    hide BlocksOK, Total, Live, Pow2;
  }

  lemma PowerSums(c: nat, n: nat)
    requires n >= 1
    ensures 2 * (c * Pow2(n - 1)) == c * Pow2(n)
    ensures c * Pow2(n) + c * (Pow2(n) - 1) == c * (Pow2(n + 1) - 1)
    ensures c * Pow2(n) == c * (Pow2(n) - 1) + c
  {
  }

  /** palloc from a new block: it is added only when every slot is live. */
  lemma GrownOK(p: Pool, c: nat, b: Block)
    requires PoolOK(p, c) && Found(p.ring) == |p.ring| && BlockOK(b, p.per) && b.live == {}
    requires Capacity(b) == 2 * p.max > 0 && forall i | 0 <= i < |p.ring| :: Apart(b, p.ring[i])
    ensures b.sp == |b.stack| && Live(p.ring) == Total(p.ring)
    ensures PoolOK(Grown(p, b), c)
    ensures Live(Grown(p, b).ring) == Live(p.ring) + 1 && Total(Grown(p, b).ring) == 2 * Total(p.ring) + c
  {
    AllTaken(p.ring, p.per);
    PoppedOK(b, p.per);
    var d := Popped(b);
    assert |d.live| == 1 && Capacity(d) == 2 * p.max;
    hide BlockOK, BlocksOK, Pow2, Popped, Total, Live;
    AddedOK(p.ring, d, p.per);
    PowerSums(c, |p.ring|);
  }

  lemma AddedOK(ring: seq<Block>, d: Block, per: nat)
    requires BlocksOK(ring, per) && BlockOK(d, per) && forall i | 0 <= i < |ring| :: Apart(d, ring[i])
    ensures BlocksOK([d] + ring, per)
    ensures Live([d] + ring) == |d.live| + Live(ring) && Total([d] + ring) == Capacity(d) + Total(ring)
  {
    hide BlockOK;
    var t := [d] + ring;
    assert t[1..] == ring;
    forall i, j | 0 <= i < j < |t| ensures Apart(t[i], t[j]) {
      if i > 0 {
        assert Apart(ring[i - 1], ring[j - 1]);
      }
    }
  }

  /** palloc keeps the pool in order and adds a block only if every slot is live; it
      gives a slot that nobody holds, and nobody loses one. */
  lemma PallocOK(p: Pool, c: nat, base: nat, arena: Bytes)
    requires PoolOK(p, c) && (Found(p.ring) == |p.ring| ==> Mallocs(p, base, arena))
    ensures PoolOK(Palloc(p, base, arena).0, c)
    ensures |Palloc(p, base, arena).0.ring| > |p.ring| ==> Live(p.ring) == Total(p.ring)
    ensures Palloc(p, base, arena).1 >= MEM && Palloc(p, base, arena).1 - MEM !in AllLive(p.ring)
    ensures AllLive(Palloc(p, base, arena).0.ring) == AllLive(p.ring) + {Palloc(p, base, arena).1 - MEM}
    ensures Live(Palloc(p, base, arena).0.ring) == Live(p.ring) + 1
  {
    if Found(p.ring) < |p.ring| {
      PallocTaken(p, c, base, arena);
    } else {
      PallocGrown(p, c, base, arena);
    }
  }

  lemma PallocTaken(p: Pool, c: nat, base: nat, arena: Bytes)
    requires PoolOK(p, c) && Found(p.ring) < |p.ring|
    ensures PoolOK(Palloc(p, base, arena).0, c)
    ensures |Palloc(p, base, arena).0.ring| == |p.ring|
    ensures Palloc(p, base, arena).1 >= MEM && Palloc(p, base, arena).1 - MEM !in AllLive(p.ring)
    ensures AllLive(Palloc(p, base, arena).0.ring) == AllLive(p.ring) + {Palloc(p, base, arena).1 - MEM}
    ensures Live(Palloc(p, base, arena).0.ring) == Live(p.ring) + 1
  {
    var j := Found(p.ring);
    assert BlockOK(p.ring[j], p.per);
    SplitsTaken(p, base, arena);
    hide PoolOK, BlockOK, AllLive, Live, Total, Palloc, Taken;
    TakenOK(p, c, j);
    TakenSlot(p, c, j);
  }

  /** The slot comes from the first block after pool->block that has one, and that block is
      pool->block from then on; the cyclic order of the blocks stays. */
  lemma PallocFrom(p: Pool, c: nat, base: nat, arena: Bytes)
    requires PoolOK(p, c) && Found(p.ring) < |p.ring|
    ensures forall i | 0 <= i < Found(p.ring) :: p.ring[i].sp == 0
    ensures var j, ring := Found(p.ring), Palloc(p, base, arena).0.ring;
            && |ring| == |p.ring| && ring[0].base == p.ring[j].base
            && ring[0].live == p.ring[j].live + {Palloc(p, base, arena).1 - MEM}
            && ring[0].sp == p.ring[j].sp - 1 && ring[0].stack == p.ring[j].stack && ring[0].arena == p.ring[j].arena
            && forall i | 0 < i < |ring| :: ring[i] == p.ring[if i + j < |ring| then i + j else i + j - |ring|]
  {
    assert BlockOK(p.ring[Found(p.ring)], p.per);
    SplitsTaken(p, base, arena);
    hide BlockOK, BlocksOK, Live;
  }

  /** What has just been freed in the block at pool->block is what the next palloc gives,
      and then that block has as many free slots as before. */
  lemma FreedComesBack(p: Pool, c: nat, slot: nat, base: nat, arena: Bytes)
    requires PoolOK(p, c) && slot in p.ring[0].live
    ensures p.ring[0].sp < |p.ring[0].stack| && Found(Pfree(p, 0, slot).ring) == 0
    ensures forall b | b in Pfree(p, 0, slot).ring :: b.sp <= |b.stack|
    ensures var (q, pointer) := Palloc(Pfree(p, 0, slot), base, arena);
            && pointer == slot + MEM && q.ring[1..] == p.ring[1..]
            && q.ring[0].live == p.ring[0].live && q.ring[0].sp == p.ring[0].sp
  {
    PfreeOK(p, c, 0, slot);
    StacksFit(Pfree(p, 0, slot), c);
    hide BlockOK, BlocksOK, Live, PoolOK;
    var r := Pfree(p, 0, slot);
    assert r.ring[0] == Pushed(p.ring[0], slot) && r.ring[1..] == p.ring[1..];
    SplitsTaken(r, base, arena);
    assert Taken(r, 0).ring == [Popped(r.ring[0])] + r.ring[1..] + r.ring[..0];
  }

  /** What has just been taken and is freed at once leaves all blocks with the slots they
      had. */
  lemma TakenGoesBack(p: Pool, c: nat, base: nat, arena: Bytes)
    requires PoolOK(p, c) && Found(p.ring) < |p.ring|
    ensures Palloc(p, base, arena).1 >= MEM && Palloc(p, base, arena).0.ring != []
    ensures Palloc(p, base, arena).0.ring[0].sp < |Palloc(p, base, arena).0.ring[0].stack|
    ensures var (q, pointer) := Palloc(p, base, arena);
            var j := Found(p.ring);
            Pfree(q, 0, pointer - MEM).ring == [p.ring[j]] + p.ring[j + 1..] + p.ring[..j]
  {
    var j := Found(p.ring);
    assert BlockOK(p.ring[j], p.per);
    PoppedOK(p.ring[j], p.per);
    SplitsTaken(p, base, arena);
    var b := p.ring[j];
    hide BlockOK, BlocksOK, Live;
    assert Pushed(Popped(b), Top(b)) == b by {
      assert b.stack[b.sp - 1 := Top(b)] == b.stack;
      assert b.live + {Top(b)} - {Top(b)} == b.live;
    }
    assert Taken(p, j).ring[0] == Popped(b);
  }

  lemma SplitsTaken(p: Pool, base: nat, arena: Bytes)
    requires Found(p.ring) < |p.ring| && forall b | b in p.ring :: b.sp <= |b.stack|
    ensures Palloc(p, base, arena) == (Taken(p, Found(p.ring)), Top(p.ring[Found(p.ring)]) + MEM)
    ensures |Palloc(p, base, arena).0.ring| == |p.ring|
  {
    hide Live, Popped;
  }

  lemma PallocGrown(p: Pool, c: nat, base: nat, arena: Bytes)
    requires PoolOK(p, c) && Found(p.ring) == |p.ring| && Mallocs(p, base, arena)
    ensures PoolOK(Palloc(p, base, arena).0, c) && Live(p.ring) == Total(p.ring)
    ensures Palloc(p, base, arena).1 >= MEM && Palloc(p, base, arena).1 - MEM !in AllLive(p.ring)
    ensures AllLive(Palloc(p, base, arena).0.ring) == AllLive(p.ring) + {Palloc(p, base, arena).1 - MEM}
    ensures Live(Palloc(p, base, arena).0.ring) == Live(p.ring) + 1
    ensures Palloc(p, base, arena).0.ring[1..] == p.ring
    ensures base <= Palloc(p, base, arena).1 - MEM < base + |arena|
  {
    hide Flagged, Slots, BlockOK, AllLive, Live, Total, Pow2;
    var b := Fresh(base, 2 * p.max, p.per, arena);
    FreshOK(base, 2 * p.max, p.per, arena);
    assert Capacity(b) == 2 * p.max && b.live == {} && b.base == base && |b.arena| == |arena|;
    assert Palloc(p, base, arena) == (Grown(p, b), Top(b) + MEM);
    assert Grown(p, b).ring == [Popped(b)] + p.ring;
    TopInside(b, p.per);
    assert forall i | 0 <= i < |p.ring| :: Apart(b, p.ring[i]);
    hide PoolOK, Fresh, Palloc, Grown;
    GrownOK(p, c, b);
    GrownSlot(p, c, b);
  }

  /** The slot on top of the stack begins inside the arena. */
  lemma TopInside(b: Block, per: nat)
    requires BlockOK(b, per) && b.sp > 0
    ensures b.base <= Top(b) < b.base + |b.arena|
  {
    hide FlagOK;
    SlotInside(b, Top(b), per);
  }

  lemma UnionMore(l: set<nat>, m: set<nat>, r: set<nat>, a: nat)
    ensures l + (m + {a}) + r == (l + m + r) + {a}
  {
  }

  lemma UnionLess(l: set<nat>, m: set<nat>, r: set<nat>, a: nat)
    requires a !in l && a !in r
    ensures l + (m - {a}) + r == (l + m + r) - {a}
  {
  }

  /** A slot that is not live in its own block is not live in another. */
  lemma NotElsewhere(p: Pool, c: nat, j: nat, a: nat)
    requires PoolOK(p, c) && j < |p.ring| && IsSlot(p.ring[j], a, p.per) && a !in p.ring[j].live
    ensures a !in AllLive(p.ring)
  {
    InAllLive(p.ring, a);
    if a in AllLive(p.ring) {
      var i :| 0 <= i < |p.ring| && a in p.ring[i].live;
      LiveApart(p, c, i, j, a);
    }
  }

  /** The slot on top of a stack is not live in any block. */
  lemma TopNotLive(p: Pool, c: nat, j: nat)
    requires PoolOK(p, c) && j < |p.ring| && p.ring[j].sp > 0
    ensures p.ring[j].sp <= |p.ring[j].stack|
    ensures forall i | 0 <= i < |p.ring| :: Top(p.ring[j]) !in p.ring[i].live
  {
    assert BlockOK(p.ring[j], p.per);
    hide AllLive, BlockOK;
    TakenSlot(p, c, j);
    forall i | 0 <= i < |p.ring| ensures Top(p.ring[j]) !in p.ring[i].live {
      InAllLive(p.ring, Top(p.ring[j]));
    }
  }

  lemma TakenSlot(p: Pool, c: nat, j: nat)
    requires PoolOK(p, c) && j < |p.ring| && p.ring[j].sp > 0 && p.ring[j].sp <= |p.ring[j].stack|
    ensures Top(p.ring[j]) !in AllLive(p.ring)
    ensures AllLive(Taken(p, j).ring) == AllLive(p.ring) + {Top(p.ring[j])}
  {
    var b := p.ring[j];
    var a := b.stack[b.sp - 1];
    assert BlockOK(b, p.per);
    assert IsSlot(b, a, p.per) && a !in b.live;
    NotElsewhere(p, c, j, a);
    hide PoolOK, BlockOK, AllLive, IsSlot;
    Rearranged(p.ring, j, Popped(b));
    UnionMore(AllLive(p.ring[..j]), b.live, AllLive(p.ring[j + 1..]), a);
  }

  /** AllLive of the ring with one block changed, turned or not. */
  lemma Rearranged(ring: seq<Block>, j: nat, d: Block)
    requires j < |ring|
    ensures AllLive([d] + ring[j + 1..] + ring[..j]) == AllLive(ring[..j]) + d.live + AllLive(ring[j + 1..])
    ensures AllLive(ring[j := d]) == AllLive(ring[..j]) + d.live + AllLive(ring[j + 1..])
    ensures AllLive(ring) == AllLive(ring[..j]) + ring[j].live + AllLive(ring[j + 1..])
  {
    var l, r := ring[..j], ring[j + 1..];
    assert ring == l + [ring[j]] + r && ring[j := d] == l + [d] + r;
    assert [d][1..] == [] && [ring[j]][1..] == [];
    Sums([d] + r, l);
    Sums([d], r);
    Sums(l + [ring[j]], r);
    Sums(l, [ring[j]]);
    Sums(l + [d], r);
    Sums(l, [d]);
  }

  lemma GrownSlot(p: Pool, c: nat, b: Block)
    requires PoolOK(p, c) && BlockOK(b, p.per) && 0 < b.sp && b.live == {}
    requires forall i | 0 <= i < |p.ring| :: Apart(b, p.ring[i])
    ensures Top(b) !in AllLive(p.ring) && AllLive([Popped(b)] + p.ring) == AllLive(p.ring) + {Top(b)}
  {
    assert IsSlot(b, Top(b), p.per);
    InAllLive(p.ring, Top(b));
    if Top(b) in AllLive(p.ring) {
      var i :| 0 <= i < |p.ring| && Top(b) in p.ring[i].live;
      NotInOther(b, p.ring[i], Top(b), p.per);
      assert false;
    }
    assert ([Popped(b)] + p.ring)[1..] == p.ring;
  }

  lemma NotInOther(b: Block, d: Block, a: nat, per: nat)
    requires BlockOK(b, per) && BlockOK(d, per) && Apart(b, d) && IsSlot(b, a, per)
    ensures a !in d.live
  {
    if a in d.live {
      var k :| 0 <= k < |b.stack| && a == Slot(b, k, per);
      var m :| 0 <= m < |d.stack| && a == Slot(d, m, per);
      SlotsApart(b, k, d, m, per);
    }
  }

  /** A block changes where it lies and does not gain live slots. */
  lemma ChangedOK(p: Pool, c: nat, i: nat, d: Block)
    requires PoolOK(p, c) && i < |p.ring| && BlockOK(d, p.per) && |d.live| <= |p.ring[i].live|
    requires d.base == p.ring[i].base && |d.arena| == |p.ring[i].arena| && |d.stack| == |p.ring[i].stack|
    ensures PoolOK(p.(ring := p.ring[i := d]), c)
    ensures Live(p.ring[i := d]) == Live(p.ring) - |p.ring[i].live| + |d.live|
  {
    hide BlockOK, BlocksOK, Live, Total, Pow2;
    Replaced(p.ring, i, d);
    TurnedOK(p.ring, i, d, p.per);
  }

  /** pfree of a slot that a client holds. */
  lemma PfreeOK(p: Pool, c: nat, i: nat, slot: nat)
    requires PoolOK(p, c) && i < |p.ring| && slot in p.ring[i].live
    ensures p.ring[i].sp < |p.ring[i].stack| && PoolOK(Pfree(p, i, slot), c)
    ensures Live(Pfree(p, i, slot).ring) == Live(p.ring) - 1
    ensures AllLive(Pfree(p, i, slot).ring) == AllLive(p.ring) - {slot}
  {
    var b := p.ring[i];
    assert BlockOK(b, p.per);
    PushedOK(b, slot, p.per);
    var d := Pushed(b, slot);
    assert |d.live| == |b.live| - 1 && d.base == b.base && d.arena == b.arena && |d.stack| == |b.stack|;
    hide BlockOK, PoolOK, AllLive;
    ChangedOK(p, c, i, d);
    PushedLive(p, c, i, slot);
    assert Pfree(p, i, slot) == p.(ring := p.ring[i := d]);
  }

  lemma PushedLive(p: Pool, c: nat, i: nat, slot: nat)
    requires PoolOK(p, c) && i < |p.ring| && slot in p.ring[i].live && p.ring[i].sp < |p.ring[i].stack|
    ensures AllLive(p.ring[i := Pushed(p.ring[i], slot)]) == AllLive(p.ring) - {slot}
  {
    var b := p.ring[i];
    var l, r := p.ring[..i], p.ring[i + 1..];
    NotBeside(p, c, i, slot);
    hide PoolOK, AllLive;
    Rearranged(p.ring, i, Pushed(b, slot));
    UnionLess(AllLive(l), b.live, AllLive(r), slot);
  }

  lemma NotBeside(p: Pool, c: nat, i: nat, slot: nat)
    requires PoolOK(p, c) && i < |p.ring| && slot in p.ring[i].live
    ensures slot !in AllLive(p.ring[..i]) && slot !in AllLive(p.ring[i + 1..])
  {
    var l, r := p.ring[..i], p.ring[i + 1..];
    assert BlockOK(p.ring[i], p.per);
    assert IsSlot(p.ring[i], slot, p.per);
    hide BlockOK, AllLive, PoolOK, IsSlot;
    InAllLive(l, slot);
    InAllLive(r, slot);
    if k :| 0 <= k < |l| && slot in l[k].live {
      LiveApart(p, c, k, i, slot);
    }
    if k :| 0 <= k < |r| && slot in r[k].live {
      LiveApart(p, c, i + 1 + k, i, slot);
    }
  }

  lemma {:induction false} NobodyLive(ring: seq<Block>)
    requires forall i | 0 <= i < |ring| :: ring[i].live == {}
    ensures Live(ring) == 0 && AllLive(ring) == {}
  {
    if ring != [] {
      NobodyLive(ring[1..]);
    }
  }

  lemma {:induction false} SameTotal(r1: seq<Block>, r2: seq<Block>)
    requires |r1| == |r2| && forall i | 0 <= i < |r1| :: Capacity(r1[i]) == Capacity(r2[i])
    ensures Total(r1) == Total(r2)
  {
    if r1 != [] {
      SameTotal(r1[1..], r2[1..]);
    }
  }

  lemma ClearOK(p: Pool, c: nat)
    requires PoolOK(p, c)
    ensures PoolOK(Clear(p), c) && AllLive(Clear(p).ring) == {} && Live(Clear(p).ring) == 0
    ensures forall i | 0 <= i < |p.ring| :: Clear(p).ring[i].live == {}
  {
    var ring := Clear(p).ring;
    forall i | 0 <= i < |ring|
      ensures BlockOK(ring[i], p.per) && ring[i].live == {} && Capacity(ring[i]) == Capacity(p.ring[i])
    {
      FreshOK(p.ring[i].base, |p.ring[i].stack|, p.per, p.ring[i].arena);
    }
    forall i, j | 0 <= i < j < |ring| ensures Apart(ring[i], ring[j]) {
      assert Apart(p.ring[i], p.ring[j]);
    }
    NobodyLive(ring);
    SameTotal(ring, p.ring);
  }

  lemma StorePoolOK(p: Pool, c: nat, i: nat, slot: nat, off: nat, v: Byte)
    requires PoolOK(p, c) && i < |p.ring| && slot in p.ring[i].live && off < p.per
    ensures p.ring[i].base <= slot && slot - p.ring[i].base + MEM + off < |p.ring[i].arena|
    ensures PoolOK(Store(p, i, slot, off, v), c) && AllLive(Store(p, i, slot, off, v).ring) == AllLive(p.ring)
  {
    var b := p.ring[i];
    assert BlockOK(b, p.per);
    StoreOK(b, slot, off, v, p.per);
    hide BlockOK, AllLive, PoolOK;
    var d := b.(arena := b.arena[slot - b.base + MEM + off := v]);
    assert d.base == b.base && |d.arena| == |b.arena| && d.stack == b.stack && d.live == b.live;
    assert Store(p, i, slot, off, v) == p.(ring := p.ring[i := d]);
    hide Store;
    ChangedOK(p, c, i, d);
    SameLive(p.ring, i, d);
  }

  lemma SameLive(ring: seq<Block>, i: nat, d: Block)
    requires i < |ring| && d.live == ring[i].live
    ensures AllLive(ring[i := d]) == AllLive(ring)
  {
    hide AllLive;
    Rearranged(ring, i, d);
  }

  lemma CreateOK(base: nat, c: nat, per: nat, arena: Bytes)
    requires c >= 1 && |arena| == c * Stride(per) && c < 0x1_0000_0000
    ensures PoolOK(Create(base, c, per, arena), c) && AllLive(Create(base, c, per, arena).ring) == {}
  {
    FreshOK(base, c, per, arena);
    var ring := Create(base, c, per, arena).ring;
    assert ring[1..] == [];
  }

  lemma StacksFit(p: Pool, c: nat)
    requires PoolOK(p, c)
    ensures Fits(p)
  {
  }

  // ------------------------------------------------------------ audit and statistics

  datatype Status = Success | MemLeak | StackErr // APR_SUCCESS, FRL_MEMLEAK, FRL_STACKERR

  /** The flags of the block are what they were set to. */
  ghost predicate FlagsOK(b: Block, per: nat)
    requires |b.arena| == |b.stack| * Stride(per)
  {
    forall i {:trigger FlagOK(b, i, per)} | 0 <= i < |b.stack| :: FlagOK(b, i, per)
  }

  /** Every entry of the stack points into the arena. */
  ghost predicate EntriesOK(b: Block)
  {
    forall i | 0 <= i < |b.stack| :: b.base <= b.stack[i] < End(b)
  }

  /** frl_slab_pool_safe (lines 296-318): the first thing wrong, block by block. */
  ghost function Audit(ring: seq<Block>, per: nat): Status
    requires forall i | 0 <= i < |ring| :: |ring[i].arena| == |ring[i].stack| * Stride(per)
  {
    if ring == [] then Success
    else if !FlagsOK(ring[0], per) then MemLeak
    else if !EntriesOK(ring[0]) then StackErr
    else Audit(ring[1..], per)
  }

  /** The audit finds nothing wrong exactly if every flag and every entry is right. */
  lemma {:induction false} AuditMeans(ring: seq<Block>, per: nat)
    requires forall i | 0 <= i < |ring| :: |ring[i].arena| == |ring[i].stack| * Stride(per)
    ensures Audit(ring, per) == Success <==> forall i | 0 <= i < |ring| :: FlagsOK(ring[i], per) && EntriesOK(ring[i])
  {
    if ring != [] {
      AuditMeans(ring[1..], per);
      assert forall i | 1 <= i < |ring| :: ring[1..][i - 1] == ring[i];
    }
  }

  ghost predicate GoodBefore(ring: seq<Block>, per: nat, i: nat)
    requires i <= |ring| && forall k | 0 <= k < |ring| :: |ring[k].arena| == |ring[k].stack| * Stride(per)
  {
    forall k | 0 <= k < i :: FlagsOK(ring[k], per) && EntriesOK(ring[k])
  }

  /** Each failure is reported for the first block that is not in order: a leak exactly if
      a flag of that block is wrong, a stack error exactly if only entries are. */
  lemma {:induction false} AuditFailures(ring: seq<Block>, per: nat)
    requires forall i | 0 <= i < |ring| :: |ring[i].arena| == |ring[i].stack| * Stride(per)
    ensures Audit(ring, per) == MemLeak <==>
              exists i | 0 <= i < |ring| :: GoodBefore(ring, per, i) && !FlagsOK(ring[i], per)
    ensures Audit(ring, per) == StackErr <==>
              exists i | 0 <= i < |ring| :: GoodBefore(ring, per, i) && FlagsOK(ring[i], per) && !EntriesOK(ring[i])
  {
    hide FlagsOK, EntriesOK;
    if ring != [] {
      var rest := ring[1..];
      AuditFailures(rest, per);
      assert GoodBefore(ring, per, 0);
      if FlagsOK(ring[0], per) && EntriesOK(ring[0]) {
        forall i | 0 <= i < |rest| ensures GoodBefore(ring, per, i + 1) <==> GoodBefore(rest, per, i) {
          BeforeRest(ring, per, i);
        }
      }
      forall i | 0 < i < |ring| && GoodBefore(ring, per, i) ensures FlagsOK(ring[0], per) && EntriesOK(ring[0]) { }
    }
  }

  lemma BeforeRest(ring: seq<Block>, per: nat, i: nat)
    requires i < |ring| - 1 && forall k | 0 <= k < |ring| :: |ring[k].arena| == |ring[k].stack| * Stride(per)
    requires FlagsOK(ring[0], per) && EntriesOK(ring[0])
    ensures GoodBefore(ring, per, i + 1) <==> GoodBefore(ring[1..], per, i)
  {
    hide FlagsOK, EntriesOK;
    var rest := ring[1..];
    if GoodBefore(rest, per, i) {
      forall k | 0 <= k < i + 1 ensures FlagsOK(ring[k], per) && EntriesOK(ring[k]) {
        if k > 0 { assert ring[k] == rest[k - 1]; }
      }
    }
    if GoodBefore(ring, per, i + 1) {
      forall k | 0 <= k < i ensures FlagsOK(rest[k], per) && EntriesOK(rest[k]) {
        assert rest[k] == ring[k + 1];
      }
    }
  }

  lemma AuditPasses(p: Pool, c: nat)
    requires PoolOK(p, c)
    ensures forall i | 0 <= i < |p.ring| :: |p.ring[i].arena| == |p.ring[i].stack| * Stride(p.per)
    ensures Audit(p.ring, p.per) == Success
  {
    hide Enc32, Dec32, FlagOK;
    AuditMeans(p.ring, p.per);
    forall i | 0 <= i < |p.ring| ensures FlagsOK(p.ring[i], p.per) && EntriesOK(p.ring[i]) {
      var b := p.ring[i];
      assert BlockOK(b, p.per);
      forall k | 0 <= k < |b.stack| ensures b.base <= b.stack[k] < End(b) {
        SlotInside(b, b.stack[k], p.per);
      }
    }
  }

  /** stat.usage (line 332). */
  function Usage(ring: seq<Block>): int
  {
    if ring == [] then 0 else |ring[0].stack| - ring[0].sp + Usage(ring[1..])
  }

  lemma {:induction false} UsageIsLive(ring: seq<Block>, per: nat)
    requires forall i | 0 <= i < |ring| :: BlockOK(ring[i], per)
    ensures Usage(ring) == Live(ring)
  {
    hide FlagOK, IsSlot;
    if ring != [] {
      UsageIsLive(ring[1..], per);
    }
  }

  /** Live slots are counted one by one: those of different blocks are different. */
  lemma {:induction false} LiveIsSize(ring: seq<Block>, per: nat)
    requires BlocksOK(ring, per)
    ensures |AllLive(ring)| == Live(ring)
  {
    if ring != [] {
      var b, rest := ring[0], ring[1..];
      forall i, j | 0 <= i < j < |rest| ensures Apart(rest[i], rest[j]) {
        assert Apart(ring[i + 1], ring[j + 1]);
      }
      assert BlocksOK(rest, per);
      LiveIsSize(rest, per);
      forall a | a in b.live ensures a !in AllLive(rest) {
        assert BlockOK(b, per);
        InAllLive(rest, a);
        if i :| 0 <= i < |rest| && a in rest[i].live {
          assert Apart(ring[0], ring[i + 1]);
          NotInOther(b, rest[i], a, per);
        }
      }
      assert b.live !! AllLive(rest);
    }
  }

  // ------------------------------------------------------------------ all runs

  /** What clients may do with a pool: ask for a slot, return one that they hold, write
      to one that they hold, and have the pool cleared. */
  datatype Op =
    | Ask(base: nat, arena: Bytes)
    | Return(i: nat, slot: nat)
    | Write(i: nat, slot: nat, off: nat, v: Byte)
    | Reset

  ghost predicate Allowed(p: Pool, op: Op)
  {
    match op
    case Ask(base, arena) => Found(p.ring) == |p.ring| ==> Mallocs(p, base, arena)
    case Return(i, slot) => i < |p.ring| && slot in p.ring[i].live
    case Write(i, slot, off, _) => i < |p.ring| && slot in p.ring[i].live && off < p.per
    case Reset => true
  }

  ghost predicate Does(p: Pool, op: Op, p': Pool)
  {
    && Fits(p) && Allowed(p, op)
    && match op
       case Ask(base, arena) => p' == Palloc(p, base, arena).0
       case Return(i, slot) => p.ring[i].sp < |p.ring[i].stack| && p' == Pfree(p, i, slot)
       case Write(i, slot, off, v) =>
         && p.ring[i].base <= slot && slot - p.ring[i].base + MEM + off < |p.ring[i].arena|
         && p' == Store(p, i, slot, off, v)
       case Reset => p' == Clear(p)
  }

  ghost predicate Run(run: seq<Pool>, ops: seq<Op>, c: nat, per: nat)
  {
    && |run| == |ops| + 1 && 1 <= c < 0x1_0000_0000
    && (exists base: nat, arena: Bytes :: |arena| == c * Stride(per) && run[0] == Create(base, c, per, arena))
    && forall k | 0 <= k < |ops| :: Does(run[k], ops[k], run[k + 1])
  }

  lemma DoesOK(p: Pool, op: Op, p': Pool, c: nat)
    requires PoolOK(p, c) && Does(p, op, p')
    ensures PoolOK(p', c)
  {
    hide PoolOK, Palloc, Pfree, Clear, Store;
    match op
    case Ask(base, arena) => PallocOK(p, c, base, arena);
    case Return(i, slot) => PfreeOK(p, c, i, slot);
    case Write(i, slot, off, v) => StorePoolOK(p, c, i, slot, off, v);
    case Reset => ClearOK(p, c);
  }

  /** Every pool that a run reaches is in order. */
  lemma {:induction false} Reachable(run: seq<Pool>, ops: seq<Op>, c: nat, per: nat, k: nat)
    requires Run(run, ops, c, per) && k < |run|
    ensures PoolOK(run[k], c)
    decreases k
  {
    hide PoolOK, Does;
    if k == 0 {
      var base: nat, arena: Bytes :| |arena| == c * Stride(per) && run[0] == Create(base, c, per, arena);
      CreateOK(base, c, per, arena);
    } else {
      Reachable(run, ops, c, per, k - 1);
      assert Does(run[k - 1], ops[k - 1], run[k - 1 + 1]);
      DoesOK(run[k - 1], ops[k - 1], run[k], c);
    }
  }

  /** After any run: the audit succeeds, the usage reported is the number of slots that
      clients hold, n blocks have exactly c * (2^n - 1) slots, and there are never more
      than twice as many slots as were live at one time, and c. */
  lemma EveryRun(run: seq<Pool>, ops: seq<Op>, c: nat, per: nat, k: nat)
    requires Run(run, ops, c, per) && k < |run|
    ensures PoolOK(run[k], c)
    ensures Audit(run[k].ring, run[k].per) == Success
    ensures Usage(run[k].ring) == |AllLive(run[k].ring)| <= run[k].peak
    ensures Total(run[k].ring) == c * (Pow2(|run[k].ring|) - 1) <= 2 * run[k].peak + c
  {
    Reachable(run, ops, c, per, k);
    PoolFacts(run[k], c);
  }

  lemma PoolFacts(p: Pool, c: nat)
    requires PoolOK(p, c)
    ensures forall i | 0 <= i < |p.ring| :: |p.ring[i].arena| == |p.ring[i].stack| * Stride(p.per)
    ensures Audit(p.ring, p.per) == Success
    ensures Usage(p.ring) == |AllLive(p.ring)| <= p.peak
  {
    AuditPasses(p, c);
    UsageIsLive(p.ring, p.per);
    LiveIsSize(p.ring, p.per);
  }

  /** Every operation that is allowed can be done: the stack never overflows and no write
      leaves the arena. */
  lemma NothingGoesWrong(run: seq<Pool>, ops: seq<Op>, c: nat, per: nat, op: Op)
    requires Run(run, ops, c, per) && Allowed(run[|ops|], op)
    ensures exists p' :: Does(run[|ops|], op, p')
  {
    Reachable(run, ops, c, per, |ops|);
    var p := run[|ops|];
    StacksFit(p, c);
    hide PoolOK, BlockOK, BlocksOK, Run;
    match op
    case Ask(base, arena) => assert Does(p, op, Palloc(p, base, arena).0);
    case Return(i, slot) =>
      PfreeOK(p, c, i, slot);
      assert Does(p, op, Pfree(p, i, slot));
    case Write(i, slot, off, v) =>
      StorePoolOK(p, c, i, slot, off, v);
      assert Does(p, op, Store(p, i, slot, off, v));
    case Reset => assert Does(p, op, Clear(p));
  }
}
