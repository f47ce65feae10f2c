/**
 The code of src/lib/frl_slab_pool.c with the mutex: blocks in a ring, each with an
 array of slot addresses and the bytes of its arena.  Every method is proved to compute
 the function of module Slab on the values.
 */
module SlabPool {
  import opened Basics
  import opened Wire
  import S = Slab

  /** frl_slab_block_t.  Memory is an address and an array of bytes. */
  class SlabBlock {
    const base: nat          // the address of arena
    const arena: array<Byte>
    const usage: array<nat>  // usage_stack
    var sp: nat              // stack_pointer - usage_stack
    var next: SlabBlock?
    ghost var live: set<nat> // the slots that clients hold

    ghost predicate Shaped(per: nat)
    {
      1 <= usage.Length <= 0x1_0000_0000 && arena.Length == (usage.Length - 1) * S.Stride(per)
    }

    function Capacity(): nat
      requires usage.Length >= 1
    {
      usage.Length - 1
    }

    ghost function Value(): S.Block
      requires usage.Length >= 1
      reads this`sp, this`live, usage, arena
    {
      S.Block(base, usage[1..], sp, arena[..], live)
    }

    /** Lines 14-30. */
    constructor (base: nat, arena: array<Byte>, capacity: nat)
      ensures this.base == base && this.arena == arena
      ensures fresh(usage) && usage.Length == capacity + 1 && next == null
    {
      this.base := base;
      this.arena := arena;
      usage := new nat[capacity + 1];
      sp := 0;
      next := null;
      live := {};
    }

    /** safe->flag = i (lines 37 and 270). */
    method SetFlag(i: nat, per: nat)
      requires Shaped(per) && i < Capacity()
      modifies arena
      ensures S.GuardAt(i, per) + S.GUARD <= arena.Length
      ensures arena[..]
              == old(arena[..])[..S.GuardAt(i, per)] + Enc32(i) + old(arena[..])[S.GuardAt(i, per) + S.GUARD..]
    {
      hide Enc32;
      S.FlagFits(i, Capacity(), per);
      var g := S.GuardAt(i, per);
      var flag := Enc32(i);
      arena[g], arena[g + 1], arena[g + 2], arena[g + 3] := flag[0], flag[1], flag[2], flag[3];
    }

    /** Lines 32-39 and 265-272: all slots are put on the stack and all flags are set. */
    method Fill(per: nat)
      requires Shaped(per)
      modifies this`sp, this`live, usage, arena
      ensures Value() == S.Fresh(base, Capacity(), per, old(arena[..]))
    {
      hide Enc32;
      ghost var was := arena[..];
      for i := 0 to Capacity()
        invariant i * S.Stride(per) <= arena.Length
        invariant forall k | 0 <= k < i :: usage[k + 1] == S.Address(base, k, per)
        invariant arena[..] == S.Flagged(was, i, per)
      {
        usage[i + 1] := S.Address(base, i, per);
        S.FlagFits(i, Capacity(), per);
        SetFlag(i, per);
      }
      sp := Capacity();
      live := {};
      assert usage[1..] == S.Slots(base, Capacity(), per);
    }

    /** Lines 164-165, and 183 and 188: the slot on top of the stack is taken. */
    method Pop() returns (slot: nat)
      requires 1 <= sp < usage.Length
      modifies this`sp, this`live
      ensures Value() == S.Popped(old(Value())) && slot == S.Top(old(Value()))
    {
      slot := usage[sp];
      sp := sp - 1;
      live := live + {slot};
    }

    /** Lines 208-209. */
    method Push(slot: nat)
      requires sp + 1 < usage.Length
      modifies this`sp, this`live, usage
      ensures Value() == S.Pushed(old(Value()), slot)
    {
      sp := sp + 1;
      usage[sp] := slot;
      live := live - {slot};
    }

    /** Lines 301-307. */
    method FlagsIntact(per: nat) returns (ok: bool)
      requires Shaped(per)
      ensures ok <==> S.FlagsOK(Value(), per)
    {
      for i := 0 to Capacity()
        invariant forall k {:trigger S.FlagOK(Value(), k, per)} | 0 <= k < i :: S.FlagOK(Value(), k, per)
      {
        S.FlagFits(i, Capacity(), per);
        var g := S.GuardAt(i, per);
        if Dec32(arena[g..g + S.GUARD]) != i {
          assert !S.FlagOK(Value(), i, per);
          return false;
        }
        assert S.FlagOK(Value(), i, per);
      }
      return true;
    }

    /** Lines 310-314. */
    method EntriesInside() returns (ok: bool)
      requires usage.Length >= 1
      ensures ok <==> S.EntriesOK(Value())
    {
      for i := 0 to Capacity()
        invariant forall k | 0 <= k < i :: base <= Value().stack[k] < S.End(Value())
      {
        assert Value().stack[i] == usage[i + 1];
        if usage[i + 1] < base || usage[i + 1] >= base + arena.Length {
          return false;
        }
      }
      return true;
    }
  }

  /** The blocks and their memory belong to the pool and have the right sizes. */
  ghost predicate Owned(ring: seq<SlabBlock>, Repr: set<object>, per: nat)
  {
    forall i | 0 <= i < |ring| ::
      ring[i] in Repr && ring[i].usage in Repr && ring[i].arena in Repr && ring[i].Shaped(per)
  }

  /** No two blocks share memory. */
  ghost predicate Separate(ring: seq<SlabBlock>)
  {
    forall i, j | 0 <= i < j < |ring| ::
      ring[i] != ring[j] && ring[i].usage != ring[j].usage && ring[i].arena != ring[j].arena
  }

  /** `next` leads from each block to the one behind it, and from the last to the first. */
  ghost predicate Chained(ring: seq<SlabBlock>)
    reads ring
  {
    && (forall i | 0 <= i < |ring| - 1 :: ring[i].next == ring[i + 1])
    && (|ring| > 0 ==> ring[|ring| - 1].next == ring[0])
  }

  ghost function Values(ring: seq<SlabBlock>, Repr: set<object>, per: nat): (r: seq<S.Block>)
    requires Owned(ring, Repr, per)
    reads Repr
    ensures |r| == |ring|
  {
    if ring == [] then [] else [ring[0].Value()] + Values(ring[1..], Repr, per)
  }

  lemma {:induction false} ValuesAt(ring: seq<SlabBlock>, Repr: set<object>, per: nat)
    requires Owned(ring, Repr, per)
    ensures forall i | 0 <= i < |ring| :: Values(ring, Repr, per)[i] == ring[i].Value()
  {
    hide SlabBlock.Value;
    if ring != [] {
      ValuesAt(ring[1..], Repr, per);
    }
  }

  /** The header of every live slot names its block. */
  ghost predicate HeadersOK(ring: seq<SlabBlock>, values: seq<S.Block>, headers: map<nat, Header>)
    requires |ring| == |values|
  {
    forall i, a | 0 <= i < |ring| && a in values[i].live :: HeaderOK(ring[i], a, headers)
  }

  ghost predicate HeaderOK(b: SlabBlock, a: nat, headers: map<nat, Header>)
  {
    a in headers && headers[a] == Header(b, true, headers[a].refcount, a + S.MEM)
  }

  lemma TurnedParts(ring: seq<SlabBlock>, j: nat, Repr: set<object>, per: nat)
    requires j < |ring| && Owned(ring, Repr, per) && Separate(ring)
    ensures Owned(ring[j..] + ring[..j], Repr, per) && Separate(ring[j..] + ring[..j])
  {
    var n, t := |ring|, ring[j..] + ring[..j];
    forall k, m | 0 <= k < m < n
      ensures t[k] != t[m] && t[k].usage != t[m].usage && t[k].arena != t[m].arena
    {
      var k', m' := if k + j < n then k + j else k + j - n, if m + j < n then m + j else m + j - n;
      assert t[k] == ring[k'] && t[m] == ring[m'];
      if k' < m' {
        assert ring[k'] != ring[m'];
      } else {
        assert ring[m'] != ring[k'];
      }
    }
  }

  lemma TurnedChain(ring: seq<SlabBlock>, j: nat)
    requires j < |ring| && Chained(ring)
    ensures Chained(ring[j..] + ring[..j])
  {
    var n, t := |ring|, ring[j..] + ring[..j];
    forall i | 0 <= i < n - 1 ensures t[i].next == t[i + 1] {
      if i + j + 1 < n {
        assert t[i] == ring[i + j] && t[i + 1] == ring[i + j + 1];
      } else if i + j + 1 == n {
        assert t[i] == ring[n - 1] && t[i + 1] == ring[0];
      } else {
        assert t[i] == ring[i + j - n] && t[i + 1] == ring[i + j + 1 - n];
      }
    }
    if j > 0 {
      assert t[n - 1] == ring[j - 1] && t[0] == ring[j];
    }
  }

  lemma TurnedValues(ring: seq<SlabBlock>, j: nat, Repr: set<object>, per: nat)
    requires j < |ring| && Owned(ring, Repr, per) && Owned(ring[j..] + ring[..j], Repr, per)
    ensures Values(ring[j..] + ring[..j], Repr, per) == Values(ring, Repr, per)[j..] + Values(ring, Repr, per)[..j]
  {
    hide SlabBlock.Value;
    var n, t, v := |ring|, ring[j..] + ring[..j], Values(ring, Repr, per);
    ValuesAt(ring, Repr, per);
    ValuesAt(t, Repr, per);
    forall i | 0 <= i < n ensures Values(t, Repr, per)[i] == (v[j..] + v[..j])[i] {
      var k := if i + j < n then i + j else i + j - n;
      assert t[i] == ring[k] && (v[j..] + v[..j])[i] == v[k];
    }
  }

  lemma TurnedUpdate<T>(s: seq<T>, j: nat, x: T)
    requires j < |s|
    ensures s[j := x][j..] + s[j := x][..j] == [x] + s[j + 1..] + s[..j]
  {
  }

  lemma AddedParts(ring: seq<SlabBlock>, b: SlabBlock, Repr: set<object>, per: nat)
    requires Owned(ring, Repr, per) && Separate(ring) && b.Shaped(per)
    requires b !in Repr && b.usage !in Repr && b.arena !in Repr
    ensures Owned([b] + ring, Repr + {b, b.usage, b.arena}, per) && Separate([b] + ring)
    ensures Values([b] + ring, Repr + {b, b.usage, b.arena}, per) == [b.Value()] + Values(ring, Repr, per)
  {
    hide SlabBlock.Value;
    var R := Repr + {b, b.usage, b.arena};
    assert ([b] + ring)[1..] == ring;
    ValuesAt(ring, Repr, per);
    ValuesAt(ring, R, per);
    assert Values(ring, R, per) == Values(ring, Repr, per);
  }

  lemma TurnedHeaders(ring: seq<SlabBlock>, values: seq<S.Block>, headers: map<nat, Header>, j: nat)
    requires |ring| == |values| && j < |ring| && HeadersOK(ring, values, headers)
    ensures HeadersOK(ring[j..] + ring[..j], values[j..] + values[..j], headers)
  {
  }

  /** frl_mem_t, the header in front of a slot: the block it belongs to and whether it is
      in use. */
  datatype Header = Header(block: SlabBlock, occupied: bool, refcount: int, pointer: nat)

  /** frl_slab_pool_t. */
  class SlabPool {
    var block: SlabBlock
    const perSize: nat
    var maxCapacity: nat
    var headers: map<nat, Header>  // memory, as far as it holds headers
    ghost var ring: seq<SlabBlock> // from `block` on along `next`
    ghost var peak: nat
    ghost const created: nat       // the capacity the pool was created with
    ghost var Repr: set<object>

    /** The blocks form one ring, and share no memory. */
    ghost predicate Linked()
      reads this`block, this`ring, this`Repr, Repr
    {
      && this !in Repr && |ring| >= 1 && ring[0] == block
      && Owned(ring, Repr, perSize) && Separate(ring) && Chained(ring)
    }

    ghost function Blocks(): (r: seq<S.Block>)
      requires Linked()
      reads this`block, this`ring, this`Repr, Repr
      ensures |r| == |ring|
    {
      Values(ring, Repr, perSize)
    }

    ghost function Value(): S.Pool
      requires Linked()
      reads this, Repr
    {
      S.Pool(Blocks(), perSize, maxCapacity, peak)
    }

    ghost predicate Valid()
      reads this, Repr
    {
      Linked() && S.PoolOK(Value(), created) && HeadersOK(ring, Blocks(), headers)
    }

    /** frl_slab_pool_create (lines 338-361); `base` and `arena` are the memory for the
        first block. */
    constructor (capacity: nat, perSize: nat, base: nat, arena: array<Byte>)
      requires 1 <= capacity < 0x1_0000_0000 && arena.Length == capacity * S.Stride(perSize)
      modifies arena
      ensures Valid() && fresh(Repr - {arena}) && created == capacity
      ensures Value() == S.Create(base, capacity, perSize, old(arena[..]))
    {
      ghost var was := arena[..];
      var b := new SlabBlock(base, arena, capacity);
      this.perSize := perSize;
      this.maxCapacity := capacity;
      this.headers := map[];
      this.block := b;
      this.ring := [b];
      this.peak := 0;
      this.created := capacity;
      new;
      b.Fill(perSize);
      b.next := b;
      Repr := {b, b.usage, arena};
      ValuesAt(ring, Repr, perSize);
      assert Blocks() == [b.Value()];
      S.CreateOK(base, capacity, perSize, was);
    }

    /** stat (lines 320-336). */
    method Stat() returns (blocks: nat, capacity: nat, usage: int)
      requires Valid()
      ensures blocks == |Blocks()| && capacity == S.Total(Blocks())
      ensures usage == |S.AllLive(Blocks())|
    {
      hide S.PoolOK, S.BlockOK;
      blocks, capacity, usage := 0, 0, 0;
      var b := block;
      ghost var v := Blocks();
      ValuesAt(ring, Repr, perSize);
      assert v[0..] == v;
      while true
        invariant 0 <= blocks < |ring| && b == ring[blocks]
        invariant capacity + S.Total(v[blocks..]) == S.Total(v)
        invariant usage + S.Usage(v[blocks..]) == S.Usage(v)
        decreases |ring| - blocks
      {
        assert v[blocks] == b.Value() && v[blocks..][1..] == v[blocks + 1..];
        blocks := blocks + 1;
        capacity := capacity + b.Capacity();
        usage := usage + (b.Capacity() - b.sp);
        b := b.next;
        if b == block {
          break;
        }
      }
      assert blocks == |ring| && v[blocks..] == [];
      S.PoolFacts(Value(), created);
    }

    /** frl_slab_pool_safe (lines 296-318). */
    method Safe() returns (status: S.Status)
      requires Linked()
      ensures forall i | 0 <= i < |Blocks()| :: |Blocks()[i].arena| == |Blocks()[i].stack| * S.Stride(perSize)
      ensures status == S.Audit(Blocks(), perSize)
    {
      var b := block;
      ghost var j := 0;
      ghost var v := Blocks();
      ValuesAt(ring, Repr, perSize);
      assert v[0..] == v;
      while true
        invariant 0 <= j < |ring| && b == ring[j]
        invariant S.Audit(v[j..], perSize) == S.Audit(v, perSize)
        decreases |ring| - j
      {
        assert v[j] == b.Value() && v[j..][1..] == v[j + 1..];
        var ok := b.FlagsIntact(perSize);
        if !ok {
          return S.MemLeak;
        }
        ok := b.EntriesInside();
        if !ok {
          return S.StackErr;
        }
        b := b.next;
        j := j + 1;
        if b == block {
          break;
        }
      }
      assert v[j..] == [];
      return S.Success;
    }

    /** The loop of lines 159-180: the first block with a free slot, or the last block. */
    method FindBlock() returns (found: bool, b: SlabBlock, ghost j: nat)
      requires Linked()
      ensures j == S.Found(Blocks()) && (found <==> j < |ring|)
      ensures b == if found then ring[j] else ring[|ring| - 1]
      ensures found ==> b.Value() == Blocks()[j]
    {
      b, j := block, 0;
      var last := block;
      ghost var v := Blocks();
      ValuesAt(ring, Repr, perSize);
      assert v[0..] == v;
      while true
        invariant 0 <= j < |ring| && b == ring[j]
        invariant j + S.Found(v[j..]) == S.Found(v)
        decreases |ring| - j
      {
        assert v[j] == b.Value() && v[j..][1..] == v[j + 1..];
        if b.sp > 0 {
          return true, b, j;
        }
        if b.next == block {
          last := b;
        }
        b := b.next;
        j := j + 1;
        if b == block {
          break;
        }
      }
      assert v[j..] == [];
      return false, last, j;
    }

    /** Lines 164-170: a slot of `b` is taken and its header is filled in. */
    method PopFrom(b: SlabBlock, ghost j: nat) returns (slot: nat)
      requires Linked() && HeadersOK(ring, Blocks(), headers) && j < |ring| && b == ring[j]
      requires b.Value() == Blocks()[j] && 1 <= b.sp < b.usage.Length
      requires forall i | 0 <= i < |ring| :: S.Top(b.Value()) !in Blocks()[i].live
      modifies this`headers, b`sp, b`live
      ensures Linked() && HeadersOK(ring, Blocks(), headers) && slot == S.Top(old(b.Value()))
      ensures |old(Blocks())| == |ring| && 0 < old(Blocks())[j].sp <= |old(Blocks())[j].stack|
      ensures Blocks() == old(Blocks())[j := S.Popped(old(Blocks())[j])]
    {
      ghost var was := Blocks();
      ValuesAt(ring, Repr, perSize);
      slot := b.Pop();
      ValuesAt(ring, Repr, perSize);
      headers := headers[slot := Header(b, true, 1, slot + S.MEM)];
      forall i | 0 <= i < |ring| && i != j ensures Blocks()[i] == was[i] {
        assert ring[i] != b;
      }
      assert Blocks() == was[j := S.Popped(was[j])];
      forall i, a | 0 <= i < |ring| && a in Blocks()[i].live ensures HeaderOK(ring[i], a, headers) {
        if a != slot {
          assert a in was[i].live;
        }
      }
    }

    /** pool->block = b (line 171). */
    method TurnTo(b: SlabBlock, ghost j: nat)
      requires Linked() && HeadersOK(ring, Blocks(), headers) && j < |ring| && b == ring[j]
      modifies this`block, this`ring
      ensures Linked() && HeadersOK(ring, Blocks(), headers) && |ring| == |old(ring)|
      ensures j <= |old(Blocks())| && Blocks() == old(Blocks())[j..] + old(Blocks())[..j]
    {
      ghost var was, r := Blocks(), ring;
      TurnedParts(r, j, Repr, perSize);
      TurnedChain(r, j);
      TurnedHeaders(r, was, headers, j);
      TurnedValues(r, j, Repr, perSize);
      hide Owned, Separate, Chained, HeadersOK, SlabBlock.Value, Values;
      block := b;
      ring := r[j..] + r[..j];
    }

    method PopAndTurn(b: SlabBlock, ghost j: nat) returns (slot: nat)
      requires Linked() && HeadersOK(ring, Blocks(), headers) && j < |ring| && b == ring[j]
      requires b.Value() == Blocks()[j] && 1 <= b.sp < b.usage.Length
      requires forall i | 0 <= i < |ring| :: S.Top(b.Value()) !in Blocks()[i].live
      modifies this`headers, this`block, this`ring, b`sp, b`live
      ensures Linked() && HeadersOK(ring, Blocks(), headers) && slot == S.Top(old(b.Value()))
      ensures j < |old(Blocks())| && 0 < old(Blocks())[j].sp <= |old(Blocks())[j].stack|
      ensures Blocks() == [S.Popped(old(Blocks())[j])] + old(Blocks())[j + 1..] + old(Blocks())[..j]
    {
      ghost var was := Blocks();
      slot := PopFrom(b, j);
      hide Owned, Separate, Chained, HeadersOK, Values, S.Popped;
      TurnTo(b, j);
      TurnedUpdate(was, j, S.Popped(was[j]));
    }

    method UseBlock(b: SlabBlock, ghost j: nat) returns (slot: nat)
      requires Linked() && HeadersOK(ring, Blocks(), headers) && j < |ring| && b == ring[j]
      requires b.Value() == Blocks()[j] && 1 <= b.sp < b.usage.Length
      requires forall i | 0 <= i < |ring| :: S.Top(b.Value()) !in Blocks()[i].live
      modifies this, b`sp, b`live
      ensures Linked() && Repr == old(Repr) && HeadersOK(ring, Blocks(), headers) && slot == S.Top(old(b.Value()))
      ensures j < |old(Blocks())| && 0 < old(Blocks())[j].sp <= |old(Blocks())[j].stack|
      ensures Value() == S.Taken(old(Value()), j)
    {
      hide S.Live, Owned, Separate, Chained, HeadersOK, Values, S.Popped, SlabBlock.Value;
      slot := PopAndTurn(b, j);
      peak := S.Max(peak, S.Live(Blocks()));
    }

    /** Lines 164-175: a slot of `b`, which becomes pool->block. */
    method TakeFrom(b: SlabBlock, ghost j: nat) returns (pointer: nat)
      requires Valid() && j == S.Found(Blocks()) < |ring| && b == ring[j] && b.Value() == Blocks()[j]
      modifies this, b
      ensures Valid() && Repr == old(Repr)
      ensures j < |old(Blocks())| && 0 < old(Blocks())[j].sp <= |old(Blocks())[j].stack|
      ensures Value() == S.Taken(old(Value()), j) && pointer == S.Top(old(Blocks())[j]) + S.MEM
    {
      ghost var was := Value();
      S.TopNotLive(was, created, j);
      S.TakenOK(was, created, j);
      assert 1 <= b.sp < b.usage.Length;
      hide S.PoolOK, S.Live, S.Found, S.Popped, Owned, Separate, Chained, HeadersOK, Values, SlabBlock.Value;
      var slot := UseBlock(b, j);
      pointer := slot + S.MEM;
    }

    /** Lines 189-192: the new block `b` is linked in behind the last one and becomes
        pool->block. */
    method LinkIn(b: SlabBlock, last: SlabBlock)
      requires Linked() && last == ring[|ring| - 1]
      requires b !in Repr && b.usage !in Repr && b.arena !in Repr && b.Shaped(perSize)
      modifies this`block, this`ring, this`Repr, b`next, last`next
      ensures Linked() && Repr == old(Repr) + {b, b.usage, b.arena} && ring == [b] + old(ring)
      ensures Blocks() == [old(b.Value())] + old(Blocks())
    {
      ghost var was, r := Blocks(), ring;
      ValuesAt(r, Repr, perSize);
      b.next := last.next;
      last.next := b;
      block := b;
      ring := [b] + r;
      ValuesAt(r, Repr, perSize);
      assert Values(r, Repr, perSize) == was;
      AddedParts(r, b, Repr, perSize);
      Repr := Repr + {b, b.usage, b.arena};
    }

    /** Lines 181-183 and 188: a new block, of which a slot is taken at once. */
    method NewBlock(capacity: nat, base: nat, arena: array<Byte>) returns (b: SlabBlock, slot: nat)
      requires 0 < capacity < 0x1_0000_0000 && arena.Length == capacity * S.Stride(perSize)
      modifies arena
      ensures fresh(b) && fresh(b.usage) && b.arena == arena && b.Shaped(perSize)
      ensures b.Value() == S.Popped(S.Fresh(base, capacity, perSize, old(arena[..])))
      ensures slot == S.Top(S.Fresh(base, capacity, perSize, old(arena[..])))
    {
      b := new SlabBlock(base, arena, capacity);
      b.Fill(perSize);
      slot := b.Pop();
    }

    /** Lines 184-193: the header of the slot, the ring and the size of the pool. */
    method Adopt(b: SlabBlock, last: SlabBlock, slot: nat, ghost full: S.Block)
      requires Linked() && HeadersOK(ring, Blocks(), headers) && last == ring[|ring| - 1]
      requires b !in Repr && b.usage !in Repr && b.arena !in Repr && b.Shaped(perSize)
      requires 0 < full.sp <= |full.stack| && full.live == {} && slot == S.Top(full) && b.Value() == S.Popped(full)
      requires forall i | 0 <= i < |ring| :: slot !in Blocks()[i].live
      modifies this, b`next, last`next
      ensures Linked() && Repr == old(Repr) + {b, b.usage, b.arena} && HeadersOK(ring, Blocks(), headers)
      ensures Value() == S.Grown(old(Value()), full)
    {
      GrownHeaders(ring, Blocks(), headers, b, full, slot);
      hide S.Live, Owned, Separate, Chained, HeadersOK, Values, SlabBlock.Value;
      headers := headers[slot := Header(b, true, 1, slot + S.MEM)];
      maxCapacity := maxCapacity * 2;
      LinkIn(b, last);
      peak := S.Max(peak, S.Live(Blocks()));
    }

    /** Lines 181-196: another block, with twice as many slots as the last one. */
    method Grow(last: SlabBlock, base: nat, arena: array<Byte>) returns (pointer: nat)
      requires Valid() && S.Found(Blocks()) == |ring| && last == ring[|ring| - 1]
      requires S.Mallocs(Value(), base, arena[..]) && arena !in Repr
      modifies this, last, arena
      ensures Valid() && fresh(Repr - old(Repr) - {arena})
      ensures 0 < 2 * old(maxCapacity) < 0x1_0000_0000
      ensures arena.Length == 2 * old(maxCapacity) * S.Stride(perSize)
      ensures var b := S.Fresh(base, 2 * old(maxCapacity), perSize, old(arena[..]));
              Value() == S.Grown(old(Value()), b) && pointer == S.Top(b) + S.MEM
    {
      hide S.PoolOK, S.BlockOK, S.Live, S.Fresh, S.Found, S.Top, S.Grown, S.Popped, S.Apart, Owned, Separate, Chained,
           HeadersOK, Values, SlabBlock.Value;
      ghost var was, full := Value(), S.Fresh(base, 2 * maxCapacity, perSize, arena[..]);
      GrownParts(was, created, base, arena[..]);
      var b, slot := NewBlock(maxCapacity * 2, base, arena);
      assert Linked() && Blocks() == was.ring;
      Adopt(b, last, slot, full);
      pointer := slot + S.MEM;
    }

    /** frl_slab_palloc_lock_with (lines 154-197).  If another block is needed, malloc gives
        the memory `arena` at address `base`, or fails if not `given`. */
    method Palloc(given: bool, base: nat, arena: array<Byte>) returns (ok: bool, pointer: nat)
      requires Valid()
      requires given && S.Found(Blocks()) == |ring| ==> S.Mallocs(Value(), base, arena[..]) && arena !in Repr
      modifies this, Repr, arena
      ensures Valid() && fresh(Repr - old(Repr) - {arena})
      ensures ok <==> given || S.Found(old(Blocks())) < |old(ring)|
      ensures forall b | b in old(Blocks()) :: b.sp <= |b.stack|
      ensures ok ==> (Value(), pointer) == S.Palloc(old(Value()), base, old(arena[..]))
      ensures !ok ==> Value() == old(Value())
    {
      ghost var was := Value();
      S.StacksFit(was, created);
      pointer := 0;
      var found, b, j := FindBlock();
      hide S.PoolOK, S.Taken, S.Grown, S.Fresh, S.Found, S.Top, S.Mallocs, Owned, Separate, Chained, HeadersOK, Values,
           SlabBlock.Value;
      ok := found || given;
      if found {
        pointer := TakeFrom(b, j);
      } else if given {
        pointer := Grow(b, base, arena);
      }
    }

    /** Lines 207-209. */
    method PutBack(b: SlabBlock, slot: nat, ghost j: nat)
      requires Linked() && j < |ring| && b == ring[j] && Blocks()[j].sp < |Blocks()[j].stack| && slot in headers
      modifies this`headers, b`sp, b`live, b.usage
      ensures Linked() && j < |old(Blocks())| && old(Blocks())[j].sp < |old(Blocks())[j].stack|
      ensures Blocks() == old(Blocks())[j := S.Pushed(old(Blocks())[j], slot)]
      ensures headers == old(headers)[slot := old(headers)[slot].(occupied := false)]
    {
      ghost var was := Blocks();
      ValuesAt(ring, Repr, perSize);
      headers := headers[slot := headers[slot].(occupied := false)];
      b.Push(slot);
      ValuesAt(ring, Repr, perSize);
      forall k | 0 <= k < |ring| && k != j ensures Blocks()[k] == was[k] {
        assert ring[k] != b;
      }
    }

    /** frl_slab_pfree_lock_with (lines 199-213) for a slot that a client holds, in block
        `i`; the header names the block. */
    method Pfree(pointer: nat, ghost i: nat)
      requires Valid() && pointer >= S.MEM && i < |ring| && pointer - S.MEM in Blocks()[i].live
      modifies this`headers, Repr
      ensures Valid() && Repr == old(Repr)
      ensures i < |old(Blocks())| && old(Blocks())[i].sp < |old(Blocks())[i].stack|
      ensures Value() == S.Pfree(old(Value()), i, pointer - S.MEM)
    {
      ghost var was := Value();
      var slot := pointer - S.MEM;
      S.PfreeOK(was, created, i, slot);
      assert HeaderOK(ring[i], slot, headers);
      var b := headers[slot].block;
      assert b == ring[i] && headers[slot].occupied;
      FreedHeaders(ring, was, created, headers, i, slot);
      InRepr(ring, Repr, perSize, i);
      hide S.PoolOK, S.BlockOK, S.AllLive, S.Live, S.Pushed, HeaderOK, Owned, Separate, Chained, HeadersOK, Values,
           SlabBlock.Value;
      PutBack(b, slot, i);
    }

    method WriteTo(b: SlabBlock, at: nat, v: Byte, ghost j: nat)
      requires Linked() && j < |ring| && b == ring[j] && at < b.arena.Length
      modifies b.arena
      ensures Linked() && j < |old(Blocks())| && at < |old(Blocks())[j].arena|
      ensures Blocks() == old(Blocks())[j := old(Blocks())[j].(arena := old(Blocks())[j].arena[at := v])]
    {
      ghost var was := Blocks();
      ValuesAt(ring, Repr, perSize);
      b.arena[at] := v;
      ValuesAt(ring, Repr, perSize);
      forall k | 0 <= k < |ring| && k != j ensures Blocks()[k] == was[k] {
        assert ring[k].arena != b.arena;
      }
      assert Blocks()[j] == was[j].(arena := was[j].arena[at := v]);
    }

    /** A client writes a byte, `off` bytes into the slot at `pointer`. */
    method Write(pointer: nat, off: nat, v: Byte, ghost i: nat)
      requires Valid() && pointer >= S.MEM && i < |ring| && pointer - S.MEM in Blocks()[i].live && off < perSize
      modifies Repr
      ensures Valid() && Repr == old(Repr)
      ensures i < |old(Blocks())| && old(Blocks())[i].base <= pointer - S.MEM
      ensures pointer - old(Blocks())[i].base + off < |old(Blocks())[i].arena|
      ensures Value() == S.Store(old(Value()), i, pointer - S.MEM, off, v)
    {
      ghost var was := Value();
      S.StorePoolOK(was, created, i, pointer - S.MEM, off, v);
      assert HeaderOK(ring[i], pointer - S.MEM, headers);
      ValuesAt(ring, Repr, perSize);
      var b := headers[pointer - S.MEM].block;
      var at := pointer - b.base + off;
      assert b == ring[i] && b.base == was.ring[i].base;
      ghost var d := was.ring[i].(arena := was.ring[i].arena[at := v]);
      assert S.Store(was, i, pointer - S.MEM, off, v) == was.(ring := was.ring[i := d]);
      StoredHeaders(ring, was.ring, headers, i, d);
      InRepr(ring, Repr, perSize, i);
      hide S.PoolOK, S.BlockOK, S.AllLive, S.Live, S.Store, HeaderOK, Owned, Separate, Chained, HeadersOK, Values,
           SlabBlock.Value;
      WriteTo(b, at, v, i);
    }

    method FillAt(b: SlabBlock, ghost j: nat)
      requires Linked() && j < |ring| && b == ring[j]
      modifies b`sp, b`live, b.usage, b.arena
      ensures Linked() && j < |old(Blocks())|
      ensures |old(Blocks())[j].arena| == |old(Blocks())[j].stack| * S.Stride(perSize)
              && |old(Blocks())[j].stack| < 0x1_0000_0000
      ensures Blocks() == old(Blocks())[j := S.Cleared(old(Blocks())[j], perSize)]
    {
      ghost var was := Blocks();
      ValuesAt(ring, Repr, perSize);
      assert b.Shaped(perSize);
      b.Fill(perSize);
      ValuesAt(ring, Repr, perSize);
      forall k | 0 <= k < |ring| && k != j ensures Blocks()[k] == was[k] {
        assert ring[k] != b;
      }
    }

    /** The loop of lines 262-274. */
    method FillAll(ghost cleared: seq<S.Block>)
      requires Linked() && |cleared| == |ring|
      requires forall k | 0 <= k < |ring| ::
                 |Blocks()[k].arena| == |Blocks()[k].stack| * S.Stride(perSize) && |Blocks()[k].stack| < 0x1_0000_0000
                 && cleared[k] == S.Cleared(Blocks()[k], perSize)
      modifies Repr
      ensures Linked() && Blocks() == cleared
    {
      ghost var was := Blocks();
      var b := block;
      ghost var j := 0;
      hide S.Cleared, Owned, Separate, Chained, Values, SlabBlock.Value;
      assert cleared[..0] + was[0..] == was;
      while true
        invariant Linked() && 0 <= j < |ring| && b == ring[j] && |ring| == |cleared|
        invariant Blocks() == cleared[..j] + was[j..]
        modifies Repr
        decreases |ring| - j
      {
        InRepr(ring, Repr, perSize, j);
        assert Blocks()[j] == was[j];
        FillAt(b, j);
        OneMore(cleared, was, j);
        ChainedAt(ring, j);
        b := b.next;
        j := j + 1;
        if b == block {
          break;
        }
      }
      assert cleared[..j] + was[j..] == cleared;
    }

    /** frl_slab_pool_clear (lines 257-278). */
    method Clear()
      requires Valid()
      modifies Repr
      ensures Valid() && Repr == old(Repr)
      ensures forall b | b in old(Blocks()) :: |b.arena| == |b.stack| * S.Stride(perSize) && |b.stack| < 0x1_0000_0000
      ensures Value() == S.Clear(old(Value()))
    {
      ghost var was := Value();
      S.ClearOK(was, created);
      S.StacksFit(was, created);
      ghost var cleared := S.Clear(was).ring;
      ClearedHeaders(ring, cleared, headers);
      hide S.PoolOK, S.BlockOK, S.AllLive, S.Live, Owned, Separate, Chained, HeadersOK, Values, SlabBlock.Value;
      FillAll(cleared);
    }
  }

  lemma OneMore<T>(done: seq<T>, s: seq<T>, j: nat)
    requires |done| == |s| && j < |s|
    ensures (done[..j] + s[j..])[j := done[j]] == done[..j + 1] + s[j + 1..]
  {
  }

  lemma InRepr(ring: seq<SlabBlock>, Repr: set<object>, per: nat, j: nat)
    requires Owned(ring, Repr, per) && j < |ring|
    ensures ring[j] in Repr && ring[j].usage in Repr && ring[j].arena in Repr
  {
  }

  lemma ChainedAt(ring: seq<SlabBlock>, j: nat)
    requires Chained(ring) && Separate(ring) && j < |ring|
    ensures ring[j].next == if j + 1 < |ring| then ring[j + 1] else ring[0]
    ensures j + 1 < |ring| ==> ring[j + 1] != ring[0]
  {
  }

  lemma FreedHeaders(ring: seq<SlabBlock>, p: S.Pool, c: nat, headers: map<nat, Header>, i: nat, slot: nat)
    requires S.PoolOK(p, c) && |ring| == |p.ring| && HeadersOK(ring, p.ring, headers)
    requires i < |p.ring| && slot in p.ring[i].live && p.ring[i].sp < |p.ring[i].stack|
    ensures slot in headers
    ensures HeadersOK(ring, p.ring[i := S.Pushed(p.ring[i], slot)], headers[slot := headers[slot].(occupied := false)])
  {
    assert HeaderOK(ring[i], slot, headers);
    var values := p.ring[i := S.Pushed(p.ring[i], slot)];
    forall k, a | 0 <= k < |ring| && a in values[k].live
      ensures HeaderOK(ring[k], a, headers[slot := headers[slot].(occupied := false)])
    {
      assert a in p.ring[k].live;
      assert HeaderOK(ring[k], a, headers);
      if a == slot && k != i {
        assert S.BlockOK(p.ring[k], p.per) && S.BlockOK(p.ring[i], p.per);
        S.LiveApart(p, c, i, k, slot);
      }
    }
  }

  lemma StoredHeaders(ring: seq<SlabBlock>, values: seq<S.Block>, headers: map<nat, Header>, i: nat, d: S.Block)
    requires |ring| == |values| && HeadersOK(ring, values, headers) && i < |values| && d.live == values[i].live
    ensures HeadersOK(ring, values[i := d], headers)
  {
  }

  lemma ClearedHeaders(ring: seq<SlabBlock>, values: seq<S.Block>, headers: map<nat, Header>)
    requires |ring| == |values| && forall i | 0 <= i < |values| :: values[i].live == {}
    ensures HeadersOK(ring, values, headers)
  {
  }

  /** What Grow needs to know of the new block. */
  lemma GrownParts(p: S.Pool, c: nat, base: nat, arena: Bytes)
    requires S.PoolOK(p, c) && S.Found(p.ring) == |p.ring| && S.Mallocs(p, base, arena)
    ensures var b := S.Fresh(base, 2 * p.max, p.per, arena);
            && b.sp == |b.stack| == 2 * p.max && b.live == {} && S.PoolOK(S.Grown(p, b), c)
            && forall i | 0 <= i < |p.ring| :: S.Top(b) !in p.ring[i].live
  {
    var b := S.Fresh(base, 2 * p.max, p.per, arena);
    S.FreshOK(base, 2 * p.max, p.per, arena);
    assert forall i | 0 <= i < |p.ring| :: S.Apart(b, p.ring[i]);
    hide S.BlockOK, S.PoolOK, S.AllLive;
    S.GrownOK(p, c, b);
    S.GrownSlot(p, c, b);
    forall i | 0 <= i < |p.ring| ensures S.Top(b) !in p.ring[i].live {
      S.InAllLive(p.ring, S.Top(b));
    }
  }

  lemma GrownHeaders(ring: seq<SlabBlock>, values: seq<S.Block>, headers: map<nat, Header>, b: SlabBlock,
                     full: S.Block, slot: nat)
    requires |ring| == |values| && HeadersOK(ring, values, headers)
    requires 0 < full.sp <= |full.stack| && full.live == {} && slot == S.Top(full)
    requires forall i | 0 <= i < |ring| :: slot !in values[i].live
    ensures HeadersOK([b] + ring, [S.Popped(full)] + values, headers[slot := Header(b, true, 1, slot + S.MEM)])
  {
  }
}
