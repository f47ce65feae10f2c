/**
 The mutex half of src/lib/frl_queue.c, over the slab pool its entries come from: a
 linked list with a dummy entry in front.  One call at a time holds the mutex; the
 waiting loop of pop is left to its guard.
 */
module LockedQueue {
  import Counting
  import opened Basics
  import opened SlabPool
  import opened Wire
  import S = Slab

  /** The address of an entry: a slot of the pool, behind its header. */
  type Addr = a: nat | a >= S.MEM witness S.MEM

  /** frl_queue_entry_t; entries are known by their addresses, 0 is no entry. */
  datatype Entry<T> = Entry(pointer: T, next: nat)

  ghost predicate Linked<T>(chain: seq<Addr>, entries: map<nat, Entry<T>>)
  {
    && |chain| >= 1
    && (forall i | 0 <= i < |chain| :: chain[i] in entries)
    && (forall i | 0 <= i < |chain| - 1 :: entries[chain[i]].next == chain[i + 1])
    && entries[chain[|chain| - 1]].next == 0
    && Counting.NoRepeats(chain)
  }

  /** What the entries behind the dummy hold. */
  ghost function Pointers<T>(chain: seq<Addr>, entries: map<nat, Entry<T>>): (r: seq<T>)
    requires forall i | 0 <= i < |chain| :: chain[i] in entries
    ensures |r| == if chain == [] then 0 else |chain| - 1
  {
    if |chain| <= 1 then []
    else Pointers(chain[..|chain| - 1], entries) + [entries[chain[|chain| - 1]].pointer]
  }

  /** The slots that the entries of the list lie in. */
  ghost function Slots(chain: seq<Addr>): set<nat>
  {
    if chain == [] then {} else {chain[0] - S.MEM} + Slots(chain[1..])
  }

  /** Changing an entry that is not in the chain, or only its `next`, keeps the contents. */
  lemma {:induction false} SamePointers<T>(chain: seq<Addr>, e1: map<nat, Entry<T>>, e2: map<nat, Entry<T>>)
    requires forall i | 0 <= i < |chain| :: chain[i] in e1 && chain[i] in e2
    requires forall i | 0 <= i < |chain| :: e1[chain[i]].pointer == e2[chain[i]].pointer
    ensures Pointers(chain, e1) == Pointers(chain, e2)
  {
    if |chain| > 1 {
      SamePointers(chain[..|chain| - 1], e1, e2);
    }
  }

  lemma {:induction false} FrontPointer<T>(chain: seq<Addr>, entries: map<nat, Entry<T>>)
    requires |chain| >= 2 && forall i | 0 <= i < |chain| :: chain[i] in entries
    ensures Pointers(chain, entries) == [entries[chain[1]].pointer] + Pointers(chain[1..], entries)
  {
    var n := |chain| - 1;
    assert chain[1..][..n - 1] == chain[..n][1..];
    if n == 1 {
      assert Pointers(chain[..1], entries) == [];
    } else {
      FrontPointer(chain[..n], entries);
    }
  }

  /** Linking `p` behind the last entry. */
  lemma Appended<T>(chain: seq<Addr>, entries: map<nat, Entry<T>>, p: Addr, x: T)
    requires Linked(chain, entries) && p !in chain
    ensures var tail := chain[|chain| - 1];
            var e := entries[p := Entry(x, 0)];
            var e' := e[tail := e[tail].(next := p)];
            Linked(chain + [p], e') && Pointers(chain + [p], e') == Pointers(chain, entries) + [x]
  {
    var tail := chain[|chain| - 1];
    var e := entries[p := Entry(x, 0)];
    var e' := e[tail := e[tail].(next := p)];
    SamePointers(chain, entries, e');
    assert (chain + [p])[..|chain|] == chain;
  }

  /** The entry behind the dummy becomes the dummy. */
  lemma Removed<T>(chain: seq<Addr>, entries: map<nat, Entry<T>>)
    requires Linked(chain, entries) && |chain| >= 2
    ensures Linked(chain[1..], entries) && chain[0] !in chain[1..]
    ensures Pointers(chain, entries) == [entries[chain[1]].pointer] + Pointers(chain[1..], entries)
  {
    FrontPointer(chain, entries);
  }

  lemma {:induction false} InSlots(chain: seq<Addr>, a: Addr)
    ensures a - S.MEM in Slots(chain) <==> a in chain
  {
    if chain != [] {
      InSlots(chain[1..], a);
      assert a in chain <==> a == chain[0] || a in chain[1..];
    }
  }

  lemma {:induction false} SlotsMore(chain: seq<Addr>, p: Addr)
    ensures Slots(chain + [p]) == Slots(chain) + {p - S.MEM}
  {
    if chain == [] {
      assert ([] + [p])[1..] == [];
    } else {
      assert (chain + [p])[1..] == chain[1..] + [p];
      SlotsMore(chain[1..], p);
    }
  }

  lemma SlotsLess(chain: seq<Addr>)
    requires chain != [] && chain[0] !in chain[1..]
    ensures Slots(chain[1..]) == Slots(chain) - {chain[0] - S.MEM} && chain[0] - S.MEM in Slots(chain)
  {
    InSlots(chain[1..], chain[0]);
    assert Slots(chain) == {chain[0] - S.MEM} + Slots(chain[1..]);
    OutAgain(chain[0] - S.MEM, Slots(chain), Slots(chain[1..]));
  }

  lemma OutAgain(a: nat, all: set<nat>, rest: set<nat>)
    requires a !in rest && all == {a} + rest
    ensures rest == all - {a} && a in all
  {
  }

  /** One slot for each element and one for the dummy. */
  lemma {:induction false} SlotsCount(chain: seq<Addr>)
    requires Counting.NoRepeats(chain)
    ensures |Slots(chain)| == |chain|
  {
    if chain != [] {
      SlotsLess(chain);
      SlotsCount(chain[1..]);
    }
  }

  /** Arithmetic of an apr_uint32_t. */
  function Wrap(n: int): nat { n % 0x1_0000_0000 }

  lemma WrapAgain(n: int)
    ensures Wrap(Wrap(n) + 1) == Wrap(n + 1) && Wrap(Wrap(n) - 1) == Wrap(n - 1)
  {
  }

  const ENTRY := 16 // SIZEOF_FRL_QUEUE_ENTRY_T

  lemma OneEntry<T>(first: Addr, junk: T)
    ensures Linked([first], map[first := Entry(junk, 0)]) && Pointers([first], map[first := Entry(junk, 0)]) == []
    ensures Slots([first]) == {first - S.MEM}
  {
    assert [first][1..] == [];
  }

  /** Lines 292 and 300: a pool for `capacity` entries, and the first of them. */
  method FirstEntry(capacity: nat, base: nat, arena: array<Byte>) returns (p: SlabPool, first: Addr)
    requires 1 <= capacity < 0x1_0000_0000 && arena.Length == capacity * S.Stride(ENTRY)
    modifies arena
    ensures fresh(p) && fresh(p.Repr - {arena}) && p.Valid() && S.AllLive(p.Blocks()) == {first - S.MEM}
  {
    hide S.PoolOK, S.BlockOK, S.AllLive, S.Found, S.Mallocs, S.Palloc, S.Live, Owned, Separate, Chained, HeadersOK,
         Values, SlabBlock.Value;
    p := NewPool(capacity, base, arena);
    ghost var was, now := p.Value(), arena[..];
    var ok, pointer := p.Palloc(false, 0, arena);
    S.PallocOK(was, capacity, 0, now);
    first := pointer;
  }

  method NewPool(capacity: nat, base: nat, arena: array<Byte>) returns (p: SlabPool)
    requires 1 <= capacity < 0x1_0000_0000 && arena.Length == capacity * S.Stride(ENTRY)
    modifies arena
    ensures fresh(p) && fresh(p.Repr - {arena}) && p.Valid() && p.created == capacity
    ensures S.Found(p.Blocks()) < |p.ring| && S.AllLive(p.Blocks()) == {}
  {
    ghost var created := S.Create(base, capacity, ENTRY, arena[..]);
    S.CreateOK(base, capacity, ENTRY, arena[..]);
    assert S.Found(created.ring) == 0 && S.AllLive(created.ring) == {};
    hide S.PoolOK, S.AllLive, S.Found, S.Create, Owned, Separate, Chained, HeadersOK, Values;
    p := new SlabPool(capacity, ENTRY, base, arena);
  }

  class Queue<T> {
    const pool: SlabPool
    var head: nat
    var tail: nat
    var nelts: nat                  // an apr_uint32_t
    var entries: map<nat, Entry<T>> // memory, as far as it holds entries
    ghost var chain: seq<Addr>       // from head along next
    ghost var contents: seq<T>      // what the queue holds, front first

    /** The list is in order, and the slots in use are just its entries. */
    ghost predicate Shape(live: set<nat>)
      reads this
    {
      && Linked(chain, entries) && chain[0] == head && chain[|chain| - 1] == tail
      && contents == Pointers(chain, entries) && live == Slots(chain)
      && nelts == Wrap(|chain| - 1)
    }

    ghost predicate Valid()
      reads this, pool, pool.Repr
    {
      this !in pool.Repr && pool.Valid() && Shape(S.AllLive(pool.Blocks()))
    }

    /** frl_queue_create with a pool of its own (lines 283-305); `arena` at `base` is the
        memory for the pool, `junk` what it holds where the dummy's pointer is. */
    constructor (capacity: nat, base: nat, arena: array<Byte>, junk: T)
      requires 1 <= capacity < 0x1_0000_0000 && arena.Length == capacity * S.Stride(ENTRY)
      modifies arena
      ensures Valid() && contents == []
    {
      hide S.PoolOK, S.AllLive, S.Live, Owned, Separate, Chained, HeadersOK, Values;
      var p, first := FirstEntry(capacity, base, arena);
      OneEntry(first, junk);
      pool := p;
      head := first;
      tail := first;
      nelts := 0;
      entries := map[first := Entry(junk, 0)];
      chain := [first];
      contents := [];
    }

    /** frl_queue_push and frl_queue_trypush (lines 71-95 and 183-205).  `given`, `base` and
        `arena` say what malloc does if the pool needs another block; when it fails, the
        result is APR_ENOMEM and nothing has changed. */
    method Push(x: T, given: bool, base: nat, arena: array<Byte>) returns (ok: bool)
      requires Valid()
      requires given && S.Found(pool.Blocks()) == |pool.ring| ==>
                 S.Mallocs(pool.Value(), base, arena[..]) && arena !in pool.Repr
      modifies this, pool, pool.Repr, arena
      ensures Valid()
      ensures ok <==> given || S.Found(old(pool.Blocks())) < |old(pool.ring)|
      ensures contents == if ok then old(contents) + [x] else old(contents)
    {
      hide S.PoolOK, S.AllLive, S.Found, S.Mallocs, S.Palloc, S.Live, S.Apart, Owned, Separate, Chained, HeadersOK,
           Linked, Pointers, Slots, Shape;
      ghost var was, memory := pool.Value(), arena[..];
      var p;
      S.StacksFit(was, pool.created);
      ok, p := pool.Palloc(given, base, arena);
      if ok {
        S.PallocOK(was, pool.created, base, memory);
        Append(p, x, S.AllLive(was.ring));
      }
    }

    /** Lines 84-88: the entry at `p` is filled in and linked behind the last. */
    method Append(p: Addr, x: T, ghost live: set<nat>)
      requires Shape(live) && p - S.MEM !in live
      modifies this
      ensures Shape(live + {p - S.MEM}) && contents == old(contents) + [x]
    {
      InSlots(chain, p);
      Appended(chain, entries, p, x);
      SlotsMore(chain, p);
      WrapAgain(|chain| - 1);
      hide Linked, Pointers, Slots, Wrap;
      entries := entries[p := Entry(x, 0)];
      entries := entries[tail := entries[tail].(next := p)];
      tail := p;
      nelts := Wrap(nelts + 1);
      chain := chain + [p];
      contents := contents + [x];
    }

    /** Lines 215-217 and 219: the entry behind the dummy becomes the dummy. */
    method Remove(ghost live: set<nat>) returns (x: T)
      requires Shape(live) && head != tail
      modifies this
      ensures contents == old(contents)[1..] && old(contents) == [x] + contents
      ensures old(head) >= S.MEM && old(head) - S.MEM in live && Shape(live - {old(head) - S.MEM})
    {
      assert |chain| >= 2 && entries[chain[0]].next == chain[1];
      Removed(chain, entries);
      SlotsLess(chain);
      assert entries[entries[head].next].pointer == contents[0];
      assert |chain[1..]| == |chain| - 1 && chain[1..][|chain| - 2] == tail && chain[1..][0] == entries[head].next;
      WrapAgain(|chain| - 1);
      hide Linked, Pointers, Slots, Wrap;
      x := entries[entries[head].next].pointer;
      head := entries[head].next;
      nelts := Wrap(nelts - 1);
      chain := chain[1..];
      contents := contents[1..];
    }

    /** frl_queue_trypop (lines 207-225), and frl_queue_pop once its wait is over (lines
        105-122): the element that has been longest in the queue, if there is one. */
    method Trypop() returns (x: Option<T>)
      requires Valid()
      modifies this, pool, pool.Repr
      ensures Valid()
      ensures old(contents) == [] ==> x == None && contents == []
      ensures old(contents) != [] ==> x == Some(old(contents)[0]) && contents == old(contents)[1..]
    {
      hide S.PoolOK, S.AllLive, S.Found, S.Mallocs, S.Palloc, S.Live, S.Apart, Owned, Separate, Chained, HeadersOK,
           Linked, Pointers, Slots, Shape;
      Ends();
      if head == tail {
        return None;
      }
      ghost var was := pool.Value();
      var first := head;
      var front := Remove(S.AllLive(was.ring));
      x := Some(front);
      ghost var i := HolderOf(was.ring, first - S.MEM);
      S.PfreeOK(was, pool.created, i, first - S.MEM);
      pool.Pfree(first, i);
    }

    lemma Ends()
      requires pool.Linked() && Shape(S.AllLive(pool.Blocks()))
      ensures head == tail <==> contents == []
    {
      assert head == tail <==> |chain| == 1;
    }
  }

  lemma HolderOf(ring: seq<S.Block>, slot: nat) returns (i: nat)
    requires slot in S.AllLive(ring)
    ensures i < |ring| && slot in ring[i].live
  {
    S.InAllLive(ring, slot);
    i :| i < |ring| && slot in ring[i].live;
  }

  /** The queue loses no memory: the slots in use are its elements and the dummy, and
      nelts counts the elements. */
  lemma NoLeak<T>(q: Queue<T>)
    requires q.Valid()
    ensures |S.AllLive(q.pool.Blocks())| == |q.contents| + 1
    ensures q.nelts == |q.contents| % 0x1_0000_0000
  {
    SlotsCount(q.chain);
  }
}
