# The fotas runtime library, verified in Dafny

Six parts of the C runtime library are modelled, each as close to its code as the property needs,
and what every run of them keeps is proved.  `dafny verify dfyconfig.toml` checks everything.

Protocols that several threads run at once are state machines, one shared access per step, so a
theorem about an `Execution` covers every interleaving of every number of threads.  Code that changes
records, arrays and pointers under a mutex, or in one thread, is written as classes and methods with
the loops of the source; each method is proved to compute a function on values, and the theorems about
runs are about those functions.

| file | part of the library | main result |
|---|---|---|
| `LockFreeQueue.dfy` | lock-free half of `frl_queue.c` | linearizable to a FIFO queue (`Linearizable`) |
| `QueueCalls.dfy` | the same | every effect and every answer is one that the call it belongs to may have (`AnswersMatchCalls`) |
| `QueueNodes.dfy` | the same | no node is leaked, freed twice or freed while in use (`NodesAreConserved`); how far tail lags (`TailIsLast`) |
| `QueueProgress.dfy` | the same | an operation that runs alone ends, wherever the others have stopped (`PushEndsAlone`, `PopEndsAlone`) |
| `EarlyRecycling.dfy` | the same | why node recycling has to be restricted: a run that pops a value twice |
| `LockFreeSlab.dfy`, `Counting.dfy` | lock-free half of `frl_slab_pool.c` | every slot is in exactly one place (`SlotsAreConserved`), one ring (`SingleCycle`), memory safety (`AccessesAreSafe`) |
| `SlabProgress.dfy` | the same | NULL only for want of memory (`NullMeansNoMemory`); palloc and pfree end when they run alone, palloc with the first free slot or a new block (`PallocEndsAlone`) |
| `Slab.dfy`, `SlabPool.dfy` | mutex half of `frl_slab_pool.c` | audit, usage and growth after every run (`EveryRun`); the classes compute the model |
| `LockedQueue.dfy` | mutex half of `frl_queue.c`, over `SlabPool` | FIFO without memory leaks |
| `Trie.dfy`, `RadixTree.dfy` | `frl_radix_tree.c` | the pointer tree refines a map (`TreeIsMap`), with the exact exceptions |
| `Wire.dfy`, `SocketPipe.dfy`, `PipeState.dfy` | `frl_util_socket_pipe.cpp`, both ends of a connection | framing, delivery, truthful acknowledgement, progress |
| `PipeSender.dfy` | its sender over all connections | no message is lost or duplicated, and they are sent in order |
| `Lookup3.dfy`, `HashPaths.dfy` | `frl_hash_func.c` | all paths of all hashes compute one function of the bytes, and it is reversible block by block |
| `HashAnswers.dfy` | the same | known answers |
| `LeaderFollower.dfy` | `frl_util_threads.cpp` | one leader, never all workers parked, tasks conserved, when exactly a signal is lost |
| `WorkerCount.dfy` | the same | what `waiters` counts, and when exactly assign creates a worker |
| `WorkerProgress.dfy` | the same | the workers can always go on to take a queued task |
| `Basics.dfy` | | types that several modules use |

## What the model assumes

- Lock-free queue and slab pool: single accesses are atomic and sequentially consistent.
- Lock-free queue: the slab pool does not hand out a node again while an unfinished operation depends
  on a snapshot of it (`LockFreeQueue.Available`): the `tail` of a push, the `head` of a pop, and the new
  head whose pointer a pop has yet to read.  `frl_slab_pfree(head)` alone does not give this, and
  `EarlyRecycling.EarlyRecyclingBreaksFifo` is a run in which it matters for the `head` of a pop.  The
  assumption is shown to be sufficient; that each of the other snapshots in `LockFreeQueue.Held` is
  needed, too, is not shown.
- Slab pools: clients free only slots they hold, once each, and write only inside their user area; the
  initial capacity is at least 1; a block has fewer than 2^32 slots; malloc gives memory that is not in
  use.  malloc may fail, except that the mutex half does not model the mutex that a failure leaves locked.
- Socket pipe: the stream between two ends is reliable, each call moves 1 to `len` bytes or ends the
  connection, EAGAIN does not happen (the code would take it for completion), buffers are shorter than
  2^32 bytes, `recv_before` keeps the size and provides a buffer of that size, and both ends have the
  same byte order.  The hash is an arbitrary function of the bytes, the same at both ends, wherever the
  bytes lie; that `hashlittle` is such a function is `HashPaths.Hashlittle`.
- Hashes: the words read at the end of a key lie in memory that may be read (the memory ends at a
  multiple of 4 bytes); everything behind the key is arbitrary.
- Leader-follower pool: it is not being destroyed, and the task queue is an atomic FIFO queue, which is
  what `LockFreeQueue.Linearizable` says of the real one.  Signals wake at least one waiter if there is
  one; spurious wake-ups are allowed.

## What was found

- `frl_radix_tree_add` tests the node it leaves, not the child it enters, so it returns 0 for some keys
  that are not in the tree and adds some that are.  `Trie.AddRefuses` and `Trie.AddKeepsUnique` give the
  exact conditions, `Trie.AbsentKeyRefused` an instance that two adds lead to.  The root takes part in
  the test with key bytes that were never initialised.
- The receiver never reads a second message on a connection, although the sender sends one: it is
  neither accepted nor acknowledged (`SocketPipe.OneMessagePerConnection`).
- The lock-free pool is lock-free only while no thread stops with a block claimed: then every palloc and
  pfree that runs alone ends (`SlabProgress.StoppedPallocEnds`, `PfreeEndsAlone`), else one that comes to
  the claimed block spins (`SpinsOnClaimed`).  The queue itself, apart from palloc and pfree, never waits
  for another thread but in `frl_queue_pop` on an empty queue (`QueueProgress.PushEndsAlone`, `PopEndsAlone`).
- `frl_slab_pfree(head)` does not protect the lock-free queue from a node that comes back too early
  (`EarlyRecycling.EarlyRecyclingBreaksFifo`).
- A signal in the leader pool can be lost, so that a task waits although a worker is free
  (`LeaderFollower.SignalsCanBeLost` is a run).  A worker brings this about exactly when it signals while
  another one has seen a leader but has not yet begun to wait, nobody is parked and nobody else is on its
  way to lead (`LeaderFollower.WorkerStrands`); nothing else does (`OthersDoNotStrand`, `StrandedSince`);
  and it ends when a worker comes back from its task, wakes up without a signal, or is created
  (`WorkerReturns`, `CallCreates`).  All workers are never parked at once (`NeverAllParked`).
- assign creates a worker only while exactly as many workers as were spawned are at work
  (`WorkerCount.NoWaiters`): workers that it has created are never added to `waiters`, so with one more at
  work the counter wraps and nobody is created although `open < max`.

## Model

| member | source | states |
|---|---|---|
| LockFreeQueue.Linearizable | src/lib/frl_queue.c:3-69 | in every interleaving the operations that have taken effect are a legal history of a FIFO queue that now holds the nodes behind head; each finished one took effect once, between its call and its return, and no two share an effect |
| LockFreeQueue.PendingEffects | src/lib/frl_queue.c:3-69 | an operation that has not returned either took effect once, after its call, with the answer it will give, or left no trace; every effect belongs to a finished or a running operation |
| QueueCalls.AnswersMatchCalls | src/lib/frl_queue.c:3-69 | in every execution what is enqueued or answered is what was asked for: each enqueue has the argument of the recorded push of its number, each dequeue belongs to a pop or trypop, each empty answer to a trypop |
| QueueCalls.EmptyIsAnswered | src/lib/frl_queue.c:40-50 | when head, tail and a null next have been read, a trypop has found the queue empty, and a pop has done nothing and starts over |
| QueueCalls.StepMatches | src/lib/frl_queue.c:3-69 | each single access keeps calls, effects and answers in agreement |
| QueueNodes.NodesAreConserved | src/lib/frl_queue.c:5-63 | the nodes that the queue has been given and has not given back are its dummy and elements, those a push has yet to link and those a pop has yet to free, each in one place only |
| QueueNodes.FreesWhatItHas | src/lib/frl_queue.c:63 | a pop gives back a node that the queue has and that is no longer in it, and only that one |
| QueueNodes.GetsWhatItHasNot | src/lib/frl_queue.c:5 | the slab pool hands out no node that the queue has |
| QueueNodes.OneHolder | src/lib/frl_queue.c:5-63 | a node is not in the queue, with a push and with a pop at once, nor with two of either |
| QueueNodes.TailIsLast | src/lib/frl_queue.c:15-20 | tail is the last node unless the push that linked the last node has yet to swing it |
| QueueProgress.PushEndsAlone | src/lib/frl_queue.c:12-24 | from every reachable state a push that runs alone ends within 9 steps with the answer to its call, wherever other threads have stopped |
| QueueProgress.PopEndsAlone | src/lib/frl_queue.c:36-67 | so does a trypop within 14 steps, and a pop if the queue is not empty |
| QueueProgress.StepNearer | src/lib/frl_queue.c:12-67 | each step alone brings an operation that need not wait nearer to its end |
| LockFreeQueue.HeadTailNext | src/lib/frl_queue.c:142-179 | head never passes tail, tail is the last node or the one before it, and a pop about to swap head has a non-null next although head, tail and next were read one after the other |
| LockFreeQueue.ContentsIsTheList | src/lib/frl_queue.c:131-181 | the abstract queue is what a walk along next from the dummy head finds in shared memory, and it ends in null |
| LockFreeQueue.ElementCount | src/lib/frl_queue.c:149-176 | when no operation is between its swap and its counter update, nelts is the length of the queue modulo 2^32 |
| LockFreeQueue.EmptyContents | src/lib/frl_queue.c:162-168 | a trypop that is about to report empty reads next when the queue is empty |
| LockFreeQueue.LinkAtEnd | src/lib/frl_queue.c:140-148 | a swap of next that succeeds is on the last node of the queue, which tail points to |
| LockFreeQueue.SameNode | src/lib/frl_queue.c:59-60 | equal addresses in two snapshots that matter mean the same node in the same place: the compare-and-swaps are not fooled by recycling |
| LockFreeQueue.SwapTailOK | src/lib/frl_queue.c:18-20 | helping moves tail only forward and only to the node linked behind it |
| LockFreeQueue.StepInv | src/lib/frl_queue.c:3-69 | each single access of push, trypush, pop and trypop keeps the invariant of the protocol |
| EarlyRecycling.EarlyRecyclingBreaksFifo | src/lib/frl_queue.c:170-177 | if nodes come back as soon as they are freed there is a run in which one pushed value is popped twice and head becomes a free node |
| EarlyRecycling.Node1GivenBack | src/lib/frl_queue.c:63 | in that run the node handed out early was freed by its last owner but is the snapshot of a slow pop |
| LockFreeSlab.SlotsAreConserved | src/lib/frl_slab_pool.c:57-152 | in every interleaving each slot of a published block is exactly one of: on its block's free stack, held by one client, in transit in one thread |
| LockFreeSlab.StacksAreSound | src/lib/frl_slab_pool.c:74-89 | unless one known thread has it BUSY, a stack pointer counts the free slots, and these are different slots of the block itself |
| LockFreeSlab.AccessesAreSafe | src/lib/frl_slab_pool.c:135-151 | no thread touches a block that does not exist or a stack cell outside 1..capacity, the unlocked read of *new_pointer included |
| LockFreeSlab.RoomFor | src/lib/frl_slab_pool.c:140-145 | as long as one slot is not free its block has room on the stack, so a free cannot overflow it |
| LockFreeSlab.FailedSwapRestores | src/lib/frl_slab_pool.c:142-149 | in every run a block whose claim ends in a failed swap comes out of it unchanged, but perhaps for its next, whatever other threads do in between |
| LockFreeSlab.OthersKeepOut | src/lib/frl_slab_pool.c:76-89 | while one thread has claimed a block no step of another changes its stack pointer or stack |
| LockFreeSlab.FailedSwapAlone | src/lib/frl_slab_pool.c:142-149 | without steps of others in between all of shared memory is as it was |
| LockFreeSlab.SingleCycle | src/lib/frl_slab_pool.c:97-121 | from pool->block, next leads through every published block once and back, however many threads grow the ring |
| LockFreeSlab.LoserWasNeverSeen | src/lib/frl_slab_pool.c:113-121 | a block whose publication can still fail is on no path of another thread and none of its slots was given out |
| LockFreeSlab.OnePlace | src/lib/frl_slab_pool.c:57-152 | what lies on stacks, with clients and in threads agrees with one assignment of places to slots |
| LockFreeSlab.StepInv | src/lib/frl_slab_pool.c:57-152 | each single access of palloc and pfree, and every client call, keeps the invariant of the pool |
| SlabProgress.NullMeansNoMemory | src/lib/frl_slab_pool.c:91-119 | palloc ends with a slot for its client that nobody held, unless its last step was a block that could not be created |
| SlabProgress.PallocEndsAlone | src/lib/frl_slab_pool.c:68-123 | from every reachable state without a claimed block, a palloc that runs alone from its call ends within 3 steps a block and 8: with the top slot of the first block after pool->block that has one, or, only if all are exhausted, with the top slot of a new block of twice max_capacity that is on the ring |
| SlabProgress.StoppedPallocEnds | src/lib/frl_slab_pool.c:68-123 | wherever a palloc has been stopped, with stale reads or after a lost swap, it gets a slot within 3 steps a block and 14 when it goes on alone |
| SlabProgress.TakesWhereItIs | src/lib/frl_slab_pool.c:74-99 | a palloc that has come to a block with a free slot takes the top one of it, even if its read of the stack pointer is out of date |
| SlabProgress.SpinsOnClaimed | src/lib/frl_slab_pool.c:74-78 | at a block that another thread has claimed, palloc and pfree alone read BUSY for ever and change nothing |
| SlabProgress.SearchesAlone | src/lib/frl_slab_pool.c:73-103 | the search passes over just the exhausted blocks, in the order of next, and stops after one turn |
| SlabProgress.PfreeEndsAlone | src/lib/frl_slab_pool.c:125-152 | wherever a pfree has been stopped, unless another thread has claimed its block, it puts the slot on top of the stack of its own block within 9 steps alone and changes nothing else |
| Slab.EveryRun | src/lib/frl_slab_pool.c:154-361 | after any run of palloc, pfree, clear and client writes the audit succeeds, reported usage is the number of live slots, n blocks have c(2^n - 1) slots, and there are at most 2 * peak + c |
| Slab.NothingGoesWrong | src/lib/frl_slab_pool.c:154-278 | after any run every allowed operation can be done: no stack overflow, no write outside the arena |
| Slab.Reachable | src/lib/frl_slab_pool.c:154-361 | every pool a run reaches is in order: blocks apart, stacks and live slots apart, flags intact |
| Slab.SlotsApart | src/lib/frl_slab_pool.c:33-38 | header, user area and flag of different slots, in one block or two, are disjoint address ranges inside their blocks |
| Slab.FreshOK | src/lib/frl_slab_pool.c:11-44 | a new block has all slots free and different, and all flags right |
| Slab.PoppedOK | src/lib/frl_slab_pool.c:164-171 | the slot taken from the stack was not live and now is; the block stays in order |
| Slab.PushedOK | src/lib/frl_slab_pool.c:204-209 | a live slot always has room on the stack, and putting it back keeps the block in order |
| Slab.StoreOK | src/lib/frl_slab_pool.c:296-307 | a client that writes inside its user area damages neither flags nor stack |
| Slab.StorePoolOK | src/lib/frl_slab_pool.c:296-318 | the same for the pool: the write is inside the arena and the live slots stay the same |
| Slab.PallocOK | src/lib/frl_slab_pool.c:154-197 | palloc returns a slot nobody held, adds it to the live ones, takes none away, and adds a block only when every slot is live |
| Slab.PallocTaken | src/lib/frl_slab_pool.c:161-178 | with a free slot somewhere no block is added |
| Slab.PallocFrom | src/lib/frl_slab_pool.c:159-178 | the slot is from the first block after pool->block with a free one, that block becomes pool->block, and the cyclic order of blocks stays |
| Slab.FreedComesBack | src/lib/frl_slab_pool.c:154-213 | palloc after a pfree into pool->block gives the same slot and restores the block |
| Slab.TakenGoesBack | src/lib/frl_slab_pool.c:154-213 | pfree right after palloc leaves every block as it was |
| Slab.PallocGrown | src/lib/frl_slab_pool.c:181-196 | without one, every slot is live, one block is put in front of the others, and the slot returned lies in the memory of that block |
| Slab.TakenOK | src/lib/frl_slab_pool.c:161-178 | taking a slot makes one more live and keeps the total, whichever block it comes from |
| Slab.GrownOK | src/lib/frl_slab_pool.c:181-196 | a block is added only at full use, and turns a total T into 2T + c |
| Slab.PfreeOK | src/lib/frl_slab_pool.c:199-213 | pfree takes exactly the freed slot out of the live ones |
| Slab.ClearOK | src/lib/frl_slab_pool.c:257-278 | after clear no slot of any block is live and the pool is in order |
| Slab.CreateOK | src/lib/frl_slab_pool.c:338-361 | a new pool is in order with no live slot |
| Slab.AuditMeans | src/lib/frl_slab_pool.c:296-318 | the audit succeeds if and only if every flag has its number and every entry of every stack array lies in its arena |
| Slab.AuditFailures | src/lib/frl_slab_pool.c:302-314 | the audit reports the first block that is not in order: a leak if and only if a flag of it is wrong, a stack error if and only if just entries are |
| Slab.AuditPasses | src/lib/frl_slab_pool.c:296-318 | the audit of a pool in order succeeds |
| Slab.UsageIsLive | src/lib/frl_slab_pool.c:330-332 | usage, computed from stack pointers, counts the live slots of all blocks |
| Slab.LiveIsSize | src/lib/frl_slab_pool.c:320-336 | live slots of different blocks are different, so the sum over blocks is the size of their union |
| SlabPool.SlabBlock.constructor | src/lib/frl_slab_pool.c:13-30 | a block gets a stack array with one cell more than slots and no successor |
| SlabPool.SlabBlock.SetFlag | src/lib/frl_slab_pool.c:36-37 | writes the four bytes of one flag behind its slot, inside the arena, and nothing else |
| SlabPool.SlabBlock.Fill | src/lib/frl_slab_pool.c:32-39 | the loop puts every slot on the stack in order and sets every flag |
| SlabPool.SlabBlock.Pop | src/lib/frl_slab_pool.c:164-165 | gives the top slot and makes it live |
| SlabPool.SlabBlock.Push | src/lib/frl_slab_pool.c:208-209 | puts the slot above the top, other cells unchanged |
| SlabPool.SlabBlock.FlagsIntact | src/lib/frl_slab_pool.c:301-307 | true if and only if each slot has its number as flag |
| SlabPool.SlabBlock.EntriesInside | src/lib/frl_slab_pool.c:310-314 | true if and only if each cell of the stack array points into the arena |
| SlabPool.SlabPool.constructor | src/lib/frl_slab_pool.c:338-361 | creates the one-block ring of the model |
| SlabPool.SlabPool.FindBlock | src/lib/frl_slab_pool.c:159-180 | the walk along next stops at the first block with a free slot, or else at the last block of the ring |
| SlabPool.SlabPool.TakeFrom | src/lib/frl_slab_pool.c:164-175 | the block with the free slot becomes pool->block and gives its top slot, and the pool stays valid |
| SlabPool.SlabPool.Grow | src/lib/frl_slab_pool.c:181-196 | doubles max_capacity, links in a block of that size as pool->block and gives its top slot |
| SlabPool.SlabPool.LinkIn | src/lib/frl_slab_pool.c:189-192 | the ring of next pointers is the old one with the new block in front |
| SlabPool.SlabPool.Palloc | src/lib/frl_slab_pool.c:154-197 | fails only if a block is needed and malloc fails, leaving the pool as it was; otherwise new state and pointer are those of the model's palloc |
| SlabPool.SlabPool.Pfree | src/lib/frl_slab_pool.c:199-213 | finds the block of a live slot through its header and puts the slot back there |
| SlabPool.SlabPool.Write | src/lib/frl_slab_pool.c:296-307 | a client's write inside its user area changes that byte of that arena and keeps the pool valid |
| SlabPool.SlabPool.Clear | src/lib/frl_slab_pool.c:257-278 | refills every block of the ring, whatever was live |
| SlabPool.SlabPool.Safe | src/lib/frl_slab_pool.c:296-318 | the walk over the ring gives the audit's verdict, the first failure included |
| SlabPool.SlabPool.Stat | src/lib/frl_slab_pool.c:320-336 | reports the number of blocks, all their slots, and as usage the number of slots held by clients |
| LockedQueue.Queue.constructor | src/lib/frl_queue.c:283-305 | a new queue over a pool of its own is valid and empty |
| LockedQueue.Queue.Push | src/lib/frl_queue.c:71-95 | appends the element, or reports that there is no memory and changes nothing, exactly when the pool is full and malloc fails |
| LockedQueue.Queue.Append | src/lib/frl_queue.c:84-88 | an entry at a fresh slot becomes the last of the list |
| LockedQueue.Queue.Remove | src/lib/frl_queue.c:215-219 | the oldest element comes out, its entry is the new dummy, and the old dummy is no longer used |
| LockedQueue.Queue.Trypop | src/lib/frl_queue.c:207-225 | gives the oldest element and removes it, or nothing if and only if the queue is empty |
| LockedQueue.NoLeak | src/lib/frl_queue.c:71-129 | the slots in use are those of the elements and one dummy, and nelts is their number modulo 2^32 |
| LockedQueue.Appended | src/lib/frl_queue.c:84-88 | linking behind the tail adds one pointer at the end of the list and changes no other |
| LockedQueue.Removed | src/lib/frl_queue.c:215-219 | moving head to its successor drops exactly the first pointer |
| LockedQueue.SlotsCount | src/lib/frl_queue.c:71-129 | entries of the list lie in different slots |
| Trie.SearchFinds | src/lib/frl_radix_tree.c:43-66 | get finds a node with the key below the root if there is one on any path, and none otherwise |
| Trie.GetIsLookup | src/lib/frl_radix_tree.c:36-67 | get answers what the map from keys to pointers answers |
| Trie.SlotIsFree | src/lib/frl_radix_tree.c:76-102 | the place add chooses is empty, on the key's own path and below an existing node; it finds none only if a node on the way blocks or the key's full path is taken |
| Trie.AddRefuses | src/lib/frl_radix_tree.c:77-106 | add returns 0 for an absent key if and only if some node passed on the way, the root included, agrees with the key beyond its own level |
| Trie.AbsentKeyRefused | src/lib/frl_radix_tree.c:96-98 | an absent key for which add returns 0, in a tree that two adds lead to if and only if the root does not happen to agree with the second key |
| Trie.AddKeepsShape | src/lib/frl_radix_tree.c:77-101 | every node still stores a full key that starts with its path, paths still have their parents, no path is longer than key_size |
| Trie.AddBinds | src/lib/frl_radix_tree.c:69-107 | adding an absent key binds it and nothing else, and leaves the map alone if it returns 0 |
| Trie.AddKeepsUnique | src/lib/frl_radix_tree.c:96-98 | keys stay different if and only if the key was absent or add returned 0 |
| Trie.ReachesBelow | src/lib/frl_radix_tree.c:115-135 | the descent of remove stays below the removed node |
| Trie.RemoveKeepsShape | src/lib/frl_radix_tree.c:115-142 | the key moved up still starts with the path it is moved to, and no node loses its parent |
| Trie.RemoveUnbinds | src/lib/frl_radix_tree.c:109-148 | remove unbinds its own key and no other, although it deletes another node |
| Trie.StepRefines | src/lib/frl_radix_tree.c:69-148 | each operation does to the tree what its counterpart does to the map |
| Trie.TreeIsMap | src/lib/frl_radix_tree.c:36-148 | over any run of adds of absent keys and removes, the tree keeps its shape and get answers what the map would |
| Trie.EveryCallEnds | src/lib/frl_radix_tree.c:76-135 | after any run every add and remove has a result: the walks come to an end and remove finds a leaf |
| RadixTree.KeyCmp | src/lib/frl_radix_tree.c:9-15 | true if and only if the keys agree from k on |
| RadixTree.Empty | src/lib/frl_radix_tree.c:17-22 | all children are null |
| RadixTree.FillLeaf | src/lib/frl_radix_tree.c:82-88 | whatever the slot held, it becomes a leaf with the key, pointer, parent and depth |
| RadixTree.RadixTree.constructor | src/lib/frl_radix_tree.c:201-211 | a new tree is valid: only the root, with whatever key bytes it has |
| RadixTree.RadixTree.Get | src/lib/frl_radix_tree.c:36-67 | the walk along children returns the entry the search on the tree's value finds |
| RadixTree.RadixTree.Add | src/lib/frl_radix_tree.c:69-107 | keeps the pointer structure valid, returns the slot as the new entry or null, and changes the tree's value by exactly that node |
| RadixTree.RadixTree.AttachLeaf | src/lib/frl_radix_tree.c:81-90 | the slot becomes the entry of the next longer path of the key |
| RadixTree.RadixTree.LinkChild | src/lib/frl_radix_tree.c:89-90 | the parent gains a child and counts it; every other entry is unchanged |
| RadixTree.RadixTree.PickChild | src/lib/frl_radix_tree.c:119-134 | the loop over 256 children picks the first leaf among them, or else the first child |
| RadixTree.RadixTree.FindLeaf | src/lib/frl_radix_tree.c:115-135 | the descent ends, at a leaf at or below the entry |
| RadixTree.RadixTree.Unhang | src/lib/frl_radix_tree.c:136-137 | children[leaf->key[leaf->depth]] of the parent is the leaf itself, and is cleared and no longer counted |
| RadixTree.RadixTree.Refill | src/lib/frl_radix_tree.c:138-142 | the entry takes the key and pointer of the leaf and keeps its place, depth and children |
| RadixTree.RadixTree.Detach | src/lib/frl_radix_tree.c:136-142 | both together: one entry fewer, one refilled, all others unchanged |
| RadixTree.RadixTree.Remove | src/lib/frl_radix_tree.c:109-148 | keeps the pointer structure valid and takes the removed binding out of the tree's value |
| RadixTree.AttachOK | src/lib/frl_radix_tree.c:77-101 | with the new leaf every entry still has depth = level - 1, its parent, and as nelts the number of its children |
| RadixTree.DetachOK | src/lib/frl_radix_tree.c:115-142 | the same after a remove |
| Wire.HeaderFields | src/lib/frl_util_socket_pipe.h:20-24 | the size and hash read from a header are those that were written |
| Wire.EnoughIsExact | src/lib/frl_util_socket_pipe.cpp:322-341 | blocks that are full but for the last number max(1, ceil(n / 4084)) |
| SocketPipe.FramingAgrees | src/lib/frl_util_socket_pipe.cpp:80-159 | in every run, with any partial sends and receives, what the receiver has, what is in flight and what is unsent is the rest of the message in blocks; its block length is the sender's, the block fits 4092 bytes and the copy fits the data |
| SocketPipe.Delivery | src/lib/frl_util_socket_pipe.cpp:105-147 | recv_after gets exactly the bytes sent, after max(1, ceil(n / 4084)) blocks |
| SocketPipe.HashChecksPass | src/lib/frl_util_socket_pipe.cpp:108-128 | when a block is complete its hash is the one in its header, and after the last block the hash of all data is the one announced |
| SocketPipe.BlockVerdict | src/lib/frl_util_socket_pipe.cpp:105-159 | for any bytes at all: data is handed over and answered if and only if the hash of the block and, after the last block, of all data is right and recv_after agrees; a wrong block hash closes |
| SocketPipe.OnlyCallbacksClose | src/lib/frl_util_socket_pipe.cpp:83-147 | the receiver gives up reading only because recv_before or recv_after asks it to |
| SocketPipe.CanSend | src/lib/frl_util_socket_pipe.cpp:296-346 | whatever part of the remaining bytes the socket takes, the sender stays inside its header, block buffer and data |
| SocketPipe.CanReceive | src/lib/frl_util_socket_pipe.cpp:59-159 | whatever part of the stream arrives and whatever the callbacks answer, the receiver stays inside its buffers and the data |
| SocketPipe.CanAnswer | src/lib/frl_util_socket_pipe.cpp:166-173 | whatever part of the answer the socket takes, the receiver stays inside its header |
| SocketPipe.CanRead | src/lib/frl_util_socket_pipe.cpp:366-373 | whatever part of the answer arrives, the sender stays inside its header |
| SocketPipe.AcksAreTrue | src/lib/frl_util_socket_pipe.cpp:393-395 | send_after runs only for the message this connection's receiver has checked and accepted, and once |
| SocketPipe.AckNeverMismatches | src/lib/frl_util_socket_pipe.cpp:352-393 | the sender never re-sends a good transfer because of its hash, although data.hash overwrites data.offset |
| SocketPipe.NeverStuck | src/lib/frl_util_socket_pipe.cpp:56-409 | until the acknowledgement there is always a move for one of the ends |
| SocketPipe.MovesUseWork | src/lib/frl_util_socket_pipe.cpp:56-409 | each such move uses up a finite amount of work, so a transfer without failures ends |
| SocketPipe.OneMessagePerConnection | src/lib/frl_util_socket_pipe.cpp:184-197 | after the first acknowledgement the receiver reads, accepts and answers nothing any more |
| SocketPipe.NextBlockOK | src/lib/frl_util_socket_pipe.cpp:334-346 | the block laid out is the one due next, so what is unsent is the message from that block on |
| SocketPipe.SentKeeps | src/lib/frl_util_socket_pipe.cpp:296-363 | sending any part neither loses nor reorders a byte |
| SocketPipe.HeaderRead | src/lib/frl_util_socket_pipe.cpp:80-84 | a complete header carries the length and hash of the message, and only blocks follow |
| SocketPipe.BlockRead | src/lib/frl_util_socket_pipe.cpp:105-120 | a complete block is the block of the message at the receiver's offset and the next block follows |
| SocketPipe.ReceiveMiddle | src/lib/frl_util_socket_pipe.cpp:150-158 | after a block that is not the last the receiver expects just the next one |
| SocketPipe.ReceiveLast | src/lib/frl_util_socket_pipe.cpp:121-147 | after the last block nothing is left over and the receiver holds the whole message, or closes if the callback says so |
| SocketPipe.ReceivedOutcome | src/lib/frl_util_socket_pipe.cpp:56-162 | whatever part of the stream arrives, the copy fits and the receiver is where the stream is |
| SocketPipe.AckReads | src/lib/frl_util_socket_pipe.cpp:364-393 | the answer, read in any parts, is found to match and leaves nothing behind it |
| SocketPipe.WithHashHas | src/lib/frl_util_socket_pipe.h:32-40 | the hash written over the shared storage is read back whatever offset was there |
| SocketPipe.StepKeeps | src/lib/frl_util_socket_pipe.cpp:56-409 | every event at either end keeps the relation between the ends and the bytes in flight |
| PipeSender.MessagesAreConserved | src/lib/frl_util_socket_pipe.cpp:271-464 | over every run on any number of connections, the multiset of submitted messages is those queued, those in flight on one connection each and those completed |
| PipeSender.SentInOrder | src/lib/frl_util_socket_pipe.cpp:273-291 | over every run messages are taken for sending in the order in which they entered the queue: all that entered is all that was taken and then what is queued |
| PipeSender.SubmittedByUser | src/lib/frl_util_socket_pipe.cpp:457-464 | the messages counted as submitted are those the user has submitted |
| PipeSender.QueueMoves | src/lib/frl_util_socket_pipe.cpp:265-452 | what an event puts in goes to the end of the queue, what a connection takes comes from its front |
| PipeSender.MatchEnds | src/lib/frl_util_socket_pipe.cpp:393-409 | a match completes the message and leaves the connection idle or, if send_after interrupts, closed; the queue and other connections stay |
| PipeSender.WritableAfter | src/lib/frl_util_socket_pipe.cpp:267-314 | a connection is given up on writing if and only if there is something to send and nothing is taken |
| PipeSender.ReadableAfter | src/lib/frl_util_socket_pipe.cpp:364-421 | a connection is given up on reading if and only if it fails or send_after interrupts |
| PipeSender.ReadyAfter | src/lib/frl_util_socket_pipe.cpp:235-252 | new connections, and those connected anew after an error, are ready for a message; others stay as they are |
| PipeSender.EveryEventIsHandled | src/lib/frl_util_socket_pipe.cpp:265-452 | after any run every event that can come finds the connection in a state the code is made for |
| PipeSender.CompletionNeedsMatch | src/lib/frl_util_socket_pipe.cpp:387-409 | a message is completed only at a full answer whose hash is the hash of that message |
| PipeSender.FailureRequeues | src/lib/frl_util_socket_pipe.cpp:304-313 | every failure puts the connection's message back at the end of the queue and takes it off the connection |
| PipeSender.EventKeeps | src/lib/frl_util_socket_pipe.cpp:265-452 | each event keeps the conservation and the state of all connections |
| PipeState.PipeState.Accepted | src/lib/frl_util_socket_pipe.cpp:45-50 | an accepted connection waits for a header |
| PipeState.PipeState.Start | src/lib/frl_util_socket_pipe.cpp:353-356 | reader, offset and size of a phase agree with its state |
| PipeState.PipeState.Load | src/lib/frl_util_socket_pipe.cpp:282-291 | the connection is ready to send the header of the message |
| PipeState.PipeState.Offered | src/lib/frl_util_socket_pipe.cpp:296-297 | reader points at the bytes of the header or block that have not been sent |
| PipeState.PipeState.LayOut | src/lib/frl_util_socket_pipe.cpp:319-346 | copy and hash in place make the block due next |
| PipeState.PipeState.Wrote | src/lib/frl_util_socket_pipe.cpp:298-363 | computes the sender's transition after any number of accepted bytes |
| PipeState.PipeState.Deliver | src/lib/frl_util_socket_pipe.cpp:59-62 | bytes arrive behind those already read, in the buffer the phase reads into |
| PipeState.PipeState.GotAnswer | src/lib/frl_util_socket_pipe.cpp:366-393 | computes the sender's transition on an answer, with its verdict |
| PipeState.PipeState.ExpectData | src/lib/frl_util_socket_pipe.cpp:83-102 | the receiver expects the first block of data of the announced size |
| PipeState.PipeState.EndBlock | src/lib/frl_util_socket_pipe.cpp:105-159 | computes the receiver's transition at a complete block, closing or accepting |
| PipeState.PipeState.Got | src/lib/frl_util_socket_pipe.cpp:59-162 | computes the receiver's transition on any bytes that arrive |
| PipeState.PipeState.WroteAnswer | src/lib/frl_util_socket_pipe.cpp:166-197 | computes the receiver's transition while it answers, ending DISABLED |
| Lookup3.MixBijective | src/lib/frl_hash_func.c:114-122 | mix has a two-sided inverse on 32-bit triples |
| Lookup3.FinalBijective | src/lib/frl_hash_func.c:149-158 | final has a two-sided inverse |
| Lookup3.OneBlockApart | src/lib/frl_hash_func.c:404-447 | from one state, keys of equal length that differ in just one 12-byte block, be it the last, end in different states |
| Lookup3.HashApart | src/lib/frl_hash_func.c:282-448 | so do the hashes with the same seeds |
| Lookup3.BlocksApart | src/lib/frl_hash_func.c:407-421 | different blocks take one state to different states |
| Lookup3.StatesStayApart | src/lib/frl_hash_func.c:404-447 | different states stay different under one key |
| Lookup3.SeedsApart | src/lib/frl_hash_func.c:462-476 | different seeds end in different states |
| Lookup3.WordsAreBytes | src/lib/frl_hash_func.c:184-203 | absorbing words is absorbing the bytes they are made of, in either byte order |
| Lookup3.WordHashIsByteHash | src/lib/frl_hash_func.c:173-252 | hashword and hashword2 are hashlittle and hashlittle2 on the 4n bytes of little-endian words, hashbig on big-endian ones |
| Lookup3.TruncatedTimesFour | src/lib/frl_hash_func.c:181-226 | the length in bytes comes out the same whether it is shifted before or after it is cut to 32 bits |
| HashPaths.MixInPlace | src/lib/frl_hash_func.c:114-122 | the assignments of the macro compute mix |
| HashPaths.FinalInPlace | src/lib/frl_hash_func.c:149-158 | the assignments of the macro compute final |
| HashPaths.WordPath | src/lib/frl_hash_func.c:292-333 | at aligned addresses the word reads compute the hash of the key's bytes |
| HashPaths.WordBlock | src/lib/frl_hash_func.c:297-305 | one turn of the loop leaves the rest of the key to be hashed from the new state |
| HashPaths.WordTail | src/lib/frl_hash_func.c:307-333 | the switch with its masked reads finishes the key, empty keys unmixed |
| HashPaths.WordCases12 | src/lib/frl_hash_func.c:318-321 | lengths 9 to 12 add the key's bytes only |
| HashPaths.WordCases8 | src/lib/frl_hash_func.c:322-325 | lengths 5 to 8 add the key's bytes only |
| HashPaths.WordCases4 | src/lib/frl_hash_func.c:326-329 | lengths 1 to 4 add the key's bytes only |
| HashPaths.BytePath | src/lib/frl_hash_func.c:404-447 | byte reads at any address compute the hash of the key's bytes, in either byte order |
| HashPaths.HalfPath | src/lib/frl_hash_func.c:357-402 | half-word reads at even addresses compute the same hash |
| HashPaths.LittlePaths | src/lib/frl_hash_func.c:291-448 | whichever path is chosen, on whichever machine, the state is that of the bytes |
| HashPaths.Hashlittle | src/lib/frl_hash_func.c:282-449 | the result depends on the bytes of the key and the seed alone: not on address, machine or surrounding memory |
| HashPaths.Hashlittle2 | src/lib/frl_hash_func.c:462-634 | both results likewise; with a zero second seed the first is hashlittle |
| HashPaths.Hashbig | src/lib/frl_hash_func.c:644-764 | both of its paths compute the big-endian hash of the bytes |
| HashPaths.Hashword | src/lib/frl_hash_func.c:173-206 | the hash of an array of words |
| HashPaths.Hashword2 | src/lib/frl_hash_func.c:217-252 | both results; with a zero second seed the first is what hashword returns, although the length is shifted before it is cut to 32 bits |
| HashPaths.WordArray | src/lib/frl_hash_func.c:184-203 | loop and switch over the words compute the state of the whole array |
| HashPaths.MaskedWord | src/lib/frl_hash_func.c:318-329 | each mask keeps the bytes of the key and zeroes the others |
| HashPaths.ReadsPart | src/lib/frl_hash_func.c:307-329 | a masked read across the end of the key does not depend on the memory behind it |
| HashAnswers.MixOfSmall | src/lib/frl_hash_func.c:114-122 | mix() of one state, as a number |
| HashAnswers.FinalOfSmall | src/lib/frl_hash_func.c:149-158 | final() of one state, as a number |
| HashAnswers.HashOfKey | src/lib/frl_hash_func.c:462-634 | both results of hashlittle2 for a published key of three blocks, as numbers |
| HashAnswers.HashOfNothing | src/lib/frl_hash_func.c:472-474 | the hash of the empty key, and how each seed enters it |
| HashAnswers.WordsOfBytes | src/lib/frl_hash_func.c:404-421 | which byte of a word is the lowest in either order |
| LeaderFollower.OneLeader | src/lib/frl_util_threads.cpp:15-28 | in every interleaving at most one worker is between claiming and releasing leadership, and leader->no names it, although it is released without the mutex |
| LeaderFollower.NeverAllParked | src/lib/frl_util_threads.cpp:15-39 | some worker is always up: the leader if there is one, else one that will try to lead |
| LeaderFollower.TasksAreConserved | src/lib/frl_util_threads.cpp:22-38 | every task in or out of the queue is queued, held by one worker or was handled once, and executed unless it is a null pointer; tasks leave the queue in the order of arrival |
| WorkerCount.AssignedArePushed | src/lib/frl_util_threads.cpp:122-124 | every task assigned is still with its call or has entered the queue once |
| WorkerCount.WaitersCount | src/lib/frl_util_threads.cpp:31-38 | in every interleaving waiters and the workers at work on a task add up to the number spawned, modulo 2^32 |
| WorkerCount.NoWaiters | src/lib/frl_util_threads.cpp:96-128 | waiters is zero if and only if exactly as many workers as were spawned are at work |
| WorkerCount.BusyPoolGrows | src/lib/frl_util_threads.cpp:122-142 | a call of assign during which waiters is zero and open below max creates a worker |
| WorkerCount.IdlePoolStays | src/lib/frl_util_threads.cpp:122-142 | a call during which waiters is never zero, or open never below max, creates none |
| WorkerProgress.TaskCanBeTaken | src/lib/frl_util_threads.cpp:15-39 | from every reachable state with a queued task the workers can take it within 11 steps, even after lost signals: no deadlock |
| WorkerProgress.TakenIsHandled | src/lib/frl_util_threads.cpp:26-36 | the worker that has a task executes it, unless it is null, within four steps of its own |
| LeaderFollower.NumbersAreDistinct | src/lib/frl_util_threads.cpp:122-142 | however many calls of assign race, at most max workers exist, each with a number of its own |
| LeaderFollower.SignalsCanBeLost | src/lib/frl_util_threads.cpp:27-28 | a run with a lost signal, to a state where a task is queued, nobody leads, and the only worker not executing is parked with no signal to come |
| LeaderFollower.WorkerStrands | src/lib/frl_util_threads.cpp:15-39 | a step of a worker makes queued tasks wait beside a waiting worker if and only if it is a signal that comes before the only wait it could end |
| LeaderFollower.OthersDoNotStrand | src/lib/frl_util_threads.cpp:122-142 | neither assign nor a wake-up does that |
| LeaderFollower.StrandedSince | src/lib/frl_util_threads.cpp:15-39 | in every run such a state goes back to one such signal and has lasted since |
| LeaderFollower.WorkerReturns | src/lib/frl_util_threads.cpp:33-39 | a worker ends such a state if and only if it comes back from its task |
| LeaderFollower.CallCreates | src/lib/frl_util_threads.cpp:122-142 | assign ends such a state if and only if it creates a worker |
| LeaderFollower.StepKeeps | src/lib/frl_util_threads.cpp:15-142 | each access of each worker and each call of assign keeps the invariant of the pool |

## Left out

- A push or trypush for which palloc finds no memory: it returns APR_ENOMEM before it touches the queue.
- The statistics `handled` and `failed` of a worker, and the results of execute that they count.
- Sockets, poll sets, thread creation, sleeping, logging, time and memory pools of APR: their results are events and parameters here.
- Liveness of condition variables, the waiting loop of frl_queue_pop and all destroy paths: they depend on the scheduler; Trypop covers what pop does once its wait is over.
- frl_queue_peek: returns the pointer of the dummy, not of the front element.
- Slab pool: the `occupied` flag and the reference counts (ref, unref), pcalloc and destroy; the swap at src/lib/frl_slab_pool.c:128 changes nothing.
- Slab pool: pcalloc adds nothing to palloc, and FRL_STACKBUSY cannot come up with the mutex, where stack_pointer is never BUSY.
- SlabPool.SlabPool.Palloc: does not model that the mutex stays locked when malloc fails (src/lib/frl_slab_pool.c:182).
- SlabPool: headers of slots, and the entries of LockedQueue, are kept in maps from addresses to values, not as bytes of the arena; `SlabPool.SlabPool.Write` writes single bytes.
- LockFreeSlab.AccessesAreSafe: blocks are created in one step, since nobody else can see a block before it is published; a slot's header is written in one step, since only its holder touches it.
- Blocks of 2^32 slots or more, arenas whose size overflows, and pools created with no slots.
- Radix tree: the empty lock-free versions, the rwlock, `tree->nelts` (remove never lowers it), removal of the root, and the missing test for a failed palloc at src/lib/frl_radix_tree.c:81.
- Socket pipe: the counters success_conn and write_available, which only decide between pop and trypop and how many connections to open; EAGAIN; the frl_pipe_data_t slot that carries a message through the queue.
- PipeSender.MessagesAreConserved: a second message on a connection is conserved, but by OneMessagePerConnection it stays in flight until the connection fails.
- Hashes: the variants for VALGRIND, the self tests, and the statistical quality of the hash.
- thread_consumer and thread_producer, whose wait tests no condition; frl_util_server_event.cpp, frl_util_md5.cpp, frl_list.c, frl_hash.c, frl_managed_mem.c, src/worker, src/supervisor and src/old.
