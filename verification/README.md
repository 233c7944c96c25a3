# Phabos: a verified model of the kernel's hard core

Phabos is a small microkernel written in C. This project models, in Dafny, the parts of it whose
correctness is not apparent from reading one function, and proves what they promise.

* `Tiling.dfy`, `BuddyAllocator.dfy` (with `Pow2.dfy`): the buddy allocator of `kernel/mm.c`. The free and the
  outstanding blocks tile every region; no two free buddies are left between calls. The central result is
  history independence: the outstanding blocks alone decide which blocks are free. It gives a search that
  fails only when no aligned room is left, and regions that are whole again once everything is returned.
* `Mcache.dfy`: the slab cache of `kernel/mcache.c` on top of that allocator. Bitmaps, reference counts and the
  three slab lists agree, and over any run the number of slabs is the peak number of outstanding objects divided
  by five, rounded up. An object in a slab that has a page overlaps no other such object and goes back to its own
  slab; a slab has a page exactly if the allocator had room when it was made. When it had none the code makes the
  slab all the same, at 0xfffffff0, and two such slabs lie on top of each other.
* `HashTable.dfy`: the open-addressing hash table of `lib/hashtable.c` as a map, through collisions, tombstones
  and resizes, with the exact condition under which a lookup ends and a bound on how long it is met.
* `List.dfy` (and `Seqs.dfy`): the intrusive circular list of `lib/list.c`, on its pointers. The other modules
  hold such a list as a sequence.
* `DwI2c.dfy`: the transfer engine of `drivers/i2c/dw.c`. However interrupts and FIFO levels cut a transfer, the
  commands sent are the flattened message list and the bytes received fill the read buffers in order. When the
  controller reports STOP as it should, all of it is complete.
* `Greybus.dfy`: the operation core of `drivers/greybus/greybus-core.c` as a state machine, in which the worker's
  search, its comparison, the removal, the callback and the unref are separate steps. Reference counts are the
  numbers of holders, and a request that was sent completes at most once and is never lost, in every run in
  which no failing send crosses the worker on the same request; that condition is proved exact for each step.
* `Walk.dfy`: that worker's walks over its list while senders change it, and exactly when they end.
* `Semaphore.dfy`: `lib/semaphore.c`, with the five parts of semaphore_unlock as separate steps. If unlocks look at
  the wait list one at a time, the count is right, no wakeup is lost and tasks are released in order. Runs of
  overlapping unlocks show what else can happen: a lost wakeup, the list head taken for a task, a task queued
  twice. It is proved exactly when each of the last two happens; the count is right in every run before that.
* `Scheduler.dfy`: `kernel/scheduler*.c` and the wait lists of `kernel/task.c`: fair round robin, maximum priority.
* `UniPro.dfy`: the transmit worker of `drivers/unipro/unipro-tsb-es2.c`: no buffer is stranded, each CPort
  sends in order and calls each completion callback once.
* `Manifest.dfy`: the parser of `apps/greybus-utils/manifest.c`: it accepts exactly the concatenations of
  well-formed descriptors, and release undoes it under an exact condition.

What the C code does in place is a class with methods here. For most classes a function `View` gives the
state as a value, each method says which step function it carries out, and the lemmas are about the step
functions: what every step keeps, and hence what holds over every run. A section that the C code runs with
interrupts disabled or a lock held is one step; where it does neither, in `Semaphore.dfy` and `Greybus.dfy`,
each access to shared state is a step of its own. Memory is known by its addresses, which are natural
numbers; what the hardware or another module answers is a parameter, and every answer is allowed. Many
proofs start with a `hide` statement, which keeps definitions that are not needed away from the solver.

Where the code does not do what its design suggests, the code is kept, a concrete run shows it, and the condition
is proved: see `PayloadFitsUnlessSizeWraps`, `PageIsAccepted`, `GetPage` with `TwoSlabsWithoutPages`, `LookupEnds`
with `OneRoundOfAging`, `SendMessage` with `LostRestart`, `RemoveReleases` with `OverlappingUnlocksLoseAWakeup`,
`ReadFindsNoTask` with `ListHeadTakenForATask`, `QueuesTwice` with `OverlappingUnlocksQueueTwice`,
`FailedSendIsSafe` and `PickingIsSafe` with `MatchThenFailure`, `WalkEnds` with `FailureEndsNoWalk`, `StartFlag`
with `FlagLost`, and `ReleaseUndoesParse` below.

## Model

| member | source | states |
|---|---|---|
| Tiling.ClearSlotIsInOneFreeBlock | kernel/mm.c:162-200 | when no two free buddies are left, any aligned slot clear of outstanding blocks lies inside one free block, so free space is never fragmented needlessly |
| Tiling.FreeIsDeterminedByUsed | kernel/mm.c:162-200 | history independence: two coalesced heaps with the same regions and the same outstanding blocks have exactly the same free blocks |
| Tiling.AllReturned | kernel/mm.c:162-200 | with no block outstanding every region is exactly one free block of its own order |
| Tiling.WholeRegionsHeap | kernel/mm.c:67-107 | the state that mm_add_region sets up tiles the regions and has no free buddies |
| TilingSteps.SplitKeepsHeap | kernel/mm.c:146-157 | splitting a free block keeps the tiling of the regions |
| TilingSteps.SplitKeepsCoalesced | kernel/mm.c:128-160 | the only free buddies a split makes are its two halves: taking the lower one leaves none |
| TilingSteps.MergeKeepsHeap | kernel/mm.c:186-199 | merging two free buddies keeps the tiling |
| TilingSteps.BuddiesBelowRegionOrder | kernel/mm.c:162-200 | two buddies of one region are always smaller than the region, so coalescing stops in time |
| TilingSteps.TakeKeepsHeap | kernel/mm.c:247-255 | handing a free block out keeps the tiling |
| TilingSteps.ReturnKeepsHeap | kernel/mm.c:260-278 | taking an outstanding block back keeps the tiling |
| TilingSteps.AddRegionKeepsHeap | kernel/mm.c:67-107 | a disjoint new region as one free block keeps the tiling |
| BuddyAllocator.CountBitSet | kernel/mm.c:40-50 | the loop counts the binary digits that are set |
| BuddyAllocator.SizeToOrder | kernel/mm.c:52-65 | the least order whose blocks hold the size; 0 for size 0 |
| BuddyAllocator.PayloadFitsUnlessSizeWraps | kernel/mm.c:228-238 | in 32-bit arithmetic a block has room for header and payload if and only if adding the header does not wrap |
| BuddyAllocator.Mm.AddRegion | kernel/mm.c:67-107 | accepts exactly power-of-two sizes and then adds one free block; otherwise nothing changes |
| BuddyAllocator.MatchesBitByBit | kernel/mm.c:121 | the test of the flags holds if and only if every bit of the request is set in the region's flags |
| BuddyAllocator.ServesBitByBit | kernel/mm.c:202-222 | a region serves a request if and only if it passes that test, or DMA memory was not asked for and it is DMA memory |
| BuddyAllocator.Mm.FindBufferInBucket | kernel/mm.c:109-126 | the first block of the list in a region that has every flag asked for, bit by bit, or NULL when there is none |
| BuddyAllocator.Mm.FillBucket | kernel/mm.c:128-160 | on success the halves of a split block end the list and taking the lower one leaves a coalesced heap; on failure nothing moved and no block of this or a larger order would do |
| BuddyAllocator.Mm.Defragment | kernel/mm.c:162-200 | from a heap with one returned block, coalescing ends with no two free buddies, headers and lists right |
| BuddyAllocator.Mm.GetBuffer | kernel/mm.c:202-222 | a block of exactly the order with the flags, or from DMA memory only if no block with the flags was left; NULL only if neither has one, and then nothing changed |
| BuddyAllocator.BlockForEverySlot | kernel/mm.c:202-222 | completeness: a suitable free block exists if and only if some aligned range of the size, clear of outstanding blocks, exists in a region with the flags |
| BuddyAllocator.Mm.Kmalloc | kernel/mm.c:224-258 | NULL if and only if the size is 0 or no aligned range of the needed order is clear in any region that serves the request, bit by bit; otherwise one more outstanding block of the least order, in a region with every flag asked for unless none of those had room, the others untouched |
| BuddyAllocator.Mm.Kfree | kernel/mm.c:260-278 | the block is no longer outstanding, the heap is coalesced, and after the last one every region is whole |
| BuddyAllocator.Mm.PageAlloc | kernel/mm.c:280-285 | a block of order + PAGE_ORDER whose header may be overwritten, in an aligned range that was clear; 0xfffffff0, never NULL, if and only if there is no such range, and then nothing changes |
| BuddyAllocator.Mm.OverwriteHeader | kernel/mm.c:280-285 | the owner of a page may write over its header without harm to the heap |
| BuddyAllocator.SeenAt | kernel/mm.c:293-301 | page_free's walk over the region list stops at the first region that passes its test in 32 bits, or at none |
| BuddyAllocator.PageIsAccepted | kernel/mm.c:287-312 | page_free accepts an outstanding page if and only if its region does not end at 2^32, where the sum of start and size wraps |
| BuddyAllocator.AcceptedRange | kernel/mm.c:293-312 | where nothing wraps, page_free accepts exactly the ranges inside one region |
| BuddyAllocator.Mm.PageFree | kernel/mm.c:287-321 | the header is rebuilt from address and order alone; an address that no region seems to contain changes nothing |
| BuddyAllocator.UndoneWithoutTrace | kernel/mm.c:224-278 | two states between calls with the same outstanding blocks have the same free blocks |
| BuddyAllocator.OneOrder | kernel/mm.c:52-65 | the order of a size is unique |
| Mcache.BitsAreIndependent | kernel/mcache.c:113-119 | setting or clearing one bit of the bitmap leaves the others alone |
| Mcache.Slab.AllocObject | kernel/mcache.c:104-122 | gives the first object whose bit is clear, at its address in 32 bits, sets exactly that bit and counts it |
| Mcache.Slab.FreeObject | kernel/mcache.c:220-228 | the division finds the object's own bit; exactly that bit is cleared |
| Mcache.TakeKeepsValid | kernel/mcache.c:104-130 | an allocation keeps lists, counts, bitmaps and the slab bound in agreement |
| Mcache.FreeKeepsValid | kernel/mcache.c:220-242 | so does a free of an outstanding object |
| Mcache.PartialIsReady | kernel/mcache.c:193-218 | while a partial slab exists no new slab is needed for the next object |
| Mcache.MovedIsReady | kernel/mcache.c:174-191 | nor while an empty slab exists |
| Mcache.NewIsReady | kernel/mcache.c:174-191 | a slab is created only when every slab is full, which is when the peak requires one more |
| Mcache.ObjectsApart | kernel/mcache.c:104-122 | two objects of slabs that have pages never overlap, and none wraps around the address space; derived from the allocator's own tiling |
| Mcache.ExhaustedSlabsOverlap | kernel/mcache.c:149-163 | two slabs made while page_alloc had no room lie on top of each other: different objects with the same address |
| Mcache.TwoSlabsWithoutPages | kernel/mcache.c:132-218 | a cache of 52-byte objects on one region of 256 bytes: after six allocations two outstanding objects have the same address |
| Mcache.FullWhenFive | kernel/mcache.c:174-218 | no slab has an object left if and only if five times as many objects are out as there are slabs |
| Mcache.ExhaustedIsNeverFound | kernel/mcache.c:244-257 | a slab at 0xfffffff0 is found for no pointer, unless its objects are smaller than four bytes: the end of the slab wraps |
| Mcache.OwnSlabIsFound | kernel/mcache.c:244-268 | for an outstanding object whose slab has a page, that slab is in one of the two lists searched and is the only one, with a page or without, that passes the 32-bit test |
| Mcache.SlabsMatchPeak | kernel/mcache.c:132-218 | the number of slabs is the peak number of outstanding objects divided by five, rounded up |
| Mcache.Cache.constructor | kernel/mcache.c:37-64 | a cache with object size max(size, align) and no slab |
| Mcache.PagesAreLeast | kernel/mcache.c:144-147 | the division and its correction give the least number of pages that hold five objects |
| Mcache.OrderOfPages | kernel/mcache.c:149 | the order of that number of pages is the least order, from that of a page on, whose blocks hold five objects |
| Mcache.Cache.GetPage | kernel/mcache.c:144-151 | a block of that least order; 0xfffffff0 if and only if the allocator has no aligned clear range of that order in a region that serves the request, and never NULL |
| Mcache.Cache.AllocateNewSlab | kernel/mcache.c:132-172 | a fresh slab with all bits clear, also when there is no page for it; NULL only if no descriptor can be had |
| Mcache.Cache.MoveEmptySlabToPartialList | kernel/mcache.c:174-191 | the first empty slab, or a new one if there is none, becomes partial; with an empty slab at hand the allocator is not asked |
| Mcache.Cache.SlabAllocObject | kernel/mcache.c:104-130 | one object of the slab becomes outstanding, and a slab that is full then moves to the end of the full list |
| Mcache.Cache.Alloc | kernel/mcache.c:193-218 | an object that was not outstanding, of the first partial slab, else of the first empty one, else of a new slab; if its slab has a page the address is not NULL and shares no byte with any outstanding object of another page; no object only if all slabs are full and no descriptor can be had |
| Mcache.Cache.FindBufferSlabInList | kernel/mcache.c:244-257 | a slab of the list that passes the 32-bit test for the pointer, or NULL if there is none |
| Mcache.Cache.FindBufferSlab | kernel/mcache.c:259-268 | the same over the partial and then the full slabs |
| Mcache.Cache.SlabFreeObject | kernel/mcache.c:220-242 | the object goes back, and the slab to the end of the partial list, or of the empty list if that was its last |
| Mcache.Cache.Free | kernel/mcache.c:270-287 | an outstanding object whose slab has a page goes back to its own slab; NULL and pointers found in no slab in use change nothing |
| HashTable.ContentsMeaning | lib/hashtable.c:25-34 | the map of a table is exactly its used slots |
| HashTable.SearchDecides | lib/hashtable.c:25-34 | where a search stops decides whether the key is stored, and with which value |
| HashTable.LookupEnds | lib/hashtable.c:25-34 | a search for a key ends if and only if the key is stored or some slot was never used |
| HashTable.AllTombstonesLoop | lib/hashtable.c:25-34 | an empty table whose slots have all been used and freed: no lookup ends |
| HashTable.OneRoundOfAging | lib/hashtable.c:85-128 | eight rounds of adding and removing one key lead to that table |
| HashTable.HashTable.FewStoresEnd | lib/hashtable.c:25-34 | no lookup hangs before as many absent keys have been added as there are slots, since creation or the last resize |
| HashTable.StoreKeepsProbing | lib/hashtable.c:85-99 | storing on the probe path keeps every key reachable and updates the map |
| HashTable.RemoveKeepsProbing | lib/hashtable.c:118-128 | a tombstone keeps every other key reachable and removes one key from the map |
| HashTable.UsedKeysAreTheKeys | lib/hashtable.c:146-166 | slot order lists each stored key once |
| HashTable.HashUintOk | lib/hashtable.c:130-133 | hash_uint yields a slot of the table |
| HashTable.HashTable.constructor | lib/hashtable.c:54-77 | eight never-used slots: the empty map |
| HashTable.ProbeGoesUp | lib/hashtable.c:28-32 | the probe path goes up by one slot, modulo the size |
| HashTable.HashTable.GetNode | lib/hashtable.c:25-34 | the first slot on the probe path at which the search stops, whenever there is one |
| HashTable.HashTable.Get | lib/hashtable.c:104-111 | the value of the map, NULL for an absent key |
| HashTable.HashTable.Has | lib/hashtable.c:113-116 | true if and only if the key is stored with a value other than NULL |
| HashTable.HashTable.Remove | lib/hashtable.c:118-128 | the map without the key; exactly the key's slot becomes a tombstone |
| HashTable.FreeSlotIsFirst | lib/hashtable.c:88-89 | a search that takes tombstones ends, for an absent key, at the first slot of its path without a key; that is a tombstone if and only if one comes before the first never-used slot |
| HashTable.HashTable.StorePlace | lib/hashtable.c:85-89 | the key's own slot, else the first free one of its path, tombstones included |
| HashTable.HashTable.Add | lib/hashtable.c:85-102 | the map with the key set, in that slot; unless the table doubles, the never-used slots become one fewer exactly if the key was absent and no tombstone comes before the first of them on its path; afterwards less than half of the slots are in use |
| HashTable.HashTable.Resize | lib/hashtable.c:36-52 | the same map in a table of twice the size without tombstones; the adds inside never resize again, so the mutual recursion ends |
| HashTable.HashTable.Iterate | lib/hashtable.c:146-166 | the next used slot from the iterator on, or false when there is none |
| HashTable.HashTable.NextVisit | lib/hashtable.c:146-166 | in a table whose visited keys have been removed, the iterator finds the next key of the original table |
| HashTable.HashTable.Free | fs/fd.c:55-71 | exactly the slot of the key becomes a tombstone, unless it holds NULL |
| HashTable.HashTable.FreeAll | kernel/task.c:119-129 | iterating until false, with each visited key removed in the loop body, visits the stored keys in slot order, each once, and leaves none but those with NULL |
| List.RotatedRing | lib/list.c:10-64 | a ring can be seen from any of its nodes |
| List.RingIsClosed | lib/list.c:10-64 | the neighbours of a node of a list are in the same list |
| List.IsEmpty | lib/list.c:15-18 | true if and only if the list has no node |
| List.Add | lib/list.c:20-27 | the node is appended at the end, with all links consistent; adding a lone head to itself changes nothing |
| List.DelFrom | lib/list.c:45-50 | the others keep their order and the node is left alone in its own ring |
| List.RotateAnticlockwise | lib/list.c:52-57 | the first node becomes the last, also for zero and one nodes |
| List.RotateClockwise | lib/list.c:59-64 | the last node becomes the first, also for zero and one nodes |
| List.RotationsMove | lib/list.c:52-64 | where each node of the list is after a rotation |
| List.RotationsUndoEachOther | lib/list.c:52-64 | the two rotations are inverse to each other |
| List.SortedAdd | lib/list.c:29-43 | the node is linked in front of the first one it must precede |
| List.InsertedInPlace | lib/list.c:29-43 | the node is in front of the first one it must precede and behind all that it need not; the others keep their order |
| List.SortedInsertSorts | lib/list.c:29-43 | a sorted list stays sorted and the node comes after its equals |
| DwI2c.SentBytes | drivers/i2c/dw.c:252-284 | wherever the engine stands, the WRITE commands carry the data of the write messages, in order, and there is one command for each byte |
| DwI2c.SentAt | drivers/i2c/dw.c:252-284 | the command for byte j of message i, counted from the start of the transfer, is a READ or the WRITE of that byte |
| DwI2c.SentIsPrefix | drivers/i2c/dw.c:209-308 | wherever the engine stands, the commands sent are, apart from RESTART bits, a prefix of those of the whole transfer, and all of them at the end |
| DwI2c.SentIncreases | drivers/i2c/dw.c:209-308 | a later position has sent strictly more, and never revises what was sent |
| DwI2c.StopOnlyAtTheEnd | drivers/i2c/dw.c:245-260 | STOP is on exactly the last command of the last message (START and STOP conditions: section 3.1.4 of NXP UM10204) |
| DwI2c.RestartOnlyAtBoundaries | drivers/i2c/dw.c:232-266 | RESTART is on exactly the first command of each later message, except those taken up when there was no room (the set stalled; see SendMessage) |
| DwI2c.LostRestart | drivers/i2c/dw.c:238-295 | a run of the engine with messages of 8 and 1 bytes: the first fills the TX FIFO, and the second goes out without RESTART |
| DwI2c.ReadsFillBuffers | drivers/i2c/dw.c:262-276 | the READ commands sent are as many as the bytes of the read buffers they are for |
| DwI2c.ReadsNeverExceedBuffers | drivers/i2c/dw.c:262-276 | so no byte is left over when all read buffers are full |
| DwI2c.UnsignedIsModular | drivers/i2c/dw.c:269 | the difference of an int and an unsigned int is the one modulo 2^32 |
| DwI2c.ReadPauses | drivers/i2c/dw.c:252-270 | the engine pauses exactly if a FIFO is full or, for a read, exactly as many READs are outstanding as there is room; not if there are more |
| DwI2c.UniformMeans | drivers/i2c/dw.c:226-236 | a transfer is accepted if and only if all messages have one address and none is empty |
| DwI2c.Engine.SendBytes | drivers/i2c/dw.c:244-292 | the inner loop sends the next bytes of the message in order, each as a READ or as the WRITE of that byte, until it is done or a FIFO has no room; it sends something if and only if there was room at first |
| DwI2c.Engine.SendMessage | drivers/i2c/dw.c:224-295 | when a message is taken up, its first command goes out now, and then with RESTART if it is not the first message, if and only if the levels just read leave room in both FIFOs and, for a read, for the bytes outstanding; otherwise the message joins stalled; no other command of the round carries RESTART |
| DwI2c.Engine.SendMessages | drivers/i2c/dw.c:209-300 | the outer loop resumes at the saved position; it stops only at the end, for want of room, or with EINVAL on an empty message or a changed address |
| DwI2c.Engine.TransferMsg | drivers/i2c/dw.c:209-308 | the same, and the TX interrupt stays unmasked if and only if there is more to send and no error |
| DwI2c.Engine.DrainBytes | drivers/i2c/dw.c:332-338 | bytes go to their places in order; no write passes the end of a buffer |
| DwI2c.Engine.DrainMessage | drivers/i2c/dw.c:310-349 | one message takes what is there and what it has room for, from its saved position |
| DwI2c.Engine.DwRead | drivers/i2c/dw.c:310-349 | every byte that has come in is drained into the read buffers in order; outstanding READs equal READs sent less bytes drained |
| DwI2c.Engine.Interrupt | drivers/i2c/dw.c:479-516 | any interrupt, with any FIFO levels, keeps both saved positions right; the caller is released on STOP_DET or an error, and if the controller has then executed a command with STOP, answered every READ and reports waiting bytes, the whole transfer was sent and the read buffers hold exactly the bytes received |
| DwI2c.Engine.Prefix | drivers/i2c/dw.c:209-308 | at every moment the commands sent are a prefix of the transfer |
| DwI2c.Engine.Commands | drivers/i2c/dw.c:209-308 | at every moment there is one command for each byte done with, at that byte's place, a READ or the WRITE of that byte |
| DwI2c.Engine.StopMeansAllSent | drivers/i2c/dw.c:256-260 | a STOP command has been sent only if all messages have |
| DwI2c.Engine.Complete | drivers/i2c/dw.c:209-349 | when all is out and no READ is outstanding, the WRITE commands carry exactly the data of the write messages and the read buffers hold exactly the bytes received |
| DwI2c.Engine.constructor | drivers/i2c/dw.c:371-400 | the global state with which a transfer starts |
| Manifest.CutIsExact | apps/greybus-utils/manifest.c:190-235 | the loop's cut skips and repeats nothing, takes at least 8 bytes a piece, and every piece is well formed |
| Manifest.CutIsUnique | apps/greybus-utils/manifest.c:190-235 | a body made of well-formed descriptors is cut into exactly these |
| Manifest.AcceptsExactlyConcatenations | apps/greybus-utils/manifest.c:190-235 | nothing is left over if and only if the body is a concatenation of well-formed descriptors |
| Manifest.ReleaseUndoesParse | apps/greybus-utils/manifest.c:84-107 | releasing the CPorts just registered restores the list if and only if none of their ids was in it before |
| Manifest.Parser.AllocCport | apps/greybus-utils/manifest.c:84-94 | the CPort is appended |
| Manifest.Parser.FreeCport | apps/greybus-utils/manifest.c:96-107 | every CPort with the id leaves the list, also several in a row |
| Manifest.AcceptableHead | apps/greybus-utils/manifest.c:127-179 | a descriptor is well formed if and only if its little-endian size fits what is left and covers what its type takes, byte by byte |
| Manifest.ReadsWrittenManifest | apps/greybus-utils/manifest.c:149-235 | round trip: a manifest written with the CPort descriptors of a list has a good header, is cut without rest, and its parse registers each id with its protocol |
| Manifest.Parser.IdentifyDescriptor | apps/greybus-utils/manifest.c:119-188 | accepts exactly a well-formed descriptor at the cursor; of a CPort descriptor it registers bytes 4 and 5 as the id and byte 7 as the protocol, or releases that id; otherwise EINVAL and no change |
| Manifest.Parser.ParseDescriptors | apps/greybus-utils/manifest.c:219-232 | succeeds if and only if nothing is left over; the cursor never passes the end |
| Manifest.Parser.Parse | apps/greybus-utils/manifest.c:190-235 | with a valid header (its own size, little-endian, and major version 0) succeeds exactly for concatenations of well-formed descriptors, whose CPorts are registered in order; a bad header changes nothing |
| Semaphore.StepKeepsBalance | lib/semaphore.c:56-123 | every step keeps: the count is the initial value plus ups minus completed downs in 32 bits, and never below zero |
| Semaphore.StepKeepsTasks | lib/semaphore.c:56-123 | every step, if list_first_entry finds a task, keeps: a task waits at most once, and not while it is woken or off every list |
| Semaphore.UnlockersAfter | lib/semaphore.c:114-123 | how each step changes the number of unlocks under way |
| Semaphore.StepKeepsSafe | lib/semaphore.c:56-123 | every step, if a removal finds its task still waiting, keeps: while tasks wait, the count is at most the woken tasks plus the unlocks under way; and each unlock is under way, saw an empty list, or released a task |
| Semaphore.RemoveReleases | lib/semaphore.c:120-122 | an unlock releases a task if and only if the one it read is still waiting when it removes it; otherwise a wakeup is lost if and only if somebody waits and no other wakeup is to spare |
| Semaphore.StepKeepsSerial | lib/semaphore.c:56-123 | while unlocks look at the list one at a time, list_first_entry finds a task, the task read stays first in the list, and tasks are released in the order in which they blocked |
| Semaphore.StepKeepsMatched | kernel/task.c:149-156 | while removals find their task waiting, each unlocker between list_del and enqueueing has a task of its own, and queues it once |
| Semaphore.RunKeepsInvariant | lib/semaphore.c:56-123 | each of these over every run: one in which list_first_entry always finds a task and no task is queued twice, one in which removals find their task waiting, or one with unlocks one at a time; the last two are cases of the first |
| Semaphore.RunIsSound | lib/semaphore.c:56-123 | as long as list_first_entry finds a task and none is queued twice, downs never exceed the initial value plus ups, and the count is their difference |
| Semaphore.GuardedRunIsSafe | lib/semaphore.c:56-123 | no wakeup is lost and no task is queued twice as long as each removal finds its task still waiting |
| Semaphore.SerialisedRunIsSafe | lib/semaphore.c:56-123 | with unlocks one at a time list_first_entry always finds a task, each removal finds it waiting, none is queued twice, no wakeup is lost, and release is in order |
| Semaphore.ListIsEmpty | lib/semaphore.c:120-122 | over any run the list ends empty if and only if it was emptied by a removal, or empty at first, and nobody has begun to wait since |
| Semaphore.ReadFindsNoTask | lib/semaphore.c:120-122 | after its look at a non-empty list an unlocker takes the list head for a task if and only if another one has removed the last waiting task in between and nobody has begun to wait since |
| Semaphore.QueuesTwice | kernel/task.c:149-156 | after its list_del an unlocker queues a task that is in a list already if and only if another one has queued the same task in between and nobody has taken it off since |
| Semaphore.OverlappingUnlocksLoseAWakeup | lib/semaphore.c:114-123 | a run with two overlapping unlocks ends with a task waiting, a positive count and nobody on the way |
| Semaphore.ListHeadTakenForATask | lib/semaphore.c:120-122 | a run in which the second of two unlockers reads a list that the first has emptied |
| Semaphore.OverlappingUnlocksQueueTwice | kernel/task.c:149-156 | a run in which two unlockers remove the same task before the first queues it |
| Semaphore.MutualExclusion | lib/semaphore.c:94-123 | with initial value one, at most one more down than ups is ever complete in a run of which RunIsSound speaks |
| Semaphore.Settles | lib/semaphore.c:56-123 | unlocks under way and woken tasks finish within a bounded number of steps; if no wakeup was lost, then nobody waits or the count is zero |
| Semaphore.Semaphore.constructor | lib/semaphore.c:31-38 | the initial state |
| Semaphore.Semaphore.TryDown | lib/semaphore.c:66-80 | takes the semaphore if the count is positive, else waits at the end of the list |
| Semaphore.Semaphore.Lock | lib/semaphore.c:56-87 | the first turn of the loop is one step of the state machine |
| Semaphore.Semaphore.LockAgain | lib/semaphore.c:66-74 | a woken task decides anew |
| Semaphore.Semaphore.TryLock | lib/semaphore.c:99-112 | true if and only if it completed a down; it never waits |
| Semaphore.Semaphore.Increment | lib/semaphore.c:114-118 | the increment of an unlock, with 32-bit wrap-around |
| Semaphore.Semaphore.Check | lib/semaphore.c:120 | the look at the list, by itself |
| Semaphore.Semaphore.Read | lib/semaphore.c:121 | the reading of the first entry, by itself; the invariant survives if and only if there is one |
| Semaphore.Semaphore.Remove | kernel/task.c:149-153 | the list_del of the task that was read; it keeps the wakeup invariant if that task is still waiting |
| Semaphore.Semaphore.Queue | kernel/task.c:155 | the enqueueing, by itself |
| Scheduler.TopIsHighest | kernel/scheduler-rr.c:42-44 | the loop finds the highest non-empty priority |
| Scheduler.PicksGoRound | kernel/scheduler-rr.c:36-54 | with the queue left alone, the k-th pick returns the (k+1)-th task of the highest list, counted around, and touches no other list |
| Scheduler.RoundIsFair | kernel/scheduler-rr.c:36-54 | n picks of n tasks return each exactly once, in queue order, and leave the queue as it was (SCHED_RR: section 2.8.4 of POSIX.1-2017 System Interfaces) |
| Scheduler.ScheduleChoosesMaximum | kernel/scheduler.c:97-124 | schedule() chooses a queued task of maximum priority over both policies, the FIFO one at a tie, and the idle task if and only if all queues are empty |
| Scheduler.ScheduleGoesRound | kernel/scheduler.c:97-124 | repeated calls give the highest round-robin list's tasks turns in order, and keep choosing the first task of a FIFO list at the top |
| Scheduler.NewHighestRuns | kernel/scheduler.c:63-124 | a task made runnable above all queued ones is the next that schedule() chooses |
| Scheduler.ScheduleKeepsPlaced | kernel/scheduler.c:97-135 | schedule() keeps every task in its place |
| Scheduler.DefaultIsRoundRobin | kernel/scheduler.c:69-76 | a task without a policy joins the end of its round-robin list and keeps to that policy |
| Scheduler.AddKeepsPlaced | kernel/scheduler.c:63-85 | adding an unlinked task keeps every task at most once, in the list of its policy and priority |
| Scheduler.RemoveKeepsPlaced | kernel/scheduler.c:87-95 | removing a task leaves it in no list and keeps the rest |
| Scheduler.WaitKeepsPlaced | kernel/task.c:140-147 | waiting moves a task from its run queue to the wait list |
| Scheduler.WakeKeepsPlaced | kernel/task.c:149-156 | waking moves it back, out of every wait list |
| Scheduler.WaitThenWake | kernel/task.c:140-156 | a task that waited and was woken is behind all others of its priority, and nothing else changed |
| Scheduler.BroadcastWakesAll | kernel/task.c:113-117 | after a broadcast nobody waits on the condition; the other wait lists are untouched |
| Scheduler.BroadcastQueues | kernel/task.c:113-117 | each run queue gains exactly the waiters of its policy and priority, behind its own and in waiting order |
| Scheduler.Scheduler.constructor | kernel/scheduler.c:41-61 | empty lists, the idle task running |
| Scheduler.Scheduler.RrPickTask | kernel/scheduler-rr.c:36-54 | the loop rotates the highest non-empty list and returns its first task |
| Scheduler.Scheduler.FifoPickTask | kernel/scheduler-fifo.c:36-53 | the loop returns the first task of the highest non-empty list |
| Scheduler.Scheduler.AddToRunqueue | kernel/scheduler.c:63-85 | appends to the right list and asks for a switch if the priority is above the current one; EINVAL for a priority out of range, with the state marked running all the same |
| Scheduler.Scheduler.RmFromRunqueue | kernel/scheduler.c:87-95 | leaves its list, or EINVAL if it has no policy |
| Scheduler.Scheduler.Schedule | kernel/scheduler.c:97-124 | the loop over the two policies computes the choice; nothing changes while the scheduler is locked |
| Scheduler.Scheduler.AddToWaitList | kernel/task.c:140-147 | it leaves its run queue and is last in the wait list |
| Scheduler.Scheduler.RemoveFromWaitList | kernel/task.c:149-156 | it leaves the wait list and is last in its run queue |
| Scheduler.Scheduler.CondSignal | kernel/task.c:107-111 | the longest waiter, and only that one, becomes runnable |
| Scheduler.Scheduler.CondBroadcast | kernel/task.c:113-117 | all waiters become runnable, in order |
| UniPro.StepKeepsCovered | drivers/unipro/unipro-tsb-es2.c:306-334 | every step keeps: queued buffers never exceed the wakeups pending, about to be posted, or taken and not yet used |
| UniPro.VisitKeepsInvariant | drivers/unipro/unipro-tsb-es2.c:251-304 | a visit keeps per CPort: accepted messages are completed once and in order or still queued, and the stream is what they sent, byte for byte and with their start flags |
| UniPro.EnqueueKeepsInvariant | drivers/unipro/unipro-tsb-es2.c:432-446 | so does queueing a buffer |
| UniPro.VisitResult | drivers/unipro/unipro-tsb-es2.c:266-304 | a visit answers EBUSY if and only if it leaves a buffer that it found; otherwise a buffer that was there is gone |
| UniPro.DisconnectedDrops | drivers/unipro/unipro-tsb-es2.c:286-292 | on a disconnected CPort the first buffer is dropped with EPIPE and nothing is sent |
| UniPro.ConnectedSends | drivers/unipro/unipro-tsb-es2.c:294-303 | on a connected one it is completed with status 0 and the message ended if the space holds the rest, and else sent on by the space there is |
| UniPro.RunKeepsInvariant | drivers/unipro/unipro-tsb-es2.c:251-449 | all of this holds over every interleaving of senders and worker |
| UniPro.QuiescentIsEmpty | drivers/unipro/unipro-tsb-es2.c:306-449 | with the worker blocked and no wakeup under way every FIFO is empty and every accepted message has had its callback, once, in order, with all its bytes if the status is 0 |
| UniPro.WorkerDrains | drivers/unipro/unipro-tsb-es2.c:306-334 | while there is space or the CPorts are disconnected, the worker takes a bounded number of steps and then every FIFO is empty |
| UniPro.VisitsSendTheData | drivers/unipro/unipro-tsb-es2.c:266-304 | over any visits a message is complete, with all its data, if and only if the space they found adds up to what was left of it; until then all the space was used for it |
| UniPro.StartFlag | drivers/unipro/unipro-tsb-es2.c:284-295 | any visit to a CPort in any reachable state: a message gets its start flag in the stream if and only if this is its first visit with the CPort connected, it has data and there is space; the visit uses up the flag in any case |
| UniPro.FirstVisitDecides | drivers/unipro/unipro-tsb-es2.c:284-295 | so over any sequence of visits a message starts with the flag if and only if the first one found space |
| UniPro.EnqueueKeepsFlag | drivers/unipro/unipro-tsb-es2.c:432-446 | queueing another message touches neither the flag nor the start of one |
| UniPro.FlagLost | drivers/unipro/unipro-tsb-es2.c:294 | a visit without space and one with space: the message is complete and reported as sent, and its first byte in the stream has no start flag |
| UniPro.Driver.QueueBuffer | drivers/unipro/unipro-tsb-es2.c:416-445 | EPIPE, ENOMEM, or the buffer last in its FIFO |
| UniPro.Driver.Up | drivers/unipro/unipro-tsb-es2.c:447 | the sender's wakeup |
| UniPro.Driver.SendTxBuffer | drivers/unipro/unipro-tsb-es2.c:266-304 | sends what fits, completes the buffer when all is sent, drops it when the CPort is disconnected |
| UniPro.Driver.ServeNext | drivers/unipro/unipro-tsb-es2.c:319-329 | one turn of the for loop is one step of the state machine and keeps the invariant |
| UniPro.Driver.BrowseCPorts | drivers/unipro/unipro-tsb-es2.c:317-330 | one pass visits every CPort once; busy if and only if some buffer is left half sent |
| UniPro.Driver.HandleWakeup | drivers/unipro/unipro-tsb-es2.c:313-332 | one wakeup: when the passes end, what is queued is covered by wakeups to come |
| Greybus.UnrefKeepsBalance | drivers/greybus/greybus-core.c:721-740 | dropping a held reference, down the chain of responses, keeps every count equal to the number of holders and gives back exactly what has none |
| Greybus.RefKeepsBalance | drivers/greybus/greybus-core.c:714-719 | a new holder takes a reference |
| Greybus.AttachKeepsBalance | drivers/greybus/greybus-core.c:300-303 | attaching a response takes a reference for the link from the request |
| Greybus.UnrefFrame | drivers/greybus/greybus-core.c:721-740 | nothing but counts changes in the operations that remain |
| Greybus.IdFormula | drivers/greybus/greybus-core.c:550-554 | request ids go round from 1 to 65535, across wrap-around of the 16-bit field and the 32-bit counter |
| Greybus.IdsDiffer | drivers/greybus/greybus-core.c:550-554 | ids are never 0, any 65535 consecutive ones differ, and the next one repeats |
| Greybus.MatchIsUnique | drivers/greybus/greybus-core.c:289-294 | while waiting requests are among the last 65535, an id matches at most one of them |
| Greybus.ControlStepKeepsOk | drivers/greybus/greybus-core.c:257-592 | every step keeps the queues: tx_fifo holds the waiting requests once, each callback was called once and for a completed request, the semaphore counts rx_fifo |
| Greybus.StepKeepsBalance | drivers/greybus/greybus-core.c:257-343 | every step of senders, receive path, timeout and worker keeps the counts right |
| Greybus.StepKeepsInvariant | drivers/greybus/greybus-core.c:257-592 | every step keeps the whole invariant, if a failing send finds its request in tx_fifo and not picked by the worker, and the worker picks a request that is still in tx_fifo |
| Greybus.RunKeepsInvariant | drivers/greybus/greybus-core.c:257-592 | so does every run of such steps, with search, comparison, removal, callback and unref interleaved freely with everybody else |
| Greybus.SentIsWaitingOrComplete | drivers/greybus/greybus-core.c:257-312 | a request sent successfully is in tx_fifo, or taken off and about to have its callback, or has had it by response or timeout: exactly one of the three, and once |
| Greybus.CompletionIsFinal | drivers/greybus/greybus-core.c:257-312 | a completed operation never returns to tx_fifo and keeps how it was completed |
| Greybus.AliveWhileHeld | drivers/greybus/greybus-core.c:714-740 | in every run an operation exists if and only if it has a holder: the rest of the system, tx_fifo, the receive path, the worker or a request whose response it is |
| Greybus.ResponseIsThere | drivers/greybus/greybus-core.c:782-800 | an operation has a response if and only if it was answered, and the response is still alive |
| Greybus.WakeupsMatchEntries | drivers/greybus/greybus-core.c:314-325 | the semaphore counts the entries of rx_fifo, which holds the timeout marker at most once |
| Greybus.MessagesInOrder | drivers/greybus/greybus-core.c:314-407 | over every run the worker takes the messages in the order in which they came, and those not taken are in rx_fifo |
| Greybus.FailedSendIsSafe | drivers/greybus/greybus-core.c:583-589 | a failed send works on an operation that still exists and leaves the counts right, if and only if its request is in tx_fifo and not picked by the worker |
| Greybus.FailedSendTakesAnother | drivers/greybus/greybus-core.c:583-589 | if the request was given back and its memory is the next operation's, that one is taken from its creator |
| Greybus.PickingIsSafe | drivers/greybus/greybus-core.c:262-270 | picking a request whose id matches, or that has timed out, leaves the counts right if and only if it is still in tx_fifo |
| Greybus.TimeoutThenFailure | drivers/greybus/greybus-core.c:257-279 | a run in which the request times out before its send fails, and its creator is left with an operation that was given back |
| Greybus.GivenBackThenFailure | drivers/greybus/greybus-core.c:257-279 | a run in which the request is completed and given back by all before its send fails |
| Greybus.MatchThenFailure | drivers/greybus/greybus-core.c:289-309 | a run in which the send fails after the worker has matched the request and before it takes it out: found in tx_fifo, yet its creator is left with an operation that was given back |
| Greybus.FailureThenMatch | drivers/greybus/greybus-core.c:289-309 | a failing send that is harmless by itself, after which the worker picks the request at which it stands |
| Greybus.CPort.constructor | drivers/greybus/greybus-core.c:409-422 | empty queues |
| Greybus.CPort.OperationRef | drivers/greybus/greybus-core.c:714-719 | counts one more holder |
| Greybus.CPort.OperationUnref | drivers/greybus/greybus-core.c:721-740 | the recursion is the one of the specification and ends |
| Greybus.CPort.OperationCreate | drivers/greybus/greybus-core.c:743-764 | a new operation held by its creator |
| Greybus.CPort.NextRequestId | drivers/greybus/greybus-core.c:550-554 | the next id, skipping zero |
| Greybus.CPort.OtherRequest | drivers/greybus/greybus-core.c:550-554 | a request elsewhere on the bus only uses up an id |
| Greybus.CPort.SendRequest | drivers/greybus/greybus-core.c:537-566 | the request has a non-zero id, a reference for tx_fifo and the last place in it |
| Greybus.CPort.SendFinish | drivers/greybus/greybus-core.c:580-592 | a failed send takes the request out and drops its reference; the invariant holds if the send succeeded or the request was there and not picked |
| Greybus.CPort.RxHandler | drivers/greybus/greybus-core.c:345-407 | exactly well-sized messages for a driver without a fast handler become operations in rx_fifo; everything else changes nothing |
| Greybus.CPort.OnTimeout | drivers/greybus/greybus-core.c:519-535 | the marker is queued last unless it already is queued |
| Greybus.FoundIsFirst | drivers/greybus/greybus-core.c:289-294 | the search ends at the first entry of the list with the id, or finds none if there is none |
| Greybus.CPort.FindRequest | drivers/greybus/greybus-core.c:289-294 | the first waiting request with the id, or none |
| Greybus.CPort.LookAt | drivers/greybus/greybus-core.c:289-294 | the walk comes to an entry and compares, in two steps without a lock |
| Greybus.CPort.TakeOff | drivers/greybus/greybus-core.c:296-299 | the list_del, a step of its own |
| Greybus.CPort.CallBack | drivers/greybus/greybus-core.c:301-306 | the response is attached and the callback called |
| Greybus.CPort.DropRequest | drivers/greybus/greybus-core.c:307 | the reference of tx_fifo is dropped |
| Greybus.CPort.ProcessResponse | drivers/greybus/greybus-core.c:281-312 | a response completes the first waiting request with its id, if there is one, and changes nothing otherwise |
| Greybus.ExpiredSplits | drivers/greybus/greybus-core.c:261-276 | the requests completed by a walk are the expired ones of each part of the list, in order |
| Greybus.KeptSplits | drivers/greybus/greybus-core.c:261-276 | and those kept are the others of each part, in order |
| Greybus.CPort.CleanTimedout | drivers/greybus/greybus-core.c:257-279 | exactly the expired requests leave tx_fifo, in order, each with its callback and marked as timed out |
| Greybus.CPort.HandleMessage | drivers/greybus/greybus-core.c:337-341 | if the message is a response and a waiting request has its id, the first such request leaves tx_fifo, has its callback and is answered with it; in all other cases tx_fifo, callbacks and phases stay |
| Greybus.CPort.WorkerTurn | drivers/greybus/greybus-core.c:314-343 | one turn takes the first entry of rx_fifo: for the marker the expired requests are completed, for a message the above |
| Walk.StepKeepsLinked | include/phabos/list.h:37-40 | every step that leaves the saved next entry in the list keeps the walk going towards the end: each visit brings it nearer by one, each new entry puts it off by one at most |
| Walk.RunKeepsLinked | drivers/greybus/greybus-core.c:257-309 | so does every run; and after a run in which the saved entry was taken away the walk comes to that entry for ever |
| Walk.WalkEnds | drivers/greybus/greybus-core.c:257-309 | a walk with as many visits as there were entries, and one more for each added, has ended if and only if the entry saved as the next was never taken away |
| Walk.FailureEndsNoWalk | drivers/greybus/greybus-core.c:583-589 | two entries, of which the second one's send fails while the first is visited: no number of visits ends the walk |

## Left out

- BuddyAllocator.Mm.Kmalloc: does not cover sizes from 2^32 - 16 on, for which adding the header wraps and blocks smaller than a header would be split off; `PayloadFitsUnlessSizeWraps` says exactly when that happens.
- BuddyAllocator.Mm.AddRegion: does not cover regions of fewer than 16 bytes, which the source accepts although a block header does not fit in them.
- mm_init and find_msb (kernel/mm.c:366-425): regions are given, disjoint, of power-of-two size and aligned to it; mm_init does not advance mm_start between regions.
- Usage counters and the libc wrappers, realloc among them (kernel/mm.c:323-364).
- mcache_destroy and its slab destruction (kernel/mcache.c:66-102), constructors and destructors of objects, and a NULL cache.
- Mcache.Cache.constructor: caches whose slab is larger than 2 GB are excluded: the size of the slab would wrap, or its order exceed what page_alloc can shift by.
- Mcache.Cache.Free: does not cover a pointer that passes the test of a slab in use without being an outstanding object of a slab with a page, which the source does not check for either; an object of a slab without a page can be such a pointer.
- Mcache: what is written through the objects of a slab at 0xfffffff0, and usage counters.
- HashTable.HashTable.Resize: an allocation that fails in hashtable_resize, which the source does not check, is not modelled.
- hash_string, its key comparison and hashtable_destroy; any hash function that yields a slot of the table is allowed.
- DwI2c.Engine.TransferMsg: does not promise that the RX FIFO never overflows, because the room is computed with an unsigned difference.
- The transmit abort codes, watchdog, register setup and semaphore of drivers/i2c/dw.c, and buffers of two messages that overlap in memory.
- Manifest.Parser.AllocCport: a malloc that fails, after which the source writes through NULL (apps/greybus-utils/manifest.c:149-150), is not modelled.
- Manifest.Parser.Parse: a release pass over fewer than four bytes, whose size would wrap, is not modelled; the text of strings and the bundle table are left out as well.
- Semaphore.Semaphore.Remove: what follows when the list head was taken for a task, or a task queued that is in a list already, is not modelled; nor a removal of a task that waits on another list by then, which another semaphore's history would miss, or that has ended.
- Interruptible waits of lib/semaphore.c, and the barriers around locks.
- Scheduler.Scheduler.CondSignal: a signal on a condition without waiters, for which the source takes the list head for a task, is excluded; and the source reads the first waiter before interrupts are disabled (kernel/task.c:109), while here that and the removal are one step.
- Scheduler.Scheduler.RemoveFromWaitList: the list_del and the enqueueing, between which the source enables interrupts (kernel/task.c:153-155), are one step here, and so are the two halves of AddToWaitList (kernel/task.c:142-146).
- Context switches, register save areas, killing and destroying tasks, changing a task's policy, and the mutex around task_cond_wait.
- UniPro: the synchronous tsb_unipro_send, the receive side, attributes and register setup; a TX buffer that never drains.
- Greybus: an operation that was given back is not created again under the same name; FailedSendTakesAnother says what happens then.
- Greybus: several CPorts appear only through the ids they use up; the request handlers, send_response, the tape and the clock that decides what has timed out are left out, and an operation is sent at most once.
- Greybus.CPort.CleanTimedout: as a method, like ProcessResponse, it is a run of the worker's steps with no step of others in between; the lemmas about runs allow those. When such a walk ends is in `Walk`.
- Counters other than those named are unbounded.
