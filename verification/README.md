# A verified model of v8malloc

v8malloc is a multi-tier memory allocator written in C. This project models the
parts of it whose correctness is least obvious and proves, in Dafny 4.11, what
they promise:

- **Buddy tier** (`BuddyTree`, `FreeLists`, `FreePairs`, `BuddyArena`, `BuddyPool`):
  the 256 KiB arena as a seven-level tree held in two bitmaps per level, with
  intrusive doubly linked free lists in the blocks' own memory; immediate and deferred
  coalescing; the pool of arenas with its drain, revive and sweep life cycle.
- **L2 core cache** (`CoreCache`): the Treiber stacks with a 48-bit pointer and a
  16-bit tag, as a machine of single atomic steps taken by any number of threads,
  whose owners may overwrite the first word of any node they hold.
- **Region map** (`RegionMap`, `Seqlock`): the sorted table of mappings, and the
  lock-free ownership query that reads it one word at a time under a version
  counter, with the verdict each thread keeps for the last 64 KiB page.
- **Slab tier** (`SizeClass`, `Slab`, `TinySlab`, `SmallSlab`, `SlabPool`,
  `HugePool`): bitmap pages and free-list pages, both shown to be queues of free
  slots; the current/partial/full life of a page and the drained-page cache; the
  carving of slab pages out of huge pages.
- **Thread cache and dispatcher** (`SlotLists`, `ThreadCache`, `Refill`, `Dispatch`,
  `Allocator`): bins threaded through the slots with their separate counts and
  adaptive capacities; the machine in which slots travel between application, bins,
  chains, stacks and pages; and the same machine word by word, on top of the lock-free
  stacks, for any number of threads.
- **Large and aligned allocations** (`Large`, `Aligned`).
- **Heap profile** (`Wire`, `Pprof`, `Profile`, `Gf2`, `Crc`, `CrcResidue`, `Gzip`): the
  protocol buffer encoder over a bounded buffer, a decoder for its output, the
  stored-block gzip member and its checksum, defined by division of polynomials.

`Basics` and `Bits` hold what these share. `dafny verify dfyconfig.toml` checks
everything.

## How the code is modelled

- Code that updates a structure in place is a class with methods; its state is tied
  to a specification by a `Valid()` predicate and by functions of the fields, and
  the laws are lemmas about those functions. Lists and tables that the code keeps
  linked or shifts in place are sequences, except where the links themselves matter
  (the buddy lists, the small-slab list, bins, chains and the core-cache stacks),
  where they are words of memory. Bitmap words are the sets of their one bits.
- Code that runs concurrently without a lock is a state machine of sequentially
  consistent steps. The mutexes make each operation they protect one step.
- A mapping the kernel hands out is a parameter (`region`, `supply`): absent when
  the kernel refuses, otherwise aligned and apart from everything held. Dropping
  pages with `MADV_DONTNEED` is a zero fill. Clocks, CPU and node numbers,
  configuration options and the outcome of `mprotect` are parameters too.
- Integers are unbounded, with wrap-around written out where it can happen: the
  16-bit tag and bin counts, the 32-bit averages, the 64-bit products.

## Where the code and its documentation differ

The model follows the code.

- `v8m_buddy_block_size` and the pool's free are documented to reject pointers that
  are not the start of a block. They accept any pointer into an allocated block, and
  the free lists the block at that very address (`BuddyPool.Pool.Free`). The block's
  next owner then gets memory that reaches into the following block
  (`BuddyPool.InteriorFreeOverlaps`), and for every node listed that way some further
  allocations make two objects overlap or one run out of its arena
  (`BuddyPool.OverlapFollows`). The pool stays sound exactly when the address listed
  is the start of the block: for pointers to the start of a live block or into none,
  and, when merging is immediate, also when a merge with a buddy on the left replaces
  the address (`BuddyArena.Buddy.Free`, `BuddyPool.Pool.StartsListRight`).
- With deferred coalescing a request may be refused although there is room for it
  (`BuddyPool.DeferredRefusalReached`). A refusal means that no place is left exactly
  when every split block of the level has an allocated block below it
  (`BuddyTree.RefusalIsExact`), as it has in merged arenas.
- `v8m_buddy_coalesce_all` is documented to return the number of pairwise merges. On
  an arena with nothing stranded it returns the number of buddy pairs that were free
  at the outset. The merges made are more by exactly one for each block merged from a
  half that is itself merged, so the two agree if and only if there is no such block
  (`BuddyArena.Buddy.CoalesceAll`); after a single 4 KiB block has come and gone they
  are one and six (`BuddyPool.SweepCountsOne`).
- With deferred coalescing a drained arena may be left with unmerged blocks; the zero
  fill of its pages then erases list links and those blocks are lost until the arena
  is released (`BuddyPool.DeferredDrainStrands`). No block is ever handed out twice,
  and nothing is lost exactly when the arena was fully merged
  (`BuddyArena.Buddy.DropPages`).
- The core cache is described as safe by virtue of its tag. Pushes are, with or without
  it. A pop is if and only if the word it stores is still that of the node below the
  top (`CoreCache.StepExact`, `CoreCache.RunExact`); fewer than 65536 exchanges between
  its load and its exchange guarantee that (`CoreCache.WindowSuffices`), and 65536 do
  not (`CoreCache.WindowIsExact`).
- The aligned path delegates alignments up to 16 on the grounds that every slot is
  16-byte aligned. The 8, 24, 40 and 56 byte classes are not
  (`Aligned.NaturalExactly`).
- The refill controller is described as following demand. The dispatcher always
  reports a demand of one, which the integer average never registers, so the batch
  stays at its minimum of eight (`Refill.Controller.ComputeBatch`).
- The recycle cache is described as first in, first out. Taking an entry moves the
  last one into its place, so only what is held is specified, not its order.

## Model

| member | source | states |
|---|---|---|
| `BuddyTree.Tiling` | src/v8m_buddy.c:122-240 | every 4 KiB page of the arena lies in exactly one block that is allocated or free, never both, at exactly one level: allocated and free blocks tile the arena |
| `BuddyTree.CoalescedFormUnique` | src/v8m_buddy.c:183-224 | once no two buddies are both free, the split bitmaps and the free blocks are determined by the allocated blocks alone |
| `BuddyTree.Canonical` | src/v8m_buddy.c:183-224 | that determined form, level by level, as a function of the allocated blocks |
| `BuddyTree.CanonicalCoalesced` | src/v8m_buddy.c:183-224 | the converse: bitmaps in that form have no two free buddies |
| `BuddyTree.FailureIsExact` | src/v8m_buddy.c:122-171 | with no two free buddies, there is no free block at a level or above exactly when every aligned place of that level overlaps an allocated block |
| `BuddyTree.FullExactly` | src/v8m_buddy.c:122-258 | merged or not: every place of a level is obstructed exactly when no free block is that large and every split block of the level has an allocated block below it |
| `BuddyTree.RefusalIsExact` | src/v8m_buddy.c:242-258 | so a refused request means that no place is left if and only if no block of its level is split without an allocated block below it |
| `BuddyTree.DeferredFailureNotExact` | src/v8m_buddy.c:242-258 | without merging the law fails: with these bitmaps, which BuddyPool.DeferredRefusalReached reaches by calls, an 8 KiB place is unobstructed and no free block has 8 KiB or more |
| `BuddyTree.EmptyCoalescedIsWhole` | src/v8m_buddy.c:318-326 | an empty, fully merged arena is one free block of the top level and nothing is split |
| `BuddyTree.EmptyOneBlock` | src/v8m_buddy.c:318-326 | an empty arena has at most one free block per level exactly when nothing is split, exactly when no two buddies are free |
| `BuddyTree.EmptyListsMeaning` | src/v8m_buddy.c:132-138 | when the lists hold exactly the free blocks, the search of the lists upward fails exactly when there is no free block of the level or above |
| `BuddyTree.SplitStep` | src/v8m_buddy.c:142-154 | splitting an allocated block in two keeps the tree sound, adds exactly its right half to the free blocks, and creates no free pair |
| `BuddyTree.MergeStep` | src/v8m_buddy.c:191-212 | merging with a free buddy keeps the tree sound and removes exactly that buddy from the free blocks; the parent was split |
| `BuddyTree.MergeUndoesSplit` | src/v8m_buddy.c:183-224 | merging undoes splitting, on both bitmaps |
| `FreePairs.MergeUsesOnePair` | src/v8m_buddy.c:183-224 | merging a free pair, as far up as it goes, uses up that pair and neither makes nor unmakes another at any level |
| `FreePairs.MergesNeeded` | src/v8m_buddy.c:260-293 | the merges it takes to reach the merged form: one for each pair free at the outset and one for each block with a half that is itself merged |
| `FreeLists.PushOk` | src/v8m_buddy.c:67-75 | pushing a node in front of a level's list by writing link words keeps every list of every level well linked |
| `FreeLists.PopOk` | src/v8m_buddy.c:77-87 | the head word names the first node, and unlinking it keeps every list |
| `FreeLists.RemoveOk` | src/v8m_buddy.c:89-100 | unlinking a node anywhere in its list through its own link words keeps every list, and touches no other level |
| `FreeLists.RemoveReachable` | src/v8m_buddy.c:89-100 | unlinking loses no other node |
| `FreeLists.DropKeepsLinks` | src/v8m_buddy_pool.c:199-219 | zero-filling the arena's pages leaves every list well linked, cut off after its first node |
| `FreeLists.DropReachableIff` | src/v8m_buddy_pool.c:199-219 | the cut loses no free block exactly when no level had two |
| `BuddyArena.SizeToLevelIsLeast` | src/v8m_buddy.c:24-37 | the level of a size is the smallest whose blocks hold it |
| `BuddyArena.BlockShape` | src/v8m_buddy.c:39-65 | a block lies inside its arena and is aligned to its own size |
| `BuddyArena.BlocksDisjoint` | src/v8m_buddy.c:122-171 | two allocated blocks of an arena are the same block or do not overlap |
| `BuddyArena.Buddy.ListPush` | src/v8m_buddy.c:67-75 | the new head, list contents and free set |
| `BuddyArena.Buddy.ListPop` | src/v8m_buddy.c:77-87 | NULL exactly on an empty list, otherwise the first node leaves it |
| `BuddyArena.Buddy.ListRemove` | src/v8m_buddy.c:89-100 | the node leaves its list and its free set, and nothing else changes |
| `BuddyArena.Buddy.constructor` | src/v8m_buddy.c:102-120 | a fresh arena is one free top-level block, valid, complete and merged |
| `BuddyArena.Buddy.LowestNonEmpty` | src/v8m_buddy.c:132-138 | the lowest level from the target up whose list is not empty |
| `BuddyArena.Buddy.Alloc` | src/v8m_buddy.c:122-171 | NULL exactly for size 0, size above 256 KiB or exhausted lists, which in a complete, merged arena means that every place is obstructed; otherwise exactly one block of the size's level is added to the allocated blocks, it is the head of the lowest list that had one, and the levels it was split from gain its right halves; a node listed away from its block's start is handed out where it sits |
| `BuddyArena.Buddy.ExhaustedIsFull` | src/v8m_buddy.c:132-138 | for every complete and merged arena, failing a request and having no place for it are the same |
| `BuddyArena.Buddy.FullExactlyWhen` | src/v8m_buddy.c:132-138 | for every complete arena, merged or not: no place is left exactly when the request fails and every split block of its level has an allocated block below it |
| `BuddyArena.Buddy.MergeOnce` | src/v8m_buddy.c:191-212 | one round of the merge loop: the buddy leaves its list and the parent's split bit is cleared |
| `BuddyArena.Buddy.CoalesceUpward` | src/v8m_buddy.c:183-224 | the block is merged up to exactly the level its free buddies allow, clearing exactly the split bits on the way, and listed there; the node listed is the block's start exactly when the address passed in was, or a merge to the left replaced it; an arena that had no free pair has none afterwards |
| `BuddyArena.Buddy.Free` | src/v8m_buddy.c:226-240 | exactly the block around the pointer leaves the allocated blocks; merged arenas stay merged and complete ones complete; for any pointer into an allocated block the arena stays valid exactly when that block, or the one it merges into, is listed at its start |
| `BuddyArena.Buddy.FreeNoCoalesce` | src/v8m_buddy.c:242-258 | the same without merging: the node goes in front of its own level's list, and the arena stays valid exactly when the pointer starts the block |
| `BuddyArena.Buddy.CoalesceAll` | src/v8m_buddy.c:260-293 | on an arena with nothing stranded it ends in the unique merged form of the allocated blocks; it returns the number of buddy pairs that were free at the outset, which falls short of the merges made by one for each block merged from a half that is itself merged |
| `BuddyArena.Buddy.BlockSizeOf` | src/v8m_buddy.c:295-316 | the size of the allocated block that contains the pointer, zero if none does |
| `BuddyArena.Buddy.IsEmpty` | src/v8m_buddy.c:318-326 | true exactly when no block of any level is allocated |
| `BuddyArena.Buddy.DropPages` | src/v8m_buddy_pool.c:199-219 | every link word is zero; dropping the pages of an empty arena keeps every free block reachable exactly when it was fully merged; it always stays well linked |
| `BuddyArena.Buddy.Scribble` | src/v8m_buddy.c:122-171 | whatever the owner of an allocated block writes to its pages, list words included, the free lists stand |
| `BuddyPool.DeferredDrainStrands` | src/v8m_buddy_pool.c:199-219 | an arena that was allocated from once, freed without merging and dropped: empty and valid, yet blocks are unreachable |
| `BuddyPool.DeferredRefusalReached` | src/v8m_buddy.c:122-258 | by calls alone: an arena with nothing stranded that refuses 8 KiB although an 8 KiB place is unobstructed |
| `BuddyPool.SweepCountsOne` | src/v8m_buddy.c:260-293 | by calls alone: one 4 KiB block allocated and returned without merging, after which the sweep clears six split blocks and returns one |
| `BuddyPool.InteriorFreeOverlaps` | src/v8m_buddy.c:242-258 | two 8 KiB blocks, the second page of the first freed without merging, 8 KiB again: the object handed out and the second block overlap |
| `BuddyPool.OverlapFollows` | src/v8m_buddy.c:122-258 | from every arena with nothing stranded that lists a node away from its block's start, allocations alone lead to an object that overlaps another allocated block or runs out of the arena |
| `BuddyPool.FreeInArena` | src/v8m_buddy_pool.c:186-199 | exactly the block around the pointer leaves the arena, in either mode; the arena stays valid exactly when the block is listed at its start; the report of emptiness is exact, and an arena that emptied has its pages zero-filled unless the debug option keeps them |
| `BuddyPool.Pool.constructor` | src/v8m_buddy_pool.c:23-31 | a pool with no arena in use |
| `BuddyPool.Pool.LiveDisjoint` | src/v8m_buddy_pool.c:128-171 | any two live blocks of the pool are the same or do not overlap, across arenas too |
| `BuddyPool.Pool.TryExisting` | src/v8m_buddy_pool.c:75-99 | NULL exactly when every arena in use is exhausted; otherwise the first arena in slot order that is not exhausted serves, loses its drained mark and idle count, and the others are untouched |
| `BuddyPool.Pool.AcquireFresh` | src/v8m_buddy_pool.c:101-126 | a new arena in a free slot with exactly one block allocated, so its own allocation never fails; NULL only without a mapping or without a slot |
| `BuddyPool.Pool.CoalesceArenas` | src/v8m_buddy_pool.c:144-166 | merging every arena changes no allocated block; arenas with nothing stranded end merged; a sweep that merged nothing leaves a failing request failing |
| `BuddyPool.Pool.Alloc` | src/v8m_buddy_pool.c:128-171 | exactly one block of the size's level becomes live, in the first arena that has one, in a fresh one only if none has; NULL only when every arena is exhausted and no further arena can be had; with deferred merging and nothing stranded NULL leaves every arena merged, so that it means fullness |
| `BuddyPool.Pool.FailureIsFullness` | src/v8m_buddy_pool.c:128-171 | when every arena is merged and complete, a request fails in all of them exactly when none has an unobstructed place for it |
| `BuddyPool.Pool.BlockSizeOf` | src/v8m_buddy_pool.c:310-321 | the size of the live block around the pointer in whichever arena owns it, zero if none does |
| `BuddyPool.Pool.Free` | src/v8m_buddy_pool.c:173-223 | for any pointer: true exactly when it lies in a live block, which is the only one to leave; the slot of the arena it emptied is marked drained with idle count zero and its pages are zero-filled, unless debugging; no other slot or mark changes, and in every sound pool the arenas marked drained are exactly the empty ones in use; the pool stays sound, so that live blocks stay disjoint, exactly when the block is listed at its start; draining an emptied arena keeps the merged form in immediate mode |
| `BuddyPool.Pool.StartsListRight` | src/v8m_buddy_pool.h:88-97 | which pointers these are: all that start a live block and all that lie in none, and with deferred merging no others |
| `BuddyPool.Pool.SweepIdle` | src/v8m_buddy_pool.c:225-252 | every slot ages or is released as its drained mark and idle count say; a released arena holds no allocated block and the live blocks are unchanged |
| `BuddyPool.ReleasedOnTime` | src/v8m_buddy_pool.c:225-252 | an arena that stays empty is released by exactly the sweep at which its count of sweeps reaches the limit, and by none before |
| `CoreCache.UnpackPacked` | src/v8m_core_cache.h:58-79 | pointer and tag come back from the packed word, the tag modulo 65536 |
| `CoreCache.StepExact` | src/v8m_core_cache.c:91-139 | every step of any thread, however often it was overtaken, is a step the sequential stacks allow, and memory goes on spelling the stacks if and only if the step is not a pop that stores a stale word; that each operation ends with its one result is OperationsReturn |
| `CoreCache.WindowSuffices` | src/v8m_core_cache.c:117-139 | a pop made fewer than 65536 exchanges after its load never stores a stale word |
| `CoreCache.StepLinearizes` | src/v8m_core_cache.c:91-139 | so every step, pushes without any bound and pops inside the window, is a step the sequential stacks allow, and memory still spells the stacks, also after reading a word its owner overwrote |
| `CoreCache.RunLinearizes` | src/v8m_core_cache.c:91-200 | over whole runs with every successful pop inside the window: what the threads observe, in the order of their loads and exchanges, is a history of sequential stacks, in which by OperationsReturn every operation that ended has its result; every chain ends in NULL, repeats no node and shares none with another stack or owner |
| `CoreCache.RunExact` | src/v8m_core_cache.c:91-200 | over whole runs with any amount of overtaking: the stacks stay intact throughout if and only if no successful pop stores a stale word |
| `CoreCache.StepAnswers` | src/v8m_core_cache.c:91-139 | one step: a thread's open operation stays open, or closes with the one result that answers it, a push with its chain, a pop with a node or with an empty stack; no other result is given |
| `CoreCache.OperationsReturn` | src/v8m_core_cache.c:91-200 | over whole runs the results of a thread answer the operations it began, one each and in order; only the last may still be open, exactly while the thread is busy |
| `CoreCache.OneResult` | src/v8m_core_cache.c:91-200 | from the step that begins an operation to the next at which the thread is idle there is exactly one result, and it answers that operation |
| `CoreCache.LostToAnother` | src/v8m_core_cache.c:91-139 | an exchange that fails does so because another thread's exchange on the stack succeeded since the load |
| `CoreCache.AloneFinishes` | src/v8m_core_cache.c:91-139 | from any reachable state a busy thread left to itself ends its operation within four steps |
| `CoreCache.PoppedAtMostOnce` | src/v8m_core_cache.c:117-139 | along every legal history a node is popped as often as it was pushed, less one while it is on a stack |
| `CoreCache.PopBatchChains` | src/v8m_core_cache.c:232-294 | a batch pop, local or stolen, overtaken at any point leaves its thread owning a correctly linked chain of the nodes it popped, in that order, with NULL in the last once it returns |
| `CoreCache.WindowIsExact` | src/v8m_core_cache.c:117-139 | the window cannot be wider: a run within it after which one pop made 65536 exchanges after its load succeeds and heads the stack with a node another thread owns |
| `RegionMap.SearchDecides` | src/v8m_page_heap.c:470-499 | on a sorted, disjoint table one end check at the split point of the binary search decides membership of any address |
| `RegionMap.RemoveUndoesInsert` | src/v8m_page_heap.c:278-308 | registering a mapping and unregistering it restores the table |
| `RegionMap.ListsMembers` | src/v8m_page_heap.c:470-499 | a table that lists a set of mappings has exactly their addresses as members |
| `RegionMap.Map.constructor` | src/v8m_page_heap.c:192-200 | an empty table at version zero |
| `RegionMap.Map.LowerBound` | src/v8m_page_heap.c:249-262 | the first position whose start is not below the key |
| `RegionMap.Map.FindByStart` | src/v8m_page_heap.c:269-276 | the position of the region with exactly that start, or none has it |
| `RegionMap.Map.Register` | src/v8m_page_heap.c:278-308 | refused exactly at 4096 entries; otherwise inserted in order, the table stays sorted and disjoint, lists the mappings it listed and this one, exactly its addresses become members and the version moves on by two |
| `RegionMap.Map.Unregister` | src/v8m_page_heap.c:357-385 | the region with exactly that start is removed with its node and anchor flag returned, the table lists the other mappings as before, exactly its addresses leave; nothing changes when there is none |
| `RegionMap.Map.Owns` | src/v8m_page_heap.c:470-499 | true exactly for an address covered by some region, NULL included |
| `Seqlock.StepKeeps` | src/v8m_page_heap.c:278-468 | every store of a writer and every load of a reader, in any interleaving, keeps: what a reader has learnt is about the current table while its version stands, and so is each cached verdict |
| `Seqlock.PageUniform` | src/v8m_page_heap.c:406-424 | regions made of whole 64 KiB pages give all addresses of a page the same verdict |
| `Seqlock.AnswersAreRight` | src/v8m_page_heap.c:406-468 | a definite answer, from the search or from the page cache, equals membership in the table at the very step that gives it, with no writer active |
| `Seqlock.EveryRunAnswersRight` | src/v8m_page_heap.c:402-468 | over whole runs from the zero-initialised state, every definite answer says whether the address lies in a mapping that the calls so far have registered and not unregistered; the mappings are read off the calls, not off the table |
| `Seqlock.StepAgrees` | src/v8m_page_heap.c:278-385 | in every interleaving the table lists exactly the mappings registered and not unregistered; while a writer is at work its target does, the call's mapping added or dropped |
| `Seqlock.CallDoes` | src/v8m_page_heap.c:278-385 | a call that runs to its end, whatever readers do meanwhile, makes exactly the addresses of the mapping it names members, or makes exactly them members no longer |
| `Seqlock.WriterCanFinish` | src/v8m_page_heap.c:278-385 | from wherever a writer has got to, further stores of entries and count bring it to its end |
| `Seqlock.StaysInBounds` | src/v8m_page_heap.c:438-453 | whatever a reader loads from a table being shifted, it only indexes below the capacity |
| `Seqlock.QueryIsWaitFree` | src/v8m_page_heap.c:406-468 | a query makes at most 73 loads, however often writers overtake it |
| `Seqlock.UndisturbedIsConclusive` | src/v8m_page_heap.c:425-468 | a query not overtaken by a writer never gives up |
| `Seqlock.GivesUpAfterFour` | src/v8m_page_heap.c:425-468 | a query that ends without a definite answer was overtaken by writers in exactly four tries |
| `Seqlock.SamePageIsOneLoad` | src/v8m_page_heap.c:406-424 | after a definite answer from the search, asking about the same page again with no write between is one load and gives the same answer |
| `SizeClass.ClassIsLeast` | src/v8m_size_class.h:95-128 | for every request up to 2 MiB the class is the smallest whose size holds it, larger ones are Huge, and small classes waste less than a quarter of the request |
| `SizeClass.ClassIsMonotone` | src/v8m_size_class.h:95-128 | a larger request never gets a smaller class |
| `SizeClass.SmallSizes` | src/v8m_size_class.c:16-57 | the table of small classes runs in quarter steps of powers of two |
| `Slab.SlotInPage` | src/v8m_slab_small.c:28-56 | every slot of every class lies behind the header and inside the page |
| `Slab.SlotsDisjoint` | src/v8m_slab_small.c:28-56 | distinct slots do not overlap |
| `Slab.CapacityIsMost` | src/v8m_slab_small.c:28-56 | one slot more than the capacity would not fit into the page |
| `Slab.TakeOk` | src/v8m_slab_pool.c:171-177 | taking the first free slot of a page adds exactly it to the slots in use |
| `Slab.PutOk` | src/v8m_slab_pool.c:179-186 | returning a slot removes exactly it from the slots in use and keeps the page's order |
| `Slab.FreshOk` | src/v8m_slab_pool.c:197-205 | a page just formatted has every slot free |
| `TinySlab.FreeFromIs` | src/v8m_slab_tiny.c:110-148 | the free slots of a bitmap page in ascending order: exactly the clear bits below the capacity |
| `TinySlab.TinySlab.constructor` | src/v8m_slab_tiny.c:70-108 | all slots below the capacity are free and all bits above it are set |
| `TinySlab.TinySlab.ClaimSlot` | src/v8m_slab_tiny.c:110-126 | the lowest free slot leaves the free ones, and the hint moves to its word |
| `TinySlab.TinySlab.Alloc` | src/v8m_slab_tiny.c:128-148 | exact first fit: NULL exactly when full, otherwise the lowest free slot, because every word below the hint is full; the wrap-around loop finds nothing, ever; the next search starts at the word of that slot |
| `TinySlab.TinySlab.Release` | src/v8m_slab_tiny.c:150-177 | the slot computed from the address returns to its place among the free ones; true exactly when none is left in use; the hint falls back to its word if that is lower |
| `SmallSlab.SmallSlab.constructor` | src/v8m_slab_small.c:63-101 | the list links all slots in ascending order |
| `SmallSlab.SmallSlab.Alloc` | src/v8m_slab_small.c:103-123 | NULL exactly when the list is empty, otherwise its first slot |
| `SmallSlab.SmallSlab.Release` | src/v8m_slab_small.c:125-142 | the slot goes in front of the list; true exactly when none is left in use |
| `SmallSlab.SmallSlab.Scribble` | src/v8m_slab_small.c:103-142 | whatever a user stores in the first word of a slot in use, the free list stands |
| `SlabPool.Pool.constructor` | src/v8m_slab_pool.c:207-220 | a pool with no page |
| `SlabPool.Pool.TryCurrent` | src/v8m_slab_pool.c:256-266 | a slot of the current page, which is dropped from the lists exactly when it is full |
| `SlabPool.Pool.FullestPartial` | src/v8m_slab_pool.c:303-315 | of the first four partial pages the one with most slots in use, and of equals the last |
| `SlabPool.Pool.TryPartials` | src/v8m_slab_pool.c:300-328 | NULL exactly when there is no partial page, otherwise the fullest of the first four leaves the partials, becomes current and serves |
| `SlabPool.Pool.AcquirePage` | src/v8m_slab_pool.c:98-157 | the most recently drained page, or what the page source offers |
| `SlabPool.Pool.AcquireFresh` | src/v8m_slab_pool.c:336-349 | a formatted page with one slot handed out becomes current |
| `SlabPool.Pool.Alloc` | src/v8m_slab_pool.c:353-374 | exactly one slot becomes live: of the current page while it has room, else of the fullest of the first four partial pages, else of a page acquired only when every page of the class is full; NULL means that besides no page can be had; partials are distinct pages with room, never the current one, and every unlisted page is full, so no free slot is lost |
| `SlabPool.Pool.AllocBatch` | src/v8m_slab_pool.c:378-434 | distinct slots of the class, all new, up to the maximum, chained through their first words from head to tail with NULL at the end; fewer only when every page is full and no page can be had |
| `SlabPool.Pool.Unlink` | src/v8m_slab_pool.c:444-460 | the page leaves whichever list holds it, and nothing happens when none does |
| `SlabPool.Pool.ReleasePage` | src/v8m_slab_pool.c:119-167 | parked while the cache has room, otherwise given up |
| `SlabPool.Pool.Free` | src/v8m_slab_pool.c:462-501 | exactly the slot leaves the live ones; the page leaves the pool exactly when that was its last live slot; a page that was full and not current goes in front of the partials, once |
| `SlabPool.Pool.SweepIdle` | src/v8m_slab_pool.c:578-611 | the drained pages kept, in order and one tick older, and those given up, in order |
| `SlabPool.SweepParts` | src/v8m_slab_pool.c:578-611 | a sweep parts the drained pages: each is kept or given up, never both and never neither |
| `SlabPool.SweepAges` | src/v8m_slab_pool.c:578-611 | one sweep leaves a drained page one tick older, or gives it up once its age reaches the limit |
| `SlabPool.GivenUpOnTime` | src/v8m_slab_pool.c:578-611 | a page that stays drained is given up by exactly the sweep at which its age reaches the limit, and by none before |
| `SlabPool.FreeAndLive` | src/v8m_slab_pool.c:179-195 | free and used slots of a page always add up to its capacity |
| `HugePool.PageFound` | src/v8m_huge_slab.c:52-96 | base and index of a carved page are recovered from its address |
| `HugePool.CarveNode` | src/v8m_numa_pool.c:57-179 | the lowest free page of the first partly carved huge page, or of a new one when there is none; carved pages are distinct; lists and counters stay exact: live pages are obtained less returned, carves less releases is the number of set bits |
| `HugePool.ReleaseNode` | src/v8m_numa_pool.c:183-246 | accepts exactly carved pages; the huge page is given up exactly when its last carved page returns; full ones become partial again |
| `HugePool.Pool.constructor` | src/v8m_numa_pool.c:92-110 | a pool with nothing carved |
| `HugePool.Pool.Carve` | src/v8m_numa_pool.c:142-173 | exactly one page becomes carved, from the node asked for |
| `HugePool.Pool.Release` | src/v8m_numa_pool.c:207-250 | true exactly for a page that is out, whichever node carved it |
| `ThreadCache.CapacityFollowsDemand` | src/v8m_thread_cache.c:738-748 | capacities stay in 16..512, grow with the average, and are never larger on an overloaded node |
| `ThreadCache.CapacityIs` | src/v8m_thread_cache.c:738-748 | the capacity is twice the average within 16 and 512, and the average itself on an overloaded node |
| `ThreadCache.EmaFollowsDemand` | src/v8m_thread_cache.c:704-737 | the average moves towards the net demand of the interval, and never past it |
| `ThreadCache.Cache.constructor` | src/v8m_thread_cache.c:420-426 | empty bins of the default capacity |
| `ThreadCache.Cache.GcTick` | src/v8m_thread_cache.c:704-755 | each class's average and capacity from its own demand, counters reset; the average never exceeds the interval, so nothing saturates |
| `ThreadCache.Cache.Tick` | src/v8m_thread_cache.c:461-466 | counts down, and resizes the bins at the end of an interval |
| `ThreadCache.Cache.Pop` | src/v8m_thread_cache.c:468-492 | the newest slot of the bin, found and replaced through its first word, with count, demand and countdown kept |
| `ThreadCache.Cache.Push` | src/v8m_thread_cache.c:494-507 | the slot goes in front, its first word naming the old head and no other word changing; full is judged against the capacity in force after the tick; NULL is refused |
| `ThreadCache.Cache.FlushHalf` | src/v8m_thread_cache.c:757-784 | exactly the newer half, rounded up, leaves the bin, following the words |
| `ThreadCache.Cache.DrainAll` | src/v8m_thread_cache.c:786-799 | terminates with every bin empty, yielding every slot once, bin by bin |
| `ThreadCache.Cache.DrainChain` | src/v8m_thread_cache.c:801-836 | the newest slots up to the number asked for, in order, linked word by word and ended by NULL, and in no bin any more |
| `ThreadCache.Cache.InstallChain` | src/v8m_thread_cache.c:838-853 | the chain is spliced in front through its tail's word and the 16-bit count stays exact |
| `ThreadCache.Cache.FreeFast` | src/v8m_api.c:804-812 | declines exactly when the push would fill the bin; otherwise at most 511 slots remain even if the capacity shrinks during the push |
| `ThreadCache.Cache.FreeSlow` | src/v8m_dispatch.c:204-217 | chain and bin together are the old bin with the slot in front, both spelled out by their words; the chain is empty when the bin stays below the capacity in force after the push, and otherwise one batch, or all there is; at most 511 remain, whatever the capacity did |
| `ThreadCache.Cache.Refill` | src/v8m_dispatch.c:180-196 | the chain's head is served and the rest fills the empty bin |
| `ThreadCache.Cache.MediumAlloc` | src/v8m_thread_cache.c:521-542 | the newest cached block of the class, NULL when there is none or the class is out of range |
| `ThreadCache.Cache.MediumFree` | src/v8m_thread_cache.c:544-564 | declined exactly when out of range or at the cap of the class |
| `ThreadCache.Cache.DrainMedium` | src/v8m_thread_cache.c:566-587 | every cached block once, and the bins empty |
| `Refill.EmaStep` | src/v8m_refill_controller.c:70-77 | the average moves towards the demand, never past it, and stands still exactly within three below it |
| `Refill.EmaSettles` | src/v8m_refill_controller.c:70-77 | under constant demand it settles within three below it from any start, exactly at it from above, within as many steps as the distance |
| `Refill.BatchFollowsRate` | src/v8m_refill_controller.c:80-92 | more demand or a shorter interval never makes the batch smaller, as long as the product stays within 64 bits |
| `Refill.BatchCoversHoldTime` | src/v8m_refill_controller.c:80-92 | between its bounds the batch is what 100 microseconds at the rate of the last interval call for, and no more |
| `Refill.Controller.constructor` | src/v8m_refill_controller.c:15-24 | every class at the minimum |
| `Refill.Controller.ComputeBatch` | src/v8m_refill_controller.c:56-107 | the batch stays in 8..64 for any clock readings; a class that only reports a demand of one stays at 8 forever |
| `Dispatch.SlotFound` | src/v8m_page.h:95-105 | masking an object's address finds its page and its offset finds its slot |
| `Dispatch.ObjectsDisjoint` | src/v8m_slab_small.c:28-56 | objects in use never share a byte, across pages too |
| `Dispatch.PoolAnswers` | src/v8m_slab_pool.c:353-374 | what the pool's allocation promises is what the machine lets it answer |
| `Dispatch.PoolTakesBack` | src/v8m_slab_pool.c:462-501 | what the pool's free does to its pages and its drained pages is what the machine does for the slot's address |
| `Dispatch.PoolSweeps` | src/v8m_slab_pool.c:578-611 | a sweep of the pool, whatever the ages of its drained pages, is a step of the machine that leaves those kept |
| `Dispatch.StepKeeps` | src/v8m_dispatch.c:134-260 | every hit, miss, refill, steal, overflow, flush, drain and sweep keeps: the slots held anywhere are exactly the slots in use, each in one place, and caches hold slots of their own class; Allocator.RunRefines shows word-level runs to be runs of this machine |
| `Dispatch.EverySlotInOnePlace` | src/v8m_dispatch.c:134-260 | in every run from the empty allocator a slot stands at one position of one place only, so it is never handed out twice |
| `Dispatch.NothingLost` | src/v8m_dispatch.c:204-260 | in every run each slot in use is held somewhere |
| `Dispatch.UsersNeverOverlap` | src/v8m_dispatch.c:377-417 | in every run no two objects held by the application share a byte |
| `Dispatch.ServedIsLargeEnough` | src/v8m_dispatch.c:377-417 | in every run a request served from a bin gets a slot of its own class, at least as large as asked for |
| `Dispatch.PageReleasedWhenUnheld` | src/v8m_slab_pool.c:462-501 | a page leaves the pool only in a step that frees a slot, and afterwards nothing of it is held or cached anywhere |
| `Allocator.EventIsLegal` | src/v8m_dispatch.c:134-260 | every event of the dispatcher is a push, a pop or a handover that the core cache's stacks and owners allow, and afterwards all stacks agree again and every slot belongs to one thread, the application or the pool |
| `Allocator.PushAllowed` | src/v8m_dispatch.c:204-245 | the chains the dispatcher pushes meet the core cache's demands: owned, free of repeats and linked in memory |
| `Allocator.StepKeeps` | src/v8m_dispatch.c:134-260 | every single load, store, exchange or handover of any thread, and any write of the application to its objects, keeps: memory spells out all stacks, bins and chains, every slot has one owner, and no thread's pending operation is disturbed |
| `Allocator.RunRefines` | src/v8m_dispatch.c:134-260 | a word-level run of the whole allocator is one run of the core cache whose callers keep every promise and one run of the dispatcher's abstract machine, with the same outcome |
| `Allocator.NoSlotTwice` | src/v8m_dispatch.c:134-260 | in every such run of any number of threads, a slot found by walking the words of a bin or stack is in use, has that list's class, is not with the application, and is found at no other position of any list |
| `Allocator.ObjectsNeverOverlap` | src/v8m_dispatch.c:377-417 | in every such run no two objects of the application share a byte |
| `Large.RoundUpIs` | src/v8m_large.c:107-110 | the smallest multiple that is not below the value |
| `Large.MapAlignmentIs` | src/v8m_large.c:462-467 | which mapping alignment a size gets: with huge pages on, 2 MiB above 2 MiB and 1 GiB from 1 GiB; 64 KiB otherwise |
| `Large.CacheTake` | src/v8m_large.c:234-257 | none exactly when no entry has the size; otherwise exactly the first such entry leaves |
| `Large.CachePut` | src/v8m_large.c:309-335 | the newest goes last and the first entry is evicted only when there are eight |
| `Large.Heap.constructor` | src/v8m_large.c:220-228 | nothing live and nothing cached |
| `Large.Heap.FindRegion` | src/v8m_large.c:386-395 | a cached mapping of that size if there is one and no guard is wanted, else the page heap's; mappings are neither lost nor invented |
| `Large.Heap.AllocWithOffset` | src/v8m_large.c:355-446 | NULL exactly on overflow, without a mapping or when the guard cannot be protected; otherwise a new object at the offset asked for in a mapping of the rounded size, recycled or fresh, with the header found by masking and enough usable bytes; no two mappings share a byte |
| `Large.Heap.Alloc` | src/v8m_large.c:449-472 | the same, with the same exact failures and the same accounting, at the default offset and the mapping alignment that size and page option call for |
| `Large.Heap.AllocAligned` | src/v8m_large.c:475-504 | the same, with the same exact failures and the same accounting, at the alignment asked for; alignments of a page and more are refused |
| `Large.Heap.ObjectsApart` | src/v8m_large.c:355-446 | two live objects never share a byte, and none reaches into its guard page |
| `Large.Heap.Free` | src/v8m_large.c:506-562 | the object's mapping goes to the cache, possibly evicting the first entry, or back to the page heap if it carries a guard; every mapping stays accounted for |
| `Large.Heap.Drain` | src/v8m_large.c:263-280 | exactly the cached mappings are returned |
| `Aligned.Dispatch` | src/v8m_dispatch.c:458-520 | which backend serves which size and alignment; the class search always finds a class, and it is the first from the request's own whose size the alignment divides |
| `Aligned.SlabServes` | src/v8m_dispatch.c:488-500 | every slot of that class is aligned, large enough and in the page its address masks to |
| `Aligned.BuddyServes` | src/v8m_dispatch.c:502-508 | every block of that level is aligned and large enough |
| `Aligned.LargeServes` | src/v8m_large.c:475-504 | every such object is aligned, has the usable size asked for, and masks to its header |
| `Aligned.AlignedServed` | src/v8m_dispatch.c:458-520 | whichever backend answers, the object is large enough and its address leads back to its page, arena or header; it is aligned as asked, except for 16-byte requests delegated to one of four classes |
| `Aligned.NaturalExactly` | src/v8m_dispatch.c:450-464 | all slots of a class are 16-byte aligned exactly for the classes other than 8, 24, 40 and 56 bytes |
| `Wire.ReadWritten` | src/v8m_pprof.c:47-62 | a varint is read back from in front of anything |
| `Wire.Varint64` | src/v8m_pprof.c:47-62 | a 64-bit value takes at most ten bytes |
| `Wire.RoundTrip` | src/v8m_pprof.c:69-115 | any message of well-formed fields is decoded back field by field |
| `Wire.WriteVarint` | src/v8m_pprof.c:47-62 | the varint stands behind the offset, or there was no room for all of it; nothing before the offset changes |
| `Wire.WriteField` | src/v8m_pprof.c:76-90 | the same for a tagged number |
| `Wire.WriteBytesField` | src/v8m_pprof.c:92-109 | the same for a tagged, length-prefixed payload |
| `Pprof.EmitValueType` | src/v8m_pprof.c:123-141 | the same for a value type; its 32-byte scratch buffer never overflows |
| `Pprof.EmitFunction` | src/v8m_pprof.c:147-170 | the same for a function, and overflow exactly for identifiers too long for its scratch buffer |
| `Pprof.EmitLocation` | src/v8m_pprof.c:180-209 | the same for a location with its line, for any 64-bit identifiers |
| `Pprof.EmitSample` | src/v8m_pprof.c:219-253 | the same for a sample, for any 64-bit counts |
| `Pprof.EmitSampleTypes` | src/v8m_pprof.c:301-310 | both sample types, or no room |
| `Pprof.EmitRows` | src/v8m_pprof.c:312-376 | the samples, locations or functions of exactly the classes in use, Huge last, or no room for all of them; RowValues says what each carries |
| `Pprof.RowValues` | src/v8m_pprof.c:312-333 | a class's sample holds that class's own count and bytes, Huge's the totals of the huge objects |
| `Pprof.FormatClassName` | src/v8m_pprof.c:277-294 | the fixed prefix followed by decimal digits that read back as the class, within sixteen bytes |
| `Pprof.NamesDiffer` | src/v8m_pprof.c:260-294 | no two of the 47 strings of the table are equal |
| `Pprof.StringsSpelled` | src/v8m_pprof.c:260-294 | the strings of the table in ASCII, letter by letter |
| `Pprof.EmitStringTable` | src/v8m_pprof.c:378-398 | the fixed strings, the class names and "huge" in order, or no room |
| `Pprof.ProfileFits` | src/v8m_pprof.c:30-38 | for every 64-bit histogram the profile takes at most 5336 of the 65536 bytes |
| `Pprof.EncodeHeapProfile` | src/v8m_pprof.c:519-560 | for every 64-bit histogram the whole profile is encoded; the buffer never overflows; what the bytes say is Profile.ProfileDescribes |
| `Profile.ProfileRoundTrip` | src/v8m_pprof.c:519-560 | a decoder recovers from the bytes the sample types, exactly the classes in use with their pairs of values, their locations and functions, and the string table |
| `Profile.LocationsResolve` | src/v8m_pprof.c:335-398 | a class's location leads through its function to that class's name, and to nothing for a class not in use |
| `Profile.SamplesExact` | src/v8m_pprof.c:312-333 | the decoded samples are exactly those of the classes with a non-zero count |
| `Profile.ProfileDescribes` | src/v8m_pprof.c:519-560 | read back, the profile has exactly one sample for each class with a non-zero count and no other, with the histogram's own count and bytes, typed and named in plain ASCII |
| `Profile.DumpHeap` | src/v8m_pprof.c:565-575 | the bytes dumped, uncompressed, are read back to that description of the histogram |
| `Profile.DumpHeapGz` | src/v8m_pprof.c:577-591 | end to end, for any histogram: unpacking the member written and reading the profile gives exactly one sample for each class with a non-zero count, and for Huge, and no other; it holds that class's own count and bytes, under types called alloc_objects in count and alloc_space in bytes, and leads to that class's name in ASCII |
| `Crc.Compute` | src/v8m_pprof.c:424-436 | the bit loop computes the CRC-32 of the data: with the initial and final inversion, the remainder of the message's polynomial times x^32 modulo the generator polynomial of the standard |
| `Crc.FeedWord` | src/v8m_pprof.c:424-436 | feeding the four bytes of a word is mixing the word into the register and shifting 32 times |
| `Crc.ShiftInjective` | src/v8m_pprof.c:429-432 | no step of the register loses information |
| `Crc.Residue` | src/v8m_pprof.c:424-436 | data followed by four bytes leaves one fixed register, the same for all data, exactly when those bytes are the data's checksum |
| `Gf2.RemainderUnique` | src/v8m_pprof.c:420-436 | over the two-element field a polynomial has one remainder modulo another |
| `Crc.PolynomialIsGenerator` | src/v8m_pprof.c:420-432 | the constant, bits reversed, is the CRC-32 generator of section 8 of RFC 1952 without its leading term |
| `Crc.FeedIsRemainder` | src/v8m_pprof.c:424-436 | from any register, feeding bytes leaves the remainder of register and message, taken as one polynomial, modulo the generator |
| `Crc.PlainRemainder` | src/v8m_pprof.c:424-436 | from the zero register it is the remainder of the message alone |
| `Crc.ChecksumIsCrc32` | src/v8m_pprof.c:424-436 | a word is the CRC-32 of the data in the polynomial sense if and only if it is the one computed |
| `CrcResidue.ResidueValue` | src/v8m_pprof.c:424-436 | the fixed register of Crc.Residue is 0xDEBB20E3 |
| `Gzip.WriteBlock` | src/v8m_pprof.c:475-497 | in front of anything, the block is read back with its final bit and its data, and what follows is left |
| `Gzip.WriteBlocks` | src/v8m_pprof.c:467-499 | blocks of at most 65535 bytes covering the data, one empty final block for no data |
| `Gzip.Compress` | src/v8m_pprof.c:453-513 | header, blocks, checksum and size of the member; MemberLayout gives the bytes |
| `Gzip.StoredReads` | src/v8m_pprof.c:467-499 | the blocks read back are the data, all lengths match their complements, and exactly the last one is final |
| `Gzip.MemberLayout` | src/v8m_pprof.c:453-513 | the bytes of the member as RFC 1952 lays them out: magic, method, flags, time, blocks, then checksum and size, least significant byte first |
| `Gzip.GzipRoundTrip` | src/v8m_pprof.c:453-513 | every member is read back to the data it was made from, whatever its length |

## Left out

- The remote-free queue of a thread cache: dormant in this version.
- The kernel calls themselves, weak memory ordering, and whether a page is still mapped when a stale pop reads it: memory is total and steps are sequentially consistent.
- Lifetime arenas, predictive prefetch, NUMA binding, rebalancing and migration, transparent huge page advice: they choose among equals or only advise the kernel.
- Debug poisoning, red zones and the double-free ring: diagnostics. The guard page is modelled only as bytes that are not usable.
- Donor choice when stealing and owner-CPU routing on overflow: any stack may be popped or pushed in the model, so the choice does not matter to it.
- Hot reload of the size-class table: the class arithmetic holds for the baseline table only.
- Statistics, configuration, fork handling, the background thread, the libc fallback, the shims, bootstrap and signal-safe buffers: no state of theirs bears on the laws proved here.
- Destruction of pools: every page goes back, which is the sweep without its age limit.
- Byte counters of large and huge objects: diagnostic; mappings themselves are accounted for.
- Seqlock.StepKeeps: the version counter is unbounded, so its wrap-around after 2^63 writes is not modelled.
- ThreadCache.Cache.MediumAlloc: the lists of at most four buddy blocks are sequences; the words that link them are not modelled.
- SlabPool.Pool.Alloc: a page is the queue of its free slots; that bitmap pages and list pages behave like that queue is proved for each of them on its own.
- Large.Heap.Free: the order of the recycle cache beyond which entry is evicted is not stated, since taking an entry reorders it.
- BuddyArena.Buddy.Alloc: of an arena that lists a node away from its block's start, only the request that takes that node is modelled; what other requests and merges do to such an arena is not.
