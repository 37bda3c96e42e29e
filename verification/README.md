# Tinker kernel: memory and kernel state machines

A Dafny model of the hardest code of the Tinker kernel, with proofs.  It covers the heap (dlmalloc as the kernel
configures it), the ARM page tables, the virtual layout of a process, pipes, the hashed map, the scheduler, the registry,
the ELF loader and the clock.  `dafny verify dfyconfig.toml` checks everything.

## How the parts fit

- **Heap** (`Heap*.dfy`).  `HeapSpace.MSpace` is an mspace: the fields of `malloc_state`, and the segment as a map from word
  addresses to 32-bit words.  Heads, feet, ring links, trie children and bin slots are words of that memory, and every
  method changes them as the macros do.  `Valid()` says what the allocator's own checks say
  (malloc.c:3259-3521): chunks tile the segment from the state chunk to top, heads carry size, in-use bit and the
  predecessor's in-use bit, a free chunk's foot is its size, no two free chunks touch, and every free chunk is the
  designated victim or in exactly the bin of its size, with both bitmaps telling which bins are empty.  The layers:
  `HeapTreeIndex`, `HeapBinMaps` (index and bit tricks), `HeapTries` (treebins as tries of sizes), `HeapTrieMem`,
  `HeapRings`, `HeapBins`, `HeapSmallBins`, `HeapLargeBins`, `HeapLargeUnlink` (the same in memory), `HeapArena`,
  `HeapTags`, `HeapState` (chunks and boundary tags), then one module per operation.
- **Page tables** (`PageDescriptors`, `PageWalk`, `PageMapping`, `PageTables`).  `Walk` is the hardware's two-level walk of
  section B3.5.1 of the ARM Architecture Reference Manual (ARMv7-A and ARMv7-R edition); `PageTable` is the kernel's table.
- **Process layout** (`VirtualLayout`, `ProcessMemory`).  `Process` links its sections in place; what it does is stated on the
  list of their values.
- **Scheduler** (`RunQueues`, `Schedulers`).  `Scheduler` holds the run queues and the states of the threads; `Run` is any run
  of kernel calls.
- **Pipes** (`PipeRing`, `PipeModel`, `PipeHistory`, `Pipes`, `PipeRuns`, `PipeStrays`,
  `PipeFlow`).  `Pipe` is a ring in memory that
  blocks and wakes the threads of a `Scheduler`.  What its calls do is stated by functions on values in `PipeModel`, with a
  trace of what happened; what holds of every run is proved of those in `PipeHistory`, and what the results of calls mean in
  terms of directions, messages and slots in `PipeFlow`.  `PipeSystem` runs several pipes.
- **Hashed map** (`HashedMaps`, `MapIterators`) and **registry** (`Registries`), which keeps its names and its queues of
  waiting threads in two such maps.
- **ELF loader** (`ElfLoader`), **clock** (`SystemTimers`).

## What turned out not to hold

Where the code does not do what its comments or names promise, the model follows the code, and a lemma gives the case or
the exact condition.

- The test of the capacity of a space leaves out the alignment of its base and of its end: top can come out empty, half a
  word long, or with a size that wraps around (`HeapShape.EmptyTop`, `HeapShape.HalfTop`, `HeapShape.WrappedTop`; exact
  condition in `HeapShape.FreshTop`).
- memalign's search for a power of two never ends for an alignment above 2^31 (`HeapAlign.DoublingReaches`).
- A mapping by 1MB entries ignores the low bits of the real base (`PageMapping.TargetExact`, `PageMapping.ShiftedRam`), and one
  that ends inside the last megabyte maps all of it (`PageMapping.RangeExact`).
- The padding between sections reaches a page boundary only from two places in a page (`VirtualLayout.PadAligns`); the first
  section of a process is never unlinked (`VirtualLayout.FreedRemoves`); software and hardware translation differ at the start of
  a section that abuts another (`ProcessMemory.SoftwareAgrees`).
- The hashed map can hold at most half of its capacity (`MapIterators.HalfCapacity`), and a replaced pair is counted twice
  (`HashedMaps.HashedMap.Put`).
- Device memory is mapped as normal memory without caches, never as device memory (`PageDescriptors.RequestedGrants`).
- The list operation that is meant to move the first thread of a queue to its end exchanges the first with the last one.  So
  threads of one priority take turns if and only if there are at most two of them (`Schedulers.RoundRobin`).
- The stack of queues grows with every thread of lower priority that is made ready (`RunQueues.LowerGrows`).  When the current
  queue runs empty, the one below it on the stack is taken even if it is empty: the idle thread is chosen while a thread of
  higher priority could run (`Schedulers.StarveRun`; `RunQueues.ExitInOrder` says which queue is taken).
- Lowering a priority can panic the kernel (`Schedulers.PanicRun`, exact condition in `RunQueues.LowerPanics`), and changing the
  priority of a thread that cannot run puts it into a run queue (`Schedulers.Scheduler.Step`).
- A wait for a name is lost if and only if the map of queues refuses a new queue (`Registries.Registry.WaitInVain`), which it
  does with 32 names of the same bucket (`Registries.Registry.RefusesWhen`, `HashedMaps.CrowdOut`).
- Mapping a page in a megabyte that has a section entry writes into the memory of that section, and changes the translation of
  another megabyte if a second-level table lies there (`PageTables.PageTable.PageOverSection`, `PageTables.TableHit`).
- A pipe knows one blocked reader and one blocked sender, so that a second one displaces it (`PipeRuns.SecondReader`,
  `PipeFlow.SecondSender`).  Senders stay noted for ever, so
  that a thread can be woken from a later read without a message (`PipeRuns.WokenInVain`), and a message can pass it over
  (exact condition in `PipeHistory.PassedOver`).
- A message is handed to the thread noted at the pipe if that thread waits on the pipe, even if it is blocked in sending from it.
  That happens on pipes that send and receive only (`PipeHistory.Strays`, `PipeStrays.StrayRun`; exact condition in
  `PipeHistory.RunHandsOver`).
- The buffer of a pipe is too small when the 32-bit sum of its slots wraps (`Pipes.BufferSize`).

## Model

| member | source | states |
|---|---|---|
| HeapTreeIndex.IndexPrefix | kernel/src/kernel/c/memory/dlmalloc/malloc.c:2921-2937 | the branch-free treebin index is twice the position of a size's leading bit plus the next bit, and the last bin takes the rest |
| HeapTreeIndex.IndexMono | kernel/src/kernel/c/memory/dlmalloc/malloc.c:2921-2937 | larger sizes never go to earlier treebins |
| HeapTreeIndex.IndexRange | kernel/src/kernel/c/memory/dlmalloc/malloc.c:2949-2952 | a size lies between the minimum sizes of its treebin and of the next one |
| HeapTreeIndex.TopBitIs | kernel/src/kernel/c/memory/dlmalloc/malloc.c:2943-2947 | the top bits of the size shifted by the bin's left shift are its bits from the root of the trie down |
| HeapBinMaps.MarkBit | kernel/src/kernel/c/memory/dlmalloc/malloc.c:2957-2967 | marking a bin sets its bit and no other |
| HeapBinMaps.ClearBit | kernel/src/kernel/c/memory/dlmalloc/malloc.c:2957-2967 | clearing a bin clears its bit and no other |
| HeapBinMaps.TestBit | kernel/src/kernel/c/memory/dlmalloc/malloc.c:2957-2967 | the mask test tells whether the bin is marked |
| HeapBinMaps.LeftMarked | kernel/src/kernel/c/memory/dlmalloc/malloc.c:2972-2973 | the left-bits mask keeps exactly the marks above an index |
| HeapBinMaps.LeastMarked | kernel/src/kernel/c/memory/dlmalloc/malloc.c:2969-3018 | the least-bit mask and the halving index computation give the lowest marked bin |
| HeapBinMaps.HalveOnes | kernel/src/kernel/c/memory/dlmalloc/malloc.c:3008-3018 | the halving steps count the ones below a single bit, which is its index |
| HeapTries.SubSplit | kernel/src/kernel/c/memory/dlmalloc/malloc.c:3341-3389 | every size below a node lies below the child its own next bit selects |
| HeapTries.LeftBelowRight | kernel/src/kernel/c/memory/dlmalloc/malloc.c:3382-3384 | sizes below a left child are smaller than sizes below the right child |
| HeapTries.RootHas | kernel/src/kernel/c/memory/dlmalloc/malloc.c:3392-3400 | every size of a treebin hangs below its root |
| HeapTries.InsertBelowOk | kernel/src/kernel/c/memory/dlmalloc/malloc.c:3704-3720 | a new leaf where the walk ends keeps all treebins well-formed tries |
| HeapTries.ReplaceOk | kernel/src/kernel/c/memory/dlmalloc/malloc.c:3756-3825 | putting a leaf from below in the place of a node keeps all treebins well-formed tries |
| HeapSpace.MSpace.InsertSmallChunk | kernel/src/kernel/c/memory/dlmalloc/malloc.c:3610-3626 | the bins hold exactly one more chunk, their links and bitmaps agree, and nothing outside the bins' words changes |
| HeapSpace.MSpace.UnlinkSmallChunk | kernel/src/kernel/c/memory/dlmalloc/malloc.c:3629-3652 | the bins hold exactly one chunk less, and nothing outside the bins' words changes |
| HeapSpace.MSpace.UnlinkFirstSmallChunk | kernel/src/kernel/c/memory/dlmalloc/malloc.c:3655-3670 | takes a chunk of the bin's size out of a marked bin, clearing the mark with the last one |
| HeapSpace.MSpace.InsertLargeChunk | kernel/src/kernel/c/memory/dlmalloc/malloc.c:3688-3737 | the walk by size bits ends; the treebins hold exactly one more chunk, as root, leaf or member of a ring of its size, and stay well-formed |
| HeapSpace.MSpace.RightmostLeaf | kernel/src/kernel/c/memory/dlmalloc/malloc.c:3770-3784 | the walk finds a leaf below the node and the slot that points to it |
| HeapSpace.MSpace.Replug | kernel/src/kernel/c/memory/dlmalloc/malloc.c:3786-3824 | the replacement takes the parent and the children of the node, or the slot becomes empty |
| HeapSpace.MSpace.UnlinkLargeChunk | kernel/src/kernel/c/memory/dlmalloc/malloc.c:3756-3825 | in all four cases the treebins hold exactly one chunk less and stay well-formed tries with rings |
| HeapSpace.MSpace.InsertChunk | kernel/src/kernel/c/memory/dlmalloc/malloc.c:3829-3831 | a free chunk is filed by its size; chunks, tags and payloads stay |
| HeapSpace.MSpace.UnlinkChunk | kernel/src/kernel/c/memory/dlmalloc/malloc.c:3833-3835 | a free chunk leaves its bin; chunks, tags and payloads stay |
| HeapSpace.MSpace.ReplaceDv | kernel/src/kernel/c/memory/dlmalloc/malloc.c:3674-3682 | the old victim, which is small where this is used, is filed and the new one kept out of the bins |
| HeapSpace.MSpace.constructor | kernel/src/kernel/c/memory/dlmalloc/malloc.c:5439-5460 | a new space satisfies the invariant, with one top chunk after the state chunk and empty bins |
| HeapShape.FreshTop | kernel/src/kernel/c/memory/dlmalloc/malloc.c:3936-3948 | in 32-bit arithmetic and on bytes: a capacity that passes the test makes a top whose head survives and that ends at the end of the segment, if and only if the segment ends at a word and has room for the alignment of its base as well |
| HeapShape.AcceptedWhen | kernel/src/kernel/c/memory/dlmalloc/malloc.c:5485-5486 | the test accepts a capacity if and only if it exceeds the state and the foot and leaves as much and a page of the address space, without wrap |
| HeapShape.EmptyTop | kernel/src/kernel/c/memory/dlmalloc/malloc.c:5480-5493 | a base and a capacity that pass the test and leave an empty top |
| HeapShape.HalfTop | kernel/src/kernel/c/memory/dlmalloc/malloc.c:5480-5493 | a base and a capacity that pass the test and leave half a word for top |
| HeapShape.WrappedTop | kernel/src/kernel/c/memory/dlmalloc/malloc.c:5480-5493 | a base and a capacity that pass the test and make the size of top wrap around |
| HeapAlloc.RequestFits | kernel/src/kernel/c/memory/dlmalloc/malloc.c:2271-2276 | the chunk size for a request is the smallest aligned one with room for the request and the head |
| HeapFit.SearchStep | kernel/src/kernel/c/memory/dlmalloc/malloc.c:4484-4501 | one step down the treebin keeps every fitting size covered: at or below the node, at or after the remembered right subtree, or no better than the best so far |
| HeapFit.NarrowStep | kernel/src/kernel/c/memory/dlmalloc/malloc.c:4513-4520 | one step to the leftmost child keeps every fitting size covered |
| HeapFit.SearchedAll | kernel/src/kernel/c/memory/dlmalloc/malloc.c:4496-4513 | what one walk leaves to be searched covers the later treebins as well |
| HeapFit.Remainder | kernel/src/kernel/c/memory/dlmalloc/malloc.c:4476-4491 | unsigned remainders compare like fits, and a chunk that is too small never wins |
| HeapSpace.MSpace.SearchTree | kernel/src/kernel/c/memory/dlmalloc/malloc.c:4480-4502 | the walk by size bits ends with an exact fit or with everything left in one right subtree |
| HeapSpace.MSpace.Smallest | kernel/src/kernel/c/memory/dlmalloc/malloc.c:4513-4520 | the leftmost walk ends at the best fit of all treebins |
| HeapSpace.MSpace.FindLarge | kernel/src/kernel/c/memory/dlmalloc/malloc.c:4474-4520 | finds a smallest treebin chunk that is large enough, and none only if there is none, on one or two root-to-leaf paths |
| HeapSpace.MSpace.FindSmallest | kernel/src/kernel/c/memory/dlmalloc/malloc.c:4545-4560 | finds a smallest chunk of all treebins |
| HeapSpace.MSpace.AllocLarge | kernel/src/kernel/c/memory/dlmalloc/malloc.c:4474-4542 | grants from a smallest binned chunk that fits, and only if the victim is too small or fits worse; otherwise it yields and changes nothing; the victim afterwards |
| HeapSpace.MSpace.AllocSmallFromTree | kernel/src/kernel/c/memory/dlmalloc/malloc.c:4545-4580 | grants from the smallest treebin chunk; the rest, if it is a chunk, becomes the victim and the old one is filed |
| HeapSmallFit.ExactBits | kernel/src/kernel/c/memory/dlmalloc/malloc.c:5553-5558 | the two-bit test and the index correction choose the bin of the size or else the next one |
| HeapSmallFit.NextSmall | kernel/src/kernel/c/memory/dlmalloc/malloc.c:5574-5576 | the shifted and masked map gives the first marked bin after those two |
| HeapSpace.MSpace.AllocSmall | kernel/src/kernel/c/memory/dlmalloc/malloc.c:5549-5601 | grants from the smallest binned chunk that fits, unless the victim comes first or nothing binned fits; the victim afterwards |
| HeapSpace.MSpace.AllocVictim | kernel/src/kernel/c/memory/dlmalloc/malloc.c:5612-5630 | grants from the front of the victim, split if a chunk is left over, which stays the victim, otherwise whole |
| HeapSpace.MSpace.AllocTop | kernel/src/kernel/c/memory/dlmalloc/malloc.c:5632-5642 | grants from the front of top |
| HeapSpace.MSpace.Malloc | kernel/src/kernel/c/memory/dlmalloc/malloc.c:5540-5652 | null if and only if the request is too big or no free chunk and not top has room; otherwise one new block of the size asked for or less than a minimum chunk more, other blocks and payloads untouched; null changes nothing.  The block comes from a smallest binned chunk that fits if the victim is too small or does not go before it, else from the victim if that fits, else from top; and which chunk is the victim afterwards |
| HeapAlloc.ChosenIs | kernel/src/kernel/c/memory/dlmalloc/malloc.c:5549-5612 | a binned chunk is taken before a victim that fits if and only if a small request finds one in the bin of its size or the next one, or a large request one that fits better |
| HeapAlloc.NextVictimIs | kernel/src/kernel/c/memory/dlmalloc/malloc.c:5612-5630 | the next victim is what is left of the old one if the block came from it, what is left of the chunk a small request was cut from, and the old one otherwise |
| HeapSpace.MSpace.MergeForward | kernel/src/kernel/c/memory/dlmalloc/malloc.c:4432-4465 | the region joins top, the victim or the free chunk after it, or stands alone, and is filed once; the victim is the chunk the old one is part of |
| HeapSpace.MSpace.DisposeChunk | kernel/src/kernel/c/memory/dlmalloc/malloc.c:4403-4469 | exactly one block less, coalesced on both sides, payloads of the others untouched; the victim is the chunk the old one is part of, none if that went into top |
| HeapSpace.MSpace.Free | kernel/src/kernel/c/memory/dlmalloc/malloc.c:5654-5753 | exactly the given block is gone, a null pointer changes nothing, payloads of the others untouched; the victim is the chunk the old one is part of, none if that went into top |
| HeapSpace.MSpace.TryRealloc | kernel/src/kernel/c/memory/dlmalloc/malloc.c:4851-4928 | succeeds if and only if there is room in place; the block keeps what both sizes have in common; failure changes nothing |
| HeapSpace.MSpace.GrowIntoTop | kernel/src/kernel/c/memory/dlmalloc/malloc.c:4871-4882 | the last block grows to the size asked for, and the victim stays |
| HeapSpace.MSpace.GrowIntoVictim | kernel/src/kernel/c/memory/dlmalloc/malloc.c:4883-4904 | the block takes what it needs of the victim after it, and the rest is the victim; or all of it, if less than a chunk would be left |
| HeapSpace.MSpace.GrowIntoNext | kernel/src/kernel/c/memory/dlmalloc/malloc.c:4905-4922 | the block takes the free chunk after it and gives back what it does not need |
| HeapSpace.MSpace.Realloc | kernel/src/kernel/c/memory/dlmalloc/malloc.c:5775-5818 | null if and only if neither in place nor elsewhere is room, and then nothing changed; otherwise one block replaces the other and holds its first bytes, as many as both have.  The block stays where it is if and only if there is room in place |
| HeapResize.CopyLength | kernel/src/kernel/c/memory/dlmalloc/malloc.c:5810-5812 | a block that has to move is copied whole, in words, since it is shorter than the request |
| HeapAlign.RoundAlignment | kernel/src/kernel/c/memory/dlmalloc/malloc.c:4930-4938 | the smallest power of two that is at least 16 and the alignment asked for |
| HeapAlign.DoublingReaches | kernel/src/kernel/c/memory/dlmalloc/malloc.c:4934-4938 | the doubling loop ends if and only if the alignment is at most 2^31 |
| HeapAlign.AlignUp | kernel/src/kernel/c/memory/dlmalloc/malloc.c:4961-4963 | the mask rounds an address up to the next multiple of the alignment |
| HeapSpace.MSpace.AlignedAlloc | kernel/src/kernel/c/memory/dlmalloc/malloc.c:4930-5002 | an aligned block with at most a minimum chunk to spare, the leader and the rest given back; null exactly if the padded request does not fit, and then nothing changed |
| HeapSpace.MSpace.Memalign | kernel/src/kernel/c/memory/dlmalloc/malloc.c:5852-5861 | aligned to the least power of two that is at least 16 and the alignment asked for; null if and only if the request, padded for that alignment, does not fit, and then nothing changed; other payloads untouched |
| HeapSpace.MSpace.Mallinfo | kernel/src/kernel/c/memory/dlmalloc/malloc.c:3527-3564 | bytes in use plus bytes free are the footprint; the bytes in use are those of the live blocks and the state chunk; the walk covers the segment |
| HeapSpace.MSpace.LiveBlocks | kernel/src/kernel/c/memory/dlmalloc/malloc.c:3327-3338 | live blocks are 8-aligned, inside the segment and pairwise disjoint |
| HeapSpace.MSpace.EmptyIsFresh | kernel/src/kernel/c/memory/dlmalloc/malloc.c:5439-5460 | any space without live blocks has the initial shape: one top chunk, empty bitmaps, no victim |
| HeapSpace.MSpace.FreeAll | kernel/src/kernel/c/memory/dlmalloc/malloc.c:5654-5753 | freeing every block in any order restores the initial shape |
| HeapSpace.MSpace.Store | kernel/src/kernel/c/memory/dlmalloc/malloc.c:2305-2309 | a program's write inside its block disturbs neither the allocator nor another block |
| HeapSpace.MSpace.Run | kernel/src/kernel/c/memory/dlmalloc/malloc.c:5540-5861 | over any run of requests and writes the invariant holds, and a block no step concerns stays live, as long, and with the same contents |
| HeapState.FuseStep | kernel/src/kernel/c/memory/dlmalloc/malloc.c:2327-2333 | writing the head, foot and next head of a merged chunk keeps tiling, tags and bins in order |
| HeapState.CutStep | kernel/src/kernel/c/memory/dlmalloc/malloc.c:3094-3106 | writing the heads and feet of the two parts of a chunk keeps tiling, tags and bins in order |
| PageDescriptors.SectionReads | archArm/src/archArm/c/arm_mmu.c:124-150 | the hardware reads a section descriptor back as the base and every attribute that went in |
| PageDescriptors.PageReads | archArm/src/archArm/c/arm_mmu.c:152-173 | the hardware reads a small-page descriptor back as the base and every attribute that went in |
| PageDescriptors.CoarseReads | archArm/src/archArm/c/arm_mmu.c:110-122 | an aligned table address survives in its descriptor, for the hardware and for the kernel |
| PageDescriptors.RequestedGrants | archArm/src/archArm/c/arm_mmu.c:90-96 | by the access permissions of section B3.7.1 and the memory types of section B3.8.2 of the architecture: what the kernel and a user may do with a page is what privilege and access of the section ask for, and it is cached if and only if it is RAM, never shared, never global and always executable; the reserved encoding is made only by a read-only section without privilege |
| PageDescriptors.DescriptorWords | archArm/src/archArm/c/arm_mmu.c:110-173 | descriptors of all three kinds, bit for bit |
| PageWalk.CreateWalk | archArm/src/archArm/c/arm_mmu.c:184-201 | an empty second-level table in an empty slot changes no translation |
| PageWalk.PageWalks | archArm/src/archArm/c/arm_mmu.c:282-296 | a page descriptor changes the translation of its page and of no other address |
| PageWalk.SectionWalks | archArm/src/archArm/c/arm_mmu.c:249-260 | a section descriptor changes the translation of its megabyte and of no other address |
| PageTables.PageTable.GetTable | archArm/src/archArm/c/arm_mmu.c:175-210 | finds or makes the second-level table; no translation changes; the test for a section entry never fires, so that a page of the section is returned as a table; a table at address 0 is none |
| PageTables.PageTable.PageOverSection | archArm/src/archArm/c/arm_mmu.c:272-312 | mapping a page in a megabyte with a section entry writes the descriptor into the memory of that section and reports success, unless the page taken for a table is at address 0; exactly the page changes whose second-level entry lies there, so nothing if no table does |
| PageTables.TableHit | archArm/src/archArm/c/arm_mmu.c:272-312 | a table in order for which such a write changes the translation of another megabyte |
| PageTables.PageTable.MapSection | archArm/src/archArm/c/arm_mmu.c:240-270 | the mapping comes a megabyte further and nothing else changes |
| PageTables.PageTable.MapPage | archArm/src/archArm/c/arm_mmu.c:272-312 | the mapping comes a page further and nothing else changes |
| PageTables.PageTable.MapMemory | archArm/src/archArm/c/arm_mmu.c:314-362 | after success the walk takes every address the mapping reaches to its target with the requested attributes, and every other address where it went before; the attributes grant kernel and user what the section asks for; other mappings keep their room; it fails only where the pool has no second-level table left |
| PageMapping.TargetExact | archArm/src/archArm/c/arm_mmu.c:327-354 | every address of the range goes to its own offset if and only if no 1MB entry is used or real and virtual base agree modulo 1MB |
| PageMapping.RangeExact | archArm/src/archArm/c/arm_mmu.c:212-228 | only the range is mapped, if and only if it does not end inside the last megabyte of the address space after starting before it |
| PageMapping.ShiftedRam | kernel/src/kernel/c/process/process.c:167-181 | the kernel's RAM mapping, real page 1 at virtual page 0, maps page 0 to page 0 |
| VirtualLayout.InsertSorted | kernel/src/kernel/c/process/process.c:49-90 | sorted insertion keeps the list sorted |
| VirtualLayout.InsertLayout | kernel/src/kernel/c/process/process.c:49-90 | inserting a section that overlaps no other keeps the sections disjoint in order |
| VirtualLayout.HoleFits | kernel/src/kernel/c/process/process.c:639-686 | the hole lies after every section before it and ends before every section after it |
| VirtualLayout.HoleFirst | kernel/src/kernel/c/process/process.c:639-686 | the hole is the first one with more room than asked for above the base, and starts at the padded end of the section before it; after the last section, padded once more |
| VirtualLayout.AllocatedLayout | kernel/src/kernel/c/process/process.c:621-693 | with a section at the base and no wrap, the new section starts at or above the base and the list stays disjoint and in order |
| VirtualLayout.FreeAllocated | kernel/src/kernel/c/process/process.c:695-720 | freeing what was allocated restores the list |
| VirtualLayout.FreedRemoves | kernel/src/kernel/c/process/process.c:703-716 | freeing keeps every section that starts elsewhere, and leaves none that starts at the address if and only if the first one does not |
| VirtualLayout.PadAligns | kernel/src/kernel/c/process/process.c:671-673 | the padding reaches a page boundary if and only if it starts at one or in the middle of a page |
| VirtualLayout.FirstMatch | kernel/src/kernel/c/process/process.c:588-605 | the inclusive search finds the section of an address, or the one that ends there |
| VirtualLayout.OutsideSections | kernel/src/kernel/c/process/process.c:606-618 | an address in no section, ends included, is taken as an offset from the base, or from 0 if it is below, into the pool |
| VirtualLayout.TranslationAgrees | kernel/src/kernel/c/process/process.c:580-619 | software and hardware translation agree if and only if the address is not the start of a section that abuts another in virtual but not in real memory |
| ProcessMemory.Process.AddSection | kernel/src/kernel/c/process/process.c:28-111 | the linked list gets the section at the sorted place, all else in order |
| ProcessMemory.Process.AllocateVmem | kernel/src/kernel/c/process/process.c:621-693 | the linked list gets a section at the first hole that fits, or at the end; an empty list gets none.  With a section at the base and no wrap, it starts at or above 3GB in a user process and 2GB in a kernel process, and the sections stay disjoint and in order |
| ProcessMemory.Process.AllocateMapped | kernel/src/kernel/c/process/process.c:639-686 | for a hole that can be mapped exactly: the list gets the section, and unless the pool runs out of tables the walk takes its addresses to its real memory and every other address where it went before |
| ProcessMemory.Process.FreeVmem | kernel/src/kernel/c/process/process.c:695-720 | the first section that starts at the address is unlinked unless it heads the list |
| ProcessMemory.Process.Translate | kernel/src/kernel/c/process/process.c:580-619 | the first match, or the pool as a fallback |
| ProcessMemory.Process.InitialiseTable | archArm/src/archArm/c/arm.c:37-62 | unless the pool runs out of tables, the walk takes every page of every section to its own real memory with its attributes |
| ProcessMemory.SoftwareAgrees | kernel/src/kernel/c/process/process.c:580-619 | for a process whose sections are mapped, software and hardware translation agree, with the exact exception |
| Words.DecodeEncode | kernel/src/kernel/c/objects/obj_pipe.c:118-121 | the length in a slot reads back as it was written |
| PipeRing.StoredPush | kernel/src/kernel/c/objects/obj_pipe.c:118-139 | writing the slot after the last message appends it and disturbs no other slot; the slot is inside the buffer |
| PipeRing.StoredPop | kernel/src/kernel/c/objects/obj_pipe.c:715-726 | moving the read position drops the first message and keeps the order of the rest |
| Pipes.BufferSize | kernel/src/kernel/c/objects/obj_pipe.c:239-248 | in 32-bit arithmetic: whole pages, with room for every slot if and only if the sum of the slots is at most 2^32 less a page |
| Pipes.Pipe.constructor | kernel/src/kernel/c/objects/obj_pipe.c:285-318 | a new pipe is an empty queue |
| Pipes.Pipe.PutMessage | kernel/src/kernel/c/objects/obj_pipe.c:106-139 | the queue grows by exactly this message |
| Pipes.Pipe.Received | kernel/src/kernel/c/objects/obj_pipe.c:705-750 | the queue loses exactly its oldest message, and every thread noted as a blocked sender is made ready if it waits |
| Pipes.Pipe.NotifySenders | kernel/src/kernel/c/objects/obj_pipe.c:728-742 | exactly the threads that last blocked in sending at the pipes noted here are woken, whatever they wait for, and join their run queues in the order the pipes were noted |
| Pipes.Pipe.ReceiveMessage | kernel/src/kernel/c/objects/obj_pipe.c:106-158 | the message goes to the end of the queue; if the thread noted at the pipe waits on it, in a read or in sending, that thread gets the oldest message whole and is ready and in its run queue, and is noted no more |
| Pipes.Pipe.HandOver | kernel/src/kernel/c/objects/obj_pipe.c:147-157 | the thread noted at the pipe gets the oldest message and is made ready, the noted senders are woken, and the pipe forgets the thread |
| Pipes.Pipe.Receive | kernel/src/kernel/c/objects/obj_pipe.c:635-703 | messages come out in order, intact and once; a read that is too short, or of an empty pipe, changes nothing; a blocking read of an empty pipe leaves the thread waiting and in no run queue |
| Pipes.Pipe.CanSendToAll | kernel/src/kernel/c/objects/obj_pipe.c:170-194 | true if and only if every receiver is one that receives and has a free slot; a blocking sender is noted at those that have none |
| Pipes.Pipe.Prepare | kernel/src/kernel/c/objects/obj_pipe.c:170-194 | true if and only if every receiver has room; otherwise the only change is that a sender that means to wait is noted at the receivers that are full |
| Pipes.Pipe.Take | kernel/src/kernel/c/objects/obj_pipe.c:617-624 | a pipe with room changes the kernel as `PipeModel.Offer` says, one without room leaves it as it was |
| Pipes.Pipe.Broadcast | kernel/src/kernel/c/objects/obj_pipe.c:609-630 | the kernel is the one `PipeModel.Deliver` gives for all receivers in order; no thread leaves its run queue, and those woken are in theirs |
| Pipes.Pipe.BlockSender | kernel/src/kernel/c/objects/obj_pipe.c:584-591 | the thread waits on the pipe and is in no run queue; nothing else changes |
| Pipes.Pipe.Send | kernel/src/kernel/c/objects/obj_pipe.c:565-633 | result, pipes and threads are those of `PipeModel.Send`, whose meaning `PipeFlow.SendResults` states; run queues and states still fit, a thread that blocks is in no run queue, and one that is woken is in its own |
| Pipes.Pipe.Read | kernel/src/kernel/c/objects/obj_pipe.c:635-703 | result, message, pipes and threads are those of `PipeModel.Receive`, whose meaning `PipeFlow.ReadResults` states; run queues and states still fit |
| PipeFlow.SendResults | kernel/src/kernel/c/objects/obj_pipe.c:565-633 | in directions, queues and totals: the wrong polarity if and only if the pipe only receives; sending to all succeeds if and only if each receiver takes messages and holds fewer than its slots, and otherwise blocks or reports them full; a successful send adds exactly the message at exactly the receivers that can take it, any other adds nothing |
| PipeFlow.ReadResults | kernel/src/kernel/c/objects/obj_pipe.c:635-703 | each result of a read if and only if its condition on direction, queue and length; a message is returned whole and leaves the queue, or the queue stays |
| PipeFlow.GivenAway | kernel/src/kernel/c/objects/obj_pipe.c:147-157 | a pipe that accepts a message gives its oldest one away if and only if the thread noted there waits on the pipe, in whatever state, and that thread is made ready only if it is waiting; otherwise the queue grows and no thread changes |
| PipeFlow.FillsUp | kernel/src/kernel/c/objects/obj_pipe.c:170-194 | into an empty receiver that nobody reads, exactly as many sends as it has slots succeed, later ones are refused, and it holds the messages of the first in order |
| PipeFlow.SenderGoesOn | kernel/src/kernel/c/objects/obj_pipe.c:728-742 | a thread that blocks in sending to a full receiver is ready after the next read from it |
| PipeFlow.SecondSender | kernel/src/kernel/c/objects/obj_pipe.c:584-591 | a second thread that blocks in sending from the same pipe displaces the first, which the next read does not wake |
| PipeHistory.DeliverAt | kernel/src/kernel/c/objects/obj_pipe.c:609-630 | each receiver with room takes the message, and gives its oldest one away exactly if the thread noted there still waits on it when its turn comes; the others stay as they are |
| PipeHistory.NoneLeftWaiting | kernel/src/kernel/c/objects/obj_pipe.c:609-630 | no thread noted at a receiver that had room waits on it after the message |
| PipeHistory.PassedOver | kernel/src/kernel/c/objects/obj_pipe.c:728-742 | a thread that waited at a receiver with room gets nothing only if it was woken before, as a sender noted at a receiver that gave a message away |
| PipeHistory.ReaderGets | kernel/src/kernel/c/objects/obj_pipe.c:565-703 | a thread that blocks in a read of an empty pipe gets the next message sent to it, whole and once |
| PipeRuns.PipeSystem.Step | kernel/src/kernel/c/objects/obj_pipe.c:565-703 | one call gives the result, the message and the kernel of `PipeModel.Do`; a call for a pipe or thread that is not there is refused |
| PipeRuns.PipeSystem.Run | kernel/src/kernel/c/objects/obj_pipe.c:565-703 | the results and the trace of a run are those of its calls in order, each in the state the calls before it left; what the trace says was read or handed over at a pipe is what the pipe held and accepted, in order and once each, up to what it still holds; no thread noted at a pipe is left blocked in a read while the pipe holds a message; and who gets what is handed over |
| PipeHistory.TraceAt | kernel/src/kernel/c/objects/obj_pipe.c:565-703 | each entry of a trace is what its call gave in the state that the calls before it left |
| PipeHistory.RunBalanced | kernel/src/kernel/c/objects/obj_pipe.c:106-158 | over any run, what a pipe held and accepted is what was read or handed over and what it holds, in order, and it never holds more than it has slots |
| PipeHistory.RunMisses | kernel/src/kernel/c/objects/obj_pipe.c:672-679 | over any run and for every pipe, no thread noted there is left blocked in a read while the pipe holds a message |
| PipeHistory.RunHandsOver | kernel/src/kernel/c/objects/obj_pipe.c:147-157 | over any run that no thread enters waiting on a pipe: a message is handed to a thread that blocked at that pipe last, and to one blocked in a read if and only if that was in a read; on a pipe that only receives it always was |
| PipeHistory.Strays | kernel/src/kernel/c/objects/obj_pipe.c:147-157 | on a pipe that sends and receives, whenever the thread noted there from a read blocks in sending from it, the next message for the pipe is handed to that thread |
| PipeStrays.StrayRun | kernel/src/kernel/c/objects/obj_pipe.c:565-750 | a run of nine calls from a state where no thread waits, in which a message is handed to a thread that is blocked in sending |
| PipeRuns.Stray | kernel/src/kernel/c/objects/obj_pipe.c:147-157 | the same on pipes and threads: the send blocks, and the next message for the pipe wakes the sender and is lost to readers |
| PipeRuns.SecondReader | kernel/src/kernel/c/objects/obj_pipe.c:672-679 | a second thread that reads an empty pipe displaces the first, which is not woken by the next message |
| PipeRuns.WokenInVain | kernel/src/kernel/c/objects/obj_pipe.c:728-742 | a thread that once blocked in sending is woken from a later read although no message came for it |
| HashedMaps.IndexMask | kernel/src/kernel/c/utils/collections/hashed_map.c:126 | the bucket index is the hash masked with the bucket count less one |
| HashedMaps.CrowdedBy | kernel/src/kernel/c/utils/collections/hashed_map.c:214-274 | a bucket has no room if and only if the map has 32 keys of that bucket, and it never has more |
| HashedMaps.CrowdOut | kernel/src/kernel/c/utils/collections/hashed_map.c:214-274 | an empty map takes any 32 keys of one bucket and refuses any other one of it |
| HashedMaps.FindSlot | kernel/src/kernel/c/utils/collections/hashed_map.c:238-254 | finds the slot of a key wherever it is, and otherwise the first vacant slot |
| HashedMaps.ClearSlot | kernel/src/kernel/c/utils/collections/hashed_map.c:286-303 | clears exactly the slot of the key and tells whether the bucket is empty |
| HashedMaps.HashedMap.Get | kernel/src/kernel/c/utils/collections/hashed_map.c:186-209 | the value of the key in the finite map, none if it has none |
| HashedMaps.HashedMap.Put | kernel/src/kernel/c/utils/collections/hashed_map.c:214-274 | the finite map with the pair, or unchanged if refused, with the exact condition of a refusal; the size counts keys as long as only absent keys are put |
| HashedMaps.HashedMap.Remove | kernel/src/kernel/c/utils/collections/hashed_map.c:279-315 | the finite map without the key; an emptied bucket goes |
| HashedMaps.HashedMap.ContainsKey | kernel/src/kernel/c/utils/collections/hashed_map.c:338-362 | whether the key is in the finite map |
| MapIterators.MapIterator.Reset | kernel/src/kernel/c/utils/collections/hashed_map.c:452-484 | the first entry in bucket order, if there is any |
| MapIterators.MapIterator.Next | kernel/src/kernel/c/utils/collections/hashed_map.c:408-450 | the entry that follows in bucket order, and none exactly at the last one |
| MapIterators.VisitAll | kernel/src/kernel/c/utils/collections/hashed_map.c:392-484 | a walk from reset by next visits every pair of an unmodified map exactly once |
| MapIterators.HalfCapacity | kernel/src/kernel/c/utils/collections/hashed_map.c:19-22 | no map holds more than 32768 keys, since the mask leaves only even bucket numbers |
| RunQueues.SlowSearchFinds | kernel/src/kernel/c/scheduler/scheduler.c:304-324 | the search ends despite the 8-bit wrap, at the highest busy queue below the start or at queue 0 |
| RunQueues.FocusNewOk | kernel/src/kernel/c/scheduler/scheduler.c:136-151 | current queue and stack stay among the 256 queues |
| RunQueues.FocusExitOk | kernel/src/kernel/c/scheduler/scheduler.c:164-191 | current queue and stack stay among the 256 queues |
| RunQueues.FocusChangeOk | kernel/src/kernel/c/scheduler/scheduler.c:233-273 | current queue and stack stay among the 256 queues |
| RunQueues.LowerPanics | kernel/src/kernel/c/scheduler/scheduler.c:233-268 | lowering a priority panics if and only if the current queue ran empty and the next one on the stack is empty too |
| RunQueues.RaiseIsSafe | kernel/src/kernel/c/scheduler/scheduler.c:241-247 | raising a priority never panics |
| RunQueues.WithLowerIs | kernel/src/kernel/c/scheduler/scheduler.c:53-118 | the entries of the stack keep their order, and the queue is on it afterwards if and only if it was before or a busy queue of lower priority is |
| RunQueues.LowerAt | kernel/src/kernel/c/scheduler/scheduler.c:53-118 | where: the search ends at the first busy queue that is not above; nothing happens if that is the queue itself, otherwise it goes right below it, or right above the bottom |
| RunQueues.LowerGrows | kernel/src/kernel/c/scheduler/scheduler.c:53-118 | with threads in queue 0 at the bottom, every lower thread made ready adds an entry right above the bottom, even if its queue is on the stack |
| RunQueues.NewInOrder | kernel/src/kernel/c/scheduler/scheduler.c:120-153 | the current queue stays the top of the stack, with its number or 0 as current priority, and every busy queue stays on the stack; a thread above the current priority makes its queue current, any other does not |
| RunQueues.ExitInOrder | kernel/src/kernel/c/scheduler/scheduler.c:155-194 | the same is kept; if the current queue still has threads the stack stays, otherwise it loses exactly its top and the queue below becomes current |
| RunQueues.ChangeInOrder | kernel/src/kernel/c/scheduler/scheduler.c:214-275 | the same is kept unless the kernel panics; raised, the queue of the thread becomes current; lowered, the current queue stays if it has threads, otherwise the one below on the stack is taken, which is that of the thread if there was only the bottom |
| Schedulers.Scheduler.InOneQueue | kernel/src/kernel/c/scheduler/scheduler.c:120-153 | a thread is in no other run queue than that of its present priority |
| Schedulers.WithoutOk | kernel/src/kernel/c/utils/collections/unbounded_list.c:275-296 | removing an item from a list without repetitions removes it and nothing else |
| Schedulers.WithoutAt | kernel/src/kernel/c/utils/collections/unbounded_list.c:275-296 | removing an item takes out its first occurrence, and the others keep their order |
| Schedulers.SwappedOk | kernel/src/kernel/c/utils/collections/unbounded_list.c:348-376 | reordering a queue exchanges its first and its last member and keeps the others in place |
| Schedulers.TurnsTaken | kernel/src/kernel/c/scheduler/scheduler.c:348-349 | after any number of selections the queue is the one it was, or that one with its ends exchanged |
| Schedulers.RoundRobin | kernel/src/kernel/c/scheduler/scheduler.c:348-349 | every thread of a queue gets a turn if and only if there are at most two |
| Schedulers.StatesAre | kernel/src/kernel/c/objects/obj_thread.c:177-205 | a thread can be made to wait unless it is not created, terminated or dead; of those it can run unless it is paused, waiting or idle |
| Schedulers.Scheduler.constructor | kernel/src/kernel/c/scheduler/scheduler.c:26-43 | a new scheduler has empty queues and looks at queue 0 |
| Schedulers.Scheduler.InsertLower | kernel/src/kernel/c/scheduler/scheduler.c:53-118 | the queue goes on the stack where the linear search meets a busy queue of lower priority, unless it meets the queue itself first; the other entries keep their order, and when it is on the stack afterwards |
| Schedulers.Scheduler.FindNext | kernel/src/kernel/c/scheduler/scheduler.c:304-324 | the loop computes the slow search, and ends |
| Schedulers.Scheduler.NotifyNew | kernel/src/kernel/c/scheduler/scheduler.c:120-153 | the thread joins the end of the queue of its priority, once; the current queue and the stack change as specified; invariant and order of the stack hold |
| Schedulers.Scheduler.NotifyExit | kernel/src/kernel/c/scheduler/scheduler.c:155-194 | the thread is in no queue, the others keep their order; the current queue and the stack change as specified; invariant and order of the stack hold |
| Schedulers.Scheduler.NotifyChangePriority | kernel/src/kernel/c/scheduler/scheduler.c:214-275 | the thread goes to the end of the queue of its new priority only, other threads stay; panics exactly as specified; unless it does, the order of the stack holds |
| Schedulers.Scheduler.Dispatch | kernel/src/kernel/c/scheduler/scheduler.c:326-401 | selects the first of the current queue if it can run, otherwise the idle thread; of an empty queue the present thread if it can run: never a thread that waits, is paused, terminated or not created; the ends of the current queue are exchanged, the other queues stay; no thread but the current one is marked as running |
| Schedulers.Scheduler.SetWaiting | kernel/src/kernel/c/objects/obj_thread.c:177-205 | a thread in a live state waits and is in no run queue, the other threads stay in theirs; otherwise nothing changes |
| Schedulers.Scheduler.SetReady | kernel/src/kernel/c/objects/obj_thread.c:223-243 | a waiting thread is ready and at the end of the queue of its priority, the others stay in theirs; any other thread is left alone |
| Schedulers.Scheduler.Exit | kernel/src/kernel/c/objects/obj_thread.c:119-155 | a live thread ends, is in no run queue and is not current; the other threads stay in their queues |
| Schedulers.Scheduler.SetPriority | kernel/src/kernel/c/objects/obj_thread.c:280-311 | a new priority other than 0 moves the thread to that queue and no other thread; panics exactly as specified; queues and states still fit if and only if the thread can run |
| Schedulers.Scheduler.ResetPriority | kernel/src/kernel/c/objects/obj_thread.c:313-331 | the thread goes back to the queue of its original priority, others stay; panics exactly as specified |
| Schedulers.Scheduler.KeepPriority | kernel/src/kernel/c/objects/obj_thread.c:333-348 | the present priority becomes the original one |
| Schedulers.Scheduler.Create | kernel/src/kernel/c/objects/obj_thread.c:40-83 | a new thread is ready and at the end of the queue of its priority |
| Schedulers.Scheduler.Step | kernel/src/kernel/c/scheduler/scheduler.c:120-401 | every call keeps the invariant and a single running thread, and keeps queues and states in step if and only if it does not change the priority of a thread that cannot run; the order of the stack is kept |
| Schedulers.Scheduler.Run | kernel/src/kernel/c/scheduler/scheduler.c:120-401 | over any run up to a panic: each thread is in no queue but that of its priority, only the current thread is marked as running, and the queues hold exactly the threads that can run unless the priority of one that cannot was changed; runs without priority changes do not panic.  While no such change is made and the idle thread is left alone, the current queue is the top of the stack, every queue with threads is on it, and queue 0 with the idle thread is at its bottom |
| Schedulers.PanicRun | kernel/src/kernel/c/scheduler/scheduler.c:214-275 | a run of four calls from a new scheduler that ends in a panic |
| Schedulers.NextRun | kernel/src/kernel/c/scheduler/scheduler.c:155-194 | a run: after the thread of priority 7 ends, that of priority 5 is chosen |
| Schedulers.StarveRun | kernel/src/kernel/c/scheduler/scheduler.c:155-194 | a run after which the idle thread is chosen, though a thread of priority 3 is ready and in its queue, because the queue below on the stack is empty |
| Registries.Registry.Get | kernel/src/kernel/c/objects/registry.c:116-155 | the entry of a registered name, and an error for any other |
| Registries.JoiningLast | kernel/src/kernel/c/objects/registry.c:157-190 | a thread that waits for a name is behind those that already do, and the queues of other names stay |
| Registries.Registry.WaitFor | kernel/src/kernel/c/objects/registry.c:157-190 | a live thread waits and is in no run queue; it is queued under the name if and only if the map of queues does not refuse a new queue, by its own condition; otherwise it is in no queue |
| Registries.Registry.Open | kernel/src/kernel/c/objects/obj_pipe.c:357-412 | looking up and waiting are one step: a thread finds the name, or waits and is queued under it unless the map refuses a queue |
| Registries.Registry.Drain | kernel/src/kernel/c/objects/registry.c:89-97 | every queued thread that still waits is made ready, first come, first served; no other thread changes |
| Registries.Registry.Add | kernel/src/kernel/c/objects/registry.c:53-114 | a successful add wakes every thread still waiting for the name, in the order they came, drops its queue and leaves other names alone; a refused one changes nothing; no name with waiters is ever registered |
| Registries.Registry.Remove | kernel/src/kernel/c/objects/registry.c:192-225 | exactly the name is gone |
| Registries.Registry.Run | kernel/src/kernel/c/objects/registry.c:53-225 | over any run: a thread waits only for a name that is not registered and is in its queue, or had its queue refused; it goes on waiting until the name is registered |
| Registries.Registry.WaitAndWake | kernel/src/kernel/c/objects/registry.c:53-190 | a thread that opened a name in vain is, after any run that does not register the name and once it is registered, ready and in its run queue; registering it fails only if the map of entries has no room then, and the thread goes on waiting in the queue of the name |
| Registries.Registry.RefusesWhen | kernel/src/kernel/c/objects/registry.c:157-190 | a queue is refused if and only if the name has none and the map is full or has 32 names of the same bucket |
| Registries.Registry.WaitInVain | kernel/src/kernel/c/objects/registry.c:157-190 | a wait leaves the thread in no queue if and only if the map refuses one |
| ElfLoader.FindPhdr | libelf/src/libelf/c/elfload.c:25-39 | the next header of the kind, none exactly if there is none |
| ElfLoader.Extents | libelf/src/libelf/c/elfload.c:81-105 | the least size that bounds every loadable segment, and the largest alignment |
| ElfLoader.LoadSegment | libelf/src/libelf/c/elfload.c:152-168 | the bytes of the file followed by zeros, and no byte outside the segment |
| ElfLoader.Load | libelf/src/libelf/c/elfload.c:134-174 | every segment is in the image in the end, and nothing outside the segments was written |
| ElfLoader.LoadElf | kernel/src/kernel/c/loader/loader.c:79-93 | a buffer of the computed extent holds every write |
| SystemTimers.GetTime | driverSocBcm2835/src/driverTimerBcm2835/c/bcm2835_timer.c:199-216 | the loop ends with the first round of three reads in which the two reads of the high word agree, and returns 1000 times the counter at the read of the low word between them |
| SystemTimers.NeverBackwards | driverSocBcm2835/src/driverTimerBcm2835/c/bcm2835_timer.c:199-216 | of two readings one after the other, the second is not smaller while the product fits in 64 bits, and both lie between the counter before and after |

## Left out

- HeapSpace: calloc, usable size, realloc in place, the independent and bulk calls, several segments, locks, footers, mmap and trimming; with one fixed segment these are compiled out, unused or add easy members.
- HeapSpace.MSpace.constructor: asks for what makes a sound top, a word-aligned end of the segment and room for the alignment of its base; `HeapShape.FreshTop` says that nothing less would do.
- HeapSpace.MSpace.Memalign: asks for an alignment of at most 2^31, beyond which the source does not return.
- HeapSpace.MSpace.Free: a pointer that is not a live block is outside the contract, as in the source, whose checks only catch some of them.
- HeapSpace: the words of the state chunk that hold scalars are fields of the class, not words of the memory.
- PageTables.PageTable.MapMemory: asks for page-aligned bases, a range inside the address space, and that no page of the range falls into a slot with a section entry; `PageOverSection` says what happens there.
- PageTables.PageTable: unmapping clears the first page of a section only and is not modelled; cache and TLB maintenance is not either.  A failed allocation of a table, a kernel panic in the source, ends the mapping.
- ProcessMemory.Process.AllocateVmem: only the list; `AllocateMapped` adds the mapping for holes that can be mapped exactly.  A hole found after the search wrapped around can lie below the base.
- ProcessMemory.Process.FreeVmem: only the list; the unmapping and the freed memory of the section are not modelled.
- ProcessMemory.Process: creation, threads and exit of processes.
- Pipes.Pipe.ReceiveMessage: a hand-over ignores the limit the reader gave, as the source does; the copy into the memory of the reader is the field `handed`.
- Pipes.Pipe.Send: asks for messages no longer than each receiver's message size, which the source does not test.
- PageTables.PageTable.PageOverSection: the first-level table is not in the section that is written to.
- Registries.Registry.WaitFor: asks for a name that is not registered, which its callers have looked up before.
- PipeRuns.PipeSystem.Run: threads that end while they are noted at a pipe, whose objects the source frees.
- Pipes.Pipe: receive buffers sized by `obj_open_pipe`, which leave out the length words; deletion of pipes.
- HashedMaps.HashedMap: the hash and its mixing are a parameter, keys are values, and allocation succeeds.
- Schedulers.Scheduler: queues and stacks are sequences; the links of `unbounded_list` are not modelled, and neither are contexts and timers.
- Registries.Registry: names are taken as they are after their truncation to the key length, and allocation succeeds.
- ElfLoader.Load: reading the file succeeds, segments have no more bytes in the file than in memory, do not overlap and do not wrap; the checks of the file header, dynamic segments and relocation are left out.
- SystemTimers.GetTime: the registers are a function from read instants to counter values.
- Semaphores, alarms, shared memory, devices, drivers, system calls, memory pools and start-up: I/O, or what remains true of them is easy.
