# Verified models of the Koros kernel

Koros is a small multi-architecture kernel written in Rust. This project models four parts of it in
Dafny and proves properties that hold for every input, every run or every reachable state.

* **Scheduler and blocking primitives** (`Sched`, `SchedPlaces`, `SchedFate`, `SchedSem`, `SchedTimer`,
  `SchedClients`, `SchedDelivery`, `SchedProtocol`). A step relation over any number of CPUs and tasks.
  `schedule` parks the outgoing task in a per-CPU slot and `finish_switch`, running on the incoming task,
  publishes it; blocking holds the wait queue's lock across the switch. Semaphores, mutexes and channels
  run on top. What a thread does after a call, and what a call returns, is stated about the steps of a run.
* **Page tables and user memory** (`Bits`, `PteCodec`, `PageTable`, `PageUnmap`, `PageCount`,
  `PageMap`, `VirtualMemory`, `Processes`, `RiscvPages`). Table words changed in place refine a flat map
  from virtual addresses to physical addresses and flags. The entry encoding is a contract, proved for each
  of the three architectures. Running out of frames is exact: the tables an operation needs are counted.
  The process's page map is a second index that agrees with the tables. Any number of processes share
  one memory and one frame pool.
* **ext2 storage** (`BlockTree`, `BlockSubtree`, `BlockEdit`, `BlockCount`, `FileBytes`, `Ext2Inode`,
  `FileRuns`, `Ext2Bitmap`, `BlockCache`, `CrashOrder`, `Xattr`, `Ext2Dir`). The indirect block tree refines a partial
  map of logical blocks, file reads and writes refine a byte map with holes, the write-back cache refines the
  plain device, and the mount and unmount order makes the clean marker trustworthy at every crash.
* **Frame and slab allocators** (`FrameAllocator`, `SlabBlocks`, `SlabHeap`). A word-packed bitmap with
  search hints refines a set of extents; intrusive free lists refine a set of disjoint blocks.

Code that updates state in place is modelled by classes and methods with loops. Each method is proved
against a specification over plain values (`Tree`, `PT`, a view of the device, a set of frames), and
the properties of those values are lemmas. Allocated sets, tree levels, parents and the like are ghost
state that the methods keep. Concurrency is modelled by interleaved steps.

Results worth knowing before relying on the code:

* On RISC-V a user page with none of R, W and X, as `mmap` and `mprotect` create for no access, is
  mapped but never unmapped: unmapping reports success, forgets the page and frees its frame while the
  tables still map it, and neither a new mapping nor new permissions are possible there
  (`RiscvPages.MapThenUnmap`, `MapAgain`, `ProtectAgain`). The record agrees with the tables after an
  unmap if and only if there was no such page (`VirtualMemory.AddressSpace.UnmapRange`).
* The RISC-V 2 MiB encoder drops physical address bit 21 (`PteCodec.RvMegaExact`); the mask clears one
  bit more than the page number field of section 4.4 of the RISC-V Privileged Specification. Splitting a
  1 GiB leaf therefore moves its odd 2 MiB pieces (`PteCodec.RvSplitChanges`).
* Requests for more than one frame can miss a free aligned run that crosses the search hint
  (`FrameAllocator.FindableIs`, `FrameAllocator.Straddle`).
* Truncating a file to zero forgets the sectors of its attribute block
  (`Ext2Inode.Inode.TruncateTo`, `FileRuns.LostSectors`).
* Cutting a file leaves the old bytes behind its new end, and extending it shows them again
  (`FileBytes.TailAfter`, `FileRuns.StaleTail`).
* Block numbers are cast to 32 bits: a write behind 2^32 blocks, 4 TiB with blocks of 1 KiB, does not fail
  but overwrites the file from its start (`FileBytes.CastExact`, `FileRuns.FoldedWrite`).
* When an unmount fails after the clean marker was written, a crash may leave that marker over later
  writes until the next successful sync (`CrashOrder.StaleMarker`, `CrashOrder.Volume.NewEpoch`).
* A directory slot split leaves the name length of its free half unset, so the free half may look too
  short for its name, and the room computed behind it negative (`Ext2Dir.StaleUnderflow`).
* An attribute whose name is empty, as the two POSIX ACL names are, or longer than 255 bytes does not
  survive being stored (`Xattr.RoundTrip`).

`dafny verify dfyconfig.toml` checks the whole project.

## Model

| member | source | states |
|---|---|---|
| SchedPlaces.PlacesRun | base/kor-sched/src/lib.rs:285-361 | Every run of scheduler steps (spawn, pick, commit, switch, finish, wake, sleep, exit, reap, on any number of CPUs) keeps the per-CPU fields consistent, every thread in one place and every idle context saved |
| SchedPlaces.OnePlaceStep | base/kor-sched/src/lib.rs:294-326 | One step carries threads between current, `prev`, ready queue, sleepers, wait lists, wakers, zombies and freed; it duplicates and loses none |
| SchedPlaces.ExactlyOnePlace | base/kor-sched/src/lib.rs:285-432 | After any run from boot, each spawned thread occupies exactly one place |
| SchedPlaces.OneCpuPerTask | base/kor-sched/src/lib.rs:330-361 | No two CPUs execute on the stack of one task, also between commit and switch |
| SchedPlaces.QueuedIsSaved | base/kor-sched/src/lib.rs:294-326 | A thread that is in any queue, in a waker's hand or just picked has its context saved |
| SchedPlaces.SwitchLoadsSaved | base/kor-sched/src/lib.rs:330-361 | In every run, the context switch only loads a context that was saved |
| SchedPlaces.ExitedNeverRuns | base/kor-sched/src/lib.rs:384-406 | From the moment a thread has exited, in every continuation no CPU executes it, so `reap` never frees a stack in use |
| SchedFate.Fate | base/kor-sched/src/lib.rs:294-391 | In every run, a thread that calls `schedule` to yield, sleep, exit or block is, once the next task has finished the switch, in the ready queue, the sleepers, the zombies or that wait list and nowhere else, until a step takes it out there; before that it is still leaving its CPU |
| SchedFate.ExitIsFinal | base/kor-sched/src/lib.rs:384-391 | In every run, after a thread called `exit` and its CPU switched away, no CPU executes it again; up to that switch it is not handed to `reap` |
| SchedFate.ExitIsReaped | base/kor-sched/src/lib.rs:399-406 | The next `reap` after that frees it |
| SchedFate.ReadyFifo | base/kor-sched/src/lib.rs:285-291 | In every run, threads are picked in the order in which they became ready, each once |
| SchedFate.WaitFifo | base/kor-sched/src/lib.rs:551-580 | In every run, wakers take threads from a wait queue in the order in which they blocked on it, each once |
| SchedFate.WakesChosen | base/kor-sched/src/lib.rs:551-634 | A broadcast makes all threads of the list ready, a single wake-up or a post the first one, in order, and no other |
| SchedTimer.Timer.TimerTick | base/kor-sched/src/lib.rs:410-432 | The tick moves exactly the due sleepers to the back of the ready queue, as a run of the scheduler's own wake-up steps, and counts the slice down without going below zero |
| SchedSem.SemRun | base/kor-sched/src/lib.rs:502-634 | Every run keeps lock ownership, the count equation and the bound on tokens by woken threads for every semaphore and wait queue |
| SchedSem.LockHeldOnce | base/kor-sched/src/lib.rs:502-517 | In every run, a wait queue's lock is taken exactly when one CPU holds it, in a critical section or in a hand-off to `finish_switch` |
| SchedSem.CountConserved | base/kor-sched/src/lib.rs:600-634 | In every run, count = initial + posts - completed waits, and it never drops below zero (or below a negative initial value) |
| SchedSem.TokensRun | base/kor-sched/src/lib.rs:592-634 | The count of a semaphore is the value it was created with, plus the posts and minus the ended waits of the run, counted by steps |
| SchedSem.TokensCovered | base/kor-sched/src/lib.rs:600-634 | In every run, while a thread is blocked there are at least as many woken threads on their way to recheck the count as there are tokens |
| SchedSem.NoLostWakeup | base/kor-sched/src/lib.rs:313-322 | No run comes to rest with a token left and a thread asleep for it |
| SchedSem.NoDeadlock | base/kor-sched/src/lib.rs:330-634 | In every run, a CPU inside the scheduler can take a step, or it spins for a lock and the CPU that holds the lock can take one |
| SchedClients.WorldRun | base/kor-sched/src/sync.rs:39-104 | Every joint run of the scheduler with mutexes and channels keeps the semaphore invariants, the mutex equation and the channel equation |
| SchedClients.MutualExclusion | base/kor-sched/src/sync.rs:39-69 | In every run, semaphore count + live guards = 1 for every mutex, and two guards of one mutex are the same |
| SchedClients.OneGuard | base/kor-sched/src/sync.rs:65-69 | At most one thread holds a guard of a mutex |
| SchedClients.ItemPresent | base/kor-sched/src/sync.rs:99-104 | A receiver that completed its wait finds an item in the deque |
| SchedClients.ChannelFifo | base/kor-sched/src/sync.rs:92-104 | In every run, deque length = items count + calls in flight, the `expect` never fires, and the popped items are a prefix of the pushed ones with the deque as the rest |
| SchedDelivery.Delivery | base/kor-sched/src/sync.rs:92-104 | In every run, the items that `recv` returned are, in order, the first items given to `send`; the rest is with at most one returning receiver and in the deque |
| SchedProtocol.CallsComplete | base/kor-sched/src/sync.rs:39-104 | Before a thread makes another call its last one is complete: `lock` waited for the mutex and its guard was dropped, `send` held the mutex of the channel and posted an item, `recv` waited for an item and held the mutex |
| SchedProtocol.CallsGoOn | base/kor-sched/src/sync.rs:39-104 | In every run, a thread that is executed in the middle of such a call can take the next step of it |
| PteCodec.X86Ok | base/kor-arch/src/x86_64/pagetable.rs:199-273 | The x86-64 entry codec reads back what it writes at every level, for every aligned address below 2^48, and recognises it as a leaf; flags survive unchanged if and only if R and X are set |
| PteCodec.X86Words | base/kor-arch/src/x86_64/pagetable.rs:199-209 | The words of x86-64 tables and leaves, bit by bit |
| PteCodec.X86Grants | base/kor-arch/src/x86_64/pagetable.rs:199-209 | A walk that grants what all entries on its way grant, as the processor does, grants writing and user access exactly as the leaf was asked to |
| PteCodec.ArmOk | base/kor-arch/src/aarch64/pagetable.rs:247-326 | The same for AArch64; flags survive if and only if R is set |
| PteCodec.ArmWords | base/kor-arch/src/aarch64/pagetable.rs:247-287 | The words of AArch64 tables and leaves, bit by bit |
| PteCodec.RvOk | base/kor-arch/src/riscv64/pagetable.rs:305-368 | The same for RISC-V Sv39, with the address a 2 MiB leaf reads back as; flags survive if and only if U is set, and an entry is recognised as a leaf if and only if it has R, W or X |
| PteCodec.RvWords | base/kor-arch/src/riscv64/pagetable.rs:305-343 | The words of RISC-V tables and leaves, bit by bit |
| PteCodec.RvMegaExact | base/kor-arch/src/riscv64/pagetable.rs:309-312 | A RISC-V 2 MiB leaf reads back its address if and only if physical address bit 21 is clear and it has R, W or X |
| PteCodec.RvMegaCounterexample | base/kor-arch/src/riscv64/pagetable.rs:309-312 | A 2 MiB leaf at physical address 0x200000 reads back as address 0 |
| PteCodec.RvPageSeen | base/kor-arch/src/riscv64/pagetable.rs:305-360 | In a RISC-V table of pages every entry written reads as a mapping, but it is recognised as a leaf if and only if it has R, W or X |
| PteCodec.RvMegaSeen | base/kor-arch/src/riscv64/pagetable.rs:309-360 | A RISC-V 2 MiB entry written with none of R, W, X reads as a pointer to a table, and only such an entry does |
| PteCodec.SplitExact | base/kor-mmu/src/page_table.rs:327-352 | Which leaves split exactly: all on x86-64 and AArch64; on RISC-V every 2 MiB leaf and no 1 GiB leaf |
| PteCodec.RvSplitChanges | base/kor-mmu/src/page_table.rs:327-352 | Splitting a RISC-V 1 GiB leaf changes the translation of exactly the addresses in its odd 2 MiB pieces, each to the address 2 MiB below |
| PteCodec.RvSplitCounterexample | base/kor-mmu/src/page_table.rs:327-352 | A concrete table in which the split moves address 0x80200000 from its own frame to the one at 0x80000000 |
| PageTable.SplitView | base/kor-mmu/src/page_table.rs:327-352 | A table of finer leaves in place of a leaf keeps the tables well formed and, if the pieces are read back exactly, physical address, offset and flags of every virtual address |
| PageTable.SplitAt | base/kor-mmu/src/page_table.rs:327-352 | A split changes the translation of an address if and only if it lies in the leaf and its piece is not read back; the new translation is given exactly |
| PageTable.AddEmpty | base/kor-mmu/src/page_table.rs:305-312 | An empty table in place of an absent entry changes no translation |
| PageTable.MapOverTable | base/kor-mmu/src/page_table.rs:277-303 | A 2 MiB leaf over a pointer to a table of pages changes exactly the addresses it covers |
| PageTable.PutLook | base/kor-mmu/src/page_table.rs:277-303 | Writing one entry changes the translation of exactly the addresses that entry covers |
| PageUnmap.UniqueCover | base/kor-mmu/src/page_table.rs:399-459 | Two tables of one level that cover a common address are the same table |
| PageUnmap.ClearCount | base/kor-mmu/src/page_table.rs:431-437 | Clearing a leaf adds exactly its 4 KiB pages to the pages counted as unmapped |
| PageUnmap.EmptyLook | base/kor-mmu/src/page_table.rs:445-455 | Below an all-zero table nothing is mapped, so taking it out changes no translation |
| PageMap.AddrSpace.constructor | base/kor-mmu/src/page_table.rs:48-54 | A new address space maps nothing |
| PageMap.AddrSpace.Query | base/kor-mmu/src/page_table.rs:223-249 | The walk returns exactly what the tables say of the address |
| PageMap.AddrSpace.TranslateVa | base/kor-mmu/src/page_table.rs:110-118 | The physical address of a virtual one, or none, as the flat map says |
| PageMap.AddrSpace.SplitLeaf | base/kor-mmu/src/page_table.rs:327-352 | Splitting on the way to a finer map keeps the tables well formed and preserves every translation if the leaf can be split exactly; when no frame is left nothing changes |
| PageMap.AddrSpace.Descend | base/kor-mmu/src/page_table.rs:305-321 | One level down, creating a table or splitting a leaf where needed, without changing a translation if the leaf can be split exactly; an explicit mapping below is reached without allocating |
| PageMap.AddrSpace.PutLeaf | base/kor-mmu/src/page_table.rs:277-303 | An explicit mapping is refused exactly when one is recorded at the target; otherwise exactly one page is remapped, for any flags at the last level |
| PageMap.AddrSpace.Map | base/kor-mmu/src/page_table.rs:256-323 | Success maps exactly the page asked for, for any flags at the last level; if a leaf on the way splits exactly, success changes the translation of exactly `[va, va + size)` and any error changes none. All errors are exact: misalignment is `Unsupported`, an explicit mapping of the page blocks, and frames run out if and only if fewer are free than tables are missing on the way |
| PageMap.AddrSpace.FreeChild | base/kor-mmu/src/page_table.rs:447-455 | An empty child goes back to the pool, loses its metadata and its lock, and its entry becomes zero |
| PageMap.AddrSpace.UnmapIn | base/kor-mmu/src/page_table.rs:411-459 | The recursive walk cuts exactly the leaves inside its range that it recognises, counts them, frees the visited tables left empty, and keeps every other record |
| PageMap.AddrSpace.Unmap | base/kor-mmu/src/page_table.rs:399-409 | Removes exactly the leaves wholly inside a page-aligned range that are recognised as leaves and keeps those that straddle it; changes no other translation; returns the exact number of 4 KiB pages; frees exactly the tables taken out, which all cover part of the range, leaves no visited table empty and no freed page locked |
| PageMap.UnmapsWritten | base/kor-mmu/src/page_table.rs:431-456 | Unmapping a 4 KiB page written with given flags removes its translation if and only if the codec recognises the entry as a leaf, and otherwise leaves it |
| PageCount.Conserved | base/kor-mmu/src/page_table.rs:305-352 | Tables come from the frame pool and go back to it: free frames plus tables are conserved |
| PageCount.Enough | base/kor-mmu/src/page_table.rs:305-352 | A walk that reaches its page had as many frames as tables were missing; one that stops with none left had fewer |
| PageCount.UnmappedPlaces | base/kor-mmu/src/page_table.rs:431-456 | Unmapping one page gives back tables on its own way only |
| VirtualMemory.AddressSpace.constructor | apps/korix/src/mm/mod.rs:36-42 | An empty user half agrees with the empty page map |
| VirtualMemory.AddressSpace.MapZeroed | apps/korix/src/mm/mod.rs:147-179 | Success records one new page on a fresh zeroed frame and maps it, for any flags; `pages` goes on agreeing with the walk on every user page, frames stay distinct; when it succeeds and when it is refused is exact, down to the number of free frames; errors change neither pages nor memory; only own and free frames are touched |
| VirtualMemory.AddressSpace.ReplaceZeroed | apps/korix/src/mm/mod.rs:184-266 | Success leaves every page of the range on a fresh zeroed frame with the new flags, in the record and in the tables, and all other pages and frames as they were; it succeeds if and only if the range held nothing but recorded and recognised pages and there are frames for the pages and for the tables still missing; with recognised flags and tables that hold the recorded pages, a failure leaves the tables as they were if a frame is still free, if there were enough, or if nothing was recorded in the range |
| VirtualMemory.AddressSpace.ProtectRange | apps/korix/src/mm/mod.rs:268-324 | Success changes the flags of exactly the pages of the range in the record and in the tables; it succeeds if and only if the range is one of recorded pages that are in the tables and recognised when unmapped, and never for want of frames; a failure leaves the tables as they were if the new flags are recognised |
| VirtualMemory.AddressSpace.UnmapRange | apps/korix/src/mm/mod.rs:326-348 | Forgets exactly the recorded pages of the range and gives exactly their frames, and the tables left empty, back to the pool; fails exactly on misalignment, overflow or a recorded page the tables do not hold; afterwards the record agrees with the tables if and only if it did before and every page was recognised as a leaf |
| VirtualMemory.AddressSpace.Fork | apps/korix/src/mm/mod.rs:46-59 | The child is built from the frame pool both share: same addresses and flags, equal bytes, and only frames that were free, hence disjoint from the parent, which is unchanged; it succeeds if and only if there are frames for the root, the pages and their tables |
| VirtualMemory.AddressSpace.TranslateUser | apps/korix/src/mm/mod.rs:94-98 | While every recorded page is in the tables, a translation found is the one their walk finds, with its offset; while both agree, none is found exactly when the walk finds none |
| VirtualMemory.AddressSpace.SeenIsTranslated | apps/korix/src/mm/mod.rs:94-98 | The byte that kernel access sees at a user address is the one at the physical address the walk of the tables leads to |
| VirtualMemory.AddressSpace.ValidateRange | apps/korix/src/mm/mod.rs:104-131 | True if and only if every byte of the range lies on a recorded page below the limit that allows the access |
| VirtualMemory.AddressSpace.Store | apps/korix/src/mm/mod.rs:354-410 | Writes across pages if and only if the whole range is valid; then every address reads the new byte inside the range and its old byte outside, and no frame of anybody else changes |
| VirtualMemory.CopyReadsSame | apps/korix/src/mm/mod.rs:46-59 | After a fork every address reads the same through both spaces |
| VirtualMemory.Isolated | apps/korix/src/mm/mod.rs:384-410 | What one space stores is invisible to a space on other frames |
| VirtualMemory.LookInPage | base/kor-mmu/src/page_table.rs:223-249 | The walk finds every address of a page where it finds the start of the page |
| Processes.Processes.Spawn | apps/korix/src/mm/mod.rs:36-42 | A new process takes one free frame for its root; fails exactly when none is free |
| Processes.Processes.Fork | apps/korix/src/mm/mod.rs:46-59 | Adds a process that reads as its parent does, on frames nobody had, if and only if there are enough frames; every other process keeps its pages and its bytes |
| Processes.Processes.Store | apps/korix/src/mm/mod.rs:354-410 | Done by one of any number of processes over one memory and one frame pool, it succeeds exactly when it would for this process alone and changes its pages or bytes as it should; successful or not, it keeps all processes valid and on disjoint frames, and the pages and bytes of all others as they were |
| Processes.Processes.UnmapRange | apps/korix/src/mm/mod.rs:326-348 | Done by one of any number of processes over one memory and one frame pool, it succeeds exactly when it would for this process alone and changes its pages or bytes as it should; successful or not, it keeps all processes valid and on disjoint frames, and the pages and bytes of all others as they were |
| Processes.Processes.ProtectRange | apps/korix/src/mm/mod.rs:268-324 | Done by one of any number of processes over one memory and one frame pool, it succeeds exactly when it would for this process alone and changes its pages or bytes as it should; successful or not, it keeps all processes valid and on disjoint frames, and the pages and bytes of all others as they were |
| Processes.Processes.ReplaceZeroed | apps/korix/src/mm/mod.rs:184-266 | Done by one of any number of processes over one memory and one frame pool, it succeeds exactly when it would for this process alone and changes its pages or bytes as it should; successful or not, it keeps all processes valid and on disjoint frames, and the pages and bytes of all others as they were |
| Processes.Processes.MapZeroed | apps/korix/src/mm/mod.rs:147-179 | Done by one of any number of processes over one memory and one frame pool, it succeeds exactly when it would for this process alone and changes its pages or bytes as it should; successful or not, it keeps all processes valid and on disjoint frames, and the pages and bytes of all others as they were |
| RiscvPages.MapThenUnmap | apps/korix/src/mm/mod.rs:147-348 | On RISC-V, if mapping a page succeeds then so does unmapping it; the translation is gone if and only if the page had R, W or X, and otherwise it leads to a frame that is free again |
| RiscvPages.MapAgain | apps/korix/src/mm/mod.rs:147-179 | On RISC-V, after a page without R, W and X was mapped and unmapped, no page can be mapped there |
| RiscvPages.ProtectAgain | apps/korix/src/mm/mod.rs:268-324 | On RISC-V, the permissions of a page without R, W and X cannot be changed |
| Ext2Inode.Inode.ResolveBlockId | filesystems/kor-ext2/src/inode.rs:198-263 | The four index ranges resolve as the tree says, 0 for a hole; past the triple-indirect range it fails exactly when there is a triple-indirect block |
| BlockTree.ResolveDirect | filesystems/kor-ext2/src/inode.rs:198-211 | Logical blocks 0 to 11 are the first twelve pointers |
| BlockTree.ResolveSingle | filesystems/kor-ext2/src/inode.rs:211-221 | The next `p` are the entries, in order, of the block at pointer 12 |
| BlockTree.ResolveDouble | filesystems/kor-ext2/src/inode.rs:222-240 | Then entry `j` of the block at entry `i` of the block at pointer 13 is number `i * p + j` |
| BlockTree.ResolveTriple | filesystems/kor-ext2/src/inode.rs:241-264 | And one level further down for pointer 14; a hole on the way is a hole |
| Ext2Inode.Inode.AllocateBlockForOffset | filesystems/kor-ext2/src/inode.rs:331-472 | On success the logical block resolves to the returned block and every other one as before, new blocks came from the free set, all blocks of the tree stay distinct and in place, and the reported number is the growth of the tree; on failure no resolution changes. It fails if and only if the block lies past the reach of the tree or needs more blocks, data and indirect, than are free |
| BlockCount.SpotIff | filesystems/kor-ext2/src/inode.rs:198-264 | A spot of the tree is taken exactly when the way to it leads to a block |
| BlockCount.FitsFed | filesystems/kor-ext2/src/inode.rs:331-480 | What a set of logical blocks still needs and what is free shrink by the same number |
| Ext2Inode.Inode.AllocAndZeroBlock | filesystems/kor-ext2/src/inode.rs:487-495 | Takes a free block and clears it, and fails only when none is free |
| Ext2Inode.Inode.AllocBlock | filesystems/kor-ext2/src/bitmap.rs:104-164 | Takes a block through the bitmaps, from the inode's group on; bitmaps and counters stay right, and it fails exactly when no block is free |
| Ext2Inode.Inode.FreeBlock | filesystems/kor-ext2/src/bitmap.rs:172-212 | Every block an inode frees is an allocated block of the volume, so bitmaps and counters stay right |
| Ext2Inode.Inode.constructor | filesystems/kor-ext2/src/bitmap.rs:323-364 | A new inode has no blocks, on a volume whose free blocks are the clear bits |
| BlockTree.StoreNodeAt | filesystems/kor-ext2/src/inode.rs:198-263 | Storing a pointer changes the way to exactly the offsets that lead through its slot |
| BlockTree.DataSlotUnique | filesystems/kor-ext2/src/inode.rs:198-263 | A slot for data lies on the way to one logical block only, across all index ranges |
| BlockTree.StoreEmpty | filesystems/kor-ext2/src/inode.rs:331-472 | Hanging or clearing an empty indirect block changes no resolution |
| BlockTree.LinkInv | filesystems/kor-ext2/src/inode.rs:331-472 | Hanging a free block in an empty slot keeps the tree well formed |
| FileBytes.ResolveInjective | filesystems/kor-ext2/src/inode.rs:198-263 | No physical block stores two logical blocks |
| Ext2Inode.Inode.ReadIndirectBlock | filesystems/kor-ext2/src/inode.rs:302-319 | The pointers of an indirect block |
| Ext2Inode.Inode.WriteIndirectFull | filesystems/kor-ext2/src/inode.rs:627-638 | Rewrites one block to hold exactly the given pointers |
| Ext2Inode.Inode.CountIndirect | filesystems/kor-ext2/src/inode.rs:607-624 | The recursion counts exactly the nodes of the subtree |
| Ext2Inode.Inode.RecomputeIBlocks | filesystems/kor-ext2/src/inode.rs:581-603 | The recount is all nodes of the tree plus the attribute block, in sectors |
| Ext2Inode.Inode.FreeIndirect | filesystems/kor-ext2/src/inode.rs:664-680 | Frees exactly the nodes of the subtree |
| Ext2Inode.Inode.FreeAllBlocks | filesystems/kor-ext2/src/inode.rs:646-662 | Frees exactly the nodes of the tree and leaves it empty |
| Ext2Inode.Inode.FreeAndClearLogical | filesystems/kor-ext2/src/inode.rs:684-728 | Makes one logical block a hole, frees exactly its block and keeps the others; fails exactly past the tree under a triple-indirect block |
| Ext2Inode.Inode.PruneIndirect | filesystems/kor-ext2/src/inode.rs:746-765 | Frees exactly the indirect blocks below that became empty, keeps every resolution, rewrites nothing outside the subtree and tells whether the block itself is empty |
| Ext2Inode.Inode.PruneEmptyIndirects | filesystems/kor-ext2/src/inode.rs:732-742 | Afterwards no reachable indirect block is all zero, and no resolution changed |
| Ext2Inode.Inode.SetSize | filesystems/kor-ext2/src/inode.rs:566-572 | Stores the size, cut to 32 bits unless the volume and file support large sizes |
| Ext2Inode.Inode.TruncateTo | filesystems/kor-ext2/src/inode.rs:768-794 | Shrinking keeps resolution below the new end and clears it from there to the old end, frees exactly the nodes that left, leaves no empty indirect block and recounts `i_blocks`; every kept byte is unchanged, and the tail behind the new end is zero if and only if it was before; bitmaps and free counters stay right; the error condition is exact; truncation to 0 leaves a right `i_blocks` if and only if there is no attribute block |
| Ext2Inode.Inode.ReadAt | filesystems/kor-ext2/src/inode.rs:1200-1260 | Returns the bytes of the file up to its end, zeros for holes, each from the position it is cast to; the runs read in one request are invisible; fails exactly when the tree of full height does not reach some byte |
| Ext2Inode.Inode.WriteAtLocked | filesystems/kor-ext2/src/inode.rs:1021-1103 | Success changes exactly the bytes at the positions the request is cast to, sets the size to max(old, end) and keeps `i_blocks` equal to the recount, although bulk blocks are allocated unzeroed; it fails if and only if the range reaches past the tree or needs more blocks than are free, and then leaves size and every byte outside the range; bitmaps and free counters stay right |
| FileBytes.CastExact | filesystems/kor-ext2/src/inode.rs:1221-1221 | The 32-bit cast of block numbers serves a position where it is if and only if it lies below 2^32 blocks |
| FileBytes.WroteRun | filesystems/kor-ext2/src/inode.rs:1056-1073 | A run written in one request is the same as its blocks written one by one |
| FileBytes.WroteBlock | filesystems/kor-ext2/src/inode.rs:1077-1087 | Writing one patched block moves the write on by exactly its chunk |
| Ext2Inode.Inode.StoreXattrBlock | filesystems/kor-ext2/src/inode.rs:927-946 | Stores the attribute image in the owned block, or in a new one when it is shared, with the old reference count decremented; file contents unchanged and `i_blocks` still equal to the recount; fails if and only if it needs a block and none is free, changing nothing |
| Ext2Inode.Inode.DropXattrBlock | filesystems/kor-ext2/src/inode.rs:1615-1627 | Frees the attribute block, or only decrements it when shared, and keeps `i_blocks` equal to the recount and the bitmaps and counters right |
| Ext2Inode.Inode.DecrementXattrRefcount | filesystems/kor-ext2/src/inode.rs:950-956 | The stored reference count goes down by one, not below zero; every other byte of the block and every other block is unchanged |
| FileBytes.TailAfter | filesystems/kor-ext2/src/inode.rs:768-794 | Cutting a file leaves zeros behind its end if and only if the bytes cut off its last block were zero |
| FileRuns.StaleTail | filesystems/kor-ext2/src/inode.rs:768-794 | A run: two bytes written, the file cut to one byte and extended again, and the second byte is read back |
| FileRuns.FoldedWrite | filesystems/kor-ext2/src/inode.rs:1021-1103 | A run: one byte written right behind 2^32 blocks replaces the first byte of the file |
| FileRuns.LostSectors | filesystems/kor-ext2/src/inode.rs:768-794 | A run: an empty file with an attribute block is truncated to 0, and its sectors are not counted any more |
| Ext2Bitmap.FindFirstClear | filesystems/kor-ext2/src/bitmap.rs:79-94 | The first clear bit among those that belong to the group, or none exactly when all are set |
| Ext2Bitmap.BitOfNumber | filesystems/kor-ext2/src/bitmap.rs:42-100 | Bit `i` of a bitmap is bit `i` of its bytes read as one little-endian number |
| Ext2Bitmap.ClearsWith | filesystems/kor-ext2/src/bitmap.rs:54-75 | Setting or clearing a bit changes the number of clear bits by one exactly if it changed |
| Ext2Bitmap.FlipFree | filesystems/kor-ext2/src/bitmap.rs:104-212 | Changing the bit of a block changes the state of that block of the volume and no other |
| Ext2Bitmap.BlockAllocator.AllocBlockGoal | filesystems/kor-ext2/src/bitmap.rs:104-164 | Takes a free block, the lowest of the first group from the goal on that has one; both counters stay equal to the clear bits; fails exactly when no block is free |
| Ext2Bitmap.BlockAllocator.FreeBlock | filesystems/kor-ext2/src/bitmap.rs:172-212 | Frees exactly that block; the counters stay equal to the clear bits if and only if it was an allocated block of the volume; out-of-range blocks are refused unchanged |
| BlockCache.BlockCache.ReadBlockCached | filesystems/kor-fs/src/block_cache.rs:68-98 | Returns the last written contents and keeps the view, also when a read or an eviction write fails; it fails only if the device reported an error; the access order stays a permutation of the cached keys, with the block as its most recent use |
| BlockCache.BlockCache.WriteBlockCached | filesystems/kor-fs/src/block_cache.rs:105-133 | The view changes at exactly that block, even when the eviction fails |
| BlockCache.BlockCache.EvictIfNeeded | filesystems/kor-fs/src/block_cache.rs:202-220 | Evicts from the least recently used end down to the capacity and keeps the view; a failed device write loses no dirty block |
| BlockCache.BlockCache.Touch | filesystems/kor-fs/src/block_cache.rs:190-195 | Moves the block to the most recently used end and keeps the order of the others |
| BlockCache.BlockCache.EvictOne | filesystems/kor-fs/src/block_cache.rs:202-220 | Evicts exactly the first entry of the order, or nothing when its write or the barrier fails |
| BlockCache.UseKeepsOrder | filesystems/kor-fs/src/block_cache.rs:190-195 | The order stays that of the last uses |
| BlockCache.EvictsOldest | filesystems/kor-fs/src/block_cache.rs:202-220 | Every evicted block was last used before every block that stays |
| BlockCache.BlockCache.FlushRange | filesystems/kor-fs/src/block_cache.rs:139-154 | Keeps the view; on success every block of the range is durable, and a failure is one the device reported |
| BlockCache.BlockCache.InvalidateRange | filesystems/kor-fs/src/block_cache.rs:160-168 | Drops the blocks of the range and keeps the view everywhere else |
| BlockCache.BlockCache.Sync | filesystems/kor-fs/src/block_cache.rs:172-183 | Keeps the view; on success no block is dirty and the device durably holds the view |
| BlockCache.BlockCache.ReadBlocks | filesystems/kor-ext2/src/lib.rs:262-279 | A bypass read returns the view on its range |
| BlockCache.BlockCache.WriteBlocks | filesystems/kor-ext2/src/lib.rs:286-304 | A bypass write changes the view on exactly its range |
| CrashOrder.Volume.PatchCopy | filesystems/kor-ext2/src/lib.rs:343-360 | Changes one copy of the superblock; the primary one then carries the current marker |
| CrashOrder.Volume.WriteSuperBlock | filesystems/kor-ext2/src/lib.rs:312-339 | Changes the superblock copies only; on success every copy is the old one with the superblock in memory patched in, and the primary one carries the current marker; it fails only if the device reported an error |
| CrashOrder.Volume.WriteDescriptors | filesystems/kor-ext2/src/lib.rs:364-392 | On success every listed block holds its new contents; no other block changes |
| CrashOrder.Volume.FsSync | filesystems/kor-ext2/src/lib.rs:495-500 | On success, whatever failed before, everything is durable: the new descriptors, every superblock copy patched, all other blocks as they were. The volume stays unclean at every crash point unless a write of the primary superblock fails; it fails only if the device reported an error |
| CrashOrder.Volume.OnMount | filesystems/kor-ext2/src/lib.rs:502-528 | On success, whatever failed before, the unclean marker is durable before any other write can happen, and only superblock copies changed; on failure the marker in memory goes back, and the cached copies too if they can be written |
| CrashOrder.Volume.FsWrite | filesystems/kor-ext2/src/lib.rs:240-255 | While mounted, a write changes the view at its block and leaves no crash point with a clean marker |
| CrashOrder.Volume.FsWriteRun | filesystems/kor-ext2/src/lib.rs:286-304 | The same for writes that bypass the cache; blocks outside the run are unchanged |
| CrashOrder.Volume.FsRead | filesystems/kor-ext2/src/lib.rs:224-236 | While mounted, a read returns the logical contents and changes nothing |
| CrashOrder.Volume.OnUnmount | filesystems/kor-ext2/src/lib.rs:530-560 | On success the volume ends clean and durable with the new descriptors, every superblock copy patched and all other blocks as they were; on failure memory and, if they can be written, the cached copies say unclean. At every crash point, for any subset of unflushed writes, a clean marker implies that all other blocks are complete, also when the device fails: before the first sync unless a write of the primary superblock failed, and after it even when publishing the marker fails, as long as only superblock copies were torn |
| CrashOrder.CleanMeansComplete | filesystems/kor-ext2/src/lib.rs:530-560 | Crash safety holds if and only if every disk a crash can leave whose primary superblock says clean holds the logical value of every block that is no superblock copy |
| CrashOrder.StaleMarker | filesystems/kor-ext2/src/lib.rs:550-558 | Once a failed unmount lets a crash leave the clean marker, one further write makes the volume unsafe |
| CrashOrder.Volume.NewEpoch | filesystems/kor-ext2/src/lib.rs:495-500 | From a durable unclean state on, such as after the next successful sync, the volume is safe again |
| FrameAllocator.FrameAllocator.AddRegion | kor/src/frame.rs:70-102 | Registers the whole pages of a byte range as free frames |
| FrameAllocator.WholePagesAre | kor/src/frame.rs:70-76 | The frames registered are exactly those that lie in the byte range as a whole |
| FrameAllocator.FrameAllocator.AllocFrames | kor/src/frame.rs:106-132 | Returns the first extent of the next power of two from the hint of the first region that has one, aligned to its length, all of whose frames were free, and marks exactly it; fails exactly when no region has such an extent on one side of its hint |
| FrameAllocator.RoundLeast | kor/src/frame.rs:106-112 | The extent reserved is the least power of two that is enough |
| FrameAllocator.FrameAllocator.FreeFrames | kor/src/frame.rs:135-154 | Frees exactly the extent that allocation reserved for the same count; the free counter equals the clear tracked bits |
| FrameAllocator.FrameAllocator.Locate | kor/src/frame.rs:161-169 | Finds the one region that holds the extent, or none exactly when there is none |
| FrameAllocator.FrameAllocator.FindFreeRun | kor/src/frame.rs:171-197 | The first free aligned window of the range, or none exactly when there is none |
| FrameAllocator.FrameAllocator.IsUsed | kor/src/frame.rs:199-202 | Reads the bit of a frame |
| FrameAllocator.FrameAllocator.MarkRun | kor/src/frame.rs:204-215 | Sets or clears exactly the bits of a run |
| FrameAllocator.AlignPpn | kor/src/frame.rs:218-220 | The least multiple of the power of two that is not below the frame number |
| FrameAllocator.OneFrame | kor/src/frame.rs:106-132 | A request for one frame fails if and only if every frame is used |
| FrameAllocator.FindableIs | kor/src/frame.rs:116-123 | An extent is found by the search of its region if and only if it is free, aligned and does not cross the hint |
| FrameAllocator.StraddleMissed | kor/src/frame.rs:116-123 | Four frames are refused although an aligned free run of four exists, because it crosses the hint |
| FrameAllocator.Straddle | kor/src/frame.rs:106-154 | A run of five calls on eight frames after which four free aligned frames are refused |
| Xattr.SerializeBlock | filesystems/kor-ext2/src/xattr.rs:158-226 | Sorts the list and lays it out with entries and values apart, the hashes in their fields and the rest zero; for non-empty lists it succeeds if and only if 36 + all padded entries and values fit the block |
| Xattr.EntryBytes | filesystems/kor-ext2/src/xattr.rs:200-215 | The bytes of an entry on disk: name length, index, value offset, block, size and name |
| Xattr.HeaderBytes | filesystems/kor-ext2/src/xattr.rs:163-166 | The bytes of the header on disk |
| Xattr.ParseBlock | filesystems/kor-ext2/src/xattr.rs:112-153 | Parses as the recursive definition does, with its errors |
| Xattr.RoundTrip | filesystems/kor-ext2/src/xattr.rs:112-226 | A serialized block parses to the attributes before the first name that does not fit, followed by what is found from there on; it parses back whole if and only if every name has 1 to 255 bytes |
| Xattr.StoreAndLoad | filesystems/kor-ext2/src/xattr.rs:112-226 | Fails with `NoSpace` exactly when the list does not fit; otherwise parsing what was serialized yields the list sorted by index and name if and only if every name has 1 to 255 bytes |
| Xattr.SortSorted | filesystems/kor-ext2/src/xattr.rs:161-161 | The sort orders by index, then name |
| Xattr.NeededSort | filesystems/kor-ext2/src/xattr.rs:172-210 | What fits does not depend on the order of the attributes |
| Ext2Dir.List | filesystems/kor-ext2/src/dir.rs:190-229 | The iterator yields what its recursive definition says for any bytes |
| Ext2Dir.YieldTiled | filesystems/kor-ext2/src/dir.rs:71-229 | On blocks tiled by records it yields exactly the live records |
| Ext2Dir.Lookup | filesystems/kor-ext2/src/dir.rs:239-247 | The inode of the first entry with the name, or `NotFound` exactly when there is none |
| Ext2Dir.EntrySize | filesystems/kor-ext2/src/dir.rs:289-291 | A multiple of four, at least 12, that holds header and name with less than a full pad |
| Ext2Dir.RecordBytes | filesystems/kor-ext2/src/dir.rs:269-287 | The bytes of a directory record on disk: inode, record length, name length, type and name |
| Ext2Dir.Directory.Add | filesystems/kor-ext2/src/dir.rs:297-426 | Keeps the tiling with no record across a block boundary and inserts exactly the new entry into what the iterator yields; the error conditions are exact; the size condition on records survives if and only if the split left no stale name length; the room behind a split last record is given exactly |
| Ext2Dir.StaleSplit | filesystems/kor-ext2/src/dir.rs:367-371 | A block whose records all have full size and where adding a name leaves one that has not |
| Ext2Dir.StaleUnderflow | filesystems/kor-ext2/src/dir.rs:383-387 | On that block, adding a one-byte name makes the room behind the last entry -252, which the next addition subtracts |
| Ext2Dir.Directory.Remove | filesystems/kor-ext2/src/dir.rs:432-502 | Keeps the tiling and deletes exactly the first entry with the name; `NotFound` exactly when there is none, changing nothing |
| SlabBlocks.ClassFits | base/kor-alloc/src/slab_heap.rs:163-181 | The class is the smallest whose blocks hold the size and the alignment; `Large` exactly beyond one page |
| SlabBlocks.Serves | base/kor-alloc/src/slab_heap.rs:163-246 | Every block is long enough for its request and aligned as it asks |
| SlabBlocks.LargeLeast | base/kor-alloc/src/slab_heap.rs:242-246 | A large request gets the least number of frames that holds it and is aligned enough |
| SlabHeap.SlabHeap.constructor | base/kor-alloc/src/slab_heap.rs:135-161 | The bootstrap memory is split evenly into seven free lists and nothing is live |
| SlabHeap.SlabHeap.EnableFrameGrowth | base/kor-alloc/src/slab_heap.rs:267-269 | Lets requests draw on the frame allocator |
| SlabHeap.SlabHeap.NewList | base/kor-alloc/src/slab_heap.rs:91-97 | Links exactly the blocks of the range, in ascending order |
| SlabHeap.SlabHeap.GrowSlab | base/kor-alloc/src/slab_heap.rs:55-61 | Adds exactly the blocks of the range to the list of the class; live blocks unchanged |
| SlabHeap.SlabHeap.GrowFromFrames | base/kor-alloc/src/slab_heap.rs:271-292 | Refills the class from fresh frames; fails exactly when growth is off or no extent is found |
| SlabHeap.SlabHeap.AllocLarge | base/kor-alloc/src/slab_heap.rs:211-220 | Reserves exactly one extent of fresh frames; the failure condition is exact |
| SlabHeap.SlabHeap.Alloc | base/kor-alloc/src/slab_heap.rs:296-324 | Adds one live allocation and keeps all live and free blocks aligned, backed and pairwise disjoint; returns null exactly when the class is empty and cannot grow, or no extent is found |
| SlabHeap.SlabHeap.Dealloc | base/kor-alloc/src/slab_heap.rs:326-344 | Takes exactly that allocation out; a small block returns to its list, a large one gives back exactly the extent reserved for it |
| SlabHeap.SlabHeap.WriteWord | base/kor-alloc/src/slab_heap.rs:74-117 | An owner may write anywhere in its block without disturbing a free list |
| SlabHeap.ReleaseUndoes | base/kor-alloc/src/slab_heap.rs:235-246 | Freeing a large extent restores exactly the frames that were free before it was reserved |
| SlabHeap.LiveSafe | base/kor-alloc/src/slab_heap.rs:163-344 | In every valid state a live allocation is aligned, overlaps no other block over its requested size, and is on no free list |

## Left out

Scheduler
- Timer interrupts and time slices are not steps of the scheduler's state machine; `yield_now` and preemption are both the step that parks the current task as ready.
- The context switch is one abstract save and load; stacks, trap frames and address-space activation are left out.
- Only threads sleep, block or exit, as the idle task never does so; a guard is dropped by the thread that took it.
- Liveness and fairness: that a step can be taken is stated (`SchedSem.NoDeadlock`, `SchedProtocol.CallsGoOn`), that it is taken at some time is not.

Page tables and user memory
- PageMap.AddrSpace.Map: a 2 MiB map requires flags with which its entry reads as a leaf (`PteCodec.RvMegaSeen`), because otherwise the entry is a pointer to memory that is no table; with a leaf on the way that does not split exactly the other translations are those of `PageTable.SplitAt`; addresses lie below the span of the root table, as the unmap walk starts at base 0.
- PageMap.AddrSpace.PutLeaf: a 2 MiB map over an existing table drops the pointer to it; the table's frame is then neither used nor free, so frame accounting is not claimed there.
- PageMap.AddrSpace.Unmap: for page-aligned ranges only, as all callers use.
- `mark` and the `Allocated` status, `destroy`, cloning and boot tables, TLB flushes and range locks are left out; transactions on one root are serial, because each locks the root first.
- VirtualMemory.AddressSpace.ProtectRange: when it fails with new flags that are not recognised as a leaf, only states what the tables may still hold (`LeftOver`), because the pages already changed cannot be unmapped again.
- VirtualMemory.AddressSpace.ReplaceZeroed: the same, and also when it ends without a free frame: the tables built for the page that failed are kept, so an old page may find no frame for its own table. The fresh frames are lost when mapping fails, as in the code.
- VirtualMemory.AddressSpace.Fork: the child starts from an empty root; the kernel half that every root shares is left out, and so is dropping the child when the copy fails.
- `populate` and `write` share one method with a flag for the permission they ask for; activation, dropping a space and the signal-restorer page, which is mapped outside the page map, are left out.

ext2
- Device errors are not modelled inside the block tree; `BlockCache` and `CrashOrder` model them.
- Ext2Inode.Inode.ReadAt: with blocks above 4 KiB a single request must not cross a multiple of 2^32 blocks, where the 32-bit addition would overflow (`FileBytes.Uncut`).
- Ext2Inode.Inode.WriteAtLocked: requires the same, and an end below 2^64; `i_blocks` is unbounded where the code saturates at 32 bits; a failed write keeps blocks it allocated without counting them, so the equality with the recount is stated for success.
- Ext2Inode.Inode.TruncateTo: clears up to the old size; blocks a failed write left beyond it are not part of the statement.
- Inode timestamps, locks, writing the inode itself, links, symbolic links, `setattr` and inode allocation would add only easy members.
- Ext2Bitmap.BlockAllocator.AllocBlockGoal: the read-only check and bitmap I/O errors are left out.
- CrashOrder.Volume.OnUnmount: one device block per file system block; the superblock image is an arbitrary function whose state field carries the marker.
- Xattr.SerializeBlock: the two hashes are parameters; blocks up to 65536 bytes, as value offsets have 16 bits.
- Name-prefix splitting of attributes is left out.
- Ext2Dir.Directory.Add: works on whole tiled blocks below 65536 bytes and requires room behind the last entry not to be negative when it is used, where the code's subtraction would underflow; the htree downgrade is left out and writing the block is one assignment of its bytes.
- Ext2Dir.List: names are bytes, so the stop at a name that is not UTF-8 is left out.

Allocators
- FrameAllocator.FrameAllocator.AddRegion: the panics on too many or overlapping regions are preconditions.
- FrameAllocator.FrameAllocator.FreeFrames: the panics on a misaligned, foreign or free extent are preconditions.
- SlabHeap.SlabHeap.Alloc: calls are serial, as the heap lock and the frame lock make them, and the heap is initialised; the words of free blocks are a map from addresses.
- SlabHeap.SlabHeap.Dealloc: requires an allocation that is live with the same layout, as the global allocator contract demands.

Elsewhere
- Boot, traps, interrupt controllers, drivers, networking, device-tree parsing, the system-call dispatcher, the hypervisor, path lookup and the RAM file system are not part of this model.
