# Anthill OS: a verified model of its kernel and libc core

This project models, in Dafny, the parts of the AArch64 microkernel and its C library whose correctness rests
on state that many steps share: virtual memory with copy-on-write, the scheduler, two kinds of inter-process
communication, the 9P message codec, path splitting, and the buddy allocator behind `malloc`. Every operation is
modelled in the form it has in the source: code that changes memory or tables step by step is a method with the
same loops and branches, proved equal to a specification function or relation, and the properties of whole runs
are proved about the specification.

`dafny verify dfyconfig.toml` checks the whole project.

## What is proved

**Virtual memory** (`Words`, `Descriptor`, `Paging`, `Cow`, `CowExit`, `CowMaps`, `CowRuns`, `CowLeaks`, `ExitRuns`,
`ExitAfterFork`, `UserMap`, `UserAddress`, `AddressSpaces`, `VacantRuns`, `Mmap`, `Munmap`, `SelfMap`, `FrameMap`,
`KernelPages`, `FrameList`, `Trees`, `Teardown`, `TornSpaces`, `OwnTrees`, `Elf`). Physical memory is a map from
frames to 512 words, a word is a record of the descriptor's fields, and `Descriptor` proves that the kernel's shifts
and masks on 64 bits do to the bits what the model does to the fields.

- Copy-on-write is invisible: over every run of forks, data aborts, stores, mappings, execs and exits each process reads
  what it would read if fork had copied everything (`CowRuns.CowRefinesEager`). The proof rests on the owner counters in
  the descriptors; it is shown exactly which forks keep them honest (`Cow.ForkCounted`), what an abort that runs out of
  memory does to them (`Cow.OwnNoMemory`), and that a fork past their limit of 15 is exactly one that can be followed by a
  leak (`CowLeaks.CountableIff`), which sixteen forks of one process reach (`CowLeaks.SixteenForksLeak`).
- Exit is not always safe. Fork counts nobody in the top-level table, and the teardown of one process then gives back
  tables that another one walks through (`ExitAfterFork.ForkExitDangles`, in the bitmap `TornSpaces.ForkedTeardown`). Over
  every run it can be read off the top-level table before the call whether this happens (`ExitRuns.RunsKeep`,
  `TornSpaces.TeardownDanglesIff`), and a data abort in a region makes that region safe (`ExitAfterFork.AbortOwnTops`).
- The four-level tables are a flat map from 36-bit page numbers to frames (`UserMap.MapPageFlat`,
  `UserMap.UnmapFlat`), found runs of pages are the lowest, and the mapping loops never collide (`Mmap.MapAnonymous`).
  It is shown exactly when the search for a run ends (`VacantRuns.NeverFoundIff`).
- The recursive kernel map is right: the pointers the kernel computes from `0xfffffffffffff000` translate, under the
  hardware walk, to precisely the tables on the path of an address (`SelfMap.SelfMapped`).
- Page frames are conserved: `mem_kernel_alloc_page` never returns a frame in use and its ERR_MEM_EXS branch is dead
  (`KernelPages.KernelMemory.AllocPage`), the frames it hands out are a list that user memory takes from
  (`FrameList.Next`), and a teardown gives back exactly the frames behind entries with counter zero (`Teardown.Teardown`).
- What may be done with a page is stated on the 64 bits: only MEM_EX leaves the user's execute-never bit clear, only MEM_RW
  lets users write (`Descriptor.LeafBits`, `AddressSpaces.MappedRights`), and only MEM_EX lets the kernel execute its own
  pages (`Descriptor.KernelBits`).
- Loaded programs are faithful: every file byte of every segment can be read at its address, and each page can be written
  and executed exactly as the flags of its segment say (`Elf.Loader.CreateImage`, `Elf.ReadsBack`).

**Scheduler** (`Scheduler`, `BoundedWaiting`, `Searching`, `TaskEffects`, `Tasks`). No ready task is passed over more than 62 times,
whatever others block, unblock, fork or exit meanwhile (`BoundedWaiting.BoundedWait`). Child counts are exact in every
reachable state, so a freed struct is nobody's parent (`BoundedWaiting.ReachableInv`, `BoundedWaiting.ExitLeavesNoOrphans`). A
task can block if and only if no empty slot comes before its own (`Searching.BlockIff`); a run leads to one that cannot
(`Searching.HoleAfterExit`), and runs end there, because the kernel then reads through a null pointer. What each operation
does to which field of which task is stated without the search functions (`TaskEffects`); a blocked task does not run while
anybody else is ready (`TaskEffects.BlockedDoesNotRun`).

**Message queues** (`Mqueue`, `MqueueRuns`, `MqueueFifo`, `MqueueHistory`, `MqueueWakeups`, `MqueueLifecycle`,
`MqueueOutcomes`, `MqueueNaming`, `MqueueCode`). The rings with their -1 sentinels are bounded FIFOs over every interleaving of calls, sleeps and
wake-ups (`MqueueHistory.FifoConserved`); it is shown exactly when callers see that FIFO
(`MqueueHistory.DeliveredExactly`), when a receiver can sleep beside waiting messages
(`MqueueWakeups.SleepsBesideMessages`), that no wake-up is lost otherwise (`MqueueWakeups.NoLostWakeUp`), and that no
slot is recycled under a sleeping call (`MqueueLifecycle.SlotNotRecycled`). Every answer of every call has its exact
condition (`MqueueOutcomes`, `MqueueNaming`); a task falls asleep only without O_NONBLOCK, and gets EAGAIN only with it
(`MqueueOutcomes.NonBlockingNeverSleeps`).

**Message buffers** (`MsgbufQueue`, `Msgbuf`, `MsgbufRuns`). The linked nodes refine one sequence of slots with stable IDs
and distinct names, the receive queue without a counter is a FIFO of capacity 8, and a receive returns the oldest sender
that is still live and connected. The push of a sender that slept reaches the buffer it called if and only if nobody closed
that meanwhile (`MsgbufRuns.PushReaches`); a run leads to one that does not (`MsgbufRuns.PushGoesAstray`).

**9P codec** (`Wire`, `WireFormat`, `FcallEnough`, `FcallCodec`). Size, encoder and decoder agree with one wire form for all
21 message types, which is given offset by offset (`WireFormat.FormatOf`); decoding undoes encoding, encoding undoes decoding, and no wire form is a prefix of another.

**Paths** (`PathSplit`). Joining undoes splitting, splitting undoes joining, the elements fit their allocation, and
they can be read back exactly if their lengths fit 16 bits.

**Buddy allocator** (`Buddy`, `BuddyMerge`, `BuddyHeap`, `BuddyFree`, `BuddyUndo`, `BuddyRuns`, `BuddyHeaders`,
`BuddyLost`, `BuddyExact`, `BuddyCode`, `BuddyWitness`). Blocks tile their pages through every split, growth and
matching merge; `block_find` returns a block of exactly the order asked for; merging undoes the splits. `free` keeps the
list of blocks in memory sound if and only if a condition holds that can be read off the list before the call
(`BuddyExact.FreeExact`); two runs end where it does not (`BuddyWitness`). Held memory never overlaps over whole runs of
`malloc` and `free` that meet it, pages that are unmapped and given out again included (`BuddyRuns.HeldApart`).

## Where the code is narrower than its documentation

The model follows the code in each of these places.

- `mem_user_unmap_page` is documented to unmap the page (src/kernel/include/kernel/arch/mem.h:117-127); a sole owner
  keeps it mapped (`UserMap.UnmapRemoves`).
- `mem_user_map_page` frees tables that are still linked when memory runs out (`UserMap.OutOfMemoryShape`,
  `UserMap.FewFramesDangle`).
- `sys_munmap` frees the frame of each page it unmaps, and the page of a sole owner stays mapped to it
  (`Munmap.MunmapDangles`, `Munmap.FreshPageDangles`); a second call makes the kernel panic (`Munmap.SecondTimePanics`).
- `munmap` keeps a last page that is only partly in its range (`Munmap.DropsWhole`), and `mmap` maps nothing for lengths
  above 2^64 - 4096 (`Mmap.PagesHold`).
- `mem_table_teardown` gives back tables that another process reaches wherever a top-level entry with counter zero leads to
  one (`ExitRuns.ExitIff`), as when a child exits that has stored nothing (`ExitAfterFork.ForkExitDangles`).
- A mapping after a fork is seen by every process that shares the lowest table (`CowMaps.SeenIff`).
- `mem_user_find_empty` is documented to return NULL on failure (src/kernel/include/kernel/arch/mem.h:77-84); it does
  not return when there is no run of pages (`Mmap.HugeMmapNeverReturns`).
- The level-1 loop of `mem_table_soft_copy` tests the level-0 entry, so it also marks invalid entries
  (`AddressSpaces.UserTables.SweepLevel1`).
- `mmu_mark_copied` is documented to invalidate a writable entry (src/kernel/arch/aarch64/mmu.h:110-114); it makes the
  entry read-only for the kernel.
- `mqueue_receive` takes a message of length zero out and then goes on as if there were none; a message that is too
  long for the buffer also counts as none (`MqueueWakeups.SleepsBesideMessages`).
- `mqueue_open` lets a negative `mq_maxmsg` pass (`MqueueLifecycle.CreatedRing`), and a closed subscription is never
  used again (`MqueueLifecycle.OpensBounded`).
- `task_block` and `task_unblock` read through empty slots that come before the one they look for
  (`Searching.FoundIff`, `Searching.HoleAfterExit`).
- `msgbuf_create` keeps the slot when its buffer cannot be mapped (`Msgbuf.Registry.Create`).
- `msgbuf_close` leaves the connections of others to its slot in place (`Msgbuf.Registry.Close`), and a sender that slept in
  `msgbuf_send` does not look at its receiver again (`MsgbufRuns.PushGoesAstray`).
- `block_coalesce` merges without comparing orders (`BuddyMerge.TurnSound`, `BuddyWitness.MixedBuddies`), and `_shrink`
  relies on a `prev` pointer that nothing keeps up to date (`BuddyExact.ShrinkIff`, `BuddyWitness.StalePrev`).
- `_expand` takes NULL for the failure of `mmap` and asks for no access at all; `mmap` returns MAP_FAILED, which is -1
  (src/lib/c/sys/mman/mmap.c:9-12), and `sys_mmap` refuses that request (`MmapCall.ExpandTakesFailure`). The model of the
  allocator takes `mmap` as `_expand` expects it to be.
- `malloc` of 4072 bytes takes every page there is before it fails (`BuddyRuns.MallocRefuses`).
- `fcall_msg_to_buf` compares the size modulo 2^32 with the length of the buffer (`FcallCodec.LengthTest`).
- `fcall_path_split` keeps only 16 bits of an element's length (`PathSplit.UnpackPack`).

## Model

| member | source | states |
|---|---|---|
| Descriptor.PackUnpack | src/kernel/arch/aarch64/mmu.h:6-47 | taking a 64-bit descriptor apart into fields and putting it together again gives the same 64 bits |
| Descriptor.MarkCopiedFields | src/kernel/arch/aarch64/mmu.c:119-132 | the shifts and masks of `mmu_mark_copied` do to the bits what `Copied` does to the fields: counter up unless it stands at 15, user write access becomes kernel read access, every other bit stays |
| Descriptor.MarkFreedFields | src/kernel/arch/aarch64/mmu.c:134-142 | likewise `mmu_mark_freed`: counter down unless it is 0, every other bit stays |
| Descriptor.LinkTableFields | src/kernel/arch/aarch64/mmu.c:55-56 | the word written over the entry of a copied or new table is a valid table descriptor for that frame with counter 0 |
| Descriptor.RepointFields | src/kernel/arch/aarch64/mmu.c:104-106 | the three masks at the end of the abort handler change frame and access permission of the leaf and nothing else, so also not its counter |
| Descriptor.KernelLeafFields | src/kernel/arch/aarch64/mem.c:70-80 | the word `mem_kernel_alloc_page` writes is a valid page descriptor for the frame with counter 0 |
| Descriptor.MapLeafFields | src/kernel/arch/aarch64/mem.c:340-411 | the word `mem_user_map_page` writes is, field by field, the `LeafWord` of its arguments, whose rights LeafRights states |
| Words.LeafRights | src/kernel/arch/aarch64/mem.c:340-365 | a user page is readable by users, writable by them only with MEM_RW and executable only with MEM_EX; the kernel never executes it; normal or device memory as asked |
| Words.KernelRights | src/kernel/arch/aarch64/mem.c:17-80 | a kernel page gives users no access at all, and the kernel executes it only with MEM_EX |
| Descriptor.FieldPlaces | src/kernel/arch/aarch64/mmu.h:6-47 | which of the 64 bits each field is, as literal masks: flags 0 and 1, access 6 and 7, frame 12 to 47, counter 55 to 58, execute-never 53 and 54, memory type 5 |
| Descriptor.LeafBits | src/kernel/arch/aarch64/mem.c:340-411 | the 64 bits of a user leaf: bit 54 is clear exactly for MEM_EX, bit 53 is set, bits 6 and 7 are 1 for MEM_RW and 3 otherwise, bit 5 is set exactly for MEM_NORM, and the address is the page |
| Descriptor.KernelBits | src/kernel/arch/aarch64/mem.c:17-80 | likewise a kernel leaf: bit 53 is clear exactly for MEM_EX, bit 54 is set, bits 6 and 7 are 0 for MEM_RW and 2 otherwise |
| Descriptor.LinkBits | src/kernel/arch/aarch64/mem.c:389-391 | a link to a table holds the address, both flags and the access flag, and nothing else |
| Descriptor.CopiedBits | src/kernel/arch/aarch64/mmu.c:119-132 | `mmu_mark_copied` on the 64 bits: one more in bits 55 to 58 unless they are all set, nothing else but the access bits |
| Descriptor.TakeWriteBits | src/kernel/arch/aarch64/mmu.c:127-131 | users' write access in bits 6 and 7 becomes read access for the kernel, other access stays, as do all other bits |
| Descriptor.FreedRef | src/kernel/arch/aarch64/mmu.c:134-142 | `mmu_mark_freed` on the 64 bits: one less in bits 55 to 58 unless they are all clear |
| Descriptor.FreedRest | src/kernel/arch/aarch64/mmu.c:134-142 | and no other bit changes |
| Descriptor.RepointBits | src/kernel/arch/aarch64/mmu.c:104-106 | the end of the abort handler on the 64 bits: the address, access 1 in bits 6 and 7, no other bit |
| Cow.AbortSafe | src/kernel/arch/aarch64/mmu.c:29-109 | a data abort never changes a byte that any process reads at any mapped address; unless memory runs out all counters stay honest, and after success the process may write the page |
| Cow.OwnNoMemory | src/kernel/arch/aarch64/mmu.c:45-49 | out of memory after a counter was lowered: nobody sees a difference; the counters stay honest exactly when the table has at most as many owners as the old counter said |
| Cow.ForkCounted | src/kernel/arch/aarch64/mem.c:122-162 | after a fork no table is reached by more than counter + 1 roots, if and only if no counter that the fork raises stands at its limit although 16 roots share the table |
| Cow.ForkPrivate | src/kernel/arch/aarch64/mem.c:122-162 | after a fork a page that a process may write is still reached by that process only |
| Cow.StoredPages | src/kernel/arch/aarch64/mmu.c:104-108 | a store to a writable page is seen by the storing process, in that page, and by nobody else |
| CowRuns.ForkStep | src/kernel/task.c:206-210 | one fork keeps the invariant and gives the child exactly the pages of the parent |
| CowExit.TornWalk | src/kernel/arch/aarch64/mem.c:164-257 | with honest counters the teardown of one process clears no entry that another process walks through |
| CowExit.DanglesIff | src/kernel/arch/aarch64/mem.c:164-257 | after the teardown of one process another one still walks to a frame that was given back, if and only if a frame it gives back was reached by another process before |
| CowExit.ExitSafe | src/kernel/task.c:143-151 | an exit that gives back no such frame keeps the invariant and every byte that any other process reads |
| CowExit.ExecSafe | src/kernel/task.c:78-82 | so does the teardown at the beginning of an exec, and the process has nothing mapped afterwards |
| CowMaps.AttachedWalk | src/kernel/arch/aarch64/mem.c:391-411 | a frame linked at an empty entry is reached by those who reach the table, at one path, and no other walk changes |
| CowMaps.MapSafe | src/kernel/arch/aarch64/mem.c:338-414 | mapping a page below a table of the process alone is seen by that process, at that page, by nobody else, and keeps the invariant |
| CowMaps.SeenIff | src/kernel/arch/aarch64/mem.c:338-414 | another process finds the page mapped as well if and only if it reaches the lowest table that was there |
| CowRuns.CowRefinesEager | src/kernel/arch/aarch64/mmu.c:29-109 | over every run of forks, data aborts, stores, mappings, execs and exits each process reads what it would read if fork had copied every page; the invariant holds throughout |
| CowRuns.OneRootInv | src/kernel/arch/aarch64/mem.c:122-135 | a single tree without aliases satisfies the invariant whatever its counters say, so runs can start there |
| CowLeaks.UncountedLeaks | src/kernel/arch/aarch64/mmu.c:45-106 | why the counters must be honest: where two processes share a last-level table whose counter is zero, after an abort and a store of the one the other reads what was stored |
| CowLeaks.AbortMoves | src/kernel/arch/aarch64/mmu.c:29-109 | an abort of one of several owners leaves it alone with copies of its own, and every counter on the way falls with the number of owners |
| CowLeaks.AbortsLeak | src/kernel/arch/aarch64/mmu.c:29-109 | as many owners of a table as its counter allows, and one more: that many aborts bring the counter to zero with two owners left, and the next store leaks |
| CowLeaks.ExceedingForkLeaks | src/kernel/arch/aarch64/mem.c:122-162 | the guard of ForkCounted is needed: a fork that finds a counter at 15 with 16 owners, on the way to a mapped page, has a continuation of 16 aborts and a store after which another process reads what was stored |
| CowLeaks.CountableIff | src/kernel/arch/aarch64/mem.c:122-162 | where every table leads to a page, the guard of ForkCounted holds if and only if no run after the fork ends with a process that sees what another stores |
| CowLeaks.SixteenForksLeak | src/kernel/arch/aarch64/mem.c:122-162 | such a fork is reached: from any tree with one root, counters at zero and a mapped page, the 16th fork of the same process is the first that breaks the guard; 16 aborts later a store leaks |
| ExitRuns.CountsNobody | src/kernel/arch/aarch64/mem.c:212-243 | under the invariant of the runs an entry below the top level with counter zero leads to a frame of one process only |
| ExitRuns.ExitIff | src/kernel/arch/aarch64/mem.c:164-257 | under that invariant a teardown leaves another process walking to a frame that was given back, if and only if a valid top-level entry with counter zero leads to a level-1 table another process reaches |
| ExitRuns.ForkKept | src/kernel/arch/aarch64/mem.c:122-162 | a fork keeps it if and only if no counter it raises stands at 15 although the entry has 16 owners to count |
| ExitRuns.AbortKept | src/kernel/arch/aarch64/mmu.c:29-109 | a data abort that is handled keeps it, however many tables it copies |
| ExitRuns.MapKept | src/kernel/arch/aarch64/mem.c:338-414 | a mapping below own tables keeps it |
| ExitRuns.ExitKept | src/kernel/task.c:143-151 | an exit that gives back own frames only keeps it |
| ExitRuns.RunsKeep | src/kernel/task.c:132-210 | over every run of forks, data aborts, stores, mappings, execs and exits, each guarded by what the tables say before the call, the processes read what they would read with eager copies, and at its end a teardown of any process dangles exactly if its top-level table says so |
| ExitRuns.OneRootRuns | src/kernel/task.c:132-210 | such runs can start from any tree with one root |
| ExitAfterFork.ForkExitDangles | src/kernel/task.c:143-145 | one process whose counters are zero forks and the child exits: the level-1 table of the parent is given back, and the parent still walks through it to every page |
| ExitAfterFork.AbortOwnTops | src/kernel/arch/aarch64/mmu.c:45-57 | a data abort makes the top-level entry of its page safe for a teardown and leaves the others as they are |
| UserMap.PathOfPage | src/kernel/arch/aarch64/mmu.c:14-19 | the four table indices determine the page number below 2^36 |
| UserMap.PageOfPath | src/kernel/arch/aarch64/mmu.c:14-19 | and are determined by it modulo 2^36 |
| UserAddress.AddressPage | src/kernel/arch/aarch64/mmu.c:14-19 | the four indices taken out of a 64-bit address by shifts and masks are the path of its page number; offset and upper 16 bits do not matter |
| UserMap.MapPageFlat | src/kernel/arch/aarch64/mem.c:338-414 | the tables refine a flat map from pages to leaves: success sets one page and changes no other in the view of any process; ERR_MEM_EXS exactly if the page is mapped, and then nothing changes; the trees stay free of aliases and blocks |
| UserMap.MapBelowExists | src/kernel/arch/aarch64/mem.c:400-409 | ERR_MEM_EXS if and only if the page is mapped already, at whatever level the walk starts |
| UserMap.BlankMaps | src/kernel/arch/aarch64/mem.c:377-409 | below a table that was just made nothing is mapped: ERR_MEM_EXS never comes after an allocation |
| UserMap.MapBelowFrame | src/kernel/arch/aarch64/mem.c:377-411 | of the frames in use before, only the lowest table that was there already is written |
| UserMap.MapOwnPage | src/kernel/arch/aarch64/mem.c:411 | mapping a page that hangs nowhere else keeps the tree unshared: this builds the trees that runs of forks start from |
| UserMap.OutOfMemoryShape | src/kernel/arch/aarch64/mem.c:378-389 | running out of memory leaves the tree intact if and only if not even the first table could be had; otherwise an entry leads to a freed frame |
| UserMap.FewFramesDangle | src/kernel/arch/aarch64/mem.c:378-389 | the input: the level-1 table is missing and one or two frames are left; the level-1 table goes back to the allocator and the top-level entry leads to it |
| UserMap.UnmapFlat | src/kernel/arch/aarch64/mem.c:416-466 | unmapping never changes another page; NULL with ERR_MEM_UNM exactly if the page was not mapped; a sole owner gets the page it keeps |
| UserMap.UnmapRemoves | src/kernel/arch/aarch64/mem.c:458-465 | the page is gone afterwards if and only if its counter was above zero |
| AddressSpaces.SweptIsMarks | src/kernel/arch/aarch64/mem.c:122-162 | the words the nested loops visit below a table are those the walk from the root reaches |
| AddressSpaces.UserTables.SweepLevel3 | src/kernel/arch/aarch64/mem.c:153-158 | the innermost loop marks exactly the valid words of its table |
| AddressSpaces.UserTables.SweepLevel2 | src/kernel/arch/aarch64/mem.c:142-159 | the loop over a level-2 table marks exactly the valid words of it and of the tables below |
| AddressSpaces.UserTables.SweepLevel1 | src/kernel/arch/aarch64/mem.c:131-160 | the loop over a level-1 table, which tests the level-0 entry, marks all its words, and below it the valid ones |
| AddressSpaces.UserTables.SoftCopy | src/kernel/arch/aarch64/mem.c:122-162 | `mem_table_soft_copy` in place: every word below the root is marked that a fork has to mark, once, and no other |
| AddressSpaces.UserTables.ForkPages | src/kernel/task.c:170-184 | the three allocations of `task_fork`: a page each, or all frames that were left are taken and lost |
| AddressSpaces.UserTables.ShareTables | src/kernel/task.c:206-210 | soft copy and copy of the top-level table are one fork of the page tables |
| AddressSpaces.UserTables.Fork | src/kernel/task.c:170-210 | `task_fork` as far as memory goes: with three frames left it is one fork step, otherwise nothing but free frames is lost |
| AddressSpaces.UserTables.OwnTable | src/kernel/arch/aarch64/mmu.c:45-57 | one level of the handler: keep a table with counter zero, else count down and go on with a copy |
| AddressSpaces.UserTables.EnterTable | src/kernel/arch/aarch64/mmu.c:39-57 | check and ownership of one level, and what is left to do below |
| AddressSpaces.UserTables.CopyPage | src/kernel/arch/aarch64/mmu.c:97-106 | the page is copied and made writable, or memory ran out |
| AddressSpaces.UserTables.HandleDataAbort | src/kernel/arch/aarch64/mmu.c:29-109 | `mmu_handle_data_abort` in place: new state and result are those of `Abort`, on every path |
| AddressSpaces.UserTables.LinkTable | src/kernel/arch/aarch64/mem.c:379-394 | a missing table is allocated, blanked and linked, or memory ran out and nothing changed |
| AddressSpaces.UserTables.LastTable | src/kernel/arch/aarch64/mem.c:377-398 | the loop over levels 0 to 2 reaches the last-level table, and knows which frames it took |
| AddressSpaces.UserTables.MapPage | src/kernel/arch/aarch64/mem.c:338-414 | `mem_user_map_page` in place, with each error: ERR_MEM_FLG and ERR_MEM_EXS change nothing, ERR_MEM_OOM gives all frames back, ERR_OK is `MapBelow`, and then the page leads to the frame with exactly the rights asked for |
| AddressSpaces.MappedRights | src/kernel/arch/aarch64/mem.c:340-413 | after ERR_OK users read the page, write it only with MEM_RW and execute it only with MEM_EX; the kernel does not execute it |
| AddressSpaces.UserTables.PlaceLeaf | src/kernel/arch/aarch64/mem.c:374-413 | the part of `mem_user_map_page` behind the attributes, with each error |
| AddressSpaces.UserTables.UnmapPage | src/kernel/arch/aarch64/mem.c:416-466 | `mem_user_unmap_page` in place is `Unmap` |
| AddressSpaces.UserTables.GetKaddr | src/kernel/arch/aarch64/mem.c:306-336 | the result is where the hardware walk ends, or NULL |
| AddressSpaces.UserTables.FindEmpty | src/kernel/arch/aarch64/mem.c:259-304 | the least page from `addr` on from which all pages are unmapped, although the search skips and addresses wrap around; after any number of turns without success no page passed was such a start |
| AddressSpaces.UserTables.VacantFrom | src/kernel/arch/aarch64/mem.c:264-298 | the inner loop counts unmapped pages up to the first taken one |
| VacantRuns.VacantSame | src/kernel/arch/aarch64/mem.c:259-304 | whether a run is vacant depends on its first page modulo 2^36 |
| VacantRuns.NeverFoundIff | src/kernel/arch/aarch64/mem.c:259-304 | the loop meets a taken page at every start, and so never ends, if and only if the number of pages exceeds the longest vacant run, unless nothing is mapped |
| VacantRuns.VacantAhead | src/kernel/arch/aarch64/mem.c:259-304 | otherwise it ends within 2^36 turns, wherever it starts |
| VacantRuns.TooMany | src/kernel/arch/aarch64/mem.c:259-304 | 2^36 pages never fit once a page is mapped |
| Mmap.FillOne | src/kernel/syscalls/sys_mmap.c:39-47 | the loop that maps fresh frames one after the other never meets ERR_MEM_EXS |
| Mmap.OutOfMemoryCount | src/kernel/syscalls/sys_mmap.c:39-47 | a mapping runs out of memory only if at most two frames were left |
| Mmap.FewFrames | src/kernel/syscalls/sys_mmap.c:24-48 | so few frames exist that the loop never comes round to its first page |
| Mmap.FillRun | src/kernel/syscalls/sys_mmap.c:24-48 | the loop over a vacant run maps a different fresh frame at each page and changes no other page, or at most two frames are left |
| Mmap.PagesHold | src/kernel/include/kernel/arch/mem.h:22 | `MEM_SIZE_TO_PAGES` is the least number of pages that hold the bytes; exactly length 0 and lengths above 2^64 - 4096 get no page |
| Mmap.FirstAtOrAbove | src/kernel/syscalls/sys_mmap.c:10-15 | the first page tried is the least one at or above the address, or the one at 0x200000 |
| Mmap.FilledBytes | src/kernel/syscalls/sys_mmap.c:17-47 | every byte of the mapping is in one of the fresh frames, with the rights asked for |
| Mmap.MapAnonymous | src/kernel/syscalls/sys_mmap.c:9-51 | success: the least number of different fresh frames that hold the length, at the lowest vacant run, every byte of it mapped with the rights asked for, all other pages as before; ENOMEM: at most two frames are left, or the run begins at address 0; it never returns exactly if the number of pages does not fit |
| Mmap.HugeMmapNeverReturns | src/kernel/syscalls/sys_mmap.c:17-20 | the input: 2^48 bytes or more, once any page is mapped |
| MmapCall.ExpandTakesFailure | src/lib/c/internal/_block.c:12-15 | `_expand` asks for an access mode that `sys_mmap` refuses for any size and flags, and takes the MAP_FAILED it gets for the address of a block |
| MmapCall.ModesServed | src/kernel/syscalls/sys_mmap.c:84-99 | the three access modes that are served get the rights they name, all others are refused |
| MmapCall.CallsRefused | src/kernel/syscalls/sys_mmap.c:79-111 | which calls of `mmap` are refused with which number, and what the C library makes of the result |
| Munmap.DroppedPages | src/kernel/syscalls/sys_munmap.c:13-33 | what `sys_munmap` does to each page of its range and to all others |
| Munmap.MunmapDangles | src/kernel/syscalls/sys_munmap.c:13-33 | a page is left leading to a frame that was freed if and only if it was mapped with counter zero |
| Munmap.FreshPageDangles | src/kernel/syscalls/sys_munmap.c:13-33 | the input: a page that was mapped before and is unmapped; its frame is freed and the page still leads to it |
| Munmap.SecondTimePanics | src/kernel/syscalls/sys_munmap.c:21-24 | unmapping it once more hands a frame to `mem_kernel_free_page` that the kernel does not hold any more |
| Munmap.Munmap | src/kernel/syscalls/sys_munmap.c:9-36 | `sys_munmap` in place, with the frames it frees and the error; the kernel panics if and only if a frame comes up that it does not hold, or comes up twice |
| Munmap.DropsWhole | src/kernel/syscalls/sys_munmap.c:13-17 | without wrap-around exactly the pages go that end within the range: a first page that is only partly in it goes, a last one stays |
| Munmap.ShortRange | src/kernel/syscalls/sys_munmap.c:13-17 | nothing is unmapped if and only if the range ends within the page in which it starts |
| Munmap.WrappedRange | src/kernel/syscalls/sys_munmap.c:13-17 | a range that goes past the end of the address space unmaps nothing |
| SelfMapBits.NextLevelDropsFirst | src/kernel/arch/aarch64/mmu.c:21-23 | from a pointer through slot 511 the shift drops the first index and appends the new one, in 64 bits |
| SelfMapBits.TablePointers | src/kernel/arch/aarch64/mem.c:44-48 | the pointers built for an address, as addresses with indices 511, 511, ... followed by its upper indices |
| SelfMapBits.LinearAddress | src/kernel/include/kernel/arch/mem.h:11-15 | the kernel address of a frame below 1 GiB has indices 0, 0, frame / 512 and frame % 512 |
| KernelPages.LinearAddressPath | src/kernel/include/kernel/arch/mem.h:11-15 | so the address MEM_PHYS_TO_VIRT of a frame has the path that the model gives it |
| SelfMap.PointerFindsTable | src/kernel/arch/aarch64/mem.c:44-48 | the hardware walk of such a pointer ends at a table if and only if the table lies on the path, at that level |
| SelfMap.WalkEnds | src/kernel/arch/aarch64/mmu.h:6-14 | the hardware walk ends at a page, at a block or with a fault exactly as the entries on the path say |
| SelfMap.SelfMapped | src/kernel/arch/aarch64/mem.c:44-48 | the same for the 64-bit pointers the kernel computes: they translate to precisely the tables on the path of the address |
| FrameMap.Frames.Get | src/kernel/arch/aarch64/pmm.c:20-34 | the lowest frame that is not in use, which becomes used; NULL exactly if all are in use; no other bit changes |
| FrameMap.Frames.Free | src/kernel/arch/aarch64/pmm.c:13-18 | one frame becomes free, no other changes |
| FrameMap.Frames.Mark | src/kernel/arch/aarch64/pmm.c:36-41 | one frame becomes used, no other changes |
| KernelPages.LinearTables | src/kernel/arch/aarch64/mem.c:40-48 | the pointers reach the kernel tables on the path of a linear address |
| KernelPages.WithLeafKernel | src/kernel/arch/aarch64/mem.c:78-80 | writing a level-3 entry maps or unmaps its frame, nothing else, and keeps the kernel tables sound |
| KernelPages.WithTableKernel | src/kernel/arch/aarch64/mem.c:51-66 | linking a blank table at level 2 maps nothing and keeps the kernel tables sound |
| KernelPages.KernelMemory.EnsureTable | src/kernel/arch/aarch64/mem.c:51-66 | levels 0 and 1 are always there; at level 2 a free frame becomes a table, unless there is none |
| KernelPages.KernelMemory.LinkLevels | src/kernel/arch/aarch64/mem.c:51-66 | the three levels; on failure the bitmap gets back what was taken |
| KernelPages.KernelMemory.WriteLeaf | src/kernel/arch/aarch64/mem.c:68-80 | the entry is never taken: the ERR_MEM_EXS branch is dead code |
| KernelPages.KernelMemory.AllocPage | src/kernel/arch/aarch64/mem.c:14-83 | a free frame becomes used and mapped, at most one other a table; ERR_MEM_OOM if and only if there is no frame or none for the table, and then nothing changes |
| KernelPages.KernelMemory.FreePage | src/kernel/arch/aarch64/mem.c:85-120 | a mapped frame is unmapped and free again, ERR_MEM_UNM exactly if it was not mapped; nothing else changes |
| FrameList.ComingFree | src/kernel/arch/aarch64/mem.c:14-83 | the frames that the next calls hand out are different and not in use |
| FrameList.TakesHead | src/kernel/arch/aarch64/mem.c:14-83 | a call that succeeds takes the head of that list, for the bitmap and the kernel's own tables as they are |
| FrameList.EmptyIff | src/kernel/arch/aarch64/mem.c:14-83 | a call fails if and only if the list is empty |
| FrameList.Next | src/kernel/arch/aarch64/mem.c:14-83 | `mem_kernel_alloc_page` refines the list of frames that user memory takes its tables and pages from, and leaves every frame in use alone |
| FrameList.ComingShape | src/kernel/arch/aarch64/mem.c:14-83 | the list meets what the address spaces ask of it |
| FrameList.FreedForTable | src/kernel/arch/aarch64/mem.c:51-66 | a frame that is given back need not make the list longer: it may go for a table of the kernel |
| Trees.SameTree | src/kernel/arch/aarch64/mem.c:164-257 | a tree depends on its own tables only |
| Trees.TreeStep | src/kernel/arch/aarch64/mem.c:212-233 | the frames below an entry are disjoint from those below the entries before it |
| Teardown.FreeEntry | src/kernel/arch/aarch64/mem.c:226-233 | after the sweep below an entry with counter zero its frame is free again and the entry cleared; with any other counter the counter is one lower |
| Teardown.TearLevel3 | src/kernel/arch/aarch64/mem.c:212-224 | the innermost loop visits every valid entry of its table once: counter zero frees the page, any other counter is lowered |
| Teardown.TearLevel2 | src/kernel/arch/aarch64/mem.c:193-234 | likewise one level up, with the tables below |
| Teardown.TearLevel1 | src/kernel/arch/aarch64/mem.c:174-244 | likewise one level up |
| Teardown.Teardown | src/kernel/arch/aarch64/mem.c:164-257 | `mem_table_teardown` of any tree without aliases in itself succeeds: every table of it is rewritten once, the bitmap bits of exactly the frames behind entries with counter zero are cleared, and no other frame or table changes, whoever shares them |
| Teardown.SoleTorn | src/kernel/arch/aarch64/mem.c:164-257 | with all counters zero that is every page and table of the tree, and its root is empty afterwards |
| Teardown.ExitMemory | src/kernel/task.c:143-161 | `task_exit` as far as memory goes: the teardown, and then the top-level table, the kernel stack and the task struct |
| TornSpaces.ShapeTree | src/kernel/arch/aarch64/mem.c:164-257 | every address space of the machine is such a tree, whoever shares it |
| TornSpaces.GoneIs | src/kernel/arch/aarch64/mem.c:164-257 | the sweep of the nested loops gives back exactly the frames whose path ends in an entry with counter zero |
| TornSpaces.VisitedIs | src/kernel/arch/aarch64/mem.c:164-257 | and visits exactly the tables the root reaches |
| TornSpaces.TeardownSpaces | src/kernel/arch/aarch64/mem.c:164-257 | so memory and bitmap after the call are those that CowExit reasons about |
| TornSpaces.TeardownDanglesIff | src/kernel/arch/aarch64/mem.c:164-257 | after the call another process walks to a frame whose bitmap bit is clear, if and only if a valid top-level entry of the torn tree with counter zero leads to a table another process reaches |
| TornSpaces.ExitSpaces | src/kernel/task.c:143-161 | likewise memory and bitmap after an exit |
| TornSpaces.ForkedTeardown | src/kernel/task.c:143-145 | the run of ForkExitDangles in the bitmap: after the teardown of the child the bit of the parent's level-1 table is clear, and the parent walks through it to the pages it had |
| OwnTrees.MapKeepsOwn | src/kernel/arch/aarch64/mem.c:338-414 | mapping one fresh page more keeps a tree one that teardown frees completely |
| Elf.ReadsBack | src/kernel/elf.c:52-89 | through the page table byte j of a loaded segment, read at `p_vaddr + j`, is file byte `p_offset + j` |
| Elf.PermGrants | src/kernel/elf.c:31-50 | the flags R, R+X and R+W get pages that users read, write exactly with PF_W and execute exactly with PF_X; all other flags are refused |
| Elf.CoversIff | src/kernel/elf.c:52-56 | the pages of a segment are those that hold a byte of it; an empty segment that does not start at a page boundary gets one too |
| Elf.FilledOther | src/kernel/elf.c:76-85 | bytes of a page outside the segment keep what the page held |
| Elf.StackBelow | src/kernel/elf.c:12-13 | the page of the stack is right below the page where the file would start |
| Elf.Loader.CopyPage | src/kernel/elf.c:77-86 | the copy fills the part of the page that the segment covers and leaves the rest |
| Elf.Loader.LoadPage | src/kernel/elf.c:56-89 | one page more is in place, in a frame of its own, and earlier pages stay |
| Elf.Loader.LoadSegment | src/kernel/elf.c:52-89 | the whole segment is in place; ERR_MEM_EXS only if a page of it was taken before |
| Elf.Loader.CreateImage | src/kernel/elf.c:9-93 | ERR_OK: stack below the first segment, readable and writable and not executable, every PT_LOAD segment in place, each of its pages writable exactly with PF_W and executable exactly with PF_X, nothing else mapped, and no two parts shared a page; ERR_ELF_INV only for flags other than R, R+X, R+W; ERR_MEM_EXS only for parts that clash, ERR_MEM_OOM only with at most two frames left |
| Scheduler.CreditedOk | src/kernel/task.c:240-246 | the credit loop gives every task in the table one unit and the running one a total of one |
| Scheduler.SchedulesInv | src/kernel/task.c:232-264 | a run of the scheduler keeps priorities equal, credits positive and the families exact |
| Scheduler.ForkedInv | src/kernel/task.c:190-204 | so does a fork |
| Scheduler.NoOrphans | src/kernel/task.c:132-161 | a task whose `children_no` is 0 is nobody's parent |
| Scheduler.ExitedInv | src/kernel/task.c:139-164 | an exit keeps the invariant |
| Scheduler.StepInv | src/kernel/task.c:25-274 | every step of every operation keeps the invariant |
| BoundedWaiting.ReachableInv | src/kernel/task.c:17-23 | priorities are equal and `children_no` is the number of children that exist, in every state reached from boot |
| BoundedWaiting.ExitLeavesNoOrphans | src/kernel/task.c:132-161 | an exit frees one struct, and no task that is left has it as its parent |
| BoundedWaiting.ChosenWasAhead | src/kernel/task.c:240-254 | whoever is chosen over a waiting task had more credit, or as much and a lower slot |
| BoundedWaiting.ScheduleStep | src/kernel/task.c:232-264 | each run of the scheduler that passes a waiting task over lowers the number of times this can happen |
| BoundedWaiting.StepBudget | src/kernel/task.c:25-274 | no fork, exit, block, unblock or tick raises that number |
| BoundedWaiting.BoundedWait | src/kernel/task.c:232-264 | a task that stays ready is passed over at most 62 times: the 63rd run of the scheduler at the latest picks it, whatever other tasks do |
| Searching.ReachablePids | src/kernel/task.c:190-197 | live process IDs are distinct and none exceeds `task_count`, in every state reached from boot |
| Searching.FoundIff | src/kernel/task.c:44-50 | the search for the process ID of a task meets no empty slot if and only if all slots before the task are occupied |
| Searching.AbsentIff | src/kernel/task.c:44-50 | the search for a process ID that nobody has meets no empty slot if and only if the table is full |
| Searching.AllFoundIff | src/kernel/task.c:44-50 | all tasks can be found if and only if the occupied slots come first |
| Searching.BlockIff | src/kernel/task.c:43-53 | a task can block if and only if no empty slot comes before its own |
| Searching.HoleAfterExit | src/kernel/task.c:132-164 | the run after which one cannot: two forks, the first child runs and exits, the second child runs |
| Tasks.TaskTable.Add | src/kernel/task.c:25-32 | the new struct goes to the first empty slot, if there is one |
| Tasks.TaskTable.Remove | src/kernel/task.c:34-41 | the slot that holds the struct becomes empty |
| Tasks.TaskTable.Find | src/kernel/task.c:44-50 | the first slot with the process ID, provided no empty slot comes before it |
| Tasks.TaskTable.Choose | src/kernel/task.c:237-251 | one pass over the table gives credit to everybody and finds the first slot with the highest credit among the ready, or slot 0 |
| Tasks.TaskTable.Schedule | src/kernel/task.c:232-264 | `task_schedule` is one `Schedules` step |
| Tasks.TaskTable.Tick | src/kernel/task.c:266-274 | `task_tick` is one step |
| Tasks.TaskTable.Block | src/kernel/task.c:43-53 | `task_block` is one step, whose effect BlockEffect states |
| TaskEffects.BlockEffect | src/kernel/task.c:43-53 | `task_block` gives the state to the first task with the process ID and to nobody else, and then the scheduler chooses |
| TaskEffects.BlockedDoesNotRun | src/kernel/task.c:43-53 | a task that blocks does not run while anybody else is ready |
| TaskEffects.NobodyReady | src/kernel/task.c:232-264 | with nobody else ready the first task runs, whatever its state |
| TaskEffects.UnblockEffect | src/kernel/task.c:55-63 | `task_unblock` wakes the first task with the process ID exactly if it is in the state, and changes nobody else |
| TaskEffects.ScheduleEffect | src/kernel/task.c:232-264 | everybody in the table gets its priority as credit, the running task after losing what it had; the first ready task with the most credit runs, with its priority as counter; nothing else changes |
| TaskEffects.TickEffect | src/kernel/task.c:266-274 | a tick takes one from the counter of the running task; if nothing is left and the task may be interrupted, it does what the scheduler does |
| TaskEffects.CallsIff | src/kernel/task.c:266-274 | which operations run the scheduler: schedule, block, and a tick that finds nothing left and may interrupt |
| TaskEffects.AddEffect | src/kernel/task.c:25-32 | a task goes into the least empty slot; a full table stays as it is |
| TaskEffects.RemoveEffect | src/kernel/task.c:34-41 | the first slot that holds the task is emptied; if there is none, nothing changes |
| TaskEffects.ForkEffect | src/kernel/task.c:190-204 | each field of the child and of the parent after a fork, the slot of the child, and nothing else changes |
| TaskEffects.ExitEffect | src/kernel/task.c:139-163 | the task is gone from table and memory, its parent has one child less and runs again if it waits, nobody else changes, and the first task runs |
| TaskEffects.ParentIs | src/kernel/task.c:141 | process IDs are distinct, so it is the parent that an exit wakes |
| Tasks.TaskTable.Unblock | src/kernel/task.c:55-63 | only a task in the given state is made ready |
| Tasks.TaskTable.Fork | src/kernel/task.c:167-230 | without a page for the struct, the tables or the stack nothing changes and the result is -1; otherwise the table part of `task_fork` is one step, and the result is the new process ID |
| Tasks.TaskTable.Exit | src/kernel/task.c:132-164 | one turn of the waiting loop of `task_exit`, or the exit |
| Mqueue.EnqueueFifo | src/kernel/mqueue.c:127-145 | an enqueue that is not refused appends to the queue |
| Mqueue.TailWrappedFifo | src/kernel/mqueue.c:128-132 | a refused enqueue may rewrite `tail`, and leaves what waits unchanged |
| Mqueue.DequeueFifo | src/kernel/mqueue.c:150-168 | a dequeue takes the oldest message |
| Mqueue.HeadWrappedFifo | src/kernel/mqueue.c:154-160 | a dequeue with too small a buffer may rewrite `head`, and leaves what waits unchanged |
| MqueueRuns.StepInv | src/kernel/mqueue.c:184-328 | in every state: live IDs and live hashes are distinct, rings are well formed, an unlinked queue that is not free has a subscriber, a sleeping call holds its own subscription |
| MqueueFifo.ReceiveTurnEffect | src/kernel/mqueue.c:314-325 | what one turn of a receive takes out and what it reports |
| MqueueFifo.StepMoved | src/kernel/mqueue.c:184-328 | every step moves every live queue as a bounded FIFO moves, and callers are told just that |
| MqueueHistory.FifoConserved | src/kernel/mqueue.c:127-168 | over every run: what waited, then what was sent, is what left, then what waits: in order, nothing lost, nothing twice |
| MqueueHistory.ReceivedOfTaken | src/kernel/mqueue.c:314-327 | receivers get all that leaves the queue but the messages of length zero |
| MqueueHistory.DeliveredExactly | src/kernel/mqueue.c:314-327 | senders and receivers see a FIFO if and only if no message of length zero has left the queue |
| MqueueHistory.Delivered | src/kernel/mqueue.c:270-328 | with messages of positive length they do, for every interleaving, and at most 8 wait |
| MqueueWakeups.StepGood | src/kernel/mqueue.c:84-91 | no step leaves a subscriber marked as waiting on a queue that has messages |
| MqueueWakeups.NoLostWakeUp | src/kernel/mqueue.c:84-145 | after every polite run a task that sleeps in a receive sleeps on an empty queue |
| MqueueWakeups.SleepsBesideMessages | src/kernel/mqueue.c:314-325 | a blocking receive falls asleep beside waiting messages if and only if the oldest is longer than the buffer, or has length zero and is not the last |
| MqueueLifecycle.CreatedRing | src/kernel/mqueue.c:206-229 | the checks let a negative `mq_maxmsg` through; a new queue is a sound empty ring if and only if it is at least 1 |
| MqueueLifecycle.LastCloseFrees | src/kernel/mqueue.c:242-257 | a close frees the queue if and only if it was unlinked and nobody else is subscribed |
| MqueueLifecycle.SlotNotRecycled | src/kernel/mqueue.c:173-257 | while a task sleeps in a send or receive its queue keeps its slot and ID, whatever others open, close and unlink |
| MqueueLifecycle.OpensUseUp | src/kernel/mqueue.c:96-121 | each successful open uses up one subscription slot for good, because a close leaves -1 behind |
| MqueueLifecycle.OpensBounded | src/kernel/mqueue.c:96-121 | from boot on at most 256 opens succeed |
| MqueueCode.QueueTable.EnqueueMessage | src/kernel/mqueue.c:127-145 | `_enqueue` in place |
| MqueueCode.QueueTable.DequeueMessage | src/kernel/mqueue.c:150-168 | `_dequeue` in place: bytes, length and the error |
| MqueueCode.QueueTable.UnblockSubscribers | src/kernel/mqueue.c:84-91 | the loop clears every mark and wakes exactly the marked |
| MqueueCode.QueueTable.Destroy | src/kernel/mqueue.c:173-182 | `_destroy` in place |
| MqueueCode.QueueTable.Open | src/kernel/mqueue.c:184-240 | `mqueue_open` with all its errors |
| MqueueCode.QueueTable.Close | src/kernel/mqueue.c:242-257 | `mqueue_close` |
| MqueueCode.QueueTable.Unlink | src/kernel/mqueue.c:259-268 | `mqueue_unlink` |
| MqueueCode.QueueTable.Send | src/kernel/mqueue.c:270-298 | `mqueue_send` up to its return or its sleep |
| MqueueCode.QueueTable.Receive | src/kernel/mqueue.c:300-328 | `mqueue_receive` up to its return or its sleep; ReceiveOutcome says which it is |
| MqueueOutcomes.SendToNobody | src/kernel/mqueue.c:272-275 | a send to an ID that no queue has fails with EBADF |
| MqueueOutcomes.SendOutcome | src/kernel/mqueue.c:270-298 | EMSGSIZE exactly for messages longer than the limit, EACCES exactly without a subscription for writing, and otherwise one turn of the loop |
| MqueueOutcomes.SendTurnOutcome | src/kernel/mqueue.c:285-295 | one turn of the loop: with room the message joins at the end and the receivers that wait are woken if the queue was empty; in a full queue EAGAIN with O_NONBLOCK, and without it the caller sleeps and is marked; no other subscription, queue or task changes |
| MqueueOutcomes.ReceiveFromNobody | src/kernel/mqueue.c:302-305 | a receive from an ID that no queue has fails with EBADF |
| MqueueOutcomes.ReceiveOutcome | src/kernel/mqueue.c:300-328 | EACCES exactly without a subscription for reading, and otherwise one turn of the loop |
| MqueueOutcomes.ReceiveTurnOutcome | src/kernel/mqueue.c:314-325 | one turn of the loop: the oldest message if it is not empty and fits; otherwise EAGAIN with O_NONBLOCK, and without it the caller sleeps and is marked; an empty message is gone; nothing else changes |
| MqueueOutcomes.ResumeOutcome | src/kernel/mqueue.c:285-295 | a caller that wakes up makes one more turn with its old arguments |
| MqueueOutcomes.LoopEnds | src/kernel/mqueue.c:314-325 | with O_NONBLOCK a call that reaches its loop never sleeps and gets EAGAIN exactly if it is not served; without it EAGAIN never comes |
| MqueueOutcomes.NonBlockingNeverSleeps | src/kernel/mqueue.c:285-325 | over all calls and wake-ups: a task falls asleep only in the loop of a send or a receive, unserved, through a subscription without O_NONBLOCK, and nobody else with it |
| MqueueOutcomes.WakeOutcome | src/kernel/mqueue.c:84-91 | a wake-up changes nothing but whether that task is blocked |
| MqueueNaming.OpenExisting | src/kernel/mqueue.c:184-240 | open of a name that stands for a queue: EEXIST for O_CREAT with O_EXCL, ENOENT once it is unlinked, otherwise the caller joins or gets EACCES |
| MqueueNaming.OpenRefused | src/kernel/mqueue.c:195-218 | open of a name that stands for no queue: ENOENT without O_CREAT, ENFILE without a free slot, EINVAL and ENOSPC for each limit |
| MqueueNaming.OpenMakes | src/kernel/mqueue.c:195-234 | otherwise the first free slot becomes an open, empty queue with the next ID and the limits asked for, or 8 messages of 128 bytes |
| MqueueNaming.OpenedMeans | src/kernel/mqueue.c:233-239 | the ID that an open returns is that of an open queue with the name, among whose subscribers is the caller, with the access asked for |
| MqueueNaming.CloseNothing | src/kernel/mqueue.c:243-246 | a close of an ID that no queue has fails with EBADF |
| MqueueNaming.CloseOutcome | src/kernel/mqueue.c:242-257 | a close gives up the first subscription of the caller for good; the queue goes exactly if it is unlinked and nobody else is subscribed; messages and limits stay |
| MqueueNaming.UnlinkNothing | src/kernel/mqueue.c:260-263 | an unlink of a name that stands for no queue fails with ENOENT |
| MqueueNaming.UnlinkOutcome | src/kernel/mqueue.c:259-268 | an unlinked queue is not open any more, keeps everything else while it has subscribers, and is free otherwise |
| MqueueNaming.UnlinkedName | src/kernel/mqueue.c:192-230 | after an unlink nobody opens the queue, and while it has subscribers no open makes a new queue of its name |
| MqueueCode.QueueTable.Continue | src/kernel/mqueue.c:285-325 | a task that slept goes on with the next turn of its loop |
| MsgbufQueue.PushFifo | src/kernel/msgbuf.c:215-224 | a push to a queue that is not full appends, and the occupied slots stay contiguous |
| MsgbufQueue.PopFifo | src/kernel/msgbuf.c:198-207 | a pop takes the oldest entry, and the occupied slots stay contiguous |
| MsgbufQueue.RunFifo | src/kernel/msgbuf.c:198-224 | over every run of pushes and pops the sentinel queue is a FIFO of capacity 8 |
| Msgbuf.Registry.Get | src/kernel/msgbuf.c:149-166 | resolves an ID to the node of its slot exactly if the slot is in use |
| Msgbuf.Registry.Extend | src/kernel/msgbuf.c:118-126 | a node is appended; every slot keeps its number and contents |
| Msgbuf.Registry.FindSlot | src/kernel/msgbuf.c:90-134 | the search ends, with the first free slot, a name clash, or no memory |
| Msgbuf.Registry.Alloc | src/kernel/msgbuf.c:89-142 | for names up to 31 bytes: ERR_MSB_EXS exactly if the name is taken; out of memory exactly if it is not, no slot is free and no page is left; otherwise the lowest free slot gets the name; earlier IDs keep their slots, live names stay distinct |
| Msgbuf.Registry.ConnGet | src/kernel/msgbuf.c:290-297 | the first connection with the receiver |
| Msgbuf.Registry.ConnAlloc | src/kernel/msgbuf.c:234-248 | the first free place, unless the connection exists or all places are taken |
| Msgbuf.NewConnection | src/kernel/msgbuf.c:382-383 | a connection written to that place is found, and all others are found as before |
| Msgbuf.Registry.QueuePush | src/kernel/msgbuf.c:215-224 | `_msgbuf_queue_push` in place |
| Msgbuf.Registry.QueuePop | src/kernel/msgbuf.c:198-207 | `_msgbuf_queue_pop` in place |
| Msgbuf.Registry.Prepare | src/kernel/msgbuf.c:401-410 | a new buffer has an empty queue and no connections |
| Msgbuf.Registry.ConnFree | src/kernel/msgbuf.c:255-282 | `_conn_free` but for its unmapping: the first connection to the receiver is deleted, or the last of all if there is none; a closed receiver is read through NULL if there are pages |
| Msgbuf.Registry.Close | src/kernel/msgbuf.c:299-335 | `msgbuf_close` but for its unmapping: the name and the own connections are cleared, the connections of others to the slot stay; exactly when it reads through NULL |
| Msgbuf.CloseEnds | src/kernel/msgbuf.c:299-315 | only the owner of a live buffer closes it; the source reads through NULL exactly if the buffer has memory of its own and some connection leads to a buffer that is gone |
| Msgbuf.CloseLeaves | src/kernel/msgbuf.c:299-335 | what a close leaves: no name, no connections if there was memory, everything else as it was |
| Msgbuf.Registry.Create | src/kernel/msgbuf.c:388-426 | `msgbuf_create` with all its errors: a new distinct name with an empty queue, no connections and the mapped buffer; out of memory only if no slot and no page is left, or if the mapping fails, and then the slot stays taken |
| Msgbuf.Registry.Recv | src/kernel/msgbuf.c:437-464 | `msgbuf_recv` drops closed and disconnected senders from the front of the queue and returns the oldest other one, with the address of its connection; it sleeps exactly if there is none |
| Msgbuf.RecvMeans | src/kernel/msgbuf.c:437-464 | only the owner receives; senders that are gone or not connected are passed over, the first other one is returned with the place of its buffer, the caller sleeps if there is none, and no other buffer changes |
| Msgbuf.Registry.Send | src/kernel/msgbuf.c:477-500 | `msgbuf_send` checks owner, receiver and connection, appends to the receiver's queue, or sleeps exactly if it is full, wakes the owner of the receiver, and waits unless MSB_NOBLOCK is set |
| Msgbuf.SendMeans | src/kernel/msgbuf.c:477-500 | each answer with its condition: a live buffer of the caller and a live receiver, a connection, room for an eighth sender; then the sender is last in the queue, and nothing else changes |
| MsgbufRuns.StepSlot | src/kernel/msgbuf.c:299-500 | only a close ends the buffer in a slot, and only a create starts another one |
| MsgbufRuns.SlotWhileAsleep | src/kernel/msgbuf.c:487-488 | while a sender sleeps, the slot its pointer leads to holds the same buffer, with name and owner, if and only if nobody has closed it |
| MsgbufRuns.PushReaches | src/kernel/msgbuf.c:487-488 | the push that ends the wait goes to the buffer the sender called if and only if nobody closed that meanwhile |
| MsgbufRuns.PushGoesAstray | src/kernel/msgbuf.c:487-488 | the run where it does not: the receiver is closed, its slot goes to another name and owner, and the sleeping sender pushes there; its old connection makes the new owner accept |
| Wire.Number32 | src/lib/c/fcall/fcall_buf_to_msg.c:13-16 | four little-endian bytes and 32-bit numbers correspond, both ways |
| Wire.Number64 | src/lib/c/fcall/fcall_buf_to_msg.c:18-20 | likewise eight bytes and 64-bit numbers |
| Wire.HoldsUnique | src/lib/c/fcall/fcall_buf_to_msg.c:22-180 | a buffer can be read as one message only, whatever follows it |
| Wire.HoldsWire | src/lib/c/fcall/fcall_buf_to_msg.c:22-180 | a buffer starts with the wire form of a message if and only if it holds the message and the size field says so |
| Wire.WireCanonical | src/lib/c/fcall/fcall_buf_to_msg.c:22-180 | no wire form is a prefix of the wire form of another message |
| WireFormat.FormatOf | src/lib/c/include/fcall.h:1-87 | the wire form of each of the 21 types byte by byte: size, the number of the type, tag, and every field at its offset, little-endian |
| FcallEnough.EnoughIff | src/lib/c/fcall/fcall_buf_to_msg.c:22-180 | a buffer can be read as a message if and only if its type is known and no field, by its own length, goes beyond the end |
| FcallCodec.BodySizeIsSize | src/lib/c/fcall/fcall_msg_size.c:7-122 | the sums of the size switch are the lengths of the wire form, for all 21 types |
| FcallCodec.MsgSize | src/lib/c/fcall/fcall_msg_size.c:7-122 | `fcall_msg_size` is the length of the wire form modulo 2^32, and 0 for types that have none |
| FcallCodec.GetNumbers | src/lib/c/fcall/fcall_buf_to_msg.c:5-20 | the readers, which put bytes together, read little-endian numbers |
| FcallCodec.PutUint | src/lib/c/fcall/fcall_msg_to_buf.c:17-20 | `_put_uint` writes the little-endian bytes and nothing else |
| FcallCodec.PutUlong | src/lib/c/fcall/fcall_msg_to_buf.c:22-26 | likewise `_put_ulong` |
| FcallCodec.PutPstring | src/lib/c/fcall/fcall_msg_to_buf.c:28-36 | likewise `_put_pstring`, length first |
| FcallCodec.PutQid | src/lib/c/fcall/fcall_msg_to_buf.c:38-44 | likewise `_put_qid`, 16 bytes |
| FcallCodec.PutNames | src/lib/c/fcall/fcall_msg_to_buf.c:86-91 | the loop over any number of path elements |
| FcallCodec.PutQids | src/lib/c/fcall/fcall_msg_to_buf.c:99-100 | the loop over any number of qids |
| FcallCodec.PutBody | src/lib/c/fcall/fcall_msg_to_buf.c:58-163 | the switch of the encoder writes the fields of the wire form, in order |
| FcallCodec.MsgToBuf | src/lib/c/fcall/fcall_msg_to_buf.c:46-168 | `fcall_msg_to_buf` writes exactly the wire form and returns its length; with length or type refused it writes nothing and returns 0 |
| FcallCodec.LengthTest | src/lib/c/fcall/fcall_msg_to_buf.c:49-52 | the test against `length` lets a message through that is too long, for some length, if and only if its size exceeds 2^32 and is no multiple of it |
| FcallCodec.LengthTestFails | src/lib/c/fcall/fcall_msg_to_buf.c:49-52 | an instance: an Rread with 2^32 - 10 bytes passes the test for a buffer of one byte |
| FcallCodec.BufToMsg | src/lib/c/fcall/fcall_buf_to_msg.c:22-180 | `fcall_buf_to_msg` reads the message the buffer holds and accepts it exactly if the size field is its size |
| FcallCodec.DecodeEncode | src/lib/c/fcall/fcall_buf_to_msg.c:22-180 | the wire form of a message whose size fits 32 bits can be read, is accepted, and can only be read as that message |
| FcallCodec.EncodeDecode | src/lib/c/fcall/fcall_msg_to_buf.c:46-168 | encoding what was accepted reproduces the bytes |
| FcallCodec.RoundTrip | src/lib/c/fcall/fcall_buf_to_msg.c:22-180 | a message sent through a buffer arrives as it was sent, for all 21 types |
| PathSplit.JoinParts | src/lib/c/fcall/fcall_path_split.c:27-38 | joining the elements with slashes gives back the path |
| PathSplit.PartsCount | src/lib/c/fcall/fcall_path_split.c:16-38 | there is one element for every slash, and none contains a slash |
| PathSplit.PartsJoin | src/lib/c/fcall/fcall_path_split.c:27-38 | splitting a path put together from elements without slashes gives back the elements |
| PathSplit.UnpackPack | src/lib/c/fcall/fcall_path_split.c:33-37 | the elements can be read back from memory if and only if their lengths fit 16 bits |
| PathSplit.PackedIs | src/lib/c/fcall/fcall_path_split.c:33-35 | an element is stored as 16 bits of its length, low byte first, and its characters |
| PathSplit.PackFits | src/lib/c/fcall/fcall_path_split.c:20-37 | the bytes written fit the allocation |
| PathSplit.Split | src/lib/c/fcall/fcall_path_split.c:10-41 | `fcall_path_split` writes the elements of the path and returns their number, with both failures and the path "/" |
| PathSplit.SizeOfParts | src/lib/c/fcall/fcall_path_size.c:10-18 | the size of the elements of a path that starts with a slash is the length of the path less one |
| PathSplit.PathSize | src/lib/c/fcall/fcall_path_size.c:6-24 | `fcall_path_size` adds up elements and delimiters; 0 if the sum exceeds SHRT_MAX |
| Buddy.InOrder | src/lib/c/internal/_block.c:96-122 | no two blocks of a sound list overlap, and blocks of one page are in order |
| Buddy.Covered | src/lib/c/internal/_block.c:96-122 | every byte of a page lies in a block |
| Buddy.SplitDownTiled | src/lib/c/internal/_block.c:47-55 | splitting a block, as often as it takes, keeps the list sound |
| Buddy.GrownTiled | src/lib/c/internal/_block.c:11-30 | a new page at the end keeps the list sound |
| BuddyMerge.Cell | src/lib/c/internal/_block.c:58 | `a ^ (1 << k)` is the other half of the cell of twice the size |
| BuddyMerge.BuddyIsBlock | src/lib/c/internal/_block.c:58-70 | at the buddy address of a block of at most half a page a block starts, in the same page and not larger |
| BuddyMerge.TurnSound | src/lib/c/internal/_block.c:60-71 | one turn of the merging loop keeps the list sound if and only if the buddy has the order of the block |
| BuddyHeap.FindSound | src/lib/c/internal/_block.c:96-122 | `block_find` for orders up to 12 ends with a block of exactly the order asked for, disjoint from all live ones, in a sound list; it fails if and only if nothing fits and `mmap` fails |
| BuddyHeap.FindDrains | src/lib/c/internal/_block.c:96-122 | for order 13 it takes every page `mmap` has and then fails |
| BuddyHeap.OrderFits | src/lib/c/stdlib/malloc.c:13-20 | a request gets an order whose block holds it if and only if request and header stay below a page; at exactly a page the order is 13 |
| BuddyFree.CoalesceSound | src/lib/c/internal/_block.c:57-71 | the whole merging loop keeps the list sound and the allocations as they are, when merged buddies match |
| BuddyFree.CoalescePairs | src/lib/c/internal/_block.c:57-71 | and then leaves no two free buddies of one order |
| BuddyFree.FindPairs | src/lib/c/internal/_block.c:96-122 | nor does `block_find` make two |
| BuddyFree.ClimbIs | src/lib/c/internal/_block.c:58-71 | whether all buddies match, and with which block merging ends, can be read off the list before the call |
| BuddyFree.UnlinkSound | src/lib/c/internal/_block.c:35-42 | taking a whole free page out of the list keeps it sound, and `mmap` may give the page out again |
| BuddyFree.FreeSound | src/lib/c/stdlib/free.c:7-14 | `free` under its condition: the heap stays sound, the block and nothing else is released, and the list covers the pages it covered less the one unmapped |
| BuddyUndo.FreeUndoesMalloc | src/lib/c/internal/_block.c:57-71 | merging a freed block undoes all the splits that made it |
| BuddyHeaders.OneList | src/lib/c/internal/_block.c:96-105 | memory holds one list of blocks at most |
| BuddyHeaders.ClimbListed | src/lib/c/internal/_block.c:57-71 | while the buddies match, the loop does on linked headers what it does on the list |
| BuddyLost.StaysLost | src/lib/c/internal/_block.c:60-71 | once buddies of different orders were merged, the block the loop works on covers a block in use, through all further turns |
| BuddyExact.ShrinkIff | src/lib/c/internal/_block.c:35-42 | unmapping a page keeps the list in memory sound if and only if `prev` is the block before the page |
| BuddyExact.FreeExact | src/lib/c/stdlib/free.c:7-14 | after `free` memory holds a sound list over the pages left, with the block and nothing else released, if and only if, on the list before the call, every buddy merged is one free block of the order reached and the `prev` of an unmapped page is the block before it |
| BuddyWitness.MixedBuddies | src/lib/c/internal/_block.c:60 | a run after which freeing a held pointer breaks the first half: three allocations in one page, the second freed, then the first |
| BuddyWitness.StalePrev | src/lib/c/internal/_block.c:35-42 | a run after which it breaks the second half: two halves of a page and a second page, the halves freed, then the page |
| BuddyWitness.StaleLink | src/lib/c/internal/_block.c:35-42 | what is then in memory: the first page leads to the second, which is unmapped, and no list is left |
| BuddyRuns.MallocServes | src/lib/c/stdlib/malloc.c:9-30 | a request below a page less the header gets a new live block that holds it, or fails exactly if nothing fits and `mmap` fails |
| BuddyRuns.MallocRefuses | src/lib/c/stdlib/malloc.c:10-16 | larger requests get nothing, and one of exactly a page takes all pages first |
| BuddyRuns.HeldApart | src/lib/c/stdlib/malloc.c:9-30 | over every run of malloc and free in which each free meets the condition of FreeExact, pages unmapped and given out again included, the memory that callers hold overlaps neither with other held memory nor with a header, and lies within pages |
| BuddyCode.Allocator.SplitBlock | src/lib/c/internal/_block.c:47-55 | `_split` on linked headers |
| BuddyCode.Allocator.Expand | src/lib/c/internal/_block.c:11-30 | `_expand` on linked headers |
| BuddyCode.Allocator.Scan | src/lib/c/internal/_block.c:96-116 | the loop of `block_find`: the first block that suits, split down, or the end of the list |
| BuddyCode.Allocator.BlockFind | src/lib/c/internal/_block.c:96-122 | `block_find` is `Find`, and each new page remembers the last block as its `prev` |
| BuddyCode.Allocator.Order | src/lib/c/stdlib/malloc.c:18-20 | the shift loop counts the bits |
| BuddyCode.Allocator.Malloc | src/lib/c/stdlib/malloc.c:9-30 | `malloc` is `MallocFrom` |
| BuddyCode.Allocator.Merge | src/lib/c/internal/_block.c:61-68 | one merge, on linked headers, whatever the orders |
| BuddyCode.Allocator.Shrink | src/lib/c/internal/_block.c:35-42 | `_shrink` on linked headers, whatever `prev` names |
| BuddyCode.Allocator.BlockCoalesce | src/lib/c/internal/_block.c:57-77 | `block_coalesce` for any block, sound list or not |
| BuddyCode.Allocator.Free | src/lib/c/stdlib/free.c:7-14 | `free` of any pointer behind a header; for a block in use under the condition of FreeExact the heap is the one FreeSound speaks of |

## Left out

Deliberate limits of members above:

- AddressSpaces.UserTables.FindEmpty: addresses are multiples of a page.
- AddressSpaces.UserTables.MapPage: frames come from a list, which `mem_kernel_alloc_page` refines (FrameList.Next). A frame that is given back goes into the list; in the bitmap it may go for a table of the kernel instead, so that the list does not become longer (FrameList.FreedForTable).
- Mmap.MapAnonymous: "at most two frames" counts the frames of that list, so not the frame that the kernel's own table may take.
- Munmap.Munmap: the frames the kernel holds are a set, which stands for its linear map.
- CowLeaks.ExceedingForkLeaks: forks that break the guard at a table on the way to a mapped page. A counter at its limit in a table that leads to no page is harmless as long as none is mapped there; CountableIff leaves such tables out.
- FrameMap.Frames.Mark: frames in the bitmap only; `mmu_setup` also marks frames from 0x3e000 on (src/kernel/arch/aarch64/mmu.c:253-254, 265-266), which lie behind the end of the array.
- AddressSpaces.UserTables.UnmapPage: no block descriptors, which nothing in the kernel puts into user tables.
- AddressSpaces.UserTables.SoftCopy: no block descriptors, likewise.
- CowRuns.CowRefinesEager: a data abort that runs out of memory ends a run, because the exception handler then hangs the kernel (src/kernel/arch/aarch64/entry.S:175-182). Mappings into tables that others share (SeenIff), and exits and execs that give back frames others reach (DanglesIff), are not events of the runs; nor is `sys_munmap`.
- ExitRuns.RunsKeep: forks keep the room that ForkKept asks for, which is a little more than Cow.ForkCounted does; data aborts of these runs are handled, because the kernel hangs otherwise.
- UserMap.MapOwnPage: one process; for mappings among several see CowMaps.MapSafe.
- KernelPages.KernelMemory.FreePage: only frames the kernel hands out; the branch for blocks is never taken in the linear map.
- Teardown.Teardown: no block descriptors, which nothing in the kernel puts into user tables, and every frame of the tree is one the kernel holds; the branch where `mem_kernel_free_page` fails is then dead.
- Teardown.ExitMemory: the wait for children and the removal from the table are in Scheduler and Tasks.
- Elf.Loader.CreateImage: data pages hold bytes and tables hold words, in separate maps over the same frames; segments end at or below 2^48 and lie within the file; the file header is given as a list of program headers, and `p_memsz` is not read, as in the source.
- Tasks.TaskTable.Tick: whether preemption is off is a parameter, because `preempt_count` is not balanced across `task_block`.
- Tasks.TaskTable.Find: requires that no empty slot comes before the one it looks for, because the source dereferences such a slot; likewise Block, Unblock and Exit. Module Searching says when this is so. What a read through a null pointer finds is not modelled.
- Tasks.TaskTable.Fork: page tables are in AddressSpaces.
- MqueueCode.QueueTable.Open: the hash of the name is a parameter, so two names with one hash are one name; the kernel's two flag bits in `oflag` are clear in runs.
- MqueueCode.QueueTable.Send: message lengths below 2^63; nothing ever wakes a sender of a full queue, so wake-ups of senders are arbitrary events.
- MqueueHistory.Delivered: a task that exits without closing its queues keeps its subscription; the exit is not an event.
- Msgbuf.Registry.Alloc: names up to 31 bytes, because a name of 32 bytes overruns its field; fresh pages are zero, as the source takes for granted; IDs are not reduced to 32 bits.
- Msgbuf.Registry.Create: the underlying buffer is the mapping loop of Mmap, whose outcome is a parameter here; no names of exactly 32 characters, which overrun their field.
- Msgbuf.Registry.Send: the wait for a full queue is in MsgbufRuns; the wait for the reply, and the reply that ends it, change no buffer.
- Msgbuf.Registry.Close: the pages it unmaps and frees, likewise in ConnFree.
- MsgbufRuns.SlotWhileAsleep: the kernel's pointer is the number of its slot; nodes are never freed.
- Msgbuf.Registry.Get: requires a first node, because the source does not look whether there is one.
- FcallCodec.MsgToBuf: a message that passes the test must really fit the buffer; LengthTest says which do not.
- FcallCodec.BufToMsg: the decoder gets no length, so the buffer must hold what its own length fields announce (EnoughIff); the pointers into the buffer that the source stores are the values they point to here, without aliasing.
- FcallCodec.PutField: one method for the calls that the source repeats in each branch of its switch.
- PathSplit.Split: paths with a slash; without one the source goes through a null pointer.
- BuddyCode.Allocator.Malloc: sizes whose sum with the header does not wrap around at 2^64; OrderFits says what happens to the others.
- BuddyCode.Allocator.BlockCoalesce: for a block of a whole page the source also reads the header at its buddy address, without using it; whether that page is mapped depends on mappings outside the heap.
- BuddyCode.Allocator.Shrink: a `prev` that is no block of the list any more may lie in memory that callers hold; what is overwritten there is not modelled.
- BuddyRuns.HeldApart: runs in which each free meets the condition of FreeExact; without it no sound list is left.

Not modelled:

- Assembly, context switches, translation caches, interrupts, timers and UART drivers: hardware effects. A switch is a change of the current task.
- `mmu_setup`: a boot script over linker symbols; its result is the precondition of `KernelPages.KernelMemory`.
- `block_deinit`, `realloc`, `block_get_size`: thin wrappers. `mmap` under `malloc` is a list of fresh aligned pages.
- The pages that `msgbuf_connect`, `msgbuf_disconnect` and `msgbuf_close` map and unmap: address spaces that share pages by hand; only the first page of a buffer is ever mapped for the receiver. `_msgbuf_get_id` looks at one node only.
- `_map_device`, argument passing in `task_exec`, `elf_validate`: few branches, no state of their own.
- The VFS server and its message encoding, vnode tree, streams, shell, ramdisk, formatter, string helpers, number parsing and system-call wrappers: message plumbing and one-branch facts.
- Counters, process IDs and queue IDs are unbounded integers; in the source they have 32 or 64 bits.
