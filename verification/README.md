# NexusOS kernel, verified

This project models the parts of the NexusOS kernel that are hard to get right
and proves them in Dafny: copy-on-write virtual memory over a reference-counted
frame allocator, the kernel heap, the scheduler with the process life cycle, the
readers of three file systems, the xHCI command and event rings, the ELF loader
with demand-zero faults, and the shell tokenizer.

`dafny verify dfyconfig.toml` checks everything.

## How the files fit together

| area | files |
|---|---|
| frame allocator (`mm/pmm.c`, `lib/bitmap.h`) | `PmmSpec.dfy` the allocator as a value, `Pmm.dfy` bitmap bytes and refcounts in place |
| virtual memory (`mm/vmm.c`) | `PageTables.dfy` memory, walks and the invariant; `VmSteps.dfy`, `CloneSteps.dfy`, `DestroySteps.dfy`, `SpaceOps.dfy`, `CowSteps.dfy` one kind of change each; `ForkCounts.dfy` the frames of a fork; `CowMachine.dfy` runs and the eager machine; `Vmm.dfy` the code, `ForkExample.dfy` a run of it; `Vmas.dfy` areas; `TableFrames.dfy` what mapping a page costs in the flat view, `TableCosts.dfy` that the page tables agree |
| heap (`mm/heap.c`) | `HeapSpec.dfy` the block list, `HeapProofs.dfy` what both operations keep, `HeapRange.dfy` when blocks tile the range and pages are mapped, `Memory.dfy` bytes, `KernelHeap.dfy` headers linked in place in them, `HeapRuns.dfy` runs |
| scheduler, processes (`sched/`) | `SchedSpec.dfy` the entry points on values, `SchedProofs.dfy` the invariant, `SchedMachine.dfy` runs, `SchedFacts.dfy` what the entry points do to the fields, `Chains.dfy` linked lists, `Tasks.dfy` the code |
| file systems (`fs/`) | `Bytes.dfy`, `FileBlocks.dfy` shared; `Ext4.dfy`; `Ntfs.dfy`, `NtfsEncoding.dfy`, `NtfsRecord.dfy`; `Fat32.dfy`; `Images.dfy` a disk image as a writer lays it out, `Ext4Image.dfy`, `Fat32Image.dfy`, `NtfsImage.dfy` that the readers give it back |
| xHCI rings (`drivers/usb/xhci.c`) | `XhciRings.dfy` commands and `XhciEvents.dfy` events with both parties, `Xhci.dfy` the code |
| ELF loader (`syscall/elf_loader.c`) | `ElfLoader.dfy`, `ElfImage.dfy` program files as a linker lays them out |
| shell tokenizer (`shell/shell_core.c`) | `Tokenizer.dfy`, `Quoting.dfy`, `CommandLines.dfy` lines as they are typed |
| helpers | `Arith.dfy`, `Options.dfy`, `Sizes.dfy` |

Code that changes memory in place is a class or a method on arrays; each such
method is tied to a function or a relation on values, and the theorems are about
those. Physical memory is a sequence of frames, and an address in the direct
mapping is the frame itself. Every entry point is one atomic step, taken with its
lock free. The result of `kmalloc` or `pmm_alloc_page` in code that is not about
memory, the disk, the timer and user accesses are parameters.

The main results:

- **Copy-on-write is eager copying** (`CowMachine.RunRefines`). Over every run of
  space creations, forks, stores, write faults, demand faults and teardowns, each
  address space sees the bytes it would see if every fork had copied all its pages at
  once, provided that at each fork there is a free frame for every table of the parent
  up to its last leaf table with a user page, in the order of the walk. That condition is
  exact for any space (`CowMachine.StepRefines`, `ForkCounts.PagesExactly`): with fewer
  frames the child lacks a page, and `ForkExample.ForkLosesPage` is an execution of the
  model that loses one. Every table is copied exactly when there are as many frames as
  the parent has tables (`ForkCounts.ForkedExactly`). Without the condition every step
  still is one of the eager machine in which a fork copies some of the pages.
- **Isolation** (`CowMachine.RunSafe`). In every state of every run a writable user
  entry is the only entry on its frame, reference counts are exact, and nothing
  reachable is free. Clone followed by teardown of the clone restores the allocator
  exactly (`SpaceOps.CloneDestroyRestores`).
- **The four-level table is a flat map** (`Vmm.MemoryManager.MapPage`,
  `UnmapPage`, `GetPhys`), and mapping succeeds exactly when the free frames cover the
  missing tables. The tables never stand between the processor and a page
  (`PageTables.AccessIsLeaf`). The fault handler kills a process exactly if no area, heap
  or stack of it explains the fault (`Vmm.MemoryManager.PageFault`).
- **The heap** (`HeapRuns.RunSafe`, `BlockKept`, `BytesKept`, `FreshPointer`): over every
  run, also after growth that failed half way, blocks are sorted, disjoint, inside the
  range, 8-aligned, and add up; headers and data share one memory, and every byte of a
  block in use keeps its value until its owner writes it or the block is freed. The blocks
  tile the range exactly as long as no growth failed half way (`RunTiled`), and the range
  is mapped exactly as long as the frames never ran out between a page and its tables
  (`RunMapped`); both can happen (`GapExample`, `LostPageExample`). The block behind a
  pointer is less than 56 bytes larger than the aligned request (`HeapProofs.KmallocOk`),
  and `kmalloc` fails exactly when no free block is large enough and the frames do not
  cover the growth (`HeapRange.KmallocSucceeds`).
- **The scheduler** (`SchedMachine.RunSafe`, `BoundedWaiting`): no thread is lost or
  queued twice, and the k-th thread of a queue with nothing above it runs within
  k + 1 calls of `schedule()`. Over every run a thread that gets the CPU was the first of
  the highest priority, written as the number in the thread, among all that were ready
  (`SchedFacts.HighestFirst`, `QueueOfPriority`). **Processes** are reaped at most once
  with the status of their exit (`ReapedOnce`, `StatusIsExitCode`), the first zombie of
  the table that is a child asked for (`SchedFacts.WaitDoes`, `WaitResult`); their pids are unique in runs with
  fewer than 2^32 calls of `process_create` (`PidReapedOnce`) and come back after that
  (`PidReused`).
- **File readers** return the slice of the file their index encodes: the ext4 extent
  tree against its flat extent list (`Ext4.WalkFinds`, `Ext4.ReadIsSlice`), NTFS runs
  against their concatenation with a round trip through an encoder of any field widths
  (`NtfsEncoding.DecodeEncode`, `Ntfs.ReadIsSlice`), the FAT chain (`Fat32.ReadIsSlice`).
  **A file written to a disk image is read back**: for every extent tree, cluster chain,
  run list or resident value laid out byte by byte in an image, with its data where it
  says, the reader delivers the whole slice asked for (`Ext4Image.ReadsBack`,
  `Fat32Image.ReadsBack`, `NtfsImage.ReadsBack`, `ValueReadsBack`), and listing a FAT32
  directory shows the entries written (`Fat32Image.DirIsShown`).
- **xHCI**: in every interleaving with at most 62 commands outstanding the controller
  takes exactly the commands pushed, in order (`XhciRings.RunInOrder`); 62 is sharp
  (`TakesAt63`, `StallsAt63`, in a state that `StallReached` reaches from boot). In every interleaving
  of event writes, polls and acknowledgements the driver consumes the events written, in
  order, each once (`XhciEvents.EventsInOrder`).
- **ELF**: the loader succeeds with every file page mapped exactly when the frames cover
  the pages and their tables (`ElfLoader.LoadedExactly`); then every byte of every
  segment is the file byte or zero, whatever faults happen in between (`LoadedByte`,
  `LastSegmentWins` for overlapping segments). With fewer frames it can succeed with its
  last page missing, which later reads as zeros (`LostPage`, `LostPageExample`). A page is
  mapped only where a segment is, and writable only if that segment is (`LoadedRights`).
  The segments are those a linker wrote (`ElfImage.ReadsFile`).
- **Tokenizer**: at most two bytes written per byte read (`Tokenizer.RunOk`). Every line of
  words, each a mix of plain, escaped, single-quoted and double-quoted pieces, and of the
  signs > and >>, comes back as the list of what they stand for exactly when there are at
  most 15 of them, or 16 with nothing left to read behind the opening of the last
  (`CommandLines.ComesBack`; `WordsComeBack`, `Redirections` and `Quoting.RoundTrip` for
  lines as they are typed).

Where the code does less than one might expect, the model does what the code does:
any present read-only user page counts as copy-on-write; coalescing merges list
neighbours whether or not they touch; `kmalloc` pointers are 8-aligned, not 16-aligned,
because the header has 24 bytes; a fork without frames skips subtrees silently;
`vmm_map_page` without frames for its tables maps nothing and tells nobody; idle
joins queue 0 once it has run; sleepers are in no queue; a pid is used up by a failed
`process_create`; the tokenizer stops as soon as the 16th argument starts. The comment
on `pick_next` speaks of waking sleepers in the queues; the code never finds one there
(`Tasks.Kernel.PickNext`).

## Model

| member | source | states |
|---|---|---|
| Pmm.BitmapSet | kernel/src/lib/bitmap.h:14-16 | exactly one bit of the bitmap becomes set |
| Pmm.BitmapClear | kernel/src/lib/bitmap.h:19-21 | exactly one bit of the bitmap becomes clear |
| Pmm.FrameAllocator.Init | kernel/src/mm/pmm.c:53-120 | on an aligned, disjoint memory map the free frames are those of the usable entries without the bitmap's own home and frame 0, and the reported free count is their number; it succeeds exactly when some usable entry can hold the bitmap, and the first such entry does |
| Pmm.FrameAllocator.FindHome | kernel/src/mm/pmm.c:65-82 | the first usable entry that is long enough, none only if none is |
| Pmm.FrameAllocator.NewBitmap | kernel/src/mm/pmm.c:69-72 | a fresh bitmap marks every frame as used |
| Pmm.FrameAllocator.MarkUsable | kernel/src/mm/pmm.c:88-99 | after pass 3 a frame is free exactly when a usable entry covers it, and usable_pages counts them |
| Pmm.FrameAllocator.GuardPageZero | kernel/src/mm/pmm.c:101-109 | frame 0 ends up used and the counters still follow the bitmap |
| Pmm.FrameAllocator.AllocPage | kernel/src/mm/pmm.c:123-141 | the lowest free frame from 1 on is taken with count 1; 0 only if none is free |
| Pmm.FrameAllocator.FreePage | kernel/src/mm/pmm.c:143-154 | a used frame is freed once; frame 0, frames out of range and free frames are left alone |
| Pmm.FrameAllocator.AllocPages | kernel/src/mm/pmm.c:156-187 | the lowest run of count free frames is taken; 0 only if no such run exists |
| Pmm.FrameAllocator.FindRun | kernel/src/mm/pmm.c:162-172 | skipping ahead to the used frame misses no run |
| Pmm.FrameAllocator.TakeFrames | kernel/src/mm/pmm.c:173-177 | exactly the frames of the run become used with count 1 |
| Pmm.FrameAllocator.FreePages | kernel/src/mm/pmm.c:189-193 | every frame of the range but frame 0 is free without references afterwards, and no other frame changes |
| Pmm.FrameAllocator.PageRef | kernel/src/mm/pmm.c:211-217 | the 16-bit count of a frame below MAX_PAGES goes up by one; the allocator stays consistent exactly when the frame is not a free one |
| Pmm.FrameAllocator.PageUnref | kernel/src/mm/pmm.c:219-233 | the count goes down, and the frame is freed when it reaches 0 |
| Pmm.FrameAllocator.FreeCount | kernel/src/mm/pmm.c:207-209 | the reported count is the number of clear bits of the bitmap |
| PmmSpec.AllocOk | kernel/src/mm/pmm.c:123-141 | allocation takes the lowest free frame with one reference, changes no other count, keeps the counters in step with the bitmap, and fails exactly when the free count is 0 |
| PmmSpec.FreeOk | kernel/src/mm/pmm.c:143-154 | exactly a frame in use other than 0 becomes free without references, the free count grows by one and nothing else changes; any other frame changes nothing |
| PmmSpec.UnrefOk | kernel/src/mm/pmm.c:219-233 | one reference less; the frame becomes free exactly with the last one, and then the free count grows by one |
| PmmSpec.RefOk | kernel/src/mm/pmm.c:211-217 | taking a reference changes one count, no bit and no counter, and keeps the allocator consistent exactly when the frame is not a free one |
| PmmSpec.AllocUndone | kernel/src/mm/pmm.c:123-233 | freeing the frame just allocated, or dropping its reference, restores the allocator |
| PmmSpec.RefUndone | kernel/src/mm/pmm.c:211-233 | a reference taken and dropped restores the allocator if and only if the frame has no counter, or is not frame 0, its count does not wrap, and it had a reference or is not in use |
| PmmSpec.TakeRunOk | kernel/src/mm/pmm.c:173-177 | taking a run keeps the counters in step and moves the free count by its length |
| PmmSpec.CountersFollowBitmap | kernel/src/mm/pmm.c:207-209 | two consistent allocators with the same bitmap and total report the same free count |
| PageTables.PageOfInjective | kernel/src/mm/vmm.c:43-46 | the four indices of an address determine its page |
| PageTables.TranslateIsPte | kernel/src/mm/vmm.c:126-139 | the hardware walk through memory reads the entry the bookkeeping says |
| PageTables.AccessIsLeaf | kernel/src/mm/vmm.c:50-74 | the processor, which checks the user and write flags of all four levels, decides by the last entry alone |
| CowSteps.StoreAccess | kernel/src/mm/vmm.c:230-245 | it lets a store through exactly on a writable user entry |
| Vmm.MemoryManager.AllocPage | kernel/src/mm/pmm.c:123-141 | a cleared frame that nothing uses, or 0 with nothing changed |
| Vmm.MemoryManager.NextLevel | kernel/src/mm/vmm.c:50-74 | the table of the next level, created if asked; no translation changes, and without memory nothing changes |
| Vmm.MemoryManager.FindPt | kernel/src/mm/vmm.c:98-109 | the leaf table of a page; existing translations stay; creation succeeds exactly when the free frames cover the missing tables, and takes just those |
| Vmm.MemoryManager.GetPhys | kernel/src/mm/vmm.c:126-139 | frame and offset of a present page, 0 otherwise |
| Vmm.MemoryManager.MapPage | kernel/src/mm/vmm.c:98-110 | on success one page of one space translates to the new entry and every other page of every space as before; on exhaustion no translation changes, whatever the entry is; it succeeds exactly when the free frames cover the missing tables; the table trees stay well formed if the frame serves nothing else |
| Vmm.MemoryManager.UnmapPage | kernel/src/mm/vmm.c:112-124 | exactly one translation goes away |
| Vmm.MemoryManager.IsCowPage | kernel/src/mm/vmm.c:230-245 | true exactly for a present user page that is not writable |
| Vmm.MemoryManager.GrantWrite | kernel/src/mm/vmm.c:268-276 | the sole owner gets write permission and nothing else changes |
| Vmm.MemoryManager.CopyPage | kernel/src/mm/vmm.c:277-285 | a shared page is split off: the writer has a private copy and the old frame lost one reference |
| Vmm.MemoryManager.CowHandleFault | kernel/src/mm/vmm.c:259-288 | the invariant holds; the page is writable for the faulting space afterwards exactly when it was the only one or a frame was free, else nothing changed |
| Vmm.MemoryManager.MapUserPage | kernel/src/mm/vmm.c:247-257 | an absent page becomes a cleared page of its own exactly when the free frames cover it and its missing tables; otherwise memory is exhausted |
| Vmm.MemoryManager.PageFault | kernel/src/mm/vmm.c:290-343 | the process is killed exactly if the fault is no write to a present user page, no area and not the heap has the address, and it is not in the 8 MB below the stack top, or there at or above the stack limit on a page that is present with a frame; a page that becomes present is writable as its area says, or for heap and stack; the stack limit moves exactly for a stack fault below it, to the page; the page becomes present exactly when the frames free at the call cover it and its missing tables |
| Vmm.MemoryManager.UserStore | kernel/src/mm/vmm.c:230-288 | a store, with the fault it may take, changes one word in the writer's view and nothing in any other view |
| Vmm.MemoryManager.StoreThrough | kernel/src/mm/vmm.c:230-245 | a store goes through exactly when the flags of all four levels allow it, and changes one word of one view |
| Vmm.MemoryManager.CloneEntry | kernel/src/mm/vmm.c:159-176 | a present entry becomes read-only on both sides and its frame gets one reference |
| Vmm.MemoryManager.ClonePt | kernel/src/mm/vmm.c:159-176 | all 512 entries of a leaf table are shared read-only |
| Vmm.MemoryManager.CloneTable | kernel/src/mm/vmm.c:178-228 | the subtree is copied, or where frames ran out left out as a whole |
| Vmm.MemoryManager.CloneKernelSpace | kernel/src/mm/vmm.c:145-157 | an empty user half with the current kernel half, or 0 |
| Vmm.MemoryManager.CowClone | kernel/src/mm/vmm.c:204-228 | one fork step of the machine, also when frames run out inside; 0 only without a frame; every table is copied exactly when there were as many frames as the parent has tables; the kernel half is that of the current space |
| Vmm.MemoryManager.DropEntries | kernel/src/mm/vmm.c:348-377 | every page below the table loses one reference, every table below it is freed |
| Vmm.MemoryManager.DestroyAddressSpace | kernel/src/mm/vmm.c:348-382 | one space is gone with all its tables, shared frames lost one reference, and the invariant holds for the others |
| CloneSteps.RefIsExact | kernel/src/mm/pmm.c:211-217 | the 16-bit count is exact if and only if it was below 65535 |
| SpaceOps.ForkedPte | kernel/src/mm/vmm.c:159-228 | parent and child agree read-only wherever the child has a page, and no other space changes an entry |
| ForkCounts.ForkTakes | kernel/src/mm/vmm.c:178-228 | a clone takes exactly as many frames as it has tables |
| ForkCounts.ForkedExactly | kernel/src/mm/vmm.c:178-228 | every table of the parent has its copy if and only if at the call there are at least as many free frames as the parent has tables |
| ForkCounts.ForkedComplete | kernel/src/mm/vmm.c:178-228 | then the child has every page of the parent |
| ForkCounts.CopiedFirst | kernel/src/mm/vmm.c:178-228 | the tables copied are the first ones of the walk |
| ForkCounts.PagesExactly | kernel/src/mm/vmm.c:178-228 | the child has every page of the parent if and only if at the call there are as many free frames as tables up to the last leaf table with a user page, in the order of the walk |
| ForkCounts.NeededAtMost | kernel/src/mm/vmm.c:178-228 | those are never more than all tables of the parent |
| ForkCounts.FewFrames | kernel/src/mm/vmm.c:178-228 | with fewer than four free frames the child gets no page |
| ForkExample.ForkLosesPage | kernel/src/mm/vmm.c:204-228 | an execution of the model on eight frames in which the child of a fork lacks the parent's page, so the views are not those of eager copying |
| TableCosts.MissingIsNeeds | kernel/src/mm/vmm.c:98-110 | the tables a page still needs are the same in the page tables and in the flat view that the heap and the ELF loader use |
| TableFrames.WalkIs | kernel/src/mm/vmm.c:50-110 | vmm_map_page succeeds exactly when the frames cover the missing tables and takes just those; otherwise no frame is left |
| TableFrames.PageInIs | kernel/src/mm/vmm.c:98-110 | the same for a page allocated and then mapped |
| TableFrames.CostLast | kernel/src/mm/vmm.c:98-110 | one more page costs its frame and the tables that the pages before it did not bring |
| SpaceOps.ForkedInv | kernel/src/mm/vmm.c:204-228 | cloning keeps exact counts, sole writers and proper trees |
| SpaceOps.TornInv | kernel/src/mm/vmm.c:348-382 | teardown keeps them for the spaces that stay |
| SpaceOps.CloneDestroyRestores | kernel/src/mm/vmm.c:204-382 | clone then destroy of the clone gives back every count, every bit and both counters, whatever failed inside the clone |
| CowSteps.WritableIsSole | kernel/src/mm/vmm.c:159-176 | two entries on one frame, one of them writable, are the same entry |
| CowSteps.StoredAbs | kernel/src/mm/vmm.c:259-288 | a store through a writable entry changes one page in one view |
| CowSteps.SplitAbs | kernel/src/mm/vmm.c:277-285 | splitting a page changes no view |
| CowSteps.UpgradedAbs | kernel/src/mm/vmm.c:268-276 | granting write permission changes no view |
| CowSteps.PlacedAbs | kernel/src/mm/vmm.c:247-257 | a demand-mapped page is zero in one view and changes no other |
| CowSteps.ForkedAbs | kernel/src/mm/vmm.c:204-228 | the child sees the parent's bytes, on all pages exactly if there were frames for the tables up to the last page, and nobody else's view changes |
| CowSteps.TornAbs | kernel/src/mm/vmm.c:348-382 | teardown removes one view and keeps the others |
| CowMachine.StepRefines | kernel/src/mm/vmm.c:159-382 | every kernel step keeps the invariant and is one step of the eager machine; a fork copies the whole space if and only if there are frames for the tables up to its last page |
| CowMachine.RunRefines | kernel/src/mm/vmm.c:159-382 | over every run each step is one of the eager machine, and if each fork had those frames the views are those of copying every space at once |
| CowMachine.RunSafe | kernel/src/mm/vmm.c:159-382 | in every state of every run from boot: writable entries are alone on their frame, counts equal the number of entries, no reachable frame or table is free |
| CowMachine.StateIsSafe | kernel/src/mm/pmm.c:211-233 | what the invariant says about any two user pages |
| CowMachine.BootInv | kernel/src/mm/vmm.c:78-96 | a machine without address spaces satisfies the invariant |
| Vmas.FindVma | kernel/src/sched/vma.c:30-42 | an area containing the address, none only if no area does |
| Vmas.FoundFirst | kernel/src/sched/vma.c:30-42 | no area in front of the one found contains the address |
| HeapProofs.KmallocOk | kernel/src/mm/heap.c:83-144 | kmalloc keeps the heap consistent in every case; blocks in use stay, a non-null result is 24 bytes into a new block of at least the aligned size and less than 56 bytes more |
| HeapProofs.FreeOk | kernel/src/mm/heap.c:146-168 | kfree keeps the heap consistent, removes exactly the freed block from those in use, and leaves no two free neighbours |
| HeapProofs.MallocFreeRestores | kernel/src/mm/heap.c:94-165 | from a list without free neighbours, kmalloc without growth and kfree of the result give back the very same heap |
| HeapProofs.RetryFits | kernel/src/mm/heap.c:115-143 | the retry after growth succeeds if and only if the page count did not wrap |
| HeapProofs.KmallocTwoLevels | kernel/src/mm/heap.c:142-143 | without wrap-around kmalloc calls itself at most once |
| HeapProofs.CoalesceNoPair | kernel/src/mm/heap.c:154-165 | the pass leaves no two free neighbours in the list |
| HeapProofs.CoalesceLive | kernel/src/mm/heap.c:154-165 | the pass changes no block in use |
| HeapProofs.CoalesceSum | kernel/src/mm/heap.c:154-165 | the pass keeps the sum of all blocks with their headers |
| HeapProofs.AlignCovers | kernel/src/mm/heap.c:86-87 | the aligned size covers the request if and only if aligning did not wrap, and is less than 16 bytes larger |
| HeapProofs.TakeIs | kernel/src/mm/heap.c:95-110 | the block is split exactly when 56 bytes or more are left over; the rest is a free block behind its own header, and no other block changes |
| HeapProofs.TakeFree | kernel/src/mm/heap.c:95-110 | taking a block uses up its header and size and at most 55 bytes more of the free bytes |
| HeapProofs.KmallocUses | kernel/src/mm/heap.c:83-113 | kmalloc(n) without growth takes between 24 and 79 bytes more than the aligned size from the free blocks |
| HeapProofs.PagesLeast | kernel/src/mm/heap.c:115-125 | kmalloc grows by four pages, or by the fewest that hold a header and the size |
| HeapRange.TiledIsTotal | kernel/src/mm/heap.c:42-74 | the blocks tile the range exactly when the range is as long as heap_total_size |
| HeapRange.GrowAffords | kernel/src/mm/heap.c:42-52 | heap_grow succeeds exactly when the frames cover all pages before the last with their tables and one is left for the last |
| HeapRange.KmallocSucceeds | kernel/src/mm/heap.c:83-144 | kmalloc returns a pointer if and only if the size is not 0 and a free block is large enough or the frames cover the growth |
| HeapRange.KmallocTiled | kernel/src/mm/heap.c:83-144 | kmalloc keeps the blocks tiling the range if and only if no growth inside it ran out of frames after its first page |
| HeapRange.KmallocGap | kernel/src/mm/heap.c:42-144 | the bytes lost between the blocks grow exactly by such failures |
| HeapRange.SkipsIs | kernel/src/mm/heap.c:42-52 | heap_grow moves its end over an unmapped page exactly when the frames run out between a page and its tables |
| HeapRange.GrowMapped | kernel/src/mm/heap.c:42-52 | heap_grow keeps the whole range mapped if and only if it skips no page |
| HeapRange.KmallocMapped | kernel/src/mm/heap.c:83-144 | kmalloc keeps the whole range mapped if and only if no growth inside it skips a page |
| HeapRuns.RunSafe | kernel/src/mm/heap.c:42-168 | in every state of every run blocks in use are disjoint, between HEAP_START and heap_virt_end and 8-aligned, and all sizes add up to heap_total_size |
| HeapRuns.BlockKept | kernel/src/mm/heap.c:83-168 | a block nobody frees keeps address and size through every run |
| HeapRuns.BytesKept | kernel/src/mm/heap.c:83-168 | a byte of a block keeps its value through every run until its owner writes it or the block is freed |
| HeapRuns.FreshPointer | kernel/src/mm/heap.c:83-144 | a pointer from kmalloc equals no pointer held at the time, and its block has at least the aligned size and less than 56 bytes more |
| HeapRuns.RunTiled | kernel/src/mm/heap.c:42-168 | in every state of every run the blocks tile the range if and only if no earlier growth failed half way |
| HeapRuns.RunMapped | kernel/src/mm/heap.c:42-168 | in every state of every run the range is mapped if and only if no earlier growth skipped a page |
| HeapRuns.GapExample | kernel/src/mm/heap.c:42-144 | a kmalloc that fails after one page and leaves a gap behind the blocks |
| HeapRuns.LostPageExample | kernel/src/mm/heap.c:42-52 | from the heap of heap_init(64) with 449 frames left, a kmalloc of 448 pages returns a pointer and leaves the last page of the range unmapped |
| HeapRuns.Execute | kernel/src/mm/heap.c:83-168 | any list of legal calls, carried out on the linked headers in memory, is such a run |
| Memory.LoadStore | kernel/src/mm/heap.c:19-23 | a number stored in little-endian bytes is loaded again |
| KernelHeap.Heap.Init | kernel/src/mm/heap.c:56-74 | one free block over the whole range, which is where the runs start; success exactly when the growth succeeds, and all pages mapped exactly when it skips none |
| KernelHeap.Heap.Grow | kernel/src/mm/heap.c:42-52 | all pages or none counted as success; a part-failed growth leaves the range longer, and a page without tables is passed over |
| KernelHeap.Heap.Search | kernel/src/mm/heap.c:91-113 | the first block of the list that fits, null if none does |
| KernelHeap.Heap.TakeBlock | kernel/src/mm/heap.c:95-110 | the block is split exactly when 56 bytes or more are left over, else taken whole, and no byte of a block in use changes |
| KernelHeap.Heap.Append | kernel/src/mm/heap.c:133-138 | the new block becomes the last of the list, and no byte of a block in use changes |
| KernelHeap.Heap.Kmalloc | kernel/src/mm/heap.c:83-144 | the linked headers do what the block list does; a pointer is 24 bytes into a new block in use of at least the aligned size and less than 56 bytes more; no byte of a block in use changes |
| KernelHeap.Heap.GrowAndRetry | kernel/src/mm/heap.c:126-143 | the grown region is one free block, then kmalloc again |
| KernelHeap.Heap.Kfree | kernel/src/mm/heap.c:146-168 | the linked headers do what the block list does, and no byte of a block that stays in use changes |
| KernelHeap.Heap.CoalesceList | kernel/src/mm/heap.c:154-165 | merging in place is the coalesced list |
| KernelHeap.Heap.MergeNext | kernel/src/mm/heap.c:157-162 | one merge takes the next block out of the list and keeps order and blocks in use |
| KernelHeap.Heap.Stats | kernel/src/mm/heap.c:196-217 | total, used and free bytes add up, and the total is heap_total_size |
| Tasks.Kernel.constructor | kernel/src/sched/scheduler.c:273-292 | empty queues, the idle process and its thread outside the queues |
| Tasks.Kernel.Enqueue | kernel/src/sched/scheduler.c:54-69 | the thread becomes the last of the queue with the number of its priority, or of queue 4 for a priority above 7; it is READY, and head, tail and links spell out the queues |
| Tasks.Kernel.Dequeue | kernel/src/sched/scheduler.c:72-96 | the thread leaves the queue of its priority if it was in it; order and links of the rest stay |
| Tasks.Kernel.PickNext | kernel/src/sched/scheduler.c:101-124 | the head of the highest queue that is not empty leaves it; the scan for sleepers never finds one |
| Tasks.Kernel.Schedule | kernel/src/sched/scheduler.c:131-207 | the first thread of the highest queue runs, a RUNNING old one is queued, the invariant holds, and the next == old branch is never taken |
| Tasks.Kernel.Tick | kernel/src/sched/scheduler.c:232-239 | the tenth tick since the last switch sets the counter back to 0 and is one schedule(), the others only count |
| Tasks.Kernel.Block | kernel/src/sched/scheduler.c:244-249 | the current thread is BLOCKED or SLEEPING in no queue and another one runs |
| Tasks.Kernel.Wake | kernel/src/sched/scheduler.c:254-260 | only a blocked or sleeping thread is queued |
| Tasks.Kernel.Exit | kernel/src/sched/process.c:185-207 | the process is a zombie with the code, its threads are DEAD and in no queue, and another thread runs if it was current |
| Tasks.Kernel.KillThreads | kernel/src/sched/process.c:191-197 | every thread of the list leaves its queue and is DEAD |
| Tasks.Kernel.CreateProcess | kernel/src/sched/process.c:81-121 | a new process at the head of the table with the next value of the 32-bit counter; a pid is used up when only the page is missing |
| Tasks.Kernel.StartThread | kernel/src/sched/thread.c:33-107 | a new thread of the process, queued at its priority |
| Tasks.Kernel.Waitpid | kernel/src/sched/process.c:229-249 | the first process of the table that is a zombie, has the parent and, unless the target is -1, the pid asked for, is destroyed, with its pid and status returned; without one nothing changes, and the result is 0 exactly with some child asked for, else -1 |
| Tasks.Kernel.Reap | kernel/src/sched/process.c:229-249 | the loop over the linked table finds that process |
| Tasks.Kernel.DestroyProcess | kernel/src/sched/process.c:133-181 | threads, table entry and control block of a zombie are gone and the invariant holds |
| Tasks.Kernel.Unlink | kernel/src/sched/process.c:167-177 | exactly one entry leaves the linked table |
| SchedSpec.SchedDefined | kernel/src/sched/scheduler.c:101-154 | schedule() only follows pointers to threads, picks a READY one, and never the current one |
| SchedProofs.ScheduleOk | kernel/src/sched/scheduler.c:131-165 | schedule() establishes the invariant whatever the current thread became |
| SchedProofs.BlockReady | kernel/src/sched/scheduler.c:244-249 | a blocked current thread is in no queue and schedule() can go on |
| SchedProofs.WakeOk | kernel/src/sched/scheduler.c:254-260 | waking keeps the invariant |
| SchedProofs.ExitReady | kernel/src/sched/process.c:185-207 | ending a process leaves a state schedule() can work on, complete when it was another process |
| SchedProofs.DestroyOk | kernel/src/sched/process.c:133-181 | a destroyed zombie has no thread in a queue or on the CPU, and nothing left refers to its threads |
| SchedProofs.WaitOk | kernel/src/sched/process.c:229-249 | the control block destroyed was that of a zombie child, and its pid and status are returned; otherwise nothing changes and no child is a zombie |
| SchedMachine.RunSafe | kernel/src/sched/scheduler.c:54-260 | in every run: queues hold READY threads of their level once each, no READY thread but idle is outside, blocked, sleeping, dead and running threads are in none, and the current thread exists in a live process |
| SchedMachine.BoundedWaiting | kernel/src/sched/scheduler.c:101-160 | the k-th thread of a queue with nothing above it ready or running is chosen within k + 1 calls of schedule() |
| SchedFacts.QueueOfPriority | kernel/src/sched/scheduler.c:54-69 | in every state of every run a queued thread of priority below 8 is in the queue of that number, any other in queue 4, and every READY thread but idle is queued |
| SchedFacts.ScheduleDoes | kernel/src/sched/scheduler.c:101-165 | schedule() takes the first thread of the highest queue that is not empty, idle with none, and puts a RUNNING old thread at the end of the queue of its priority; no other queue changes |
| SchedFacts.HighestFirst | kernel/src/sched/scheduler.c:101-207 | over every run from boot, whatever entry point switched: no READY thread has a higher priority, below 8 or else 4, than the thread that gets the CPU |
| SchedFacts.BlockDoes | kernel/src/sched/scheduler.c:244-249 | the current thread gets the state asked for and is in no queue, then schedule() goes on |
| SchedFacts.WakeDoes | kernel/src/sched/scheduler.c:254-260 | a blocked or sleeping thread becomes READY and the last of the queue of its priority; any other is left alone |
| SchedFacts.KillQueues | kernel/src/sched/process.c:191-197 | the queues lose exactly the threads of the process and keep their order |
| SchedFacts.ExitDoes | kernel/src/sched/process.c:185-207 | the process is a zombie with the code, its threads are DEAD, nothing else changes before schedule() goes on |
| SchedFacts.CreateDoes | kernel/src/sched/process.c:81-121 | the new process is first in the table, with the parent given, no thread and the next pid |
| SchedFacts.SpawnDoes | kernel/src/sched/thread.c:33-107 | the new thread is READY, of that process and priority, and last in the queue of the priority |
| SchedFacts.WaitDoes | kernel/src/sched/process.c:229-249 | which process waitpid reaps, what it returns and what goes away, said of pid, parent and zombie flag alone |
| SchedFacts.WaitResult | kernel/src/sched/process.c:229-249 | something is reaped if and only if a zombie child asked for exists; the result is 0, or -1, exactly as the children say, but for pids that have gone round the 32-bit counter to 0 or -1, and positive in runs with at most 2^31 creations |
| SchedMachine.ReapedOnce | kernel/src/sched/process.c:229-249 | the control block that waitpid destroyed is never in the table again and never destroyed again, and its threads were dead and off the CPU |
| SchedMachine.PidReapedOnce | kernel/src/sched/process.c:75-121 | in a run from boot with fewer than 2^32 calls of process_create a pid that waitpid returned is never the pid of a process again |
| SchedMachine.PidReused | kernel/src/sched/process.c:75-121 | once the 32-bit counter has gone round, a new process gets the pid of a reaped one |
| SchedSpec.PidSame | kernel/src/sched/process.c:75-77 | two processes have the same pid exactly when their creations are a multiple of 2^32 apart |
| SchedMachine.StatusIsExitCode | kernel/src/sched/process.c:237-240 | the status is (code & 0xFF) << 8 of the last exit |
| SchedMachine.GoneForever | kernel/src/sched/process.c:75-121 | a control block that left the table does not come back |
| Chains.ChainRemove | kernel/src/sched/scheduler.c:80-95 | unlinking one node of a chain leaves the chain of the rest |
| Chains.ChainAppend | kernel/src/sched/scheduler.c:59-67 | linking behind the tail makes the longer chain |
| Ext4.PhysicalBlock | kernel/src/fs/ext4.c:93-139 | the walk gives what the nodes on disk say, 0 on bad magic, read failure, missing entry or an ext2 block beyond the twelfth |
| Ext4.WalkIsMapping | kernel/src/fs/ext4.c:105-139 | on a well-formed tree the walk ends within its depth and equals the lookup in the flat extent list |
| Ext4.WalkFinds | kernel/src/fs/ext4.c:105-139 | the extent covering the block decides the result; an uncovered block is 0 |
| Ext4.FlatAscends | kernel/src/fs/ext4.c:126-134 | the flat list of a well-formed tree is sorted and free of overlaps |
| Ext4.Read | kernel/src/fs/ext4.c:143-176 | the slice of the file clipped to its size, or the part before the first block the disk fails on |
| Ext4.LoadBlock | kernel/src/fs/ext4.c:160-165 | a block of the file: its data, or zeros for a hole |
| Ext4.ContentIsFlat | kernel/src/fs/ext4.c:156-172 | every block read is the one the flat extent list names, or zeros |
| Ext4.ReadIsSlice | kernel/src/fs/ext4.c:143-176 | what a read delivers is the slice of the bytes the flat extent list describes |
| Ext4Image.ReadsHeader | kernel/src/fs/ext4.h:114-120 | magic, entry count and depth of a node header written byte by byte are read back |
| Ext4Image.ReadsExtent | kernel/src/fs/ext4.h:129-134 | an extent written byte by byte is read back, with its 48-bit block |
| Ext4Image.ReadsIndex | kernel/src/fs/ext4.h:122-127 | key and 48-bit child block of an index entry are read back |
| Ext4Image.ReadsBlock | kernel/src/fs/ext4.c:40-44 | block n of the volume is where the image has it |
| Ext4Image.WrittenIsStored | kernel/src/fs/ext4.c:105-134 | any tree whose nodes were written to an image is the tree the walk sees |
| Ext4Image.ReadsBack | kernel/src/fs/ext4.c:93-176 | a file written to an image as an extent tree is read back: the whole slice of its data, zeros in holes |
| Ext4Image.ReadsDirect | kernel/src/fs/ext4.c:95-103 | without the extents flag the first twelve blocks are the words of the inode, and there are no others |
| FileBlocks.FilledIsSlice | kernel/src/fs/ext4.c:154-174 | a buffer filled block by block holds a slice of the blocks one after the other |
| FileBlocks.FillStep | kernel/src/fs/ext4.c:167-171 | copying out of the block of the next byte continues the slice |
| Ntfs.DecodeUnsigned | kernel/src/fs/ntfs.c:418-421 | the length field is the unsigned little-endian number |
| Ntfs.DecodeSigned | kernel/src/fs/ntfs.c:423-435 | collecting bytes and filling with 0xFF is the two's complement number |
| Ntfs.ExpandAt | kernel/src/fs/ntfs.c:438-443 | cluster i of run k is cluster Total + i of the file |
| Ntfs.ReadIsSlice | kernel/src/fs/ntfs.c:397-497 | what a read of the runs delivers is the slice of their clusters one after the other |
| Ntfs.ReadRun | kernel/src/fs/ntfs.c:441-491 | the part of the request one run holds is copied cluster by cluster, or up to a disk failure |
| Ntfs.ReadRuns | kernel/src/fs/ntfs.c:397-497 | the slice of the concatenated runs, sparse runs as zeros, clipped to their length, or the part before the first cluster the disk fails on |
| NtfsEncoding.DecodeEncode | kernel/src/fs/ntfs.c:411-439 | decoding a run list encoded in any sufficient field widths from one to eight bytes gives back the runs |
| NtfsEncoding.DecodeFrom | kernel/src/fs/ntfs.c:411-439 | the same for a run list with other bytes around it |
| NtfsRecord.FixIs | kernel/src/fs/ntfs.c:74-96 | the fixup succeeds if and only if every sector ends in the check word, and restores exactly those words |
| NtfsRecord.FixUndoes | kernel/src/fs/ntfs.c:74-96 | the fixup gives back a protected record |
| NtfsRecord.FixInPlace | kernel/src/fs/ntfs.c:79-96 | the loop over the buffer is the fixup |
| NtfsRecord.ReadRecord | kernel/src/fs/ntfs.c:58-99 | a record with FILE magic and good check words, fixed up, or failure |
| NtfsRecord.FindIsFirst | kernel/src/fs/ntfs.c:106-129 | what is found is the first attribute of its type, nothing only if there is none |
| NtfsRecord.FindAttr | kernel/src/fs/ntfs.c:106-129 | the scan stops at the end marker, a zero length, the end of the record or the attribute |
| NtfsRecord.ReadData | kernel/src/fs/ntfs.c:382-498 | resident data is copied from the record, other data through the runs |
| NtfsRecord.Read | kernel/src/fs/ntfs.c:349-502 | the slice of the data attribute clipped to file_size; nothing without a record, an attribute or memory |
| NtfsImage.ReadsHead | kernel/src/fs/ntfs.h:75-83 | type, length and residence of an attribute header are read back |
| NtfsImage.ReadsResident | kernel/src/fs/ntfs.h:86-91 | length and place of a resident value are read back |
| NtfsImage.ReadsNonResident | kernel/src/fs/ntfs.h:94-104 | the place of the run list is read back |
| NtfsImage.FindsFirst | kernel/src/fs/ntfs.c:106-129 | of attributes written one after the other the first of the type is found where it was put |
| NtfsImage.FindsNone | kernel/src/fs/ntfs.c:106-129 | nothing is found that was not put there |
| NtfsImage.ReadsRecord | kernel/src/fs/ntfs.c:58-99 | a record written with its update sequence to its place in the MFT is loaded |
| NtfsImage.ContentIsData | kernel/src/fs/ntfs.c:441-491 | the clusters of the runs hold the blocks of the data, sparse ones zeros |
| NtfsImage.RunFileLoads | kernel/src/fs/ntfs.c:349-439 | from the image: the record, its data attribute and the runs that were encoded |
| NtfsImage.ReadsBack | kernel/src/fs/ntfs.c:349-502 | a file written to an image as a record, runs and clusters is read back: the whole slice of its data |
| NtfsImage.ValueReadsBack | kernel/src/fs/ntfs.c:349-396 | the same for a file inside its record |
| Fat32.Read | kernel/src/fs/fat32.c:162-204 | the slice of the chained clusters clipped to file_size, or the part before the chain ends or the disk fails |
| Fat32.SkipTo | kernel/src/fs/fat32.c:173-179 | the cluster of the offset, none if the chain is shorter |
| Fat32.ContentOfChain | kernel/src/fs/fat32.c:40-50 | the blocks of a file are the clusters of its chain, in order and no more |
| Fat32.ReadIsSlice | kernel/src/fs/fat32.c:162-204 | what a read delivers is the slice of the clusters of the chain one after the other |
| Fat32Image.ReadsWord | kernel/src/fs/fat32.c:40-50 | the next cluster is the low 28 bits of the word the table has for the cluster |
| Fat32Image.ReadsCluster | kernel/src/fs/fat32.c:79-80 | cluster c starts (c - 2) clusters behind the first data sector |
| Fat32Image.LinkedIsChain | kernel/src/fs/fat32.c:40-50 | words written for a list of clusters make it the chain |
| Fat32Image.ReadsBack | kernel/src/fs/fat32.c:162-204 | a file written to an image as a chain of clusters is read back: the whole slice of its data |
| Fat32Image.ReadsEntry | kernel/src/fs/fat32.h:48-61 | name, attributes, 32-bit cluster and size of a directory entry are read back |
| Fat32Image.DirIsShown | kernel/src/fs/fat32.c:67-160 | a directory written to an image is listed entry by entry over all its clusters, without deleted entries, long-name parts and labels |
| Fat32Image.ReadsName | kernel/src/fs/fat32.c:53-65 | a name and an extension padded with spaces come back with a dot between them exactly if there is an extension |
| Fat32.ParseName | kernel/src/fs/fat32.c:53-65 | the 8.3 name without padding, with a dot only before an extension |
| Fat32.ReadDir | kernel/src/fs/fat32.c:67-108 | entry number index of the directory, none behind the last |
| Fat32.NthInCluster | kernel/src/fs/fat32.c:85-102 | counting over one cluster continues the list of entries |
| Fat32.FindDir | kernel/src/fs/fat32.c:110-160 | the first entry with the name, none if there is none |
| Fat32.FindInCluster | kernel/src/fs/fat32.c:125-154 | the first match in one cluster |
| Fat32.FindAgreesWithList | kernel/src/fs/fat32.c:67-160 | a name is found if and only if listing shows it, and what is found is what the least such index shows |
| XhciRings.PushOk | kernel/src/drivers/usb/xhci.c:116-145 | a push with less than 62 commands outstanding keeps the ring consistent across the Link TRB |
| XhciRings.FetchOk | kernel/src/drivers/usb/xhci.c:116-145 | the controller takes exactly the oldest outstanding command, and nothing when there is none; the address in the Link TRB leads it to the first slot |
| XhciRings.RunInOrder | kernel/src/drivers/usb/xhci.c:82-145 | in every interleaving the commands taken are the commands pushed, in order, each once |
| XhciRings.TwoLooks | kernel/src/drivers/usb/xhci.c:129-140 | an outstanding command is taken after at most the Link TRB |
| XhciRings.TakesAt63 | kernel/src/drivers/usb/xhci.c:129-140 | with a 63rd command outstanding the controller takes a command at its next look exactly if it is not at the Link TRB, and then the rings are in step again |
| XhciRings.StallsAt63 | kernel/src/drivers/usb/xhci.c:129-140 | after a 63rd outstanding command, pushed while the controller is at the Link TRB, the controller takes nothing until 63 more pushes rewrite that TRB; then it passes it with none of the 126 commands taken |
| XhciRings.StallReached | kernel/src/drivers/usb/xhci.c:116-145 | a run from boot reaches that state |
| XhciEvents.ProduceOk | kernel/src/drivers/usb/xhci.c:97-109 | an event written into a ring that is not full keeps the ring consistent |
| XhciEvents.WaitingEvent | kernel/src/drivers/usb/xhci.c:206-209 | the cycle bit matches exactly when an event waits, and the slot is the oldest one |
| XhciEvents.FullIs | kernel/src/drivers/usb/xhci.c:176-192 | the controller stops before the slot in the register exactly with 63 events not acknowledged |
| XhciEvents.EventsInOrder | kernel/src/drivers/usb/xhci.c:147-257 | in every interleaving of event writes, polls and acknowledgements the events consumed are the first ones written, in order, each once |
| XhciEvents.PollTakes | kernel/src/drivers/usb/xhci.c:206-249 | a poll takes the oldest event exactly when one is waiting |
| XhciEvents.AckMakesRoom | kernel/src/drivers/usb/xhci.c:252-256 | with all events consumed and acknowledged the controller can write |
| Xhci.HostController.constructor | kernel/src/drivers/usb/xhci.c:82-112 | both rings as the two machines start |
| Xhci.HostController.PushCommand | kernel/src/drivers/usb/xhci.c:116-145 | one push step of the command machine |
| Xhci.HostController.ControllerFetch | kernel/src/drivers/usb/xhci.c:116-145 | the other party: one look step of the command machine |
| Xhci.HostController.ControllerWrite | kernel/src/drivers/usb/xhci.c:97-109 | the other party: one write step of the event machine, refused exactly with 63 events not acknowledged |
| Xhci.HostController.Advance | kernel/src/drivers/usb/xhci.c:172-176 | one poll step that takes an event, with the wrap of index and cycle |
| Xhci.HostController.Acknowledge | kernel/src/drivers/usb/xhci.c:178-180 | one acknowledgement step: the register points at the dequeue index |
| Xhci.HostController.ProcessEvents | kernel/src/drivers/usb/xhci.c:201-257 | while the controller writes between the looks: a run of the event machine that ends with no event waiting and what was seen acknowledged |
| Xhci.HostController.WaitCommand | kernel/src/drivers/usb/xhci.c:147-197 | while the controller writes between the looks: a run of the event machine that stops at the first completion of the command; without one it has passed every event there was at the call, or used every look on an event |
| ElfLoader.LoadedExactly | kernel/src/syscall/elf_loader.c:89-127 | the loader returns 0 with every file page mapped if and only if the free frames cover the pages and their missing tables |
| ElfLoader.EnoughFrames | kernel/src/syscall/elf_loader.c:96-103 | then exactly those frames are gone and later pages have replaced earlier ones |
| ElfLoader.TooFewFrames | kernel/src/syscall/elf_loader.c:96-103 | otherwise it fails, or returns 0 with exactly its last page unmapped and no frame left; which of the two is decided by the frames |
| ElfLoader.LostPage | kernel/src/syscall/elf_loader.c:96-103 | in that second case every later access to the lost page reads 0 once frames are free, whatever the file holds |
| ElfLoader.LostPageExample | kernel/src/syscall/elf_loader.c:96-127 | one file page, no tables and one frame: success, nothing mapped, and a byte 7 of the file reads as 0 |
| ElfLoader.LoadedByte | kernel/src/syscall/elf_loader.c:66-123 | after loading page-disjoint segments with enough frames, and any faults, an access sees the file byte below p_filesz and 0 above, unless there is no frame for a page of zeros |
| ElfLoader.LastSegmentWins | kernel/src/syscall/elf_loader.c:96-105 | for any segments, an access sees the byte of the last segment whose file pages hold it, else 0 |
| ElfLoader.LoadedRights | kernel/src/syscall/elf_loader.c:77-105 | whatever the frames and the faults: a page outside what was there before is mapped only if a segment touches it, and is writable exactly as such a segment is |
| ElfLoader.AreasAre | kernel/src/syscall/elf_loader.c:78-82 | the areas are the old ones and [p_vaddr, p_vaddr + p_memsz) with the rights of each loaded segment |
| ElfLoader.HighestIs | kernel/src/syscall/elf_loader.c:84-87 | the heap starts at the highest segment end, rounded up to a page |
| ElfImage.ReadsPhdr | kernel/src/syscall/elf_loader.c:35-44 | a program header written byte by byte is the segment, writable with flag 2 |
| ElfImage.ReadsEhdr | kernel/src/syscall/elf_loader.c:13-33 | an ELF header is accepted, with its entry point, count and places of program headers |
| ElfImage.ReadsFile | kernel/src/syscall/elf_loader.c:51-70 | of a file that was laid out so, the loader takes the entry point and exactly the segments written |
| ElfLoader.FaultKeeps | kernel/src/mm/vmm.c:324-331 | a demand-zero fault anywhere keeps every page right |
| ElfLoader.BehindFile | kernel/src/syscall/elf_loader.c:89-94 | pages left to the fault handler have no file byte |
| ElfLoader.FillPage | kernel/src/syscall/elf_loader.c:105-121 | a page holds the file bytes that fall into it and zeros |
| ElfLoader.Process.LoadPages | kernel/src/syscall/elf_loader.c:93-122 | the page loop of a segment maps what the frames allow, as LoadedExactly and TooFewFrames describe it |
| ElfLoader.Process.Load | kernel/src/syscall/elf_loader.c:51-127 | bad headers are refused and change nothing; otherwise result, pages and frames are those of mapping the file pages of all program headers in order; on success areas, entry point and heap bounds are theirs too |
| Tokenizer.RunOk | kernel/src/shell/shell_core.c:107-189 | at most 2 * strlen bytes are written, terminator included, at most 16 arguments, in ascending order, each behind the terminator of the one before |
| Tokenizer.StepOk | kernel/src/shell/shell_core.c:125-185 | a round of the loop pays at most two bytes for each character it reads |
| Tokenizer.Lexer.Round | kernel/src/shell/shell_core.c:125-185 | one round of the loop, inside the buffer, is one step of the scan that CommandLines is about |
| Tokenizer.Tokenize | kernel/src/shell/shell_core.c:107-189 | the buffer holds what the scan wrote, then zeros, and the arguments are those of the scan |
| Quoting.RoundTrip | kernel/src/shell/shell_core.c:107-189 | words without single quote or NUL, quoted and joined by spaces, come back if and only if there are at most 15 of them, or 16 with an empty last one |
| Quoting.Arguments | kernel/src/shell/shell_core.c:107-189 | of any number of such words the first 15 come back, and a 16th argument is empty |
| CommandLines.RunPiece | kernel/src/shell/shell_core.c:125-185 | a plain or escaped character, or a single- or double-quoted piece, adds exactly what it stands for to the token |
| CommandLines.LineArguments | kernel/src/shell/shell_core.c:107-189 | of every well-formed line the first 15 items come back, and a 16th up to where its token opens |
| CommandLines.ComesBack | kernel/src/shell/shell_core.c:107-189 | all items come back if and only if there are at most 15, or 16 of which the last has nothing left to read once open |
| CommandLines.WordsComeBack | kernel/src/shell/shell_core.c:107-189 | up to 15 words with one or more spaces between them come back, each plain, with every special character escaped, in single quotes, or in double quotes with double quote and backslash escaped |
| CommandLines.Redirections | kernel/src/shell/shell_core.c:157-178 | two words with > or >> between them, spaces around it or none, are three arguments |
| CommandLines.PlainRedirections | kernel/src/shell/shell_core.c:157-178 | a>b and a>>b on plain words are a, > or >>, and b |

## Left out

- Inline assembly, CR3 and TLB handling, TSS, `switch_context`: a context switch is the change of the current thread.
- Interleaving inside an entry point, interrupts during it and SMP: every entry point is atomic.
- Huge pages and kernel-half mappings; page-table entries are records of their flags and frame, not 64-bit patterns.
- Vmm.MemoryManager.CowClone: requires every count of the parent below 65535, where the 16-bit counter is exact (CloneSteps.RefIsExact); beyond that the source wraps.
- KernelHeap.Heap.Init: requires one page or more and a range that ends below 2^64.
- HeapProofs.KmallocOk: requires, like KernelHeap.Heap.Kmalloc, that no growth passes 2^64.
- KernelHeap.Heap.Kmalloc: requires that no growth inside it moves heap_virt_end past 2^64, where the source wraps; the number of free frames is not bounded. An access to a page of the range that is not mapped, which RunMapped describes, is a fault in the kernel and not modelled.
- KernelHeap.Heap.Kfree: requires a pointer to a block of the list, which the source cannot check.
- `kmalloc_aligned` and `kcalloc`: thin wrappers.
- Pmm.FrameAllocator.AllocPages: requires that index plus count stays below 2^64.
- Pmm.FrameAllocator.PageUnref: requires the last reference to be on a frame of the bitmap, since the source looks its bit up without a bound.
- Tasks.Kernel.Schedule: does not model the address-space switch and the kernel stack pointers.
- Tasks.Kernel.StartThread: a thread is named by the number of its creation; the wrap-around of the 32-bit tid, which nothing compares, is not modelled.
- Tasks.Kernel.DestroyProcess: frees threads, table entry and control block; the address space is torn down in Vmm, the VMA list and the descriptor table are not part of this model.
- Timed wake-up of sleepers: the code has none (sleepers are in no queue).
- `sys_fork` beyond the address space: it copies no VMAs and starts no thread.
- Ext4.PhysicalBlock: requires that the walk ends and stays inside each node, since the source bounds neither; WalkIsMapping shows both for well-formed trees. Uninitialised extents and a failed allocation of the node buffer are not modelled.
- Ext4.Read: requires that offset plus size stays below 2^64, and blocks of less than 256 sectors, the most disk_read_sectors can be asked for.
- Ext4 directories, inode lookup and mounting; NTFS directories and mounting; FAT32 mounting.
- Ntfs.ReadRuns: requires run fields of at most eight bytes inside the record and less than 2^64 bytes of runs; wider fields shift out of range in C.
- NTFS sectors have 512 bytes; the source accepts up to 4096.
- NtfsRecord.FixIs: requires the update sequence array in front of byte 510, where it does not overlap the first word it restores.
- NtfsRecord.ReadRecord: requires a record size that is a multiple of 512 and the update sequence array inside the record, which the source does not check.
- NtfsRecord.ReadData: requires the attribute and its runs inside the record.
- NtfsRecord.Read: requires records that meet the conditions above, and that offset plus size stays below 2^64.
- NtfsRecord.FindAttr: requires attribute lengths that do not wrap the 32-bit offset, without which the scan may not end.
- Fat32.Read: requires that offset plus size stays below 2^64.
- Fat32.FindDir: requires a directory scan that ends, like ReadDir.
- Fat32.ReadDir: requires a directory scan that ends; a cyclic chain without an end marker loops in the source. A failed allocation of the cluster buffer is not modelled.
- Xhci.HostController.PushCommand: requires at most 61 commands outstanding, which the source does not check; StallsAt63 shows what happens beyond. A poll is one step: an interrupt between reading an event and moving the index is not modelled.
- The EP0 transfer ring, doorbells and other registers of the controller; port events are consumed but not acted on.
- ElfLoader.Process.Load: works on the flat address space that Vmm implements, where addresses beyond 2^48 do not alias; requires program headers and segment bytes inside the file; a failed allocation of a VMA is not modelled.
- Command dispatch, line editing, path normalization and the shell commands.
- Devices, console, ramfs, devfs, libc: only easier versions of properties above.
