# ClassOS kernel model

A model of the core of ClassOS, a 32-bit x86 teaching kernel, with proofs in Dafny 4.11.

Heap, paging and process memory are one stack. A byte table encodes the live runs of a first-fit
allocator (`HeapTable`, `HeapTheory`, `BlockHeap`). Memory is 2^20 frames of 4096 bytes (`Memory`).
Page tables are words in those frames, and the tables themselves come from the heap (`Paging`,
`KernelState`, `KernelMachine`, `AddressSpace`, `Chunks`, `PagingRuns`); `Mmu` is the walk of the
processor through them. On this stand the allocations of processes and their isolation (`ProcessMemory`,
`OwnMemory`, `AllocationRoom`, `Processes`, `Isolation`, `Ownership`, `ImageOwnership`), the task structures in the heap and whole runs of the kernel
(`TaskLinks`, `KernelRuns`, `FailingRuns`, `TaskMachine`, `Termination`), the mapping of program images
(`ProgramImage`), loading (`ProcessLoading`) and the copy of a string out of a task (`TaskCopy`).
`UserAccess` tells the results on address spaces by that walk, and `Status` holds the status numbers.

The main theorems: the byte table refines the map of live runs over every run of calls; an address space
is built from 1026 distinct runs and gives exactly those back after any run of paging calls; and over every run of processes that come and go, ownership of frames holds after
every step if and only if every image that is mapped fits its process and every store through a link of
the task list fits. Ownership includes that every entry of each page directory is present, writable and
open to user code. While it holds, no byte is writable for two processes and no process can write to a page
table, by the walk of the processor. The source checks neither condition: a plain zero-initialised
segment that is longer than its file can break ownership, and so can the end of a process whose prev link
is stale.

The other parts: the disk stream and the FAT16 reader (`DiskStreams`, `Fat16`, `FatPositions`,
`FatExact`, `FatReader`); the way of a command line into the arguments of a process (`Tokens`, `Command`,
`Arguments`, `CommandRun`); the path parser
(`PathSyntax`, `PathParser`); the task list (`TaskList`); the keyboard ring (`KeyboardRing`);
decimal printing (`DecimalPrinter`); ELF load extents (`ElfExtents`); segment descriptors
(`SegmentDescriptors`).

Code that updates state is a class or a method on arrays, and each method is proved equal to a step
function on values; the theorems are about these functions. Where the code does less than its callers
may expect, the code is modelled as it is: a member shows an input on which it goes wrong, and another
gives the exact condition under which it is right.

- heap search: `HeapTable.TooLongRequestIsAnswered`, `HeapTable.FitsExactly`
- FAT reads: `Fat16.UnfittingMisreads`, `FatExact.RightOnEveryDisk`, `FatExact.RecordsCorrectExactlyWhenFitting`
- loading: `FailingRuns.BssReachesPageDirectory`, `Ownership.MapKeepsOwnershipExactlyWhenImageFits`, `ImageOwnership.LoadKeepsOwnershipExactlyWhenSegmentsEndInStretch`
- stale links: `FailingRuns.StaleLinkReachesPageDirectory`, `TaskLinks.StoreKeepsOwnershipExactly`, `KernelRuns.TerminateKeepsExactly`
- segment mapping: `ProgramImage.IncongruentSegment`, `ProgramImage.CongruenceIsNeeded`
- task removal: `TaskList.ReusedAddressBreaks`, `TaskList.SecondHeadWritesIntoFreedBlock`, `TaskList.Scheduler.RemoveThenSuccessor`, `TaskList.EveryRunStaysLinkedExactly`
- keyboard ring: `KeyboardRing.FullPushJumpsTheQueue`, `KeyboardRing.EmptyBackspaceHidesNext`, `KeyboardRing.StepIsQueueStepExactlyWithRoom`
- load extents: `ElfExtents.ZeroIsForgotten`, `ElfExtents.BaseIsLowestExactlyWhen`
- saved cursor: `Command.StaleCursorCutsNextLine`, `Command.OsParseCommand`
- descriptor encoder: `SegmentDescriptors.RefusedThoughExpressible`, `SegmentDescriptors.RoundTripExactlyWhenAccepted`

## Model

| member | source | states |
|---|---|---|
| HeapTable.AlignUpperIsLeastMultiple | src/memory/heap/heap.c:56-67 | Rounding gives the least multiple of 4096 that holds the size exactly for sizes up to 0xFFFFF000; above that the 32-bit addition wraps to 0. |
| HeapTable.RunBytes | src/memory/heap/heap.c:116-135 | The byte of each block of a run. |
| HeapTable.StartBlockFound | src/memory/heap/heap.c:74-109 | When n free blocks in a row exist, first fit answers the lowest start of such a run and the marking that follows stays inside the table. |
| HeapTable.StartBlockMissed | src/memory/heap/heap.c:103-108 | When they do not exist, the answer is -ENOMEM exactly when the last block is taken, and otherwise the start of the trailing free run, which is shorter than n. |
| HeapTable.FitsExactly | src/memory/heap/heap.c:74-109 | The exact condition, visible to a caller, under which marking after the search stays inside the table. |
| HeapTable.TooLongRequestIsAnswered | src/memory/heap/heap.c:103-108 | Concrete table on which a request that does not fit is answered with a block instead of an error. |
| HeapTable.RunsDisjoint | src/memory/heap/heap.c:116-135 | Two live runs never share a block; the FIRST bit of the byte table forces this. |
| HeapTable.FreeMeansUncovered | src/memory/heap/heap.c:69-72 | A block reads as free exactly when its byte is zero and no live run covers it. |
| HeapTable.ChainIsRun | src/memory/heap/heap.c:156-168 | The chain of HAS_NEXT bytes that free follows from any block of a live run ends exactly where the run ends. |
| HeapTable.TakeRefines | src/memory/heap/heap.c:116-135 | Marking a free run adds exactly that run to the live map and keeps the encoding. |
| HeapTable.FreeRefines | src/memory/heap/heap.c:156-168 | Freeing a live start clears exactly its own run, writes no other byte, and keeps the encoding. |
| HeapTable.TakeThenFree | src/memory/heap/heap.c:116-168 | Marking a free run and freeing it restores the table byte for byte. |
| HeapTable.TableDeterminesRuns | src/memory/heap/heap.c:116-168 | The byte table can be read back as a set of live runs in one way only. |
| HeapTheory.ApplyOk | src/memory/heap/heap.c:74-185 | Every legal malloc or free keeps the refinement between byte table and live map. |
| HeapTheory.EveryRunRefines | src/memory/heap/heap.c:74-185 | After every legal run of mallocs and frees the refinement holds, live runs are disjoint, and the number of taken bytes equals the sum of live lengths. |
| HeapTheory.EmptyHeapIsFresh | src/memory/heap/heap.c:29-54 | A run from a new heap that leaves nothing live leaves the table as heap_create made it. |
| HeapTheory.TakenIsSumOfLengths | src/memory/heap/heap.c:116-168 | Conservation from any cut that no run straddles: taken bytes beyond it add up to the lengths of the runs beyond it. |
| HeapTheory.GapsAreShort | src/memory/heap/heap.c:74-109 | If no n blocks in a row are free, every gap between runs wastes fewer than n blocks. |
| HeapTheory.FragmentationBound | src/memory/heap/heap.c:74-154 | With k live runs, a request for n blocks is served whenever more than (k+1)(n-1) blocks are free. |
| HeapTheory.FragmentationBoundIsTight | src/memory/heap/heap.c:74-154 | The bound cannot be lowered: for every k and n there is a heap with k live runs and exactly (k+1)(n-1) free blocks that cannot serve n. |
| BlockHeap.Heap.Create | src/memory/heap/heap.c:29-54 | heap_create succeeds exactly for block-aligned ends and a table of the matching size, and then clears the table. A misaligned range leaves the structure untouched; a wrong table size leaves it set up over an uncleared table. |
| BlockHeap.Heap.GetStartBlock | src/memory/heap/heap.c:74-109 | The scan with its counter and start variable computes the first-fit answer on any table, free run or not. |
| BlockHeap.Heap.MarkBlocksTaken | src/memory/heap/heap.c:116-135 | The loop writes the bytes of the run, 0xC1 first, 0x81 between, 0x01 last and 0x41 for a block alone, and nothing else. |
| BlockHeap.Heap.MarkBlocksFree | src/memory/heap/heap.c:156-168 | The loop clears the HAS_NEXT chain from the block on, up to its end or the end of the table. |
| BlockHeap.Heap.Malloc | src/memory/heap/heap.c:137-181 | heap_malloc: null exactly when the search refuses; otherwise the first fitting run becomes live and the heap invariant is kept. |
| BlockHeap.Heap.Free | src/memory/heap/heap.c:183-185 | heap_free of a live run: the run dies, its bytes are cleared, every other byte is unchanged. |
| BlockHeap.Heap.MallocThenFree | src/memory/heap/heap.c:175-185 | malloc and then free of the result: table and live map are as before. |
| Paging.IndexSplitIsBijection | src/memory/paging/paging.c:56-69 | The split of an aligned address into directory and table index is a bijection. |
| Paging.SetPteView | src/memory/paging/paging.c:145-165 | With pairwise distinct tables, one store changes exactly one entry of the flat view of 2^20 pages and touches one table frame. |
| Paging.ViewFrame | src/memory/paging/paging.c:167-176 | Memory outside a directory and its tables has no influence on what the address space translates. |
| Paging.MapPagesTranslates | src/memory/paging/paging.c:98-143 | After a range mapping every address in the range translates with its offset kept and the given flags; every other address translates as before. |
| Paging.OrIsPlus | src/memory/paging/paging.c:95 | On 32-bit words, OR of an aligned address and 12-bit flags is their sum and can be taken apart again. |
| KernelState.ZallocFacts | src/memory/heap/kheap.c:29-36 | kzalloc takes a run that was free, overlaps no live run, changes memory only inside the new run, and leaves each of its `size` bytes 0. |
| KernelState.ZallocThenRelease | src/memory/heap/kheap.c:29-40 | kfree right after kzalloc restores the heap table; memory outside the run is unchanged. |
| KernelState.MapMemView | src/memory/paging/paging.c:98-111 | n successive stores through the tables act on the flat view as one range mapping, keep tables distinct, and leave all other frames alone. |
| KernelState.MapToTranslates | src/memory/paging/paging.c:113-143 | After paging_map_to every address in the range translates to phys + offset with the flags, every other as before; a refused call changes no byte. |
| KernelMachine.Machine.Clear | src/memory/heap/kheap.c:29-36 | memset of a block through byte stores zeroes exactly its bytes. |
| KernelMachine.Machine.KZalloc | src/memory/heap/kheap.c:29-36 | kzalloc on the real heap table and memory is the specified step; the address is null exactly when the search refuses, else 0x1000000 + 4096 * block, and each of the `size` bytes behind it is 0. |
| KernelMachine.Machine.KFree | src/memory/heap/kheap.c:38-40 | kfree on the real table is the specified step. |
| KernelMachine.Machine.PagingSet | src/memory/paging/paging.c:145-165 | One word of one table is stored, or, for an unaligned address, an error and no change. |
| KernelMachine.Machine.PagingGet | src/memory/paging/paging.c:167-176 | The entry of the page; an unaligned address reads the entry of page 0, because the index error is ignored. |
| KernelMachine.Machine.PagingGetPhysicalAddress | src/memory/paging/paging.c:178-183 | The physical address is the translation of the flat view, at every offset in the page. |
| KernelMachine.Machine.PagingMap | src/memory/paging/paging.c:88-96 | Refuses exactly unaligned arguments, else stores address and flags. |
| KernelMachine.Machine.PagingMapRange | src/memory/paging/paging.c:98-111 | The loop over addresses equals the range store in page numbers; with an unaligned address it fails on its first round and changes nothing. |
| KernelMachine.Machine.PagingMapTo | src/memory/paging/paging.c:113-143 | Refuses exactly unaligned arguments or an inverted range, else performs the range store. |
| AddressSpace.MapKeepsSpace | src/memory/paging/paging.c:98-143 | A mapping on an address space changes its flat view as stated and never its set of frames. |
| AddressSpace.TakePage | src/memory/heap/kheap.c:29-36 | While a block is free, a kzalloc of at most a page adds one frame, distinct from all frames taken before. |
| AddressSpace.BuildStepBuilds | src/memory/paging/paging.c:11-20 | Each round of the construction keeps directory and tables pairwise distinct, the finished tables identity-mapped and the finished directory entries open as the flags say, and writable. |
| AddressSpace.New4gbBuilds | src/memory/paging/paging.c:7-25 | The result maps all 2^20 pages to themselves with the flags, on exactly 1026 distinct one-block runs that were free. The low 12 bits of each of the 1024 directory words are the flags, plus 2 if bit 1 of them is clear. |
| AddressSpace.Free4gbGives | src/memory/paging/paging.c:33-44 | paging_free_4gb releases exactly the runs of the address space. |
| AddressSpace.ReleaseUndoesBuild | src/memory/paging/paging.c:7-44 | Release of an address space whose set of frames is as it was built restores the heap table. |
| PagingRuns.SetKeepsSpace | src/memory/paging/paging.c:145-165 | A paging_set of any value changes one entry of the view and not the set of frames. |
| PagingRuns.EveryRunKeepsSpace | src/memory/paging/paging.c:88-165 | Every run of paging_set, paging_map, paging_map_range and paging_map_to, refused calls included, and of stores elsewhere, acts through the tables as the same run on the flat view, and never changes the frames of the address space. |
| PagingRuns.NewThenFree | src/memory/paging/paging.c:7-165 | paging_new_4gb, then any such run, then paging_free_4gb: the heap table is what it was before creation, and in between the view is that of the run from the identity map. |
| Mmu.WalkIsView | src/memory/paging/paging.c:145-165 | With uniform directory words the walk of the processor through directory and table, with the rights of both entries, is decided by the entry that the flat view has for the page. |
| PagingRuns.EveryRunIsWalked | src/memory/paging/paging.c:7-165 | After paging_new_4gb with any flags and every run of paging calls, for each address and each kind of access: the processor, walking from the first word of the chunk, faults or reaches the frame and offset exactly as entry and flags say. |
| PagingRuns.NewSpaceIsWalked | src/memory/paging/paging.c:7-25 | With the flags of task_init user code reads every address as itself and writes none; the kernel may write. |
| Chunks.FillTable | src/memory/paging/paging.c:14-17 | The inner loop writes one table of the identity map. |
| Chunks.AddTable | src/memory/paging/paging.c:13-19 | One round of the outer loop is the specified construction step. |
| Chunks.PagingNew4gb | src/memory/paging/paging.c:7-25 | The method builds the identity address space with 1026 new frames, and each directory word ends in the flags, plus 2 if bit 1 of them is clear. |
| Chunks.PagingFree4gb | src/memory/paging/paging.c:33-44 | The method gives back every run of the address space and changes nothing else. |
| ProcessMemory.FreeSlot | src/task/process.c:44-58 | The lowest unused slot, or -ENOMEM exactly when none is unused. |
| ProcessMemory.SlotOf | src/task/process.c:120-129 | The lowest slot with the pointer, or none exactly when no slot has it. |
| ProcessMemory.SlotRunsDisjoint | src/task/process.c:60-95 | The runs of two different slots share no page. |
| ProcessMemory.MallocKeepsProc | src/task/process.c:60-95 | process_malloc returns null exactly when the heap or the slots are full, then with heap, slots and page tables as before; otherwise the pointer is a run that was free, held in one more slot; taken memory outside the page tables is untouched. |
| ProcessMemory.FreeKeepsProc | src/task/process.c:131-155 | process_free of an owned pointer kills exactly its run, empties its slot and leaves its pages not present; any other pointer changes nothing. |
| ProcessMemory.OtherProc | src/task/process.c:60-155 | What a process holds survives every step that keeps its runs live and its tables untouched. |
| AllocationRoom.TakeCounts | src/memory/heap/heap.c:116-135 | Marking a free run takes exactly its length from the number of free blocks. |
| AllocationRoom.OneBlockRun | src/memory/heap/heap.c:74-109 | For one block the search is exact: a run exists if and only if some block is free. |
| AllocationRoom.MallocRoom | src/task/process.c:60-95 | process_malloc succeeds if and only if a long enough run and a slot exist, and then uses up exactly those blocks and one slot. |
| Isolation.NoProcessesYet | src/task/process.c:13-21 | The base of every run: with no process yet the invariant holds in every state of the heap. |
| Isolation.StepKeepsInv | src/task/process.c:60-155 | Every step of any process, of process creation and of the kernel keeps the ownership invariant of the whole system. |
| Isolation.EveryInterleavingKeepsInv | src/task/process.c:60-155 | The invariant holds after every step of every interleaving by any number of processes. |
| Isolation.OneHolder | src/task/process.c:60-155 | A physical page belongs to at most one slot of at most one process. |
| Isolation.OwnedPageIsMapped | src/task/process.c:74-76 | An owned page maps to itself, present, writable and open to user code. |
| UserAccess.OwnedIsReached | src/task/process.c:60-95 | The processor reaches every byte of an allocation at its own address, for user reads and writes. |
| UserAccess.GrantedReadsZero | src/task/process.c:60-95 | Every byte of [ptr, ptr + size) that process_malloc has just granted reads 0 through the tables of the process. |
| UserAccess.FreedFaults | src/task/process.c:131-155 | After process_free every access to the pages of the allocation faults. |
| Isolation.NoSharedWritablePage | src/task/process.c:60-155 | While a process owns a page, no writable heap page of another process maps to it. |
| Isolation.PointersAreDistinctRuns | src/task/process.c:60-95 | All allocation pointers of all processes are distinct live heap runs. |
| Isolation.FreeOfForeignPointer | src/task/process.c:133-139 | process_free of a non-null pointer leaves the whole system unchanged if and only if the process does not own the pointer. |
| Ownership.NoProcessesYet | src/task/process.c:13-21 | The base of every run with ownership of images and stacks: nobody holds anything yet. |
| Ownership.NewRunIsUnheld | src/task/process.c:341-361 | A run that the loader has just got from kzalloc is claimed and held by nobody, before its task exists. |
| Ownership.GiveKeepsOInv | src/task/process.c:349-376 | A live run that is nobody's, allocated before the task or after it, may become the image or the stack of a process. |
| Ownership.MapKeepsOwnershipExactlyWhenImageFits | src/task/process.c:225-290 | process_map_memory through the page tables keeps ownership if and only if each page of the image that the stack leaves visible fits: a writable one lies outside the heap window and in a run that the process holds, any other one lies outside the window or maps to itself. Nothing in process_load checks this. |
| Ownership.ActKeepsOwnershipExactly | src/task/process.c:60-376 | Of allocation and release by processes and kernel, creation, a run given to a process, and the mapping of an image, only the mapping of an image that does not fit breaks ownership, and each such mapping does. |
| Ownership.LooseKept | src/task/process.c:60-155 | A live run that is nobody's stays so over all allocation and release, and its first page keeps every byte. |
| TaskLinks.EntryStore | src/task/task.c:74-79 | A store through a link that hits a page table keeps ownership if and only if the entry it writes is outside the heap window or maps its own page, which the process does not own. |
| TaskLinks.DirectoryStore | src/task/task.c:74-79 | A store through a link that hits a page directory always breaks ownership: a link has no flag bits, so it leaves the directory entry not present. |
| TaskLinks.StoreElsewhere | src/task/task.c:74-79 | Any content in a frame that is no page table keeps ownership and every address space. |
| TaskLinks.StoreKeepsOwnershipExactly | src/task/task.c:74-79 | A store of any link at the next field of any frame keeps ownership if and only if the frame is no page directory and no table whose entry there may not take it: the condition can be read off the tables before the store. |
| KernelRuns.NoTasksYet | src/task/task.c:14-19 | The base of every run: no task, null ends of the list, any state of the heap. |
| KernelRuns.NewTaskKeepsExactly | src/task/task.c:26-62 | task_new with its task structure in the heap keeps ownership if and only if its store through task_tail fits. |
| KernelRuns.NewTaskLinks | src/task/task.c:50-52 | The old tail names the new task and the new task names the old tail, in memory, as words 14 and 15 of the structures; the prev links of all other tasks stay. |
| KernelRuns.NewTaskWords | src/task/task.c:203-225 | The new task structure word for word: chunk address, zero registers, ip, 0x1B, 0, 0x3FF000, 0x23, the process, next, and the old tail as prev; next is null unless task_tail named the very block. |
| KernelRuns.StepKeepsStructure | src/task/task.h:7-45 | Any fitting step that does not end its process, and is no store of the kernel to its frame, keeps every word of a task structure but the next link. |
| KernelRuns.RunKeepsStructure | src/task/task.h:7-45 | So does every run of such steps: chunk, registers and process of a task are what task_init made them. |
| KernelRuns.TerminateLinks | src/task/task.c:74-95 | After the end of a process the other task structures keep their links, except that the one that the prev link names gets the next link. |
| KernelRuns.TerminateKeepsExactly | src/task/process.c:526-553 | The end of a process, with the store of task_list_remove through a prev link that may be stale and the release of the task structure, keeps ownership if and only if that store fits, by what the other processes have before the call. |
| KernelRuns.PrevOnListFits | src/task/task.c:76-79 | A null prev link, or one that names a task structure, always fits. |
| KernelRuns.TailOnListFits | src/task/task.c:50 | So does task_new when task_tail is a task structure or the list is empty. |
| KernelRuns.UserFrameIsFree | src/task/process.c:60-290 | Under ownership no page that user code may write to is a page table of any process or a task structure. |
| KernelRuns.StepKeepsOwnershipExactly | src/task/process.c:60-553 | Of all steps, user stores through any writable page included, only the mapping of an image and a store through a link of the task list can break ownership, and they do so exactly when they do not fit. |
| KernelRuns.EveryRunKeepsOwnershipExactly | src/task/process.c:60-553 | Over every run, with processes coming and going, their task structures linked through memory and user code storing wherever it may: ownership holds after every step if and only if every mapped image fits its process and every store through a link fits. |
| ImageOwnership.ImageFitsExactlyWhenHeadersFit | src/task/process.c:234-264 | For headers with disjoint page ranges the image fits if and only if each header does: a writable one misses the heap window and names held frames only. |
| ImageOwnership.StretchEnds | src/task/process.c:252-256 | Held runs that lie one right behind the other, from the file on, form a stretch; the frame behind it is not held. |
| ImageOwnership.HeldExactlyInStretch | src/task/process.c:252-256 | Frames from inside the stretch on are all held exactly when they end in it. |
| ImageOwnership.StretchOfFileAndStack | src/task/process.c:349-361 | With file and stack alone the stretch ends behind the stack if that lies right behind the file, and else behind the file. |
| ImageOwnership.LoadKeepsOwnershipExactlyWhenSegmentsEndInStretch | src/task/process.c:234-290 | For headers that are separate, start in the held stretch and miss the heap window: mapping keeps ownership if and only if p_offset + p_memsz of each writable header, rounded up to a page, stays inside the stretch of held runs that starts with the file. |
| FailingRuns.RunsAreOwned | src/task/process.c:60-553 | A list of fitting steps is a run, and ownership holds after each of them. |
| FailingRuns.LoadSteps | src/task/process.c:341-376 | The order of process_load is such a run: the blocks of fopen, the file, fclose, the stack, which takes the freed blocks in front of the file, the task, the address space; then the process holds file and stack. In a compact heap its page directory is the second block behind the file. |
| FailingRuns.BssReachesPageDirectory | src/loader/formats/elfloader.c:189-226 | The loader never compares p_memsz with the file: for a file of one block whose one writable header has a memory size of three pages, separate and congruent, the process can write to its own page directory. |
| FailingRuns.StaleLinkReachesPageDirectory | src/task/task.c:74-105 | A run of six steps that fit, without any image: a process ends, the prev link of the next one goes stale, and a new process gets the freed task structure as its page directory. Then the end of the other process writes into that directory, and ownership is lost. |
| Ownership.WritableBelongs | src/task/process.c:60-290 | Where ownership holds: whatever a process can write to, through any of its 2^20 pages, is its own allocation, image or stack. |
| Ownership.BelongsToOne | src/task/process.c:60-290 | Where ownership holds, no frame belongs to two processes. |
| Ownership.NoFrameWritableTwice | src/task/process.c:60-290 | Where ownership holds, so after every step of a run that fits: two processes never map the same frame writable, whatever pages they use, and no process can write to a page table, its own or another one. |
| UserAccess.NoByteWritableTwice | src/task/process.c:60-290 | The same by what the processor lets user code do: no byte that one process can write to, through any address, lies in a frame that another one can write to or in a page table of either. |
| Ownership.ExitGivesBack | src/task/process.c:461-545 | Up to task_list_remove, the end of a process gives back exactly the runs that it claimed or held; every other run stays live with its length and the other processes are the same. |
| Ownership.ExitKeepsLoose | src/task/process.c:461-545 | And a run that is nobody's stays so with every byte of its first page, so the task structures are what they were. |
| Termination.ProcessTerminateAllocations | src/task/process.c:461-469 | The loop frees every used slot, as specified. |
| Termination.FreeLoaded | src/task/process.c:537-545 | kfree of image and stack, as specified. |
| Termination.ProcessTerminateMemory | src/task/process.c:526-545 | The calls for allocations, file, stack and address space, in their order, leave the kernel exactly as the end of the process is specified. |
| TaskMachine.TaskNew | src/task/task.c:26-62 | The calls and stores of task_new, in their order, on heap, memory and the ends of the list are the specified step; the structure has the words named for KernelRuns.NewTaskWords, and the task is the new tail, and the head of an empty list. |
| TaskMachine.TaskListRemove | src/task/task.c:74-95 | The store through prev and the new ends of the list, as words 14 and 15 in memory say. |
| TaskMachine.RemovedWords | src/task/task.c:74-95 | Of all words in memory only word 14 of the task that a prev link other than null names is written, and it becomes the next link of the removed task. |
| Termination.ProcessTerminate | src/task/process.c:526-553 | The calls in their order are the specified step, the stale link included: exactly the runs of allocations, page tables, of all that the process holds (file, ELF structure, stack) and of the task structure are given back, every other run stays live with its length, and ownership is kept if and only if the store through prev fits. |
| Isolation.AllocateThenDeallocate | src/task/process.c:60-155 | process_malloc, then process_free of its result: heap table, live runs and the slots of all processes are as before. |
| OwnMemory.MallocIsOwn | src/task/process.c:60-95 | process_malloc takes free runs at most and writes to its own page tables and to free memory only; mappings outside the heap window stay. |
| OwnMemory.OwnWorkKeepsOthers | src/task/process.c:60-95 | Allocation and stores of one process into its own pages keep the whole system: every other process with its slots, page tables and mappings. |
| OwnMemory.OwnWorkKeepsPages | src/task/process.c:60-95 | And every byte in the pages that another process holds. |
| Processes.Process.FindFreeAllocationIndex | src/task/process.c:44-58 | The loop finds the lowest unused slot. |
| Processes.Process.GetAllocationByAddr | src/task/process.c:120-129 | The loop finds the slot of the pointer or none. |
| Processes.Process.AllocationUnjoin | src/task/process.c:108-118 | The loop empties every slot with that pointer and no other. |
| Processes.Process.Malloc | src/task/process.c:60-95 | The method on slots, heap and page tables is the specified step, error paths included. |
| Processes.Process.Free | src/task/process.c:131-155 | The method is the specified step for owned and foreign pointers. |
| ProgramImage.LastHeaderWins | src/task/process.c:242-261 | For every header list, overlapping or not, a page gets the entry of the last header that covers it, else keeps its own. |
| ProgramImage.SegmentTranslates | src/task/process.c:234-290 | For congruent headers with disjoint page ranges, every byte of a segment translates to its byte in the loaded file, present, open to the user, and writable exactly when PF_W is set. |
| ProgramImage.StackTranslates | src/task/process.c:286-287 | For every image, each address of the 16 KB below 0x3FF000 translates into the process stack, writable. |
| ProgramImage.OtherPagesStayReadOnly | src/task/process.c:225-290 | For both kinds of image: a page outside image and stack keeps the read-only identity entry of task_init, open to the user. |
| ProgramImage.CongruenceIsNeeded | src/task/process.c:252-256 | The first byte of a segment lands in the right place if and only if p_vaddr and p_offset are congruent modulo 4096. |
| ProgramImage.IncongruentSegment | src/task/process.c:252-256 | One header that breaks the rule: its first byte is read from the start of the file and not from offset 0x54. |
| ProgramImage.BinaryTranslates | src/task/process.c:225-232 | A flat binary appears byte for byte, present, open to the user and writable, from the program address on. |
| UserAccess.ImageIsReached | src/task/process.c:225-290 | After process_map_memory the processor gets for every address and each kind of access what the view of image and stack says. |
| UserAccess.SegmentIsReached | src/task/process.c:234-290 | User code reads every byte of a congruent, separate segment at its place in the loaded file, and writes it exactly when bit 1 of p_flags is set. |
| UserAccess.StackIsReached | src/task/process.c:286-287 | User code reads and writes each address from 0x3FB000 up to 0x3FF000 in the process stack. |
| UserAccess.BinaryIsReached | src/task/process.c:225-232 | User code reads and writes a flat binary from 0x400000 on. |
| UserAccess.OtherIsReadOnly | src/task/process.c:225-290 | Every other address reads as itself and faults when user code writes to it. |
| ProgramImage.ImageView | src/task/process.c:225-290 | Every page after process_map_memory: the stack, else the image entry, else what was there before. |
| ProgramImage.MapImageRemaps | src/task/process.c:225-290 | The stores through the page tables are the mapping on the flat view; set of frames, directory and all other memory stay. |
| ProgramImage.ProcessMapElf | src/task/process.c:234-264 | The loop over headers stores exactly what the headers in order specify. |
| ProgramImage.ProcessMapMemory | src/task/process.c:266-290 | Image, then stack, through the directory of the task: memory is exactly as specified, and on an address space the flat view is that of image and stack and all other frames are unchanged. |
| TaskCopy.TaskStringAt | src/task/task.c:130-165 | What the task sees: the bytes behind its own translation up to the first NUL or the cut. |
| UserAccess.TaskStringIsReached | src/task/task.c:149 | Where the walk of the kernel through the tables of the task does not fault, the byte it reaches is that of the string. |
| TaskCopy.SameString | src/task/task.c:145-149 | The string depends only on the bytes that reading it touches. |
| TaskCopy.OnlyEntryTouched | src/task/task.c:138-147 | Zeroing and mapping the scratch block changes that block and one word of one table. |
| TaskCopy.StrncpyInTask | src/task/task.c:149 | strncpy with the task directory loaded stores that string and a NUL in the scratch page and changes nothing else. |
| TaskCopy.StrncpyInKernel | src/task/task.c:159 | strncpy under the kernel map stores the string and a NUL at the buffer and changes no other byte. |
| TaskCopy.PteRestored | src/task/task.c:146-152 | Mapping the scratch page and putting the old entry back restores every byte of the page tables. |
| TaskCopy.CopyFinishes | src/task/task.c:130-165 | What the finished copy means for buffer, heap table and page tables. |
| TaskCopy.CopyStringFromTask | src/task/task.c:130-165 | Refused sizes and a full heap change nothing; otherwise the buffer holds exactly the string the task saw, cut to max-1 bytes and NUL-terminated, and heap table and page tables are identical to before. |
| DiskStreams.ReadsCompose | src/disk/streamer.c:28-64 | Reading a bytes and then b bytes is reading a+b bytes. |
| DiskStreams.ReadBytes | src/disk/streamer.c:28-64 | Byte k of the buffer is the disk byte at pos + k - at inside the read, and what it was outside; the position advances by the length. |
| DiskStreams.DiskStream.Seek | src/disk/streamer.c:22-26 | The position is set. |
| DiskStreams.DiskStream.CopyOut | src/disk/streamer.c:48-51 | The copy loop moves the wanted part of the sector and nothing else. |
| DiskStreams.DiskStream.Read | src/disk/streamer.c:28-64 | For every position and length the read returns the flat slice of the disk, advances by its length, and ends, also on a sector boundary. |
| Fat16.NextBase | src/fs/fat/fat16.c:364-368 | Two clusters are adjacent on disk exactly when their numbers are consecutive. |
| FatPositions.BaseIsPosition | src/fs/fat/fat16.c:364-368 | A cluster starts at byte (ending_sector_pos + (cluster - 2) * sectors_per_cluster) * sector size, cluster 2 where the root directory ends. |
| FatPositions.WalkIsChain | src/fs/fat/fat16.c:408-452 | Along a chain of cluster numbers without stop values the n-th hop is the n-th number. |
| FatPositions.ChainEnds | src/fs/fat/fat16.c:408-452 | Behind an entry 0xFF8, 0xFFF, 0xFF7, 0xFF0, 0xFF6 or 0 every longer walk gives -1. |
| FatPositions.ReadByteOfChain | src/fs/fat/fat16.c:454-506 | For every read along a chain that is long enough, fitting or not: the absolute disk position of each returned byte. |
| Fat16.WalkFromNext | src/fs/fat/fat16.c:408-452 | Walking n hops is one hop and then n-1 more. |
| Fat16.WalkEnds | src/fs/fat/fat16.c:408-452 | Once a hop meets a stop value every longer walk fails. |
| Fat16.ChainByteAt | src/fs/fat/fat16.c:408-506 | The walk from the first cluster agrees with a single pass over the chain on every byte. |
| Fat16.ReadSucceeds | src/fs/fat/fat16.c:454-499 | For every offset and length the read succeeds exactly when the walk to its last piece meets no stop value. |
| Fat16.ReadByteAt | src/fs/fat/fat16.c:454-499 | For every offset and length: which disk position each returned byte comes from. |
| Fat16.ReadIsSlice | src/fs/fat/fat16.c:454-506 | When no piece passes the end of a cluster, the read returns exactly the slice of the concatenated chain, and fails exactly when the chain ends too early. |
| Fat16.CorrectExactlyWhenFitting | src/fs/fat/fat16.c:468-494 | The read is right for every FAT, disk and first cluster if and only if the offset is cluster-aligned or the read stays inside its first cluster. |
| Fat16.UnfittingMisreads | src/fs/fat/fat16.c:468-494 | For every other offset and length: a FAT and a disk on which the read returns wrong bytes. |
| FatExact.FittingIsNoCrossing | src/fs/fat/fat16.c:468-494 | A read is of the always correct kind exactly when none of its pieces passes the end of a cluster. |
| FatExact.RightAddress | src/fs/fat/fat16.c:468-494 | A byte behind the end of the piece's cluster is taken from its place in the file exactly when the next cluster of the chain has the next number. |
| FatExact.RightOnEveryDisk | src/fs/fat/fat16.c:454-506 | For one FAT and first cluster whose chain reaches the last byte: the read is right on every disk if and only if each hop that a piece crosses leads to the next cluster number. |
| FatExact.RecordsRightOnEveryDisk | src/fs/fat/fat16.c:712-735 | The same for all records of a fat16_read. |
| FatExact.RecordsCorrectExactlyWhenFitting | src/fs/fat/fat16.c:712-735 | fat16_read is right for every FAT, first cluster and disk if and only if each record starts on a cluster border or stays inside one cluster. |
| Fat16.AlignedRecordsFit | src/fs/fat/fat16.c:712-735 | Records of whole clusters from an aligned position never straddle. |
| Fat16.ReadRecordsIsSlice | src/fs/fat/fat16.c:712-735 | fat16_read of nmemb records returns exactly bytes pos to pos + size*nmemb of the chain, and fails exactly when a needed hop meets a stop value. |
| FatPositions.RecordsAreFromChain | src/fs/fat/fat16.c:712-735 | For fitting records byte x of the file comes from disk position (ending_sector_pos + (c[x / s] - 2) * sectors_per_cluster) * sector size + x % s, for the chain c and clusters of s bytes. |
| FatReader.FatDisk.GetFatEntry | src/fs/fat/fat16.c:375-405 | The entry is the two little-endian bytes at position reserved sectors * sector size * (cluster * 2), a product as written. |
| FatReader.FatDisk.GetClusterForOffset | src/fs/fat/fat16.c:408-452 | The loop is the walk along the chain, stop values included. |
| FatReader.FatDisk.ReadInternal | src/fs/fat/fat16.c:454-506 | The recursion fills the buffer as specified and writes nothing beyond it. |
| FatReader.FatDisk.Read | src/fs/fat/fat16.c:712-735 | The number of records and their bytes, or the error of the first record that fails. |
| Tokens.SpansAreTheWords | programs/stdlib/src/string.c:130-185 | The spans list every maximal delimiter-free non-empty stretch exactly once, in order, and nothing else. |
| Tokens.WordsAreSpans | programs/stdlib/src/string.c:130-185 | The words are the texts of these spans. |
| Tokens.SkipDelimiters | programs/stdlib/src/string.c:143-160 | The restarting inner loop skips exactly the leading delimiters. |
| Tokens.FindEnd | programs/stdlib/src/string.c:168-183 | The second loop stops at the first delimiter or the end. |
| Tokens.Tokenizer.Strtok | programs/stdlib/src/string.c:130-185 | One call returns the next word of the text, and what later calls return is the list of remaining words; null means no word is left and resets the cursor; a non-null cursor makes the argument irrelevant. |
| Command.Strncpy | programs/stdlib/src/string.c:75-89 | The buffer holds the source cut to count-1 characters, always terminated. |
| Command.OsMalloc | src/isr80h/heap.c:7-12 | The malloc system call for one node takes a block of the kernel heap and a slot of the calling process, and is refused exactly when one of both is used up. |
| Command.OverlayText | programs/stdlib/src/string.c:75-89 | What a pointer into the buffer sees after strncpy: the rest of the new line, or the old text behind it. |
| Command.OsParseCommand | programs/stdlib/src/os.c:5-49 | Under every state of the cursor: the list holds the words in order, each cut to 511 bytes and in its own allocation, as many as free blocks and free slots of the process allow, and nothing else is taken. The cursor is null again if and only if they suffice; otherwise it stands behind the word that found no node. Under a cursor that an earlier call left in the same stack buffer, the words are those of the overwritten buffer from the old position on. |
| Command.StaleCursorCutsNextLine | programs/stdlib/src/os.c:14-15 | Parsing stopped in the line "a b" behind its first word, at offset 2: the list for the next line "hello world" holds "llo" and "world". |
| Command.OsSystemRun | programs/stdlib/src/os.c:99-103 | The same for a line cut to 1023 bytes. |
| Arguments.KeepArguments | src/task/process.c:439-452 | A later allocation keeps all arguments injected so far. |
| Arguments.AddArgument | src/task/process.c:441-451 | Storing one text and its pointer extends the injected arguments by exactly that one. |
| Arguments.CountCommandArguments | src/task/process.c:406-416 | The loop counts the nodes. |
| Arguments.ProcessInjectArguments | src/task/process.c:418-459 | Succeeds if and only if a run for the pointer table, a block for each text and a slot for each of these are left; then argc and argv of the process name the texts of the list in order. An empty list is refused with no change, and every failure keeps argc and argv. |
| Arguments.ProcessSeesArguments | src/task/process.c:418-459 | Through its own page tables the process reads each text at its pointer and finds the pointers in order at argv. |
| UserAccess.PointerIsReached | src/task/process.c:418-459 | User code finds the i-th pointer as the 32-bit word at argv + 4 * i. |
| UserAccess.TextIsReached | src/task/process.c:418-459 | User code reads the i-th text byte by byte at that pointer, and a NUL behind it. |
| ProcessLoading.LoadRuns | src/task/process.c:341-361 | The allocations of loading in their order: each address is the start of a live run of the blocks that its size needs, no two are the same, and none is claimed or held by any process or holds a task. |
| ProcessLoading.NewProcess | src/task/process.c:366-374 | task_new on a list in order: a block for the task structure and 1026 for the address space, unused slots, the process holds the runs that process_terminate gives back, and the structure at the tail of the list has the words of a new task, with a null next link. |
| ProcessLoading.MapProgram | src/task/process.c:376 | process_map_memory for it: ownership of the whole system is kept if and only if the image fits, and an image that misses the heap window keeps every process with its slots and page tables. |
| ProcessLoading.LoadProcess | src/task/process.c:328-376 | process_load on memory, among any other processes: the new process sees its image and its stack, holds their runs, and the free count falls by exactly the blocks of loading, one for the task and 1026; ownership is kept if and only if the image fits. Afterwards the task at the tail starts at the entry of the image, 0x400000 for a flat binary, with its stack pointer at 0x3FF000, its own chunk, and the first allocation as its process. |
| CommandRun.OwnWorkKeepsOwnership | src/task/process.c:60-95 | Work of a process on its own memory leaves every frame where it belongs, outside the heap window too. |
| CommandRun.OwnWorkKeepsKernel | src/task/process.c:60-95 | And every task structure with its links. |
| CommandRun.LoadAndInject | src/task/process.c:418-459 | After loading and injection every other process has what it had, the new one still sees image and stack, its task structure still has the words of a new task, and ownership holds if the image fits. |
| CommandRun.RunCommandLine | programs/stdlib/src/os.c:99-109 | From the typed line to the new process, in any system of processes. The m words that blocks and slots of the shell allow become nodes; with none the call returns -1. Then a process is loaded and mapped, and injection succeeds if and only if the free blocks before the call exceed 2m, the blocks of loading and 1027 together, and m is below the slot count; then argc is m and argv names exactly these words. The cursor is null again if and only if m is the number of words. The shell still has its list in its own allocations, every process keeps what it had, and ownership holds if the image fits. |
| PathSyntax.ComponentsAreLongestPrefix | src/fs/pparser.c:122-134 | For every text the linked components are the longest prefix of non-empty stretches between slashes. |
| PathSyntax.ComponentsFit | src/fs/pparser.c:37-61 | Each component is non-empty, slash-free and fits its 108-byte buffer with its NUL. |
| PathSyntax.ComponentsOfJoin | src/fs/pparser.c:63-82 | Joining parts with slashes and taking components gives the parts back. |
| PathSyntax.ParsePrint | src/fs/pparser.c:98-138 | Parsing undoes printing for every drive and part list of at most 108 bytes in all; the text starts with the digit, ":" and "/". |
| PathSyntax.ParsesExactly | src/fs/pparser.c:8-27 | A path is accepted if and only if it has 3 to 108 bytes and starts with a decimal digit, 0x3A and 0x2F; the digit is the drive. |
| PathParser.CopyPart | src/fs/pparser.c:39-46 | The copy loop fills the buffer with the component and stops at a slash or the end. |
| PathParser.GetPathPart | src/fs/pparser.c:37-61 | Null, with the heap as before, exactly for an empty component; else one block that holds it. |
| PathParser.ParsePathPart | src/fs/pparser.c:63-82 | One more node with its two blocks, or null. |
| PathParser.GetDriveByPath | src/fs/pparser.c:8-27 | The drive number, or -4 for every text that does not start with a decimal digit, 0x3A and 0x2F. |
| PathParser.PathParserParse | src/fs/pparser.c:98-138 | Null with nothing changed for a refused path; otherwise drive and components as specified, and exactly their blocks taken. |
| PathParser.PathParserFree | src/fs/pparser.c:84-96 | The heap table is what it was before the parse, byte for byte. |
| PathParser.ParseThenFree | src/fs/pparser.c:84-138 | Parse and free of every path restores the heap table. |
| TaskList.Scheduler.TaskNew | src/task/task.c:42-52 | On every linked list, with stale prev links too and at the address of a removed task too: the list stays linked and the new task is its last; current changes only in an empty list. |
| TaskList.Scheduler.TaskGetNext | src/task/task.c:64-72 | The successor in round-robin order. |
| TaskList.Scheduler.TaskNext | src/task/task.c:249-257 | Current moves to its successor and all links are kept. |
| TaskList.Scheduler.RotateAll | src/task/task.c:249-257 | n rotations visit each of the n tasks exactly once and return to the start. |
| TaskList.Scheduler.TaskListRemove | src/task/task.c:74-95 | The list stays linked without the task if and only if its prev link names the task in front of it or, for the head, no task behind it; then current is right too. A fully linked list stays so if and only if the task was the last. A prev link to a task that is not on the list is written through; no task but the one it names changes. |
| TaskList.RightRemovalWritesOutside | src/task/task.c:76-79 | A removal that keeps the list linked writes outside it if and only if it removes a head with a stale prev link. |
| TaskList.SecondHeadWritesIntoFreedBlock | src/task/task.c:74-105 | Two new tasks and two removals of the head: a right run, and the last call writes into the block of the first task, which is free by then. |
| TaskList.Scheduler.RemoveThenSuccessor | src/task/task.c:74-95 | Removing a task and then its successor works if and only if the task was the head; elsewhere the freed task stays on the chain. |
| TaskList.AfterCut | src/task/task.c:74-95 | What the redirected links mean for the remaining tasks, forwards and backwards. |
| TaskList.StepStaysLinked | src/task/task.c:26-95 | One step keeps the list linked unless it is such a removal, and prev links record the task that each task was put behind. |
| TaskList.EveryRunStaysLinkedExactly | src/task/task.c:26-105 | Over every run of task_new, rotations and removals of any tasks the list is linked after every step if and only if each removed task is still behind the task it was put behind, or is the head and that task is not on the list again. The condition is about the calls alone. |
| TaskList.ReusedAddressBreaks | src/task/task.c:74-95 | Five calls that break the list: the second new task gets the address of the removed head. |
| TaskList.Revolution | src/task/task.c:249-257 | The visiting order is a permutation of the list without repetition. |
| KeyboardRing.IndexIgnoresWrap | src/keyboard/keyboard.c:42-45 | Wrap-around of the 32-bit counters does not move an index. |
| KeyboardRing.EmptyIsZeroCell | src/keyboard/keyboard.c:83-89 | The zero cell says "empty" exactly when head meets tail. |
| KeyboardRing.StepIsQueueStepExactlyWithRoom | src/keyboard/keyboard.c:42-95 | One operation acts on the queue as intended if there is room (fewer than 1024 pending for a push, at least one for a backspace), and otherwise the ring holds no queue at all. |
| KeyboardRing.FullPushJumpsTheQueue | src/keyboard/keyboard.c:54-71 | A push on 1024 pending characters overwrites the oldest and is read first. |
| KeyboardRing.EmptyBackspaceHidesNext | src/keyboard/keyboard.c:47-52 | A backspace on an empty ring hides the next character typed. |
| KeyboardRing.EveryRunIsAQueue | src/keyboard/keyboard.c:42-95 | Over every run with room the ring answers exactly as a queue with take-back does. |
| KeyboardRing.NothingIsLostOrReordered | src/keyboard/keyboard.c:54-95 | Without backspaces, what was read followed by what is pending is what was typed, in order. |
| KeyboardRing.KeyboardBuffer.KeyboardBackspace | src/keyboard/keyboard.c:47-52 | The method is the specified step. |
| KeyboardRing.KeyboardPush | src/keyboard/keyboard.c:54-71 | The specified step on the current process; without one, and for a zero character, nothing. |
| KeyboardRing.KeyboardPop | src/keyboard/keyboard.c:73-95 | The specified step, and zero without a current task. |
| DecimalPrinter.PrintThenRead | programs/stdlib/src/stdlib.c:4-29 | Printed text is canonical and reads back as the number. |
| DecimalPrinter.ReadThenPrint | programs/stdlib/src/stdlib.c:4-29 | Every canonical text is what printing its value gives, so there is no other. |
| DecimalPrinter.DigitCount | programs/stdlib/src/stdlib.c:16-20 | A number has at most k digits exactly when it is below 10^k. |
| DecimalPrinter.TextFits | programs/stdlib/src/stdlib.c:6-8 | Sign, digits and NUL of every 32-bit integer fit the 12 bytes. |
| DecimalPrinter.MinimumFillsTheBuffer | programs/stdlib/src/stdlib.c:6-8 | The smallest integer needs all 12 bytes. |
| DecimalPrinter.Itoa | programs/stdlib/src/stdlib.c:4-29 | For every 32-bit integer, the minimum included, the index stays in the buffer and the text from it to the NUL is the canonical text of the input. |
| ElfExtents.EndIsLastHighest | src/loader/formats/elfloader.c:124-129 | For all headers: virtual end and physical end belong to the last load header that reaches highest, as 32-bit sums of address and size. |
| ElfExtents.BaseIsLastLowest | src/loader/formats/elfloader.c:118-122 | Without a zero load address, virtual base and physical base belong to the last load header that starts lowest; the physical base is the 32-bit sum of file address and offset. |
| ElfExtents.BaseIsLowestExactlyWhen | src/loader/formats/elfloader.c:118-122 | The base is the lowest load address if and only if no load address is zero or the last one is; zero doubles as "not set". |
| ElfExtents.ZeroIsForgotten | src/loader/formats/elfloader.c:118-122 | Load addresses 0 and then 0x1000 give the base 0x1000. |
| ElfExtents.ElfFile.ElfProcessPhdrPtLoad | src/loader/formats/elfloader.c:116-132 | The field updates are the specified step. |
| ElfExtents.ElfFile.ElfProcessPheaders | src/loader/formats/elfloader.c:134-164 | The loop leaves the extents of all load headers and ignores the others. |
| SegmentDescriptors.DecodeOfEncode | src/gdt/gdt.c:4-31 | What the processor reads from the eight bytes, also for a limit that the encoder refuses. |
| SegmentDescriptors.EncodedFlags | src/gdt/gdt.c:11-21 | The four flag bits of every encoded entry: AVL 0, L 0, D/B 1, G 1 exactly when the limit is above 65536 (SDM volume 3A, section 3.4.5). |
| SegmentDescriptors.RoundTripExactlyWhenAccepted | src/gdt/gdt.c:6-9 | Decoding gives back base, type and the exact limit if and only if the guard accepts the segment. |
| SegmentDescriptors.RefusedThoughExpressible | src/gdt/gdt.c:6-9 | Exactly which segments the guard refuses although some descriptor expresses them. |
| SegmentDescriptors.EncodeGdtEntry | src/gdt/gdt.c:4-31 | The eight bytes are written in place and no other; the refusal comes before any write. The flags say: 32-bit (D/B 1, L 0), AVL 0, and granularity 1 exactly when the limit is above 65536. |
| SegmentDescriptors.GdtStructuredToGdt | src/gdt/gdt.c:33-38 | For tables of every length the processor reads back every segment, each with D/B 1, L and AVL 0 and granularity as the limit asks for, and later bytes are unchanged; success exactly when all are accepted. |

## Left out

- BlockHeap.Heap.Malloc: requires `Fits`, because otherwise the source marks bytes behind the block table, which no model of the table can show; `HeapTable.FitsExactly` is the exact condition.
- BlockHeap.Heap.Free: frees live run starts only; other addresses clear a part of a run or index outside the table. Block addresses are non-negative, so the signed division of the source is not modelled for addresses below the heap.
- KernelMachine.Machine.PagingMapRange: addresses stay below 2^32, so the wrap of `virt` past the top of memory is not modelled.
- KernelMachine.Machine.PagingMap: flags are below 4096 and OR is modelled as addition; `Paging.OrIsPlus` shows that they agree.
- Chunks.PagingNew4gb: needs 1026 free blocks; with fewer the source writes through null pointers.
- Chunks.PagingFree4gb: tables must still be live runs of the heap.
- Processes.Process.Malloc: a size of zero is left out; the source then returns a pointer without a live run.
- Processes.Process.Free: null pointers are left out; the source passes null slots when it terminates a process and then indexes in front of the block table. `Termination.ProcessTerminateAllocations` skips them.
- Isolation.StepKeepsInv: other mappings of a process are taken to stay outside the heap window; the source does not check p_vaddr, and `Ownership.MapKeepsOwnershipExactlyWhenImageFits` says which images keep the invariant.
- Ownership.MapKeepsOwnershipExactlyWhenImageFits: the image is mapped before the process allocates, as in process_load, and no address wraps.
- ImageOwnership.LoadKeepsOwnershipExactlyWhenSegmentsEndInStretch: overlapping headers and headers that start behind the held stretch or meet the heap window are covered by `Ownership.MapKeepsOwnershipExactlyWhenImageFits` alone.
- ProcessLoading.LoadProcess: the sizes are those of allocations that stay, in the order of the calls; file contents, temporary allocations (`FailingRuns.LoadSteps` has those of fopen and fclose) and the failures of loading are left out. No address of the image wraps, and task_tail is a task structure unless the list is empty.
- KernelRuns.EveryRunKeepsOwnershipExactly: stores of the kernel itself stay out of page tables, and where they change a task structure its links stay null or block addresses. The fields of a task structure are words; the current task is the subject of `TaskList`.
- FailingRuns.StaleLinkReachesPageDirectory: the other allocations of the loader are left out; which block a new page directory gets depends on their sizes.
- ProgramImage.SegmentTranslates: addresses do not wrap. The present and write bits are stated on the entry; `UserAccess.SegmentIsReached` states what the processor does with them. An unknown file type panics in the source and is no image here.
- Mmu.WalkIsView: CR0.WP and CR4.PSE are clear, as the kernel leaves them; cached translations, accessed and dirty bits and what a fault handler does are left out.
- TaskCopy.CopyStringFromTask: a task page that is not present would fault; the string is that of the translations, see `UserAccess.TaskStringIsReached`. `max` is at least 1, the buffer lies outside the scratch block and the task's page tables, and the string outside the scratch block and the one table entry that maps it.
- Fat16.ReadIsSlice: the FAT is an arbitrary function of the cluster; FatReader reads it where the driver does, at a product of two positions that the FAT specification adds.
- FatReader.FatDisk.Read: 32-bit overflow of offsets is not modelled. The first cluster is a parameter: the source combines its halves with OR although its comment says that it joins high and low bits.
- DiskStreams.DiskStream.Read: positions are unbounded, and the disk does not fail: the source fails only for a disk structure other than its one disk.
- PathParser.PathParserParse: needs 110 free blocks; the source does not check its allocations. The directory argument, which it ignores, is left out.
- Command.OsParseCommand: nodes are objects that carry the address of their block; their bytes are not stored in the memory model. The buffer is other memory than the block table. A cursor that is not null points into the same stack buffer, as it does for calls from the same depth, and a NUL follows it; other stack contents are left out.
- CommandRun.RunCommandLine: the image misses the heap window, because injection works on the window of the new process; the release of the nodes and the start of the process are left out.
- TaskList.Scheduler.TaskNew: the linking only; the page directory, the registers and the failure of an allocation are left out. The new block is no task of the list.
- TaskList.Scheduler.TaskListRemove: what the calls do to a list that is no longer linked is not described; what a write through a stale prev link does to the new owner of the block is the subject of `KernelRuns`.
- TaskList.Scheduler.TaskNext: up to the switch; the panic on an empty list is a precondition.
- KeyboardRing.KeyboardPush: push works on the current process and pop on the process of the current task; the model takes the process as an argument. Counters are unbounded, see `KeyboardRing.IndexIgnoresWrap`.
- ElfExtents.ElfFile.ElfProcessPheaders: starts from a zeroed structure, as the loader makes it; header validation is left out.
- SegmentDescriptors.EncodeGdtEntry: a panic is the result `false`; the OR into the flag byte is addition, see `SegmentDescriptors.OrIsPlusHere`.
- Termination.ProcessTerminate: null slots and the process array are left out; the process structure is never freed, as in the source.
- Struct layouts and pointer casts: records and sequences stand for them, except for page table words and the heap table, which are stored in bytes.
- File contents of a loaded program, file descriptors, FAT directories and names, seeking and closing: they depend on packed structures or add easy members.
- Devices, interrupts, register switches, page directory loads, terminal, mouse, PCI and the shell: hardware and user interface.
