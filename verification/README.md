# UniKernel, modelled in Dafny

UniKernel is a small AArch64 kernel. This project models five of its components and proves what
their code keeps. Each component has a value model, in which an operation is a function on an
abstract state, and a class whose methods do what the C functions do, step by step, and are proved
to compute exactly those functions. The lemmas then say what follows for every input, every state
that can be reached, and every run.

- **Heap** (`src/heap.c`). `HeapSpec`, `HeapOps` and `HeapRuns` describe the heap as a value: page
  runs, slabs with free lists, partial and full lists per size class. `HeapClass` keeps page
  metadata, slab headers, list links, free-list links and client data in one byte memory and is
  proved to do the same there; `HeapRep` says how memory represents a heap value, `HeapLists`,
  `HeapSteps` and `HeapBlocks` what each group of writes does to that. A client sees a map from
  block addresses to contents: `malloc` adds one entry, `free` removes one, `realloc` moves one,
  and no other entry changes. `HeapClient` says in addresses and sizes alone how large and how
  aligned blocks are, when a request fails, and which memory is used again.
- **Scheduler** (`src/pthread.c`, `src/switch.S`). `SchedSpec` has one FIFO sequence per priority
  and one current task per core, and proves who runs next and how long anyone waits.
  `SchedulerClass` is the same on linked task objects with the priority bitmap (`Bits`). `Smp` is a
  step machine for any number of cores and tasks: the lock is taken, the queues are changed, one
  context is stored and another loaded field by field, and the resumed task releases the lock, with
  the steps of all cores interleaved in any order. It is proved to act, between calls, like a
  sequence of whole yields and creations of `SchedSpec`; `SmpCalls` adds that every call takes
  effect and that a task keeps its registers across a yield.
- **Frames and page tables** (`src/pmm.c`, `src/vmm.c`). `PmmSpec` and `PmmClass` are the frame
  allocator as a value and on its two arrays. `PageTables` defines the walk that AArch64 hardware
  does (VMSAv8-64, 4 KB granule, 39-bit addresses) independently of the kernel; `PageWrites`,
  `VmmSpec` and `VmmRegion` say what each table write does to it; `VmmClass` is the code.
- **Network** (`src/net.c`). `RxRing` is the receive ring with a device that may complete buffers in
  any order, `TxRing` the transmit ring with one that completes in order; `RxQueueClass` and
  `TxQueueClass` are the driver's functions. `QueueLayout` places the queues in memory. `Checksum`
  and `Icmp` are the Internet checksum (section 1 of RFC 1071) and the echo reply, and `Echo` says
  that the reply fits a frame. Ring indices wrap at 2^16 as in section 2.6 of VirtIO 1.1.
- **Decimal** (`src/stdio.c`, `src/stdlib.c`). `printd` and `atoi`.

`Memory`, `Sequences` and `Division` hold what several components use: little-endian loads and
stores, sequences without repetition, and the one lemma that names quotients and remainders.

## What does not hold

For these the model keeps what the code does, and a lemma says exactly when the expected property
holds.

- Freeing a frame that nobody holds puts it on the free stack twice (`PmmSpec.DoubleFree`), and
  taking a reference to one leaves it both held and free; `PmmSpec.FreeInvIff` and
  `PmmSpec.IncRefInvIff` give the exact conditions. `pmm_mark_used_region` leaves the count of a
  frame it takes at 0, so a count of 0 does not mean free any more (`PmmSpec.MarkInv`).
- `net_rx_fill` publishes as many ring entries as the queue has, also when it ran out of frames. The
  entries behind the last frame still read 0, so that descriptor 0 is published once more for each
  missing frame and the descriptors without a buffer never are (`RxQueueClass.ShortRingCounts`; with
  two frames for four entries `RxQueueClass.ShortFill`). The ring is right exactly if no frame was
  missing, or the queue has one entry only; every published descriptor has a buffer exactly if there
  was a frame at all (`RxQueueClass.RxQueue.NetRxFill`).
- `net_send` overwrites a pending descriptor exactly if a whole queue of sends is outstanding
  (`TxRing.OverwritesIff`). A caller can bring that about from a new queue of any size, given one
  more free frame than entries, by sending once for each entry and once more
  (`TxRing.OverwriteReached`).
- The frames taken for a queue suffice exactly for up to 1024 entries (`QueueLayout.LayoutFitsIff`),
  and 16-bit indices find the right slots for ever exactly if the size divides 2^16
  (`RingIndex.SlotOfIndexIff`).
- `printd` writes only a sign for the smallest integer, if its negation wraps to itself
  (`Decimal.RoundTripIff`). That signed overflow wraps around is an assumption of this model, here
  and in `atoi`: C leaves it undefined, and `CMakeLists.txt` does not pass `-fwrapv`.
- `pthread_attr_setschedparam` admits priority 0, but a task created with it is on no queue and
  never runs (`SchedSpec.IdleNeverRuns`). The comment of `sched_init` suggests an idle task per
  core; `src/pthread.c:228` and `src/pthread.c:239` assign the same field, so the fallback at
  `src/pthread.c:399` is the core's current task.

## Model

| member | source | states |
|---|---|---|
| HeapLayout.ClassOf | src/heap.c:20-22 | the smallest of the eight object sizes that holds the request |
| HeapLayout.ObjectsApart | src/heap.c:123-139 | two objects of a slab never overlap |
| HeapSpec.LowestRun | src/heap.c:78-99 | first fit: the result is a free run of the asked length, no lower one exists, and NULL means there is none |
| HeapSpec.WithRunOk | src/heap.c:88-91 | marking a run keeps the page metadata a partition into free pages and runs |
| HeapSpec.WithoutRunOk | src/heap.c:105-113 | so does clearing one |
| HeapSpec.FreshInv | src/heap.c:150-159 | a fresh page joins the front of its partial list with all objects free; everything else of the invariant stays |
| HeapSpec.TakeInv | src/heap.c:162-181 | taking an object keeps free lists, lists and metadata consistent; a slab whose last object goes moves to the full list |
| HeapSpec.PutInv | src/heap.c:195-200 | giving an object back keeps them consistent; a full slab becomes partial |
| HeapSpec.DropInv | src/heap.c:202-221 | an emptied slab leaves its list and its page becomes free, and the rest stays |
| HeapSpec.TakeLive | src/heap.c:162-164 | an object taken is one new live block and nothing else changes among the live blocks |
| HeapSpec.PutLive | src/heap.c:197-200 | an object given back is one live block less |
| HeapOps.AllocLargeLive | src/heap.c:78-99 | a large allocation adds one live block over a run that was free, or changes nothing |
| HeapOps.LargeRequest | src/heap.c:297-300 | for every 64-bit size above 2048, also where the rounding wraps to 0 pages, NULL comes back exactly if no free run is long enough, and otherwise the run covers the size |
| HeapOps.FreeLargeLive | src/heap.c:101-114 | freeing a run ends exactly its block |
| HeapOps.CacheAllocLive | src/heap.c:142-184 | a size class fails exactly if it has no partial slab and no page is free; else one block is added |
| HeapOps.CacheFreeLive | src/heap.c:186-239 | a returned object is the only block that ends, also when its slab is dissolved |
| HeapOps.MallocCorrect | src/heap.c:283-304 | malloc returns NULL exactly when the heap is exhausted for that size, and otherwise one new block that covers the request |
| HeapOps.FreeCorrect | src/heap.c:306-326 | free ends exactly the block it is given and keeps the invariant |
| HeapRuns.InitInv | src/heap.c:241-281 | heap_init gives a consistent heap without live blocks |
| HeapRuns.ReallocCorrect | src/heap.c:337-370 | realloc fails exactly if the block must grow and no larger one can be had, and then the old block stays; else only the result changes |
| HeapRuns.ReachesInv | src/heap.c:283-370 | the invariant holds after every run of malloc, free and realloc from heap_init |
| HeapRuns.RunsKeepBlocksApart | src/heap.c:283-370 | after every run the live blocks are pairwise disjoint and behind the metadata pages |
| HeapRuns.SlabsEverywhere | src/heap.c:142-239 | after every run each slab's free list is duplicate-free and in range, free plus in use is the capacity, and the slab is on full or partial exactly as its count says |
| HeapRuns.NothingLive | src/heap.c:186-239 | a heap without live blocks is the initial heap |
| HeapRuns.NoLeaks | src/heap.c:186-239 | after any run, no live blocks exactly if the heap is as heap_init left it |
| HeapClient.SizeClasses | src/heap.c:20-22 | sizes double from 16 to 2048, with 253, 126, 63, 31, 15, 7, 3 and 1 objects a page |
| HeapClient.UsableIs | src/heap.c:290-301 | a small block is less than twice the request or 16 bytes, a large one whole pages and less than a page more than the request |
| HeapClient.InitFree | src/heap.c:253-269 | exactly the pages that hold a byte of the metadata, four bytes a page, are taken at the start |
| HeapClient.LiveAligned | src/heap.c:123-134 | every block is aligned to 8 bytes, and those above 2048 bytes to pages |
| HeapClient.FreePageIff | src/heap.c:202-221 | a page is free exactly if it holds no metadata and no byte of a live block |
| HeapClient.LargeFails | src/heap.c:78-99 | a request above 2048 bytes fails exactly if no run of as many adjacent pages is clear of live blocks and metadata |
| HeapClient.SmallFails | src/heap.c:142-154 | a smaller one fails exactly if no page is clear of them and every page with blocks of its class is full |
| HeapClient.Reuse | src/heap.c:195-200 | an object freed into a full slab, or into the first partial one, is handed out next, and the heap is as before |
| HeapBlocks.BlockIsUser | src/heap.c:38-45 | no byte of a live block is metadata, slab header or part of a free object |
| HeapSteps.UnlinkRep | src/heap.c:204-219 | the unlink writes take one node out of a doubly linked list in memory and leave every other list, slab and page as it was |
| HeapSteps.PushRep | src/heap.c:156-159 | the push writes put a slab in front of a list in memory, likewise |
| HeapClass.Heap.HeapInit | src/heap.c:241-281 | the heap begins at the lowest page boundary not below start and has all whole pages up to start + size; memory represents the initial heap there, in which exactly the pages without metadata are free; nothing outside the metadata is written |
| HeapClass.Heap.Emptied | src/heap.c:262-277 | once all blocks are freed, the metadata bytes and cache heads in memory are as after heap_init |
| HeapClass.Heap.FindRun | src/heap.c:79-96 | the scan finds the lowest free run of that length, or none exists |
| HeapClass.Heap.AllocPagesBackend | src/heap.c:78-99 | on memory: the lowest free run is marked with its kind and length, or nothing changes |
| HeapClass.Heap.FreePagesBackend | src/heap.c:101-114 | on memory: exactly the pages of the run become free |
| HeapClass.Heap.SlabInitPage | src/heap.c:116-140 | header and free chain of a page represent a slab with all objects free in address order |
| HeapClass.Heap.Unlink | src/heap.c:167-173 | the list loses exactly that slab |
| HeapClass.Heap.Push | src/heap.c:175-180 | the list gains exactly that slab, in front |
| HeapClass.Heap.CacheAlloc | src/heap.c:142-184 | on memory: does what the heap value does, never takes the slabs_free branch, and keeps all client bytes |
| HeapClass.Heap.CacheFree | src/heap.c:186-239 | on memory: does what the heap value does, never finds a wrong magic, and touches no other block's bytes |
| HeapClass.Heap.FindCache | src/heap.c:291-296 | the loop finds the smallest class that fits |
| HeapClass.Heap.Malloc | src/heap.c:283-304 | on memory: NULL exactly when exhausted; else one more block, aligned and of the size that serves the request, while all others keep their bytes |
| HeapClass.Heap.Free | src/heap.c:306-326 | on memory: exactly the given block goes, all others keep their bytes |
| HeapClass.Heap.OldSize | src/heap.c:344-359 | what realloc reads as the old size is the usable size of the block |
| HeapClass.Heap.Realloc | src/heap.c:337-370 | on memory: the block stays, or its whole contents begin the new block, or NULL comes back and nothing changed; for NULL it allocates, for size 0 it frees; in every case all other blocks keep their bytes |
| HeapClass.Heap.ClientStore | src/heap.c:283-304 | a client's write inside its block changes that block's contents only and no allocator data |
| HeapClass.Heap.ContentsAre | src/heap.c:283-304 | a block's contents are the bytes of memory at its address, inside the heap and behind the metadata |
| HeapRep.SlabBytes | src/heap.c:37-45 | the fields of a slab header in memory, byte offset by byte offset, up to the first object at 40 |
| HeapRep.NodeBytes | src/heap.c:37-40 | the two list links in a slab header |
| HeapRep.PageBytes | src/heap.c:24-33 | type and count of a page in the metadata |
| Bits.TopBit | src/pthread.c:393 | the highest set bit, which is 31 minus the count of leading zeros |
| Bits.BitFacts | src/pthread.c:172-197 | setting or clearing a bit of the word leaves every other bit alone |
| SchedSpec.CreateInv | src/pthread.c:301-305 | a new task above IDLE ends the queue of its priority, and nothing else changes; every task above IDLE stays in exactly one queue or on one core |
| SchedSpec.YieldInv | src/pthread.c:383-412 | so does a yield |
| SchedSpec.YieldPicksOldest | src/pthread.c:383-412 | a yield runs, among all ready tasks including the yielder, the one of highest priority that has waited longest; with none ready the yielder stays; the other cores keep their tasks |
| SchedSpec.CreateAged | src/pthread.c:301-305 | waiting times stay in queue order when a task is created |
| SchedSpec.RunsPickOldest | src/pthread.c:383-412 | after every run of creations and yields from empty queues, the next yield runs the ready task of highest priority that queued up first, the times being those of the run itself |
| SchedSpec.IdleNeverRuns | src/pthread.c:268-274 | a task created with IDLE priority, which the attribute setter allows, never runs |
| SchedSpec.StillWaits | src/pthread.c:390-412 | with nothing above priority p, the task at position i of queue p is on no core while at most i yields have completed over all cores |
| SchedSpec.BoundedWaiting | src/pthread.c:390-412 | the (i+1)-th completed yield, by whatever core, makes it current |
| SchedSpec.RoundRobin | src/pthread.c:383-412 | on one core k yields turn the ring of equal-priority tasks by k places and touch no other queue; a full turn restores everything |
| SchedulerClass.Scheduler.SchedInit | src/pthread.c:208-242 | empty queues, one core running the boot task |
| SchedulerClass.Scheduler.InitSecondary | src/pthread.c:516-535 | one more core with an IDLE task; queues and other cores unchanged |
| SchedulerClass.Scheduler.Append | src/pthread.c:159-170 | the link writes append the task to the doubly linked list and leave other lists alone |
| SchedulerClass.Scheduler.Enqueue | src/pthread.c:158-173 | the links, ends and bitmap represent the queue with the task at its end |
| SchedulerClass.Scheduler.Cut | src/pthread.c:179-194 | the link writes take the task out of its list wherever it stands |
| SchedulerClass.Scheduler.Dequeue | src/pthread.c:176-199 | the links, ends and bitmap represent the queue without the task; a task on no queue changes nothing |
| SchedulerClass.Scheduler.RotateQueue | src/pthread.c:365-371 | the head goes to the end; shorter queues stay |
| SchedulerClass.BitsTop | src/pthread.c:392-395 | the bitmap's top bit is the highest queue with a task, so the clamp to COUNT - 1 never acts |
| SchedulerClass.Scheduler.Pick | src/pthread.c:390-400 | the head of the highest queue with a task, else the core's own current task |
| SchedulerClass.Scheduler.Yield | src/pthread.c:383-412 | on task objects: does exactly the yield on queues, leaving waiting tasks ready and current tasks running, and every other task's state as it was |
| SchedulerClass.Scheduler.PthreadCreate | src/pthread.c:266-305 | on task objects: the priority is the attribute's for each value 0 to 4 the setter admits, 2 without an attribute, 0 for an idle task; above 0 the task ends the queue of that priority |
| Smp.StepInv | src/pthread.c:116-155 | every step of every core, in any interleaving, keeps the invariant of the lock, the queues and the saved contexts |
| Smp.RunInv | src/pthread.c:373-416 | it holds in every state of every run of any number of cores and tasks |
| Smp.BootedInitial | src/pthread.c:208-242 | a machine of any number of cores, as it comes up, is a start of such a run |
| Smp.NotStuck | src/pthread.c:116-155 | in every reachable machine each core has an enabled step, or waits for a lock whose holder has one |
| Smp.HolderAdvances | src/pthread.c:383-416 | each step of the holder of the lock brings it nearer to the release, which it reaches after at most 47 |
| Smp.NoTaskTwice | src/pthread.c:383-412 | no task is current on two cores, and no task's registers are on two cores |
| Smp.NoEarlyLoad | src/switch.S:10-38 | while a core loads a context no core is still storing into it, and it is complete |
| Smp.NeverLost | src/switch.S:40-43 | the final jump of a switch goes to the end of sched_yield or to ret_from_fork |
| Smp.ResumesWhereItStopped | src/switch.S:9-40 | a task is resumed, on whatever core, with exactly the registers it was switched out with |
| Smp.StartsWhereCreated | src/pthread.c:296-299 | a new task starts, on whatever core, with exactly the context pthread_create gave it |
| Smp.LockDiscipline | src/pthread.c:373-416 | acquisitions and releases of the lock alternate; each is released once, by the same core, at the end of pthread_create, at the end of sched_yield or in ret_from_fork; no task goes through ret_from_fork twice |
| Smp.LogPrefix | src/pthread.c:116-142 | what the lock history says once it says for good |
| Smp.Refines | src/pthread.c:383-412 | each step completes one whole yield or creation on the queues, or changes nothing between calls |
| Smp.RunsAtomically | src/pthread.c:373-416 | from any state of an interleaved run to any later one the queues go as some sequence of whole yields and creations does, one yield for each pick in between |
| Smp.WaitsInterleaved | src/pthread.c:390-412 | in every interleaving, with nothing above priority p, the task at position i of queue p still waits, on no core, while at most i yields have completed over all cores |
| Smp.RunsInterleaved | src/pthread.c:390-412 | and the next pick, by whatever core, makes it current |
| SmpCalls.YieldTakesEffect | src/pthread.c:373-416 | a core that called sched_yield and is back at its work has made one whole yield in between |
| SmpCalls.CreateTakesEffect | src/pthread.c:301-311 | a core that called pthread_create for a task above IDLE and is back at its work has queued that task with that priority in between |
| SmpCalls.YieldKeepsRegisters | src/pthread.c:373-416 | a task that calls sched_yield comes back, on whatever core and after whatever else ran, with every saved register as it was, but for the link register, which the call itself overwrites |
| PmmSpec.FramesBelow | src/pmm.c:65 | exactly the frames that begin below the end of the reserved part |
| PmmSpec.InitInv | src/pmm.c:38-75 | after pmm_init a frame is free, once, exactly if its count is 0, and free and used frames add up |
| PmmSpec.InitReserves | src/pmm.c:43-68 | no free frame holds a byte of the kernel, of the frame stack (four bytes a frame from the next page boundary on) or of the counts behind it (one byte a frame) |
| PmmSpec.InitFree | src/pmm.c:43-72 | and exactly the frames that begin behind the counts are free |
| PmmSpec.IndexOfAddress | src/pmm.c:22-25 | every byte of RAM has the number of its page, every other address none |
| PmmSpec.AllocCorrect | src/pmm.c:96-111 | an allocation returns a frame nobody held, now with count 1, or 0 exactly if none is free, which without marked regions means that every frame is held |
| PmmSpec.RoomFor | src/pmm.c:120-126 | by pigeonhole the unguarded push of a last reference stays within the stack |
| PmmSpec.FreeInvIff | src/pmm.c:113-140 | freeing keeps the invariant exactly if the address is outside RAM, the frame is not free, or all frames are free; free and used frames add up in any case |
| PmmSpec.DoubleFree | src/pmm.c:131-139 | a frame freed twice is on the stack twice |
| PmmSpec.IncRefInvIff | src/pmm.c:31-36 | taking a reference keeps the invariant exactly if the frame is not free or the address is outside RAM |
| PmmSpec.FreeAlloc | src/pmm.c:103-127 | the frame freed last is the next one handed out, and everything is as before |
| PmmSpec.AllocFree | src/pmm.c:103-127 | an allocation that is freed at once leaves everything as before |
| PmmSpec.IncFree | src/pmm.c:31-36 | a free takes back a reference exactly below 255; at 255 a further reference is lost |
| PmmSpec.InRegionIff | src/pmm.c:78-84 | a region's frames are those that overlap it, if it begins in RAM |
| PmmSpec.MarkInv | src/pmm.c:77-94 | marking a region keeps the invariant; afterwards the stack holds every unheld frame exactly if it did before and none of the region was free |
| PmmSpec.RunsInv | src/pmm.c:96-140 | the invariant holds after every run that frees and shares only held frames; without marked regions a frame is free exactly if its count is 0 |
| PmmSpec.ReturnsWhenUsedUp | src/pmm.c:120-126 | over every such run a held frame's count is what is left of its references, and it returns exactly when they are used up |
| PmmSpec.AllocsDescend | src/pmm.c:103-110 | as long as only allocations happened, k allocations return k adjacent frames in descending order |
| PmmClass.Pmm.PmmInit | src/pmm.c:38-75 | for every size of RAM: exactly the whole frames that begin behind kernel, frame stack and counts are on the stack, with count 0; all others have count 1 |
| PmmClass.Pmm.AllocFrame | src/pmm.c:96-111 | on the arrays: pops what the value pops |
| PmmClass.Pmm.FreeFrame | src/pmm.c:113-140 | on the arrays: does what the value does, for held and for unheld frames |
| PmmClass.Pmm.IncRef | src/pmm.c:31-36 | on the arrays: counts up to 255 |
| PmmClass.Pmm.MarkUsedRegion | src/pmm.c:77-94 | exactly the free frames of the region leave the stack, also when its end is outside RAM; counts stay |
| PmmClass.Pmm.TakeOff | src/pmm.c:85-92 | the swap-remove takes out exactly that frame |
| PageTables.DescriptorFacts | src/vmm.c:97-118 | the hardware reads back address, type and attributes from a descriptor |
| PageTables.WalkFindsPage | src/vmm.c:44-158 | the hardware walk of every 39-bit address finds exactly the page of the translation, at the same offset |
| PageTables.OneParent | src/vmm.c:44-62 | every table a walk can reach has one parent and one entry there |
| PageWrites.LinkTree | src/vmm.c:52-59 | a zeroed table in a fresh frame keeps the tree |
| VmmSpec.MapPagesAt | src/vmm.c:161-177 | mapping pages one by one maps exactly the range, in order, and leaves every other page |
| VmmSpec.NewPage | src/vmm.c:120 | one page entry changes the translation of one page |
| VmmSpec.NewBlock | src/vmm.c:157 | one block entry translates like 512 page mappings, whatever the slot held before |
| VmmSpec.InitSequenceIs | src/vmm.c:195-211 | the six overlapping mappings, one over the other, give RAM and the heap window as normal memory and the device windows as never-execute device memory, to themselves, and nothing else |
| VmmSpec.HeapInsideRam | src/vmm.c:201-202 | with at least 264 MB of RAM exactly RAM and the device windows are mapped |
| VmmRegion.BlockTest | src/vmm.c:165-167 | the loop maps by blocks exactly the 2 MB slots that the region covers wholly and congruently |
| VmmRegion.PageStep | src/vmm.c:172-174 | a page takes at most the tables its slots lack, which the bound on the whole region allows for |
| VmmRegion.BoundIs | src/vmm.c:161-177 | that bound: one table per touched 1 GB slot, plus two if virt and phys agree modulo 2 MB, else plus one per touched 2 MB slot |
| VmmClass.Vmm.GetNextTable | src/vmm.c:44-62 | the table below, or a new zeroed one in a frame that no table uses, or NULL and nothing changed |
| VmmClass.Entry | src/vmm.c:97-118 | bit by bit: bit 6 clear, bit 7 clear exactly if writable, PXN exactly for devices and on request, UXN always, index 0 exactly for devices, inner shareable, accessed, and the address |
| VmmSpec.MapsWalk | src/vmm.c:161-177 | what page-by-page mapping means for the hardware: every address of the rounded-up range is walked to its image with the access asked for, every other one as before |
| VmmClass.Vmm.MapPage | src/vmm.c:78-121 | for the hardware walk one page changes as asked and nothing else, or memory was missing and the translation stays; the frames taken are exactly the missing tables |
| VmmClass.Vmm.MapBlock | src/vmm.c:123-158 | for the hardware walk 2 MB change as asked and nothing else, like 512 page mappings, or the translation stays |
| VmmClass.Vmm.MapRegion | src/vmm.c:161-177 | the result is the page-by-page mapping of the rounded-up region, complete whenever the free frames reach the bound; and in any case every address is walked as asked or as before |
| VmmClass.Vmm.TablesAreNotFree | src/vmm.c:52-59 | no frame of a table is on the free stack |
| VmmClass.Vmm.InitVmm | src/vmm.c:179-211 | for every kernel end inside RAM and every size of RAM up to the end of the address space, for the hardware walk of every address: RAM and heap window go to themselves, read/write at EL1, normal memory; the device windows to themselves, read/write at EL1, never executed, device memory; nothing else is mapped |
| VmmClass.InitFramesIs | src/vmm.c:179-211 | 21 free frames are enough for 2 GB of RAM |
| Checksum.FoldedSum | src/net.c:142-144 | folding the plain sum at the end is one's-complement addition word by word |
| Checksum.TwoBytes | src/net.c:136-138 | two bytes make one word, the first one its high half |
| Checksum.Padding | src/net.c:139-141 | a last odd byte counts as if a zero byte followed |
| Checksum.PartsSum | src/net.c:142-144 | the sums of the parts of a message add up modulo 65535, and only zeros sum up to 0 |
| Checksum.CalculateChecksum | src/net.c:132-146 | the complemented one's-complement sum for every length up to 65535, without overflow |
| Icmp.AnswerVerifies | src/net.c:331-335 | the checksum recomputed over the answered message is 0 |
| Icmp.HeaderSumKept | src/net.c:337-340 | swapping the addresses leaves the IPv4 header checksum as valid as it was |
| Icmp.ReplyCorrect | src/net.c:328-350 | the reply verifies, goes back to the sender from this host, and returns identifier, sequence number and data |
| Icmp.FrameAnswers | src/net.c:342-352 | the frame byte by byte: to the requester's MAC from this host's, type 0x0800, addresses swapped, type 0, code and data returned, both checksums right |
| Icmp.Ipv4Handle | src/net.c:318-355 | exactly an ICMP echo request to 10.0.2.15 is answered, with that frame, and turned into the reply in place; every other packet is left alone |
| Echo.ReplyFits | src/net.c:342-352 | the reply to a request out of a 4096-byte receive buffer is, with both headers, no longer than the request was |
| Echo.HeaderGone | src/net.c:387 | the length handed on is that of the frame behind the 10-byte header |
| RingIndex.SlotOfIndexIff | src/net.c:381-395 | ring slots computed from wrapping 16-bit indices are right at every position exactly if the queue size divides 2^16 |
| RingIndex.WrapIs | src/net.c:400 | an index counts up to 65535 and on from 0 |
| RingIndex.Literally | src/net.c:381-395 | slots are remainders by the size, indices remainders by 2^16 |
| RxRing.InOnePlace | src/net.c:375-402 | every descriptor is in exactly one of: available, in flight, used, the driver's hand |
| RxRing.IndicesExact | src/net.c:378-395 | slots and index comparisons modulo 2^16 agree with the unbounded history |
| RxRing.NothingOverwritten | src/net.c:394-398 | no step of driver or device overwrites an entry that is still to be consumed |
| RxRing.StepInv | src/net.c:378-402 | every step of driver and device, with completions in any order, keeps the ring invariant |
| RxRing.RunPlaces | src/net.c:375-402 | so it is in every state of every run |
| RxRing.RunDistance | src/net.c:393-400 | between turns of the loop the available index is the queue size ahead of last_used_idx modulo 2^16 |
| RxQueueClass.RxQueue.NetRxFill | src/net.c:194-215 | descriptors get the next allocated frames and ring entries name them; the ring invariant holds exactly if there were frames for all or the queue has one entry, and every published descriptor has a buffer exactly if there was a frame |
| RxQueueClass.ShortRingCounts | src/net.c:195-211 | how often each descriptor is published when n of q frames were to be had: 0 once more for each missing one, n and above never |
| RxQueueClass.ShortFill | src/net.c:195-211 | with two frames for four entries descriptor 0 is published three times |
| RxQueueClass.FillEnds | src/net.c:195-211 | a queue filled from n frames keeps one place per descriptor exactly if n is its size or its size is 1 |
| RxQueueClass.RxQueue.PollOne | src/net.c:379-400 | one turn takes the oldest completed descriptor, its buffer and the 32-bit length of the packet behind the header, and makes it available again |
| RxQueueClass.RxQueue.NetPollRx | src/net.c:375-408 | all completed entries, as many as the index has advanced, are taken in order, each with descriptor, buffer and length of its own entry, and are available again |
| QueueLayout.InitQueue | src/net.c:148-178 | a queue the device has not changes nothing; else eight frames are taken, the parts begin at the fourth, fifth and eighth, and exactly four pages, one page and three pages from there are cleared |
| QueueLayout.HoldsEntries | src/net.c:30-52 | the three parts hold exactly the entries of the queue |
| QueueLayout.LayoutFitsIff | src/net.c:157-177 | after allocations only, exactly the eight frames are cleared, and the three parts fit their frames exactly if the queue has at most 1024 entries |
| QueueLayout.PartsApart | src/net.c:239-241 | the parts of both queues, each of its own size, and all receive buffers are pairwise disjoint |
| TxRing.SendCorrect | src/net.c:252-283 | with room in the queue a send keeps everything pending, adds one frame and keeps the indices equal |
| TxRing.OverwritesIff | src/net.c:264-265 | a send overwrites a pending descriptor exactly if a whole queue of sends is outstanding |
| TxRing.SendKeepsIff | src/net.c:252-283 | a send keeps the invariant exactly if there was room or no frame |
| TxRing.OverwriteReached | src/net.c:252-283 | from a new queue of any size, as many sends as it has entries lead, with a frame left, to a state in which one more send overwrites a pending descriptor |
| TxRing.CleanCorrect | src/net.c:410-422 | a clean-up frees the oldest pending frame |
| TxRing.Conservation | src/net.c:252-283 | over every run free frames plus frames in flight stay constant, and what was allocated is what was freed, once each and in order, followed by what is in flight |
| TxQueueClass.TxQueue.NetSend | src/net.c:252-283 | on the rings: the frame goes out behind ten zero bytes in a new frame, which the next descriptor and the next available entry name, or nothing happens without memory; the queue stays consistent exactly if there was room or no memory |
| TxQueueClass.TxQueue.CleanOne | src/net.c:414-420 | one turn frees the oldest pending frame |
| TxQueueClass.TxQueue.NetCleanupTx | src/net.c:410-422 | exactly the completed sends are freed, in order |
| Decimal.Console.Printd | src/stdio.c:79-106 | writes the decimal form, within its buffer, and returns the number of characters written |
| Decimal.Atoi | src/stdlib.c:4-35 | for blanks, an optional minus sign and digits up to anything else: the number the digits denote, negated behind the sign, wrapped to 32 bits; 0 without digits |
| Decimal.ParsedIs | src/stdlib.c:4-35 | so it is for every such reading of a string, whatever wraps on the way |
| Decimal.EveryNumeral | src/stdlib.c:9-21 | every string has such a reading |
| Decimal.LeadingBlank | src/stdlib.c:9-11 | leading spaces and tabs make no difference |
| Decimal.OtherStart | src/stdlib.c:19-21 | any other first character gives 0, and so does a sign without a digit |
| Decimal.RoundTripIff | src/stdio.c:79-106 | atoi gives back what printd wrote exactly for every integer but the smallest |
| Decimal.PrintedIs | src/stdio.c:79-106 | a minus sign for negative numbers and the digits of the absolute value, no leading zero; 0 alone, and a sign alone for the smallest integer |

## Left out

- `calloc`: its product is unchecked; nothing in the other calls depends on it.
- Memory of the heap is one field of type `seq<byte>` that every store replaces, not an array: aliasing of pointers is aliasing of addresses in it.
- `heap_lock` and calls to the heap from several cores at once: each heap call is one step. `heap_init` is a constructor.
- HeapClass.Heap.HeapInit: requires a region of at most 65535 pages, because the page count of a run has 16 bits; the code accepts larger ones and would cut counts off.
- `pthread_exit`, `pthread_join` and the reclamation of dead tasks in `sched_yield`: runs consist of creations and yields.
- SchedulerClass.Scheduler.PthreadCreate: the stack, the initial context and failing allocations are not in this contract; a failure returns before the scheduler is touched, and the context is in `Smp.StartsWhereCreated`.
- Spinning and the weak compare-and-exchange of `pthread_spin_lock`: taking the lock is one step, enabled when it is free. Memory barriers are the order of steps.
- Interrupts, which do not call the scheduler in this kernel.
- The heap region at 0x50000000 is not taken off the frame stack in `src/main.c`; that heap and frame allocator do not share memory is an assumption when the two are combined.
- RAM of 2^32 frames or more.
- PmmClass.Pmm.IncRef: requires that the address is not in the part of a page behind the last whole frame, for which `pmm_inc_ref` would go one entry past the counts.
- Virtual addresses of the upper half, which reach the same tables through TTBR1 with the same 39 bits; the walk takes 39-bit addresses.
- VmmClass.Vmm.GetNextTable: requires an entry that is empty or names a table; the code would take a block for a table.
- VmmClass.Vmm.MapPage: requires, for the same reason, that no block covers the page.
- VmmClass.Vmm.MapRegion: requires that no page of it which is not mapped by a block lies under one; `VmmClass.Vmm.InitVmm` proves this of all its regions.
- TLB, caches, MAIR, TCR, SCTLR and all other system registers; the attribute index is the one in the descriptor.
- VmmClass.Vmm.InitVmm: requires enough free frames for all tables; `init_vmm` does not check for a missing root table.
- RxQueueClass.RxQueue.PollOne: the packet handler, which is given the buffer and the length, and the clearing of the buffer's header are not part of it.
- RxQueueClass.RxQueue.NetPollRx: the device does nothing during the call; its steps in between are those of `RxRing`.
- Icmp.Ipv4Handle: an echo request must have a 20-byte header and a length field that covers an ICMP header and does not exceed what arrived; the code does not check either.
- Feature negotiation and registers of the virtio device, ARP, Ethernet dispatch, and the copy of the received frame's addresses other than into the reply.
- The fields flags and next of a transmit descriptor, which stay 0.
- TxQueueClass.TxQueue.NetSend: requires that the frame fits one page behind the header, which `Echo.ReplyFits` shows of echo replies and which the 42 bytes of ARP frames do.
- The NULL argument of `atoi`, which returns 0, and the other printers of `src/stdio.c`, among them the hexadecimal ones.
- `src/string.c`, GIC, PL031, UART, exceptions and boot code: hardware and plumbing. `memset` and `memcpy` appear where the modelled code calls them.
