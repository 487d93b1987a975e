# Bonsai-os, modelled and verified

A Dafny model of the kernel's memory management, scheduler, semaphores, serial input, heap, FAT32 reader, number
printing and console. Where the kernel changes things in place, a class or a method over arrays does the same and is
proved against a function of the old state; the theorems are about those functions and about runs of the resulting
machines.

- **Memory** (`PageTable`, `Mapping`, `Areas`, `TaskStruct`, `Fork`, `ForkTheorems`, `MemoryRuns`, `Census`,
  `MemoryManager`, `PageMapper`, `MemoryInterleaving`, `InterleavingProofs`, `InterleavingRuns`, `MappingAlone`,
  `ForkPieces`, `EntryBits`, `FrameRecords`, with `Bits` for the word operations and `FirstFit`). Physical memory is
  one descriptor and one page of 512 words per frame. A position of the forest of page tables is a path: the root of a
  task, or an entry below a position. The invariant says that a labelling of frames by positions inverts the hardware
  walk, for all tasks at once; from it follow isolation, the meaning of a fork, and the census of frames. Each
  operation is first one step; then map_page is taken apart at its lock regions and stores, and cores stand at any
  point of it at once, each for a task of its own; undisturbed, the parts give the one step again, and a fork made of
  such parts, with other cores in between, still copies what the parent reads. `EntryBits` reads the table words bit
  by bit. The layout is VMSAv8-64 with a 4 KB granule (section D5.3 of the Arm Architecture Reference Manual).
- **Scheduler** (`Scheduler`, `SchedulerProofs`, `SchedulerRuns`, `SchedulerFates`, `SchedulerRecovery`,
  `SchedulerTurns`, `SchedulerExact`, `SchedulerTicks`, `SchedulerLives`). Any number of cores and tasks. Each region
  under the scheduler lock is one step; a switch is three: claim, `current_task = next`, and `on_cpu = -1` with the
  stacks exchanged. Timer ticks, forks, exits, sleeps and wake-ups interleave freely, and a tick may come at any step,
  also where the kernel has interrupts masked. Index `c` below the number of cores is the idle task of core `c`, which
  is on no run list. `SchedulerExact` says for every state which waiting tasks can run again without outside help; the
  last two files follow a slice to its end and a task from its fork to its exit.
- **Semaphores and serial input** (`LinkedList`, `Semaphore`, `WaitingTasks`, `RingBuffer`, `Uart`). The list on the
  heap, the semaphore as a machine of locked regions, the same machine joined with the scheduler, the ring buffer with
  its 32-bit arithmetic, and the pipeline of interrupt handler, ring, semaphore and readers.
- **Heap** (`Bitmap`, `Kmalloc`). A bitmap of 64-bit words, headers inside the pool, and what callers may rely on.
- **FAT32** (`Fat32`, `Fat32Layout`, `Fat32Reader`, `Fat32Listing`, `Fat32Names`, `Strings`). Reads, directories and
  8.3 names on an immutable disk (Microsoft FAT32 File System Specification 1.03, "FAT Data Structure" and "FAT 32
  Byte Directory Entry Structure").
- **Text** (`Digits`, `Printf`, `PrintfMeaning`, `LineEditor`, `LineTyping`, `ConsoleSession`). Digits both ways, the
  format interpreter, the editor with its terminal, where every byte but backspace, return and line feed takes one
  cell, and whole console sessions.

`Basics` holds shared types. `dafny verify dfyconfig.toml` checks everything.

Findings where the code does not do what one might expect. Each has a lemma that says for all inputs when the code
does and when it does not:

- A task can leave `sem_wait` still marked TASK_WAITING, iff two tasks use the semaphore (`Semaphores.LeavesWaiting`,
  and `UartPipeline.ReadersLeave` for the serial line).
- A RUNNING task can be left for good: its counter goes below 0 when a tick arrives inside `_schedule`, no scan takes
  a negative counter, and only a choice whose largest counter is 0 recharges. In any state it can come back without a
  fork or a wake-up iff two tasks can alternate (`SchedulingExact.TaskExact`; `IdleExact` for a machine with every
  listed task off-cpu; `StrandsTask` leads there from boot). A task that a semaphore has woken is no exception
  (`WaitingTasks.SignalledRuns`).
- The ring buffer's count is right exactly for capacities up to 2^31 (`RingBuffers.CountExact`).
- The FAT cache misleads exactly for a FAT that starts at 2^32 - 2^21 or above on a disk of 2^32 sectors or more
  (`Fat32Reader.CacheExact`).
- A decimal field width that runs into the letter `a` takes it for ten (`DigitStrings.LetterAsDigit`,
  `PrintfFormat.WidthsExact`).
- A shown 8.3 name finds its entry for exactly the names of `ShortNames.RoundTripExact`; one with a lower-case letter
  or an inner blank, which the listing shows, is not found.
- `kmalloc` gives NULL or as many bytes as asked for, of the caller's own, iff that is at most a page; for more it
  gives one page, or an address that is not NULL when there is none (`KernelHeap.SizesExact`).
- A directory whose end mark comes before any live entry lists as nothing at all, without the note that it is empty
  (`Fat32Listings.EmptyListing`).
- On an empty line the delete character is not a backspace but is inserted (`LineEditing.DeleteIsBackspace`).

## Model

| member | source | states |
|---|---|---|
| Bits.AndLowMask | src/mm/mm.c:121-122 | masking a word with 2^k - 1 is the remainder modulo 2^k, for every k: the table index and the bit number |
| Bits.AndHighMask | src/mm/mm.c:142-142 | masking with the complement drops exactly the low k bits of an n-bit word: PAGE_MASK |
| Bits.OrShifted | src/fs/fat32.c:8-20 | or-ing a value that fits below k with one shifted up by k adds the two: le16, le32 and the cluster of an entry |
| PageTables.NodeLinked | src/mm/mm.c:120-143 | writing one entry for a frame no table refers to moves exactly one position of the whole forest of all tasks, and no other |
| PageTables.ForestTable | src/mm/mm.c:127-143 | a frame outside the forest linked below an empty entry keeps the forest: one entry per table frame, flags by level, well-formed entries, kernel_pages exact |
| PageTables.ForestRoot | src/mm/mm.c:147-150 | taking a frame outside the forest as pgd keeps it; the root stays a kernel frame |
| PageTables.ForestLeaf | src/mm/mm.c:120-125 | mapping a user frame that nothing maps, over an empty or a used entry, keeps the forest |
| PageTables.ForestFrame | src/mm/mm.c:210 | writes to frames that are no tables keep the forest |
| PageTables.ForestFlag | src/mm/mm.c:111-118 | changing the descriptor of a frame outside the forest keeps it |
| Mapping.SamePage | src/mm/mm.c:153-165 | two addresses take the same way through the tables iff task and bits 12..47 agree |
| Mapping.MapPageCorrect | src/mm/mm.c:145-166 | with a free frame for every missing table, map_page makes the address lead to the given frame; every other page of every task, every other used frame and every other mm stay as they were; exactly the missing tables are taken and recorded |
| Mapping.MapPageUpdates | src/mm/mm.c:145-190 | as a map from task and page number (bits 12..47) to frame, the tables of all tasks change in exactly one place |
| EntryBits.EntryMeans | src/mm/mm.c:120-140 | below bit 12 a leaf entry has exactly bits 0, 1, 2, 6, 8, 9 and 10 set (valid page, AttrIndx 1, EL0, inner shareable, accessed) and a table entry exactly bits 0 and 1; from bit 12 on both are the address of the frame |
| EntryBits.WordsInTables | src/mm/mm.c:120-166 | in every good state each word of each table of each task is 0, with nothing below it, or has that form for its level and the frame below it |
| EntryBits.MappedWord | src/mm/mm.c:120-166 | after map_page the word for the address is the leaf word of the frame |
| Mapping.CountPositive | src/mm/mm.c:66-77 | a frame with a flag exists iff the count for the flag is positive |
| Fork.AllocUserCorrect | src/mm/mm.c:50-62 | the page obtained is the first free frame, zeroed, flagged user, and mapped at the address, with the effect of map_page and nothing else |
| Fork.NodesDistinct | src/mm/mm.c:120-166 | no two positions of any tasks, table or leaf, lead to the same frame |
| Fork.StoreIsLocal | src/mm/mm.c:170-190 | a store through one task's tables is read back at that word of that page of that task, and seen nowhere else by any task |
| Fork.CopyPagesCorrect | src/mm/mm.c:200-212 | the copy loop over any list of distinct pages: every mapped page is copied into a fresh user frame of the child, no other page of the child changes, and all other tasks keep their pages |
| ForkTheorems.ForkMapsTheSame | src/mm/mm.c:192-214 | into an mm without tables, the child maps a page iff the parent maps it and it lies in the parent's areas; then in a frame that was free, with the parent's words |
| ForkTheorems.ForkCopiesMeaning | src/mm/mm.c:192-214 | every word the parent reads in its areas reads the same in the child, and nothing else is readable there |
| ForkTheorems.ForkIsolates | src/mm/mm.c:192-214 | copying, complete or cut short by E_NOMEM, keeps the forest, changes no word any task but the child can read, and gives the child the areas of the parent |
| ForkTheorems.RoomSuffices | src/mm/mm.c:200-212 | free frames for the mapped pages and the distinct missing tables, and record slots for the tables, let the copy run to completion |
| MemoryRuns.StepKeeps | src/mm/mm.c:13-285 | every allowed operation (allocation, release, fault, fork copy, areas, stores), run without interruption, keeps forest and areas, and every word that tasks other than its subject can read; releases and kernel stores go to kernel frames that are neither tables nor pages of tasks |
| MemoryRuns.BootInv | src/mm/mm.c:10 | with all frames free and no task the invariant holds |
| MemoryRuns.RunKeepsInv | src/mm/mm.c:13-285 | the invariant holds after every run |
| MemoryRuns.RunIsolates | src/mm/mm.c:13-285 | after any run not aimed at a task, that task reads the same words |
| InterleavingProofs.AdvanceUnseen | src/mm/mm.c:64-166 | map_page taken apart at every lock region and store (frame taken, zeroed, flagged, linked, recorded), with cores at any point of it for other tasks: no part of it before the last store changes a word any task can read, and each keeps the forest up to the bookkeeping still open |
| InterleavingProofs.LastStore | src/mm/mm.c:120-125 | the last store makes exactly the page at the address readable for its task, all zeros, and changes nothing else anybody reads |
| InterleavingRuns.MoveKeeps | src/mm/mm.c:13-285 | any part of any mapping, and any other operation in between, keeps that invariant and every word that tasks other than its subject can read |
| InterleavingRuns.RunSound | src/mm/mm.c:13-285 | the invariant holds after every interleaving |
| InterleavingRuns.RunIsolates | src/mm/mm.c:13-285 | after any interleaving of mappings, faults, copies and releases not aimed at a task, that task reads the same words |
| InterleavingRuns.IdleInv | src/mm/mm.c:13-285 | from boot, whenever no mapping is in progress, the page tables are a forest and flags and kernel_pages are exact |
| ForkPieces.ForkInPieces | src/mm/mm.c:192-214 | copy_virt_memory taken apart at every part of every mapping and at every word stored, with any moves of other tasks in between that are not aimed at parent or child: the child ends with the words of the parent on exactly the pages copied, and the parent reads what it read |
| ForkPieces.ForkedChild | src/mm/mm.c:192-214 | so the child of a fork, without tables before, reads the words of the parent in its areas and nothing else, whatever other cores do |
| MappingAlone.MapAlone | src/mm/mm.c:127-166 | the parts of map_page, undisturbed, lead to exactly the state of map_page as one step |
| MappingAlone.AllocAlone | src/mm/mm.c:50-80 | with room and no other mapping in progress, the parts of allocate_user_page lead to exactly the state of the one step |
| Census.ReferencedOnce | src/mm/mm.c:127-143 | a frame below a table entry is referred to by no other entry of any table of any task |
| Census.RootUnreferenced | src/mm/mm.c:145-152 | no table entry leads to a pgd |
| Census.FlagOfNode | src/mm/mm.c:50-166 | roots are kernel frames, inner tables page-table frames, mapped pages user frames; none is free |
| Census.KernelPagesExact | src/mm/mm.c:147-164 | kernel_pages lists exactly the table frames of a task, none twice, the root first |
| Census.PageTableCount | src/mm/mm.c:127-164 | the number of page-table frames is the sum over tasks of kernel_pages_count without the root |
| Census.CountsAddUp | src/mm/mm.c:13-40 | free, kernel, user and page-table frames are all frames |
| Census.RunCensus | src/mm/mm.c:13-40 | after every run from boot the counts add up and the page-table count equals the recorded tables |
| FrameRecords.RunRecorded | src/mm/mm.c:64-118 | after every run a frame is free with reference count 0, or in use with reference count 1 and owner -1 |
| Areas.AddKeepsGood | src/mm/mm.c:250-257 | appending an area keeps areas non-empty, aligned and disjoint iff the half-open test finds no overlap |
| MemoryRuns.AddToMeans | src/mm/mm.c:246-258 | an area is added iff there is room and it shares no address with another |
| Areas.OverlapMeans | src/mm/mm.c:251 | the half-open test holds iff the areas share an address |
| Areas.RemovedIs | src/mm/mm.c:270-285 | removal deletes exactly the area with that start and keeps the order of the rest, or changes nothing |
| Areas.FindUnique | src/mm/mm.c:261-268 | with disjoint areas the area found is the only one that contains the address |
| Areas.AllPagesAre | src/mm/mm.c:200-203 | the copy loop visits exactly the page-aligned addresses inside the areas, each page once |
| TaskStructs.TaskStruct.VmaAdd | src/mm/mm.c:241-259 | E_NOMEM iff full, E_INVAL iff some area shares an address, otherwise appended; a failed call changes nothing; areas stay disjoint |
| TaskStructs.TaskStruct.VmaFind | src/mm/mm.c:261-268 | the first area containing the address, or none |
| TaskStructs.TaskStruct.VmaRemove | src/mm/mm.c:270-285 | exactly the area with that start leaves the list; order and disjointness stay |
| MemoryManager.PhysicalMemory.GetFreePage | src/mm/mm.c:64-80 | the leftmost free frame becomes a zeroed kernel frame, nothing else changes; 0 iff no frame is free |
| MemoryManager.PhysicalMemory.GetFreePages | src/mm/mm.c:82-109 | the leftmost run of n free frames is claimed and zeroed, exactly these; 0 iff there is none or n <= 0 |
| MemoryManager.PhysicalMemory.FreePage | src/mm/mm.c:111-118 | exactly one descriptor becomes free |
| MemoryManager.PhysicalMemory.GetMemStats | src/mm/mm.c:13-40 | each count is the number of frames with that flag, and free is the number of free frames |
| MemoryManager.IndexBits | src/mm/mm.c:128-129 | shift and mask select the table index of each level |
| PageMapper.MapTable | src/mm/mm.c:127-143 | the next table, allocated, zeroed, flagged and linked when the entry is empty |
| PageMapper.MapTableEntry | src/mm/mm.c:120-125 | the one leaf entry gets the frame and the MMU flags |
| PageMapper.Map | src/mm/mm.c:145-166 | map_page run on memory and task record ends in the state the specification of map_page gives |
| PageMapper.PtWalk | src/mm/mm.c:170-190 | the physical address of the frame the tables lead to, 0 iff they lead nowhere |
| PageMapper.AllocateUserPage | src/mm/mm.c:50-62 | ends in the state of the specification; 0 iff no frame is free |
| PageMapper.CopyVirt | src/mm/mm.c:192-214 | ends in the state of the specification; E_OK iff that copy completes, E_NOMEM otherwise |
| PageMapper.DoMemAbort | src/mm/mm.c:216-239 | E_INVAL iff not a translation fault in an area, E_NOMEM iff no frame, else the page is mapped; new state as specified |
| PageMapper.FaultBits | src/mm/mm.c:218-221 | the two masks accept exactly the fault status codes 0b0001xx |
| PageMapper.FaultCode | src/mm/mm.c:216-239 | a fault gets E_INVAL iff it is no translation fault or no area contains its page, E_NOMEM iff every frame is in use then; in both cases nothing changes |
| PageMapper.FaultServed | src/mm/mm.c:216-239 | otherwise the task reads a page of zeros at the address, and no other task reads anything different |
| Scheduling.ScanIsBest | src/kernel/sched.c:89-96 | the scan returns the first task of the list with the largest counter >= 0 among those RUNNING and off-cpu, none iff there is none |
| Scheduling.SelectIs | src/kernel/sched.c:88-105 | with positive priorities one recharge is enough; the winner then has a positive counter, and exists iff some eligible task did |
| Scheduling.RechargeMeans | src/kernel/sched.c:100-104 | a recharge leaves half of the counter, rounded down, and the priority, and changes nothing else; larger counters and priorities give no less, and the range up to twice the priority is kept |
| SchedulingProofs.StepKeeps | src/kernel/sched.c:59-177 | every step of every core keeps the invariant: currents and stacks on the core they name, claims on parked tasks, preempt_count matching, counters bounded |
| SchedulingProofs.TickKeeps | src/kernel/sched.c:139-150 | a tick at any moment keeps the invariant |
| SchedulingProofs.PickKeeps | src/kernel/sched.c:87-111 | the locked choice and claim keep it |
| SchedulingProofs.SetCurrentKeeps | src/kernel/sched.c:125-129 | the first half of a switch keeps it |
| SchedulingProofs.SwitchOutKeeps | src/kernel/sched.c:130-131 | the second half of a switch keeps it |
| SchedulingProofs.ForkKeeps | src/kernel/fork.c:34-48 | a forked task, with preempt_count 1 and off-cpu, keeps it |
| SchedulingProofs.SwitchToIdleKeeps | src/kernel/sched.c:152-157 | leaving for the idle task keeps it |
| SchedulingProofs.ClaimableParked | src/kernel/sched.c:92-108 | whatever may be claimed is saved in cpu_switch_to with preempt_count >= 1 |
| SchedulingRuns.CurrentsDistinct | src/kernel/sched.c:125-132 | in every reachable state current tasks and executing stacks of two cores differ, and each names its core in on_cpu |
| SchedulingRuns.ClaimableNotPreemptible | src/kernel/sched.c:66-75 | in every reachable state claimable tasks have preempt_count >= 1, nobody is twice in _schedule, and counter <= 2 * priority |
| SchedulingRuns.NoReentry | src/kernel/sched.c:139-150 | a tick inside _schedule or a switch changes one counter and nothing else |
| SchedulingRuns.ResumesSaved | src/kernel/sched.c:125-157 | a core only continues on a stack that was saved inside cpu_switch_to or is new |
| SchedulingRuns.NoTaskLost | src/kernel/sched.c:92-131 | every task executes, is claimed by the core it names, is an idle task at rest, may be taken by a scan, waits, is dead, or is RUNNING off-cpu with a negative counter, which no scan takes |
| SchedulingRuns.PickChooses | src/kernel/sched.c:87-111 | what a core claims is the best task of the list; no claim iff no task is eligible |
| SchedulingFates.ZombieNeverReturns | src/kernel/sched.c:159-177 | a zombie that is off every core is never current or executed again, in any run |
| SchedulingFates.LowStep | src/kernel/sched.c:88-105 | a negative counter of an off-cpu task changes only in a choice whose largest counter is 0, then to half of it plus the priority; any other step of any core leaves task and counter alone |
| SchedulingFates.LowUntilRecharge | src/kernel/sched.c:88-150 | such a task is neither claimed nor executed in any run until a choice recharges |
| SchedulingExact.TaskExact | src/kernel/sched.c:80-150 | for every state of the invariant, whatever the cores are doing: a RUNNING off-cpu task gets onto a core in some run without fork or wake-up iff its counter is at least 0 or two tasks can alternate: two ready ones, a ready one and one on a core, a ready one with counter 0 and one that one recharge lifts to at least 0, or one about to park with a counter of at least 0 |
| SchedulingExact.IdleExact | src/kernel/sched.c:88-111 | with every listed task off-cpu, one left with a negative counter runs again iff two are ready, or one is ready with counter 0 and some RUNNING one has counter / 2 + priority >= 0 |
| SchedulingExact.ChoiceExact | src/kernel/sched.c:80-131 | in some run without fork or wake-up a choice finds a task iff one is ready now, or one is about to park with a counter of at least 0 |
| SchedulingExact.StrandsTask | src/kernel/sched.c:115-177 | from boot, on any number of cores, a run of two forks and one tick inside _schedule leads to a RUNNING saved task that no run without fork or wake-up ever takes |
| SchedulingTurns.TurnsRecover | src/kernel/sched.c:80-137 | while one task works and another is ready, they take turns until any given RUNNING off-cpu task, however low its counter, is on a core |
| SchedulingRecovery.NeverRun | src/kernel/sched.c:80-177 | with no such pair of tasks none ever arises: the task left is left in every such run |
| SchedulingRuns.RunExtends | src/kernel/sched.c:59-177 | an enabled step of a good state is a run of length one: no step is cut off by a dangling reference |
| SchedulingTicks.TickMeans | src/kernel/sched.c:139-150 | a tick resets the counter to 0 and enters _schedule, with preemption disabled, iff the counter is at most 1 and preempt_count 0; in every other case it takes one off the counter; nothing else changes |
| SchedulingTicks.SliceEnds | src/kernel/sched.c:139-150 | with preemption enabled the ticks before the last of max(counter, 1) only count, the last one brings the core to a choice, and that takes a task if one is ready |
| SchedulingTicks.DisabledCounts | src/kernel/sched.c:66-75 | after preempt_disable any number of ticks only count; preempt_enable undoes preempt_disable |
| SchedulingLives.ForkMeans | src/kernel/fork.c:34-48 | a fork appends one RUNNING off-cpu task with the priority of its parent, a counter of that priority and preempt_count 1, changes nobody else, and some run without further help takes the new task |
| SchedulingLives.SleepAndWake | src/lib/semaphore.c:29-55 | a wake-up, on any core, undoes falling asleep and leaves no other trace |
| SchedulingLives.ExitCompletes | src/kernel/sched.c:152-177 | a task that exits gives its core to a ready task or to the idle task, and is then a zombie off every core, for good by ZombieNeverReturns |
| SchedulingRuns.Scheduler.Choose | src/kernel/sched.c:88-105 | the loop ends after at most two passes with the specified records and winner |
| SchedulingRuns.Scheduler.PickNext | src/kernel/sched.c:80-111 | the best task of the list is claimed by writing on_cpu, and nothing else but recharged counters changes; without one, nothing is claimed |
| SchedulingRuns.Scheduler.TimerTick | src/kernel/sched.c:139-150 | one tick off the current task; only at counter <= 0 with preemption enabled is the counter reset and _schedule entered; the invariant stays |
| SchedulingRuns.Scheduler.SwitchTo | src/kernel/sched.c:125-129 | current_task becomes the claimed task while the old stack still runs; the invariant stays |
| SchedulingRuns.Scheduler.FinishSwitch | src/kernel/sched.c:130-131 | the old task goes off-cpu, parked, and the core continues on the claimed task's stack; the invariant stays |
| SchedulingRuns.Scheduler.CopyProcess | src/kernel/fork.c:34-48 | the child is appended RUNNING, off-cpu, with its parent's priority as counter and preempt_count 1; the invariant stays |
| SchedulingRuns.Scheduler.PreemptDisable | src/kernel/sched.c:66-70 | preempt_count of the current task rises with the nesting of its own code; the invariant stays |
| SchedulingRuns.Scheduler.PreemptEnable | src/kernel/sched.c:72-75 | preempt_count falls back with the nesting; the invariant stays |
| SchedulingRuns.Scheduler.GiveUpSlice | src/kernel/sched.c:118-120 | only the current task's counter changes, to 0; the invariant stays |
| SchedulingRuns.Scheduler.BeginSchedule | src/kernel/sched.c:80 | preemption is off from the first statement of _schedule on; the invariant stays |
| SchedulingRuns.Scheduler.LeaveSchedule | src/kernel/sched.c:115-136 | a resumed or a new task gives back the preempt_count it was parked with; the invariant stays |
| SchedulingRuns.Scheduler.PrepareIdle | src/kernel/sched.c:152-155 | a zombie without successor marks its core's idle task; the invariant stays |
| SchedulingRuns.Scheduler.SwitchToIdleTask | src/kernel/sched.c:156 | current_task becomes the core's own idle task; the invariant stays |
| SchedulingRuns.Scheduler.FinishIdleSwitch | src/kernel/sched.c:156 | the zombie's stack is left for good and the idle task continues inside its own switch; the invariant stays |
| SchedulingRuns.Scheduler.MarkZombie | src/kernel/sched.c:160-172 | the search of the run list finds exactly the current task and marks it; the invariant stays |
| LinkedLists.ListAdd | include/lib/list.h:34-36 | the entry is first; both pointer chains still run through exactly the entries |
| LinkedLists.ListAddTail | include/lib/list.h:38-40 | the entry is last |
| LinkedLists.ListDel | include/lib/list.h:42-44 | exactly that entry leaves, the order of the others stays, its own pointers stay |
| LinkedLists.ListEmpty | include/lib/list.h:45-47 | true iff the list has no entry |
| LinkedLists.ForEach | include/lib/list.h:49-52 | visits every entry once, in order |
| LinkedLists.RingUnique | include/lib/list.h:12-31 | the pointers determine the sequence of entries |
| Semaphores.StepKeeps | src/lib/semaphore.c:10-58 | every locked region of any task keeps count, list and wake-ups consistent |
| Semaphores.NoLostSignal | src/lib/semaphore.c:10-58 | for a non-negative start count = initial + signals - completed waits >= 0, at least min(count, waiters) waiters are runnable, so a positive count never meets only sleeping waiters |
| Semaphores.ListIsQueue | src/lib/semaphore.c:30-34 | the list holds exactly the tasks that found 0 and have not got the count, once each, in order of arrival |
| Semaphores.BackToBack | src/lib/semaphore.c:39-58 | n signals in a row raise the count by n and make exactly the first n sleepers of the list runnable, a distinct one each |
| Semaphores.LeavesWaiting | src/lib/semaphore.c:16-58 | from any start count, whoever takes the count is TASK_RUNNING in every run (nothing else putting tasks to sleep) iff at most one task uses the semaphore |
| WaitingTasks.ActKeeps | src/lib/semaphore.c:10-58 | semaphore and scheduler run as one machine, task states shared: every step of either keeps both invariants and their agreement |
| WaitingTasks.SignalledRuns | src/lib/semaphore.c:39-58 | a signal that finds a sleeper makes exactly that task RUNNING; off-cpu, it can get onto a core without fork or further wake-up iff its counter is at least 0 or two tasks can alternate |
| WaitingTasks.NoLostWaiter | src/lib/semaphore.c:10-58 | in every run from boot, while the count is positive and tasks wait, one of them is a RUNNING task, which runs under exactly that condition |
| Semaphores.Semaphore.TryWait | src/lib/semaphore.c:16-35 | one pass of the loop takes the count and leaves the list, iff the count is positive, or joins the list once and sleeps; the invariant stays |
| Semaphores.Semaphore.Signal | src/lib/semaphore.c:41-58 | the count rises by one and exactly the first sleeping waiter, if any, becomes runnable; the invariant stays |
| RingBuffers.CountExact | src/lib/ring_buf.c:42 | the 32-bit expression for the count is right for all indices iff the capacity is at most 2^31 |
| RingBuffers.PeekIndex | src/lib/ring_buf.c:47 | the wrapped index of peek is the slot of the record asked for |
| RingBuffers.RingBuf.Push | src/lib/ring_buf.c:9-22 | appends the record unless capacity - 1 are there |
| RingBuffers.RingBuf.Pop | src/lib/ring_buf.c:24-36 | removes and returns the oldest record; fails iff there is none |
| RingBuffers.RingBuf.Peek | src/lib/ring_buf.c:39-52 | peek(k) is the k-th most recent record; fails iff there are not that many |
| RingBuffers.RingBuf.Count | src/lib/ring_buf.c:70-76 | the number of records |
| RingBuffers.RingBuf.IsFull | src/lib/ring_buf.c:62-68 | true iff capacity - 1 records are there |
| RingBuffers.RingBuf.IsEmpty | src/lib/ring_buf.c:54-60 | true iff no record is there |
| RingBuffers.RingBuf.HistoryPush | src/kernel/console.c:213-218 | always succeeds and keeps the latest capacity - 1 lines |
| RingBuffers.HistoryIsLatest | src/kernel/console.c:210-218 | after any lines the history is exactly the most recent ones |
| RingBuffers.LatestIs | src/kernel/console.c:210-223 | the k-th line from the end of the history is the k-th line from the end of what was entered |
| UartPipeline.Pipeline | src/drivers/serial/mini_uart.c:19-53 | in every run bytes in the ring = count + granted + unsignalled, no pop after a wait fails, and consumed followed by the ring is what was accepted |
| UartPipeline.ReadersLeave | src/drivers/serial/mini_uart.c:19-53 | every reader that comes back from the wait is TASK_RUNNING in every run iff at most one task reads the line, or the ring has no room |
| UartPipeline.EventKeeps | src/drivers/serial/mini_uart.c:19-53 | each event of handler and readers keeps that balance |
| UartPipeline.ArrivedIs | src/drivers/serial/mini_uart.c:47-53 | of bytes in a row exactly the first ones are accepted, as many as the ring has room for, each with one signal to come |
| UartPipeline.HandleIrq | src/drivers/serial/mini_uart.c:47-53 | the handler puts in as many bytes as fit and signals once for each of them |
| Bitmaps.SetBit | src/lib/bitmap.c:16-18 | the or sets one bit of a word and no other |
| Bitmaps.ClearBit | src/lib/bitmap.c:20-22 | the and clears one bit of a word and no other |
| Bitmaps.Bitmap.Set | src/lib/bitmap.c:16-18 | bit n of the map is set, all others stay |
| Bitmaps.Bitmap.Clear | src/lib/bitmap.c:20-22 | bit n of the map is clear, all others stay |
| Bitmaps.Bitmap.Test | src/lib/bitmap.c:24-26 | the value of bit n |
| Bitmaps.Bitmap.SetRange | src/lib/bitmap.c:28-32 | exactly the range is set |
| Bitmaps.Bitmap.ClearRange | src/lib/bitmap.c:34-38 | exactly the range is cleared |
| Bitmaps.Bitmap.FindClearRun | src/lib/bitmap.c:40-54 | the leftmost run of that many clear bits; -1 iff there is none, or for 0 |
| KernelHeap.AllocMeans | src/mm/kmalloc.c:20-43 | NULL iff no run of clear blocks is long enough; otherwise an aligned payload of at least size bytes, at a multiple of 32 in the pool and wholly inside it, leftmost, in blocks nobody holds |
| KernelHeap.AllocKeeps | src/mm/kmalloc.c:20-43 | an allocation keeps bits, headers and disjointness |
| KernelHeap.FreeKeeps | src/mm/kmalloc.c:45-66 | a release of a held payload keeps them |
| KernelHeap.FreeRestores | src/mm/kmalloc.c:20-66 | kfree after kmalloc restores bits and holders; the same size gets the same address |
| KernelHeap.FreedHasNoMagic | src/mm/kmalloc.c:55-61 | a released block fails the magic test |
| KernelHeap.RunFromInit | src/mm/kmalloc.c:14-66 | after any run, client writes into payloads included, set bits are exactly the live blocks, these are disjoint, and every header holds its length and magic |
| KernelHeap.PayloadIsOwned | src/mm/kmalloc.c:20-66 | no call and no write of others changes a byte of an allocation |
| KernelHeap.KernelPool.Alloc | src/mm/kmalloc.c:20-43 | ends in the specified heap with the specified address, a multiple of 32; a size above a page takes one frame from the page allocator and leaves the pool alone |
| KernelHeap.SizesExact | src/mm/kmalloc.c:20-43 | a caller gets NULL or size bytes of its own, in every state of heap and memory, iff size <= PAGE_SIZE; above that one page stands for more than a page, and a frame that is not there is not NULL |
| KernelHeap.BigComesBack | src/mm/kmalloc.c:24-53 | the page given back is the frame taken, and the next large size gets it again |
| KernelHeap.KernelPool.Free | src/mm/kmalloc.c:45-66 | ends in the specified heap; NULL changes nothing; an address outside the pool frees exactly its frame, never one of the pool; one in the pool that nobody holds and that has no magic stops at the assertion with nothing changed |
| Fat32.ReadIsPrefix | src/fs/fat32.c:189-218 | the bytes delivered are the first min(max_bytes, chain bytes) of the chain, for cyclic FATs too |
| Fat32.ReadFails | src/fs/fat32.c:197-204 | a read fails iff the chain comes to a sector that is needed and cannot be read, all before it being readable |
| Fat32.FatLbaIs | src/fs/fat32.c:81-85 | below 2^32 the FAT sector and offset do not wrap |
| Fat32.FirstMatchIs | src/fs/fat32.c:162-179 | the entry found is the first match of the listing, none iff nothing matches |
| Fat32.ListedIsFound | src/fs/fat32.c:143-291 | typing the name the listing shows finds an entry of the same eleven bytes iff they are of that kind; then it is this entry, unless an earlier one has the same name |
| Fat32.FatLbaExact | src/fs/fat32.c:81-87 | no lookup is for sector 2^32 - 1 iff the FAT starts below 2^32 - 2^21 |
| Fat32.DirMeans | src/fs/fat32.c:149-183 | a directory scan gives the live ones among the 32-byte entries before the first that starts with 0, in order, over all bytes of the chain before an unreadable sector; it stops at the end mark iff there is such an entry |
| Fat32Layout.ClustersTile | src/fs/fat32.c:22-26 | where nothing reaches 2^32: cluster 2 starts at data_start, its sectors follow one another, cluster c + 1 follows c, and no sector belongs to two clusters or lies before data_start |
| Fat32Layout.ChainBytes | src/fs/fat32.c:189-218 | the bytes of a chain are its clusters in order: sector s of the j-th is sector data_start + (cluster - 2) * spc + s of the disk, and stands at j * spc + s |
| Fat32Layout.NextIs | src/fs/fat32.c:81-91 | the next cluster is made of the four bytes of FAT entry c, lowest first, without the top half of the last |
| Fat32Layout.EndMarks | src/fs/fat32.c:151 | a chain ends iff bits 3 to 27 of the cluster number are all set |
| Fat32Layout.EntryNumbers | src/fs/fat32.c:169-173 | first cluster and size have the bytes 26, 27, 20, 21 and 28 to 31 of the entry, lowest first |
| Fat32Layout.EntryKinds | src/fs/fat32.c:162-166 | an entry is passed over iff it is deleted or its attributes are exactly read-only, hidden, system and volume; it is a directory iff bit 4 is set |
| Fat32Layout.FoundFirst | src/fs/fat32.c:293-341 | a search finds the first live entry with those eleven bytes, for cd only directories, and none iff there is none |
| Fat32Listings.LineColumns | src/fs/fat32.c:236-275 | every line has the name from column 2 and, from column 16, the mark of a directory or the size in decimal |
| Fat32Listings.EmptyListing | src/fs/fat32.c:243-291 | nothing is printed iff an end mark comes before any live entry; the empty note only for a chain without entries and without end mark, the error note iff a sector is unreadable |
| Fat32Reader.CacheTransparent | src/fs/fat32.c:66-77 | a sector read through the cache is the disk sector, failure included, except that the empty cache answers for sector 2^32 - 1 with zeros |
| Fat32Reader.CacheExact | src/fs/fat32.c:66-91 | every lookup follows the FAT, on all disks of a size and with all caches, iff the FAT starts below 2^32 - 2^21 or the disk has fewer than 2^32 sectors |
| Fat32Reader.FatReader.NextCluster | src/fs/fat32.c:81-91 | the next cluster as on the disk, whatever the cache held, on every volume of CacheExact, and on every volume once the cache holds a sector; before that what the empty cache says |
| Fat32Reader.FatReader.Read | src/fs/fat32.c:189-218 | delivers the specified bytes and leaves the rest of the buffer alone; -1 iff a data sector cannot be read; with sectors in its clusters it terminates on every FAT |
| Fat32Reader.FatReader.Ls | src/fs/fat32.c:236-291 | prints the columns of exactly the live entries of the scan, then the read error or, for a chain that ends without entries, the empty mark; cyclic chains included as far as they are visited |
| Fat32Reader.FatReader.Open | src/fs/fat32.c:143-187 | first cluster and size of the first listed entry with the normalised name; -1 iff none |
| Fat32Reader.FatReader.Cd | src/fs/fat32.c:293-341 | cluster of the first listed directory with that name, 0 meaning the root; "/" is the root |
| ShortNames.RoundTripExact | src/fs/fat32.c:29-63 | for all eleven bytes: normalising what the listing shows gives the stored name iff that is blank-padded and upper-case, has no NUL, no dot in the extension, and none in the base unless an extension follows or the name is "." or ".." |
| ShortNames.Normalise83 | src/fs/fat32.c:29-63 | base up to 8 and extension up to 3 characters around the last dot, upper case, blank-padded; "." and ".." literally |
| ShortNames.Format83 | src/fs/fat32.c:222-233 | base and extension up to their first blank, with a dot iff the extension is not blank |
| ShortNames.UpperLetters | src/lib/string.c:118-121 | a lower-case letter becomes the letter at the same place of the upper-case alphabet, and nothing else changes |
| ShortNames.CaseDoesNotMatter | src/fs/fat32.c:29-63 | a name typed in either case normalises to the same eleven bytes |
| ShortNames.TypedName | src/fs/fat32.c:29-63 | base and extension of a typed name are cut to eight and three characters, in upper case, padded with blanks |
| Strings.CompareIsEquality | src/lib/string.c:64-68 | against a key without NUL, 0 iff the first n bytes agree |
| Strings.CompareOrders | src/lib/string.c:64-68 | negative iff at the first difference, before the end of the strings, the first one has the smaller byte, positive iff the larger |
| Strings.StrnCmp | src/lib/string.c:64-68 | the difference at the first place that decides, 0 if there is none |
| DigitStrings.DigitsCanonical | src/lib/printf.c:61-77 | the digits stand for the number and have no leading zero |
| DigitStrings.CanonicalUnique | src/lib/printf.c:61-77 | a number has only one such row of digits |
| DigitStrings.WeighStep | src/lib/printf.c:65-66 | the divisor never exceeds the number, so it cannot overflow |
| DigitStrings.EmitStep | src/lib/printf.c:67-75 | every round of the digit loop emits a digit below the base; no leading zero arises |
| DigitStrings.Ui2a | src/lib/printf.c:61-77 | writes exactly the canonical digits and a NUL, at most ten digits |
| DigitStrings.I2a | src/lib/printf.c:79-86 | the signed text always fits twelve bytes |
| DigitStrings.A2i | src/lib/printf.c:99-112 | reads the longest run of accepted digits and never beyond the NUL |
| DigitStrings.A2iInverts | src/lib/printf.c:61-112 | a2i reads back what ui2a wrote |
| DigitStrings.LetterAsDigit | src/lib/printf.c:88-112 | for every string, start and base: a2i stops where the digits of the base end, with their value, iff the character there is not a digit equal to the base (for 10 the letter a of either case; never for 16) |
| DigitStrings.StaysInInt | src/lib/printf.c:102-108 | no round leaves the int it computes in iff the number read fits |
| DigitStrings.StrRev | src/lib/string.c:22-32 | the string is reversed in place, nothing else changes |
| DigitStrings.Itoa | src/lib/string.c:3-20 | the same string ui2a makes in base 10 |
| PrintfFormat.TfpFormat | src/lib/printf.c:127-203 | the output is what the interpreter of the directive grammar gives |
| PrintfFormat.PutChw | src/lib/printf.c:114-125 | a field of max(width, length) characters ending in the text |
| PrintfFormat.Field | src/lib/printf.c:114-125 | its length and its tail |
| PrintfFormat.WidthsExact | src/lib/printf.c:142-150 | a whole format is read with its decimal widths iff no width runs into the letter a |
| PrintfFormat.CutOff | src/lib/printf.c:142-159 | for the last percent sign reading comes to: the format prints what stands before it and stops iff the rest is nothing, a flag, or a flag and a width up to the end |
| PrintfMeaning.TextMeans | src/lib/printf.c:61-77 | the text of a number is its digits in that base, from 0123456789abcdef or the upper-case ones, canonical and of that value |
| PrintfMeaning.ShownMeans | src/lib/printf.c:161-201 | u and d print the number in base 10 with a minus sign iff it is negative, x and X in base 16 in lower and upper case, c one byte, s the string; filled up on the left with 0 iff the flag is there, else with blanks; iff the argument suits |
| PrintfMeaning.PrintsOnce | src/lib/printf.c:114-201 | and there is only one such output |
| PrintfMeaning.RenderMeans | src/lib/printf.c:127-203 | a whole format prints the characters, one percent sign for two, nothing for an unknown conversion, and each conversion of its argument, in order |
| PrintfMeaning.FormatReads | src/lib/printf.c:136-160 | a format written from characters and directives (flag, decimal width below 2^31, conversion) is read as exactly these |
| PrintfMeaning.A2dMeans | src/lib/printf.c:88-97 | a2d knows the hexadecimal digits of both cases, with their values, and nothing else |
| LineEditing.PressGood | src/kernel/console.c:247-302 | after every key the terminal shows exactly the buffer with the cursor at its end, and the line leaves room for its NUL |
| LineEditing.BackToLive | src/kernel/console.c:253-302 | up, any keys that stay in the history, then down to the live position: the live line is back and on the screen |
| LineEditing.LineLands | src/kernel/console.c:247-305 | whatever was typed, the line end leaves the edited line and nothing else as one more row of the screen |
| LineEditing.DeleteIsBackspace | src/kernel/console.c:253-301 | the delete character acts as backspace iff the line is not empty; on an empty line it is inserted |
| LineTyping.KeyMeans | src/kernel/console.c:253-301 | a byte of 32 or more is appended as it is and ends browsing if there is room, DEL only on an empty line; backspace and DEL take exactly the last character of a line; every other byte changes nothing |
| LineTyping.EscapeMeans | src/kernel/console.c:261-267 | escape [ A and escape [ B are the arrows, no other sequence does anything |
| LineTyping.TypedText | src/kernel/console.c:297-301 | typing text appends it, up to max - 1 characters in all |
| LineTyping.Retyped | src/kernel/console.c:247-302 | text, then erasing with either key, then text: what was erased is replaced |
| LineTyping.KeysArrive | src/kernel/console.c:243-267 | whatever keys are pressed before the line end, exactly these are taken, and the bytes after it stay for the next line |
| LineTyping.LineTyped | src/kernel/console.c:235-305 | text and return, typed into an empty line, give the text, as much as fits |
| LineEditing.ArrowShowsLine | src/kernel/console.c:269-293 | arrows move one position within the history and show the line of that age |
| LineEditing.ShowClear | src/kernel/console.c:229-233 | line_clear wipes exactly the line |
| LineEditing.Console.HandleChar | src/kernel/console.c:253-259 | a backspace removes the last character from buffer and screen, a printable one is added to both if it fits; anything else changes nothing |
| LineEditing.Console.HandleArrow | src/kernel/console.c:261-294 | the live line is saved on the way out, the line of the new position replaces the old one in buffer and on screen, nothing changes at either end |
| LineEditing.Console.ReadLine | src/kernel/console.c:235-305 | the bytes that arrive are taken as keys up to a line end; buffer, history position and screen, the echoed line end included, as specified |
| ConsoleSessions.Session | src/kernel/console.c:210-330 | for every input: each line is edited with the history the lines before have left, non-empty ones are pushed, and at the end the ring holds exactly the latest capacity - 1 lines entered, each a NUL-ended record |
| ConsoleSessions.OneLine | src/kernel/console.c:235-305 | whatever history and buffer were before, the line read fits the buffer with its NUL, has no control characters, and starts with NUL iff it is empty |
| ConsoleSessions.EnteredFit | src/kernel/console.c:310-330 | every line entered in a session is not empty, fits the buffer with its NUL and has no control characters: what the editor theorems ask of their history always holds |
| ConsoleSessions.TextsEntered | src/kernel/console.c:310-330 | lines of text typed one after the other are entered as they are, so the history is the latest of them |

## Left out

- Mapping.MapPageCorrect: assumes a free frame for every missing table, because map_table does not test for exhaustion; PageMapper.Map also assumes a free slot in kernel_pages, which has 16 and no test.
- Fork.CopyPagesCorrect: assumes what CopyRoom says, the same two limits at every step of the copy; ForkTheorems.RoomSuffices gives a count that is enough. Areas end at or below 2^48, the addresses the tables tell apart.
- InterleavingRuns.MoveKeeps: one mapping at a time for each task, and a free frame whenever a new table is needed.
- ForkPieces.ForkInPieces: a copy that runs to its end; memcpy is one store for each word, its value read from the parent at that moment, and the parent, which executes the copy, stores nothing else meanwhile.
- FrameRecords.RunRecorded: operations one at a time, from descriptors as they are at boot.
- PageMapper.Map: addresses of tables are physical; the constant offset VA_START of the kernel's linear map appears only in the address allocate_user_page returns. Records of tasks not involved in a call are passed as values.
- MemoryManager.PhysicalMemory.FreePage: the index is assumed to be in range, as in the code; releasing a frame still in use is excluded in runs by Allowed, and so are releases of the page a task record lies in, whose contents are records of their own in the model.
- SchedulingProofs.StepKeeps: preempt_count, counter and on_cpu are read and written atomically, and a switch from on_cpu = -1 to the end of cpu_switch_to is one step, so that another core could already run a stack that is not saved yet is not modelled.
- SchedulingRuns.Scheduler.Choose: task records are values in a sequence that the methods reassign, not heap objects; the run list is the sequence from the first non-idle task on, and priorities are at least 1.
- SchedulingRuns.CurrentsDistinct: all cores have run their init; pids (nr_tasks) and address-space switching (set_pgd) are not modelled, and the idle tasks do not exit.
- SchedulingTicks.SliceEnds: no other core moves between the ticks; a recharge by another core would lengthen the slice.
- Semaphores.StepKeeps: the state of a task inside one sem_wait is changed by that semaphore only; the waiter list is a sequence here, LinkedLists proves the operations on the pointers.
- WaitingTasks.NoLostWaiter: one semaphore; there is room for a fixed number of tasks, which may be any.
- UartPipeline.HandleIrq: runs without interleaving; UartPipeline.Pipeline covers every interleaving, with one pop after each wait.
- KernelHeap.KernelPool.Alloc: the bytes of the pool are an array of their own, apart from the words of the frames it occupies; an allocation is one step although its header is written after the lock is released.
- KernelHeap.KernelPool.Free: an address in the pool that nobody holds is covered when no magic stands before it. In the first block of the pool the code looks for the magic in front of the pool, and where a client's bytes happen to spell the magic it takes them for a header; what it clears then is not modelled.
- Fat32Layout.ChainBytes: where no sector number reaches 2^32; beyond, the model wraps as the code does and nothing is said about the place. The same holds for ClustersTile and clusters below 2.
- Fat32Reader.FatReader.Read: with zero sectors per cluster, which mount does not test, the chain must end or nothing be asked for, since the loop would follow a cycle forever. Failed reads leave the buffer as it was. A cache that is still empty, on a disk of 2^32 sectors with a FAT at its very end (CacheExact), is excluded for Read, Ls, Open and Cd; a loaded one is not.
- Fat32Reader.FatReader.Open: the chain ends, or the search does on the clusters visited; on a cycle without either the loop does not terminate. The same holds for Ls and Cd.
- DigitStrings.A2i: gives the mathematical number; DigitStrings.StaysInInt says when the C int holds it, beyond that the C program is undefined.
- DigitStrings.I2a: negating the least int is taken as the wrapped value.
- PrintfFormat.TfpFormat: arguments are assumed to be of the kind the directive reads; the long variants are not compiled in.
- LineEditing.Console.ReadLine: the history is fixed while a line is read, as only the console task pushes to it.
- ConsoleSessions.Session: leaves out the prompt and the output of commands between two lines, and parse_args, which writes NULs into the line after it has gone into the history; the next line starts with whatever is in the buffer.
- Hardware, boot and exception code, the spinlock and memory ordering, EMMC, logging, panic, command table and irq tables: I/O or machine level.
- strncpy, strtok_r and the other string routines, argument splitting and column padding in the console: easy, or used by nothing modelled.
- fat32_mount: parsing of fixed offsets only.
