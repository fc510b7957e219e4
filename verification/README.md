# Verification of the kernel

A Dafny model of a small real-time kernel for x86 and of three support libraries it stands on, with
proofs of what they promise. `dafny verify dfyconfig.toml` checks everything.

Each part is modelled twice where the C code updates state in place: as functions on values, on which the
properties are proved, and as classes and methods with the loops and in-place updates of the C code, whose
postconditions equate the new state with those functions.

| part | on values | in place |
|---|---|---|
| heap | HeapChain, HeapSearch, HeapModel, HeapTheorems, HeapRuns, HeapRequests, HeapOverlap, HeapMissed | Allocator |
| scheduler | Scheduler, SchedulerInvariant, -Slots, -Flags, -Clock, -Running, -Processes, -Timetable, -Devices, -Sporadic, -Names, -Witnesses, -Overruns | KernelScheduler, PidRing, NameRegistry |
| semaphores | Semaphores (interleaved steps) | SemaphoreTable, NameRegistry, WaiterList |
| FIFOs | Fifos, FifoTables | the classes in both |
| screen | Screen, ScreenText | Display, MemoryRoutines |
| number printing | Ascii | the methods in Ascii, CStrings |

**Heap.** Memory is all 2^32 bytes. A heap is well formed if the headers, followed from the base, tile it by
blocks of powers of two up to one clear tail block. Allocation walks this chain first fit and merges clear
neighbours as it goes; an address book records the blocks in use. A run interleaves requests, releases and
stores of the users to their own blocks.

**Scheduler.** Events are the timer tick, a yield with the check that it triggers, creation and termination.
The check follows the branches of `check_schedule` one by one, aborts included. The assumptions about events
are collected in `SchedulerInvariant.Allowed`: idle makes no calls, a device is created with a rate of at least 1,
a name has a bit in the registry, and the numbers of the plan are used by periodic processes only. Devices may overrun their rate; the device ring then
holds a device more than once, or one that has terminated in the meantime. The code assumes that this does not
happen (`kernel/kernel.c:224`); that no device falls due while it is still queued or running
(`SchedulerInvariant.InTime`) is a premise only of the theorems that say that no step aborts at all and that the
front of the device ring runs.

**Semaphores.** Testing and taking down a count is one step, because interrupts are off; the ownership bit is
set and cleared in steps of its own. A run is any interleaving of enabled steps of any number of slots.

**FIFOs.** A run opens FIFOs and uses them through their handles in any order. Each FIFO is shown to behave as if
it were alone.

**Screen.** The reference is a canvas that grows by a row whenever printing runs past its end. The screen is
shown to be its last 25 rows. The cursor goes through the two indexed registers of the controller.
What single characters and whole lines of text do to video memory is stated in plain byte numbers as well.

## Where the code misses its intent

The code as written is kept, and a flag selects the repaired form. For each deviation a lemma says exactly when
the code as written meets its purpose, and a witness shows an input for which it does not.

- A split writes one tail header, and only if the byte there does not look like a state byte
  (`kernel/kernel.c:577-581`). The result is right exactly if the old bytes there already form the chain behind
  the run, or if no live block follows. Witness: five calls after which two live blocks overlap. Repair: the rest
  of the run is tiled exactly, and the address book is searched for a free slot first.
- Unregistering a bit clears its whole word (`kernel/kernel.c:76`): the names of other processes and the
  ownership of other semaphores are lost. Repair: one bit is cleared.
- Writing to a full FIFO advances its index without wrapping around (`kernel/kernel.c:752`), so that a read can
  go past the array. The last handle that is issued is rejected (`kernel/kernel.c:54`, `kernel/kernel.c:740`).
- Cleaning up a waiter list leaves its tail stale if its last node goes and others stay (`kernel/kernel.c:705-707`).
- Devices are released by every check in which the slot has an age, not once a tick (`kernel/kernel.c:212`), so a
  yield can release a device again in the same tick.
- A `yielded` flag that is still set when the plan advances denies the new slot to its process
  (`kernel/kernel.c:292-301`). Between events only a sporadic process can have its flag set, and right after a
  check only the sole one.
- The lookup of a plan name ignores the level (`kernel/kernel.c:99-110`). It is right exactly if no process that
  carries the number as something else comes before the user of the name in the table. It fails for name 0, which
  is the number of idle (`kernel/kernel.c:363`), and for a device whose rate is a name of the plan.
- The launch of the plan keeps the debt (`kernel/kernel.c:240-245`) and so does the termination of a device
  (`kernel/kernel.c:459-469`). The launch puts the plan on its timetable exactly if no device was dispatched before
  it, and the termination leaves it there exactly if there is no debt and no other device waits. The launching check
  also preempts a device that runs.
- The descending copy leaves out index 0 (`libc/mem.c:12`).
- The upper nibbles of a hexadecimal number print ten as a colon (`libc/string.c:34`), and the least integer is
  printed as a minus sign and a parenthesis (`libc/string.c:11`).

Where code and documentation disagree, the model follows the code:

- `OS_Malloc` takes the first run that fits, not the smallest (`kernel/kernel.h:290-293`), and misses a run whose
  last needed block lies too close to the stacks, even on a heap that is entirely free.
- A sporadic process registers `n` as a name, which the documentation says is ignored (`kernel/kernel.h:227`).
- `OS_Free` of address 2 reports TRUE if the byte at address 0 reads as in use and the address book has an
  unused slot, whose entry 0 it then matches (`kernel/kernel.c:619-631`).
- A sporadic process that yields while a device is queued is not moved to the end of its ring
  (`kernel/kernel.c:231-236`): the device takes the processor and the flag is cleared.

## Model

| member | source | states |
|---|---|---|
| Bits.RoundUp | kernel/kernel.c:541-550 | the five shift-and-or steps and an increment give the least power of two with room for the payload and the header |
| HeapModel.ShiftFor | kernel/kernel.h:294-299 | every block is at least 4 bytes long, has room for the request and two bytes more, and half of it would not |
| HeapChain.LiveBlocksDisjoint | kernel/kernel.c:556-563 | on a tiled heap live blocks do not overlap and end below the stacks |
| HeapChain.LiveVisited | kernel/kernel.c:558-563 | the live blocks are exactly the headers marked in use that the walk visits |
| HeapSearch.SearchIsFirstFit | kernel/kernel.c:556-569 | the walk succeeds exactly if some clear block ends a clear run that is large enough and not too close to the stacks, and finds the first such block |
| HeapSearch.LazyAgreesWithEager | kernel/kernel.c:556-609 | merging during the walk finds exactly what a first-fit search of an eagerly merged free list finds if it passes over the missed runs, which all lie within twice the size of the limit |
| HeapSearch.ServesIff | kernel/kernel.c:563-568 | a run is missed exactly if the block at which its total reaches the size is too close to the limit |
| HeapMissed.FreedHeapDenies | kernel/kernel.c:565-567 | witness, as written and repaired: after malloc and free of 2 MB on a fresh heap nothing is in use, and malloc of 4 MB, granted before, is denied |
| HeapMissed.FirstNotSmallest | kernel/kernel.h:291-293 | witness: malloc takes the first gap although a later one is just as large as needed |
| HeapTheorems.InitEstablishes | kernel/kernel.c:522-532 | initialisation of memory of any contents establishes the heap invariant with no live block |
| HeapTheorems.AllocateTiledKeepsInv | kernel/kernel.c:537-616 | repaired: every request keeps the heap exactly tiled and the address book exact, adds exactly the block handed out, and changes nothing if denied |
| HeapTheorems.AllocateKeepsInvIff | kernel/kernel.c:575-604 | as written: a successful request keeps the heap tiled and recorded exactly if the bytes behind the new block meet the stated condition |
| HeapTheorems.AllocateAddsLive | kernel/kernel.c:602-604 | where the split is right, the live blocks grow by exactly the block handed out |
| HeapTheorems.AllocateSucceedsIff | kernel/kernel.c:552-605 | a request succeeds exactly if its size is allowed, the book has a free slot and a run serves it; both forms hand out the same address, 2 past the start of the first such run |
| HeapTheorems.DeniedKeepsInv | kernel/kernel.c:577-600 | as written: a request denied for want of a book slot may already have split, but always keeps the invariant and the live blocks |
| HeapTheorems.AllocateSparesOthers | kernel/kernel.c:573-604 | neither form of allocation changes a byte of a live block |
| HeapRequests.RequestGrantedIff | kernel/kernel.c:537-605 | for every request, as written and repaired: it is granted exactly if it asks for 2 bytes or more, the least power of two with room for them and the header is allowed, the book has a free slot and a run serves that size; the address is 2 past the first such run, and the header there says that size |
| HeapRequests.RequestEffect | kernel/kernel.c:556-615 | as written: what a request does to every byte of memory and to the address book; with a full book it is denied after the run has been split |
| HeapRequests.RequestSpares | kernel/kernel.c:573-604 | a request changes no byte outside the heap and none of the payload that it hands out |
| HeapRequests.InitSpares | kernel/kernel.c:530-531 | initialisation changes two bytes of memory only |
| HeapRequests.FreshHeapGrantsIff | kernel/kernel.c:552-567 | a fresh heap grants exactly the requests from 2 bytes to 4 MB less the header, at its base |
| HeapRequests.HandedSizeKept | kernel/kernel.c:541-604 | in every run a block keeps the size that its request was rounded up to, for as long as it stays handed out |
| HeapRequests.HandedHasRoom | kernel/kernel.h:294-299 | so every address handed out for val bytes has val bytes of payload of its own |
| HeapTheorems.FreeSucceedsIff | kernel/kernel.c:618-634 | OS_Free reports TRUE exactly for the address of a live block, apart from the stray address 2 |
| HeapTheorems.FreeKeepsInv | kernel/kernel.c:618-634 | a release keeps the invariant, removes exactly its block from the live ones, changes one byte at most, and nothing if it reports FALSE |
| HeapRuns.StepKeepsSane | kernel/kernel.c:522-634 | each request, release and store to own memory keeps heap, address book and the ledger of addresses handed out in agreement |
| HeapRuns.RunsAreSane | kernel/kernel.c:522-634 | so every state of every run is tiled and exactly recorded |
| HeapRuns.FreeMatchesLedger | kernel/kernel.h:309-313 | in every run OS_Free reports TRUE exactly for an address handed out and not freed since, apart from the stray address 2 |
| HeapRuns.SecondFreeFails | kernel/kernel.c:618-634 | in every run, after a release and up to the next request a second release of the same address reports FALSE, apart from the stray address 2 |
| HeapRuns.HandedBlocksDisjoint | kernel/kernel.c:534-536 | in every state of every run two blocks handed out are disjoint and end below the limit |
| HeapRuns.OthersKeepTheirBytes | kernel/kernel.c:537-634 | no allocation and no release changes a payload byte of a block that is handed out |
| HeapOverlap.WrittenSplitOverlaps | kernel/kernel.c:577-581 | witness: after five calls on a zeroed heap two live blocks overlap |
| Allocator.Allocator.InitMemory | kernel/kernel.c:522-532 | the in-place initialisation computes the initial heap of the model |
| Allocator.Allocator.EnterInBook | kernel/kernel.c:583-596 | the loop enters the block in the first free slot of the address book, or finds none |
| Allocator.Allocator.Carve | kernel/kernel.c:569-604 | split, entry and header bytes are those of the model |
| Allocator.Allocator.Walk | kernel/kernel.c:556-615 | the loop with its running total performs the recursive search and the allocation of the model |
| Allocator.Allocator.Malloc | kernel/kernel.c:537-616 | OS_Malloc in place is the allocation of the model, for every request but the largest int |
| Allocator.Allocator.Free | kernel/kernel.c:618-634 | OS_Free in place is the release of the model |
| SchedulerInvariant.SwitchOk | kernel/kernel.c:140-160 | switching to a process that may run finds it in the table, makes it current, and only flags change |
| SchedulerInvariant.CheckOk | kernel/kernel.c:206-316 | a check aborts exactly if the due devices do not fit the ring, or its front is dead and not running; its assertion never fails, no rate is 0, and otherwise it keeps the invariant |
| SchedulerInvariant.CalmCheckOk | kernel/kernel.c:224-236 | if no device is released that is still queued or running, the check never aborts, the ring holds live devices only, each once, and in a launched plan its head runs |
| SchedulerInvariant.RingFits | kernel/kernel.c:219-223 | a ring of distinct live processes never exceeds the table |
| SchedulerInvariant.MarkYieldedOk | kernel/kernel.c:501-513 | a yield finds its process, sets only its flag, and takes exactly the running device from the front of its ring |
| SchedulerInvariant.YieldIsCheck | kernel/kernel.c:503-515 | a yield is a check of the marked state exactly if the flag was clear, and nothing otherwise |
| SchedulerInvariant.CreateOk | kernel/kernel.c:396-448 | creation keeps the invariant, fails exactly if no slot is free or the name is taken, and then changes nothing |
| SchedulerInvariant.TerminateOk | kernel/kernel.c:455-497 | termination passes the assertions on the rings and keeps the invariant |
| SchedulerInvariant.BootOk | kernel/kernel.c:318-363 | the state in which the first tick is awaited satisfies the invariant exactly if the plan does not use name 0 |
| SchedulerInvariant.StepOk | kernel/kernel.c:206-516 | whatever the devices do, a step keeps the invariant or aborts, and it aborts exactly if its check has to enqueue more devices than fit the ring, or meets a front whose process is dead |
| SchedulerOverruns.OverrunFillsRing | kernel/kernel.c:219-223 | witness from boot: a device of rate 1 that never yields fills the ring, and tick 17 aborts |
| SchedulerOverruns.OverrunLeavesDead | kernel/kernel.c:231-236 | witness from boot: a device terminates while it is queued again, and the next check aborts on the dead front |
| SchedulerOverruns.SecondTick | kernel/kernel.c:240-245 | witness: the launching check preempts a running device |
| SchedulerInvariant.CalmStepOk | kernel/kernel.c:206-516 | a step in which no device falls due while queued or running never aborts |
| SchedulerInvariant.RunFailsNoAssertion | kernel/kernel.c:278-281 | no run ever fails an assertion or divides by a rate of 0 |
| SchedulerInvariant.CalmRunNeverAborts | kernel/kernel.c:219-224 | a run in which no device falls due while queued or running never aborts |
| SchedulerInvariant.TraceKeepsInv | kernel/kernel.c:432-475 | in every state of every run the sporadic ring holds exactly the live sporadic processes, the device ring pids issued to devices, whoever runs is the head of its ring, and idle runs only while the sporadic ring is empty |
| SchedulerInvariant.InvMayTerminate | kernel/kernel.c:459-482 | so in every state what OS_Terminate takes for granted holds: the ring of the running process is not empty, and its name is one of the registry |
| SchedulerSlots.SlotAgeBounded | kernel/kernel.c:240-298 | after every check that leaves no device running the plan stands at one of its slots, which has had no more than its time |
| SchedulerSlots.NewSlotRunsIff | kernel/kernel.c:289-309 | when the plan advances to the slot of a live process, that process runs exactly if the one before had not given up its time, or the repair is in force |
| SchedulerSlots.OnlyAdvancesMove | kernel/kernel.c:291-298 | a check that does not find the time used up stays in its slot |
| SchedulerSlots.LaunchRunsOwner | kernel/kernel.c:240-245 | the launching check begins slot 0 and runs its process, or else the front sporadic one, or idle |
| SchedulerSlots.SoleSporadicKeepsFlag | kernel/kernel.c:141-142 | a sole sporadic process that yields gets the processor back with its flag still set |
| SchedulerRunning.CheckIs | kernel/kernel.c:206-316 | the whole effect of a check on the state, by cases on table, rings and plan: who runs, which flag is cleared, slot, time, debt and sporadic ring |
| SchedulerRunning.InsideSlot | kernel/kernel.c:250-309 | while the time of the slot is not up and no device is dispatched: whoever has not yielded goes on, after a device the process of the slot runs, and else the front sporadic one, or idle |
| SchedulerRunning.TickKeepsRunnerIff | kernel/kernel.c:288-310 | after a tick the same process runs exactly if no device is queued, and the time is not up or the next slot is its own as well |
| SchedulerRunning.KeepsRunning | kernel/kernel.c:288-310 | over every run: a process that is no device keeps the processor until it yields or terminates, a device is queued, or the time of the slot is up |
| SchedulerProcesses.CreateIs | kernel/kernel.c:409-447 | a creation fills the first free slot with the next pid, its flag clear, queues a sporadic process and registers a name, and nothing else |
| SchedulerProcesses.FullRingHalfCreates | kernel/kernel.c:432-436 | if the sporadic ring were full, which the invariant excludes, a creation would report failure and leave the process in the table |
| SchedulerProcesses.BootIsCreation | kernel/kernel.c:339-363 | the boot state is that in which the idle process has been created with empty tables |
| SchedulerProcesses.TerminateIs | kernel/kernel.c:455-491 | a termination frees the slot of the running process only, takes it from the front of its ring, and takes away its name, or as written all names of the word |
| SchedulerProcesses.TerminateAbortsIff | kernel/kernel.c:457-488 | it aborts exactly if nobody runs, or idle does |
| SchedulerProcesses.NobodyYields | kernel/kernel.c:113-116 | a yield while nobody runs aborts |
| SchedulerProcesses.PidsAreNotReused | kernel/kernel.c:409-414 | over every run no pid is issued twice, whoever is dead stays dead, and a process keeps its level and number |
| SchedulerFlags.CheckLeavesSoleFlag | kernel/kernel.c:141-153 | after every check a process whose flag is set is the only sporadic one |
| SchedulerFlags.BootAtRest | kernel/kernel.c:361-363 | at boot no flag is set and nobody runs |
| SchedulerFlags.FlaggedIsSporadic | kernel/kernel.c:276-309 | in every state of every run only a sporadic process has its flag set, and unless a device runs the time of the slot is not up |
| SchedulerWitnesses.NewSlotDenied | kernel/kernel.c:292-301 | witness: a run from boot in which a slot begins and its process does not run |
| SchedulerWitnesses.FlaggedNotSole | kernel/kernel.c:438-439 | witness: a flagged process stops being the only sporadic one by creating another |
| SchedulerTimetable.TimetableStep | kernel/kernel.h:146-159 | the timetable, defined by the tick since launch modulo the length of the plan, moves by the time-up test |
| SchedulerTimetable.CheckMoves | kernel/kernel.c:231-298 | a check applies the time-up test to the time the slot has had, or puts this time into debt when a device is dispatched |
| SchedulerTimetable.LaunchOnSchedule | kernel/kernel.c:240-245 | the first tick, if no device is due, puts the plan at age 0 of slot 0 |
| SchedulerTimetable.StepOnSchedule | kernel/kernel.c:206-516 | every punctual step keeps slot and age as due |
| SchedulerTimetable.TimetableIsKept | kernel/kernel.h:154-156 | whatever yields, creations and terminations happen, after every step slot and age are those of the timetable, as long as devices yield in the tick of their dispatch and none terminates |
| SchedulerTimetable.LaunchOnScheduleIff | kernel/kernel.c:240-245 | in every run from boot the launch begins slot 0 at age 0, and puts the plan on its timetable exactly if there is no debt then |
| SchedulerTimetable.DeviceTerminationIff | kernel/kernel.c:459-469 | the termination of a device leaves the plan on schedule exactly if there is no debt and no other device waits |
| SchedulerTimetable.TimetableFromBoot | kernel/kernel.h:154-156 | so from boot on, if the plan is launched without a debt, the slot after tick t is the one that the timetable has at t minus the launch tick |
| SchedulerWitnesses.LaunchedWithDebt | kernel/kernel.c:231-245 | witness from boot, with every repair: the debt of a device that was due before the launch is charged to a later slot |
| SchedulerClock.StepClock | cpu/timer.c:9-16 | the tick rises by exactly one with each timer event and never otherwise |
| SchedulerDevices.RingGrows | kernel/kernel.c:211-229 | what is counted as released in a step is exactly what the step appends to the device ring |
| SchedulerDevices.QueuedInSlotOrder | kernel/kernel.c:214-227 | devices that fall due in the same tick are queued in the order of their slots |
| SchedulerDevices.ZeroRateAbortsIff | kernel/kernel.c:211-218 | a check divides by zero exactly if it releases devices and some live device has rate 0 |
| SchedulerDevices.TimerCount | kernel/kernel.c:212-229 | the timer checks enqueue a device of rate n exactly floor(t/n) - floor(c/n) times between ticks c and t |
| SchedulerDevices.ReleasedAgainIff | kernel/kernel.c:211-218 | as written: a yield releases a device again exactly if the slot has an age and the rate divides the tick |
| SchedulerDevices.ReleasesExactIff | kernel/kernel.c:211-229 | as written: the total number of releases is exact if and only if no process yields, with its flag clear, in a tick that the rate divides while the slot has an age |
| SchedulerWitnesses.ReleasedTwice | kernel/kernel.c:212-218 | witness: a run from boot in which a device is enqueued twice in one tick |
| SchedulerDevices.ReleasesExact | kernel/kernel.h:181-186 | released once per tick, a device is enqueued exactly as often as its rate says |
| SchedulerDevices.ChainYield | kernel/kernel.c:231-266 | when a device yields, the next one is dispatched and the time since its dispatch goes into debt, or the time-up test sees an age equal to the debt |
| SchedulerDevices.ChainRestoresAge | kernel/kernel.c:259-270 | after a chain of devices of any length the slot gets back its age at the first dispatch plus the time up to the last dispatch; the last device is not charged |
| SchedulerSporadic.CheckRing | kernel/kernel.c:276-287 | a check rotates the sporadic ring exactly if its front process gave up its time and no device is dispatched, and never changes it otherwise |
| SchedulerWitnesses.YieldKeepsFront | kernel/kernel.c:231-236 | witness from boot: a yield whose check dispatches a device leaves the process at the front of its ring |
| SchedulerSporadic.StepServes | kernel/kernel.c:432-478 | a step leaves the ring alone, rotates it, takes its front, or appends a new process |
| SchedulerSporadic.RankMoves | kernel/kernel.h:168-175 | a waiting process moves up by one exactly when the front moves |
| SchedulerSporadic.FirstComeFirstServed | kernel/kernel.h:114-114 | over every run a process at position p reaches the front after exactly p rotations and departures, so nobody overtakes |
| SchedulerNames.CreateNamesOk | kernel/kernel.c:404-415 | creation keeps the registry exactly the names in use, none used twice |
| SchedulerNames.BootNamesOk | kernel/kernel.c:350-363 | at boot no name is registered and none is in use |
| SchedulerNames.UnregisterExactIff | kernel/kernel.c:73-81 | unregistering takes away exactly its name if and only if one bit is cleared or no other name of the word is set |
| SchedulerNames.TerminateNamesIff | kernel/kernel.c:479-491 | termination keeps the registry exact if and only if one bit is cleared, a device terminates, or no other process has a name in the same word |
| SchedulerNames.NamesKept | kernel/kernel.c:83-89 | so the registry is exact in every state of a run |
| SchedulerNames.ResolvesIff | kernel/kernel.c:99-110 | the lookup answers with the user of a name, or with INVALIDPID if there is none, exactly if no process that carries the number as something else comes before the user in the table |
| SchedulerNames.PidFromNameFinds | kernel/kernel.c:99-110 | so it is right for every name of the plan if only periodic processes carry its numbers |
| SchedulerWitnesses.DeviceTakesName | kernel/kernel.c:99-110 | witness: with the plan that OS_Init sets up, name 2 resolves to a device of rate 2 |
| SchedulerNames.WrittenTerminateLosesName | kernel/kernel.c:76-76 | witness: after a termination a name in use can be taken a second time |
| SchedulerNames.NameZeroIsIdle | kernel/kernel.c:363-363 | witness: at boot name 0 resolves to the idle process |
| KernelScheduler.KernelScheduler.constructor | kernel/kernel.c:318-363 | the initial globals are the boot state of the model |
| KernelScheduler.KernelScheduler.FindSlot | kernel/kernel.c:112-121 | the loop finds the first slot of a pid |
| KernelScheduler.KernelScheduler.FindByName | kernel/kernel.c:99-110 | the loop is the name lookup of the model |
| KernelScheduler.KernelScheduler.SwitchProcess | kernel/kernel.c:140-160 | switching in place is the switch of the model, aborts included |
| KernelScheduler.KernelScheduler.ReleaseDevices | kernel/kernel.c:214-228 | the loop enqueues exactly the due devices in slot order, and fails exactly if a rate is 0 or they do not fit |
| KernelScheduler.KernelScheduler.DispatchNext | kernel/kernel.c:299-310 | the end of the check dispatches as the model does |
| KernelScheduler.KernelScheduler.PeriodicCheck | kernel/kernel.c:291-310 | the time-up test in place is that of the model |
| KernelScheduler.KernelScheduler.CheckSchedule | kernel/kernel.c:206-316 | the check on the globals is the check of the model, aborts included |
| KernelScheduler.KernelScheduler.TimerTick | cpu/timer.c:9-16 | the tick rises by one and the schedule is checked |
| KernelScheduler.KernelScheduler.OsYield | kernel/kernel.c:499-516 | OS_Yield with its interrupt is the yield of the model |
| KernelScheduler.KernelScheduler.OsCreate | kernel/kernel.c:396-448 | OS_Create on table, bitmap and ring is the creation of the model |
| KernelScheduler.KernelScheduler.OsTerminate | kernel/kernel.c:455-491 | OS_Terminate on table, bitmap and rings is the termination of the model |
| PidRing.PidRing.Push | kernel/kernel.c:438-439 | storing behind the last cell, modulo the capacity, appends |
| PidRing.PidRing.Pop | kernel/kernel.c:509-511 | advancing the index removes the front |
| PidRing.PidRing.Rotate | kernel/kernel.c:285-286 | the rotation moves the front to the end at every length, full ring included |
| NameRegistry.RegisterSets | kernel/kernel.c:64-70 | or-ing in the mask sets exactly the bit of the name |
| NameRegistry.UnregisterClears | kernel/kernel.c:73-81 | the repaired mask clears exactly the bit of the name, the written one its whole word |
| NameRegistry.RegisterBit | kernel/kernel.c:63-71 | registers a free bit and no other, or reports that it is taken |
| NameRegistry.UnregisterBit | kernel/kernel.c:73-81 | reports whether the bit was set, and clears the bit or its word |
| Semaphores.StepConservesIff | kernel/kernel.c:641-715 | every step conserves the units of a semaphore, except exactly a repeated registration and a release that clears a bit of another semaphore |
| Semaphores.StepKeepsDiscipline | kernel/kernel.c:675-681 | if processes wait for a semaphore only while they do not own it, no step registers a grant of it twice |
| Semaphores.RunConserves | kernel/kernel.h:247-252 | under every interleaving count, owners, grants and releases under way add up to the initial number, and the count is never negative |
| Semaphores.AtMostNHolders | kernel/kernel.h:248-250 | so at most n processes hold a semaphore initialised with n |
| Semaphores.WaitSucceedsIff | kernel/kernel.c:649-675 | under every interleaving the next attempt of a waiting process succeeds exactly if fewer than n units are owned, granted or being put back; if it is refused, somebody has a unit |
| Semaphores.OnlyTakingWaits | kernel/kernel.c:669-714 | no step of a call waits for anything but a unit of its semaphore |
| Semaphores.WaitAcquires | kernel/kernel.c:641-683 | an undisturbed OS_Wait goes through at once exactly if a unit is left; the process then owns the semaphore and the count is one less |
| Semaphores.SignalReleases | kernel/kernel.c:710-714 | an undisturbed OS_Signal by an owner puts the unit back, and gives up no other semaphore exactly if one bit is cleared or no other bit of the word is set |
| Semaphores.WrittenReleaseLosesUnit | kernel/kernel.c:712-714 | witness: signalling one semaphore loses the unit of another one |
| SemaphoreTable.SemaphoreTable.InitSem | kernel/kernel.c:636-638 | sets the count of one semaphore and nothing else |
| SemaphoreTable.SemaphoreTable.TryTake | kernel/kernel.c:673-675 | one test with its decrement succeeds exactly if the count is positive; it then takes one unit, and else changes nothing |
| SemaphoreTable.SemaphoreTable.RegisterGrant | kernel/kernel.c:681-681 | adds the semaphore to those that the process owns, the registering step of the protocol |
| SemaphoreTable.SemaphoreTable.TryRelease | kernel/kernel.c:712-712 | clearing the bit succeeds exactly if the process holds the semaphore, and is the releasing step, as written or repaired |
| SemaphoreTable.SemaphoreTable.PutUp | kernel/kernel.c:714-714 | the increment completes the release |
| WaiterList.WaitQueue.Enqueue | kernel/kernel.c:657-666 | a waiting process is appended, and head and tail fit |
| WaiterList.WaitQueue.Unlink | kernel/kernel.c:690-700 | an invalid node is taken out, and the kept nodes stay linked in order |
| WaiterList.WaitQueue.Sweep | kernel/kernel.c:687-704 | the loop ends on every acyclic list, keeps exactly the valid nodes in order and frees exactly the others |
| WaiterList.WaitQueue.Cleanup | kernel/kernel.c:685-708 | as written: the tail stays unless the list becomes empty, so that head and tail fit the survivors exactly if none is left or the last node was valid |
| WaiterList.StaleTail | kernel/kernel.c:705-707 | witness: of two nodes the last is invalid, and the tail stays there |
| WaiterList.WaitQueue.CleanupRepaired | kernel/kernel.c:685-708 | with the tail set to the last survivor, head and tail always fit |
| WaiterList.KeptOrFreed | kernel/kernel.c:690-703 | every node is either kept or freed, and freed once |
| WaiterList.SelectKeepsOrder | kernel/kernel.c:687-704 | the nodes that are kept stay in the order in which they were put in line |
| Fifos.WriteAppends | kernel/kernel.c:746-755 | a write appends the value and drops the oldest one exactly if the FIFO was full |
| Fifos.ReadTakesOldestIff | kernel/kernel.c:757-767 | a read takes the oldest value exactly if the index has not run past the array |
| Fifos.ContentsAreSuffix | kernel/kernel.h:268-270 | after any run of writes and reads the contents are the last values written |
| Fifos.ReadAnswersOldest | kernel/kernel.h:283-286 | after any run a read answers with the oldest value neither read nor displaced; as written exactly while the index is in the array |
| Fifos.PutsAdvance | kernel/kernel.c:749-753 | n writes in a row leave the written index at n - 8 |
| Fifos.SixteenWritesThenRead | kernel/kernel.c:752-760 | witness: sixteen writes and a read go past the array |
| Fifos.FifoBuf.Put | kernel/kernel.c:746-755 | OS_Write in place is the write of the model |
| Fifos.FifoBuf.Take | kernel/kernel.c:757-767 | OS_Read in place is the read of the model |
| FifoTables.AcceptedIff | kernel/kernel.c:53-58 | handles 1 to 16 are accepted, as written without the last one |
| FifoTables.OpenedIs | kernel/kernel.c:736-744 | OS_InitFiFo opens the first FIFO that is not open, with its index and cells as they are, issues its handle, and changes nothing else |
| FifoTables.FifosAreApart | kernel/kernel.c:736-767 | in every run each FIFO holds what the accesses through its own handle made of it, from empty on, whatever is opened and done with others |
| FifoTables.HandlesInOrder | kernel/kernel.c:736-744 | in every run the handles issued are 1 to 16 in order, and invalid from then on |
| FifoTables.ReadIsOwn | kernel/kernel.h:268-286 | in every run a read answers with the oldest value written through the same handle and neither read nor displaced; as written exactly while the index is in the array |
| FifoTables.FifoTable.Init | kernel/kernel.c:343-347 | closes all FIFOs and clears index and cells |
| FifoTables.FifoTable.InitFifo | kernel/kernel.c:736-744 | opens one FIFO in place, leaves the others and its own index and cells alone, and get_fifo as written accepts the handle exactly if it is not the last one |
| FifoTables.FifoTable.WriteTo | kernel/kernel.c:746-755 | writes to the FIFO of the handle and to no other, or aborts exactly on a handle that get_fifo rejects |
| FifoTables.FifoTable.ReadFrom | kernel/kernel.c:757-767 | reads the FIFO of the handle and touches no other, or aborts exactly on a handle that get_fifo rejects |
| MemoryRoutines.MemoryCopy | libc/mem.c:4-16 | the loops move the bytes for every overlap and length, as written without index 0 when descending, and change nothing else |
| MemoryRoutines.MovedWhole | libc/mem.c:3-4 | the destination reads the old source range and all other bytes are unchanged |
| MemoryRoutines.CopiesIff | libc/mem.c:7-15 | the copy is exact if and only if it is repaired, has nothing to do, does not descend, or skips a byte that was right already |
| MemoryRoutines.WrittenCopySkipsFirstByte | libc/mem.c:12-12 | witness: an overlapping copy of two bytes |
| MemoryRoutines.MemorySet | libc/mem.c:18-20 | fills exactly the given range |
| Screen.CursorRoundTrip | drivers/screen.c:114-133 | an offset survives the two cursor registers exactly if it is even and fits them |
| Screen.OffsetRoundTrip | drivers/screen.c:148-150 | column and row determine the offset, and are on the screen exactly if the offset is |
| Screen.PutTracksCursor | drivers/screen.c:31-40 | the column and row kept by the loop are always those of the cursor registers, and printing never leaves the screen |
| Screen.KprintConcat | drivers/screen.c:22-45 | printing two messages is printing their concatenation, whatever the cursor was |
| Screen.OffScreenOnlyMarks | drivers/screen.c:72-77 | with the cursor off the screen any message marks the last cell and changes nothing else |
| Screen.PutShowsDraw | drivers/screen.c:83-111 | printing a character keeps screen and canvas in step, scrolling included |
| Screen.KprintShowsDrawing | drivers/screen.c:22-41 | so does a message of any length |
| Screen.ScreenIsWindow | drivers/screen.c:22-146 | whatever is printed after clearing, the screen shows the last 25 rows of the unbounded canvas and its cursor, and the cursor stays on the screen |
| Screen.PlainTextStands | drivers/screen.c:90-93 | plain text stands on the canvas in consecutive cells, and everything else stays |
| ScreenText.NewlineStartsRow | drivers/screen.c:83-107 | byte 10 moves the cursor to the start of the next row and writes nothing; in the last row all rows move up by one and the last becomes blank |
| ScreenText.BackspaceBlanks | drivers/screen.c:86-88 | byte 8 makes the cell at the cursor a white space on black, and the cursor stays |
| ScreenText.CharacterStands | drivers/screen.c:89-107 | any other byte takes the cell at the cursor, and the cursor moves on, with all rows up by one behind the last cell |
| ScreenText.ClearedIsBlank | drivers/screen.c:135-145 | every cell is a white space on black, and the cursor is at 0 |
| ScreenText.PrintsAtPosition | drivers/screen.c:22-41 | printing at a column and row of the screen is printing from a cursor there |
| ScreenText.OffPositionMarks | drivers/screen.c:72-77 | a position off the screen costs the first character and marks the last cell; the rest goes to the cell that the numbers come to |
| ScreenText.AttributeColours | drivers/screen.c:70-93 | a character has the colour of its attribute, white on black for 0 |
| ScreenText.LinesStand | drivers/screen.c:22-93 | lines joined by newlines: each but the first begins in column 0 of the row behind the one before, and everything around them stays |
| ScreenText.LinesOnScreen | drivers/screen.c:22-146 | any number of lines shorter than a row, printed on a cleared screen: the last 25 stand on it, byte for byte, each in a row of its own, and the cursor behind the last |
| Display.Display.GetCursorOffset | drivers/screen.c:114-124 | reads the cursor through the index register without changing it |
| Display.Display.SetCursorOffset | drivers/screen.c:126-133 | stores both bytes of the cursor |
| Display.Display.Scroll | drivers/screen.c:97-105 | copying row by row with memory_copy moves all rows up by one and blanks the last |
| Display.Display.PrintChar | drivers/screen.c:68-112 | print_char in place is that of the model, its error branch included |
| Display.Display.KprintAt | drivers/screen.c:22-41 | the loop prints the text before the NUL as the model does |
| Display.Display.ClearScreen | drivers/screen.c:135-145 | blanks all cells and homes the cursor |
| CStrings.StrLen | libc/string.c:54-58 | the index of the first NUL |
| CStrings.Reverse | libc/string.c:44-51 | reverses the text in place and leaves the rest alone |
| CStrings.Append | libc/string.c:60-64 | appends a character and a NUL |
| Ascii.DecimalParses | libc/string.c:13-19 | the decimal text of an integer is canonical and parses back to it |
| Ascii.CanonicalIsDecimal | libc/string.c:13-19 | it is the only canonical text that does |
| Ascii.DecimalFits | libc/string.c:9-21 | the text of a 32-bit integer has at most 11 characters |
| Ascii.IntTextIff | libc/string.c:11-11 | what int_to_ascii writes is the decimal text, and parses back, exactly if the number is not the least integer |
| Ascii.PutDigits | libc/string.c:12-15 | the do-while loop writes the digits backwards, and one digit of a negative number |
| Ascii.IntToAscii | libc/string.c:9-21 | the buffer holds the text and a NUL, and nothing behind is changed |
| Ascii.PatternNibble | libc/string.c:32-32 | shifting a negative number keeps the nibbles of its bit pattern |
| Ascii.HexParsesIff | libc/string.c:23-41 | the digits parse back to the same 32 bits exactly if the comparison is repaired or no upper digit is ten |
| Ascii.HexLeadsWithoutZero | libc/string.c:24-32 | the text begins with 0x, and no zero leads the digits unless it is the only one |
| Ascii.DigitCharacters | libc/string.c:14-40 | which character each digit is |
| Ascii.WrittenHexMisprints | libc/string.c:34-34 | witness: 0xA0 is printed with a colon |
| Ascii.HexToAscii | libc/string.c:23-41 | the loop over the nibbles appends exactly the prefix and the digits without leading zeros |

## Left out

- Saving and restoring registers, and the stack adjustment in `switch_process`: a switch changes the current pid and clears the old flag.
- Boot code, interrupt stubs, descriptor tables, programming of the timer and the interrupt controller: hardware setup.
- The keyboard driver and the applications: input and demonstrations.
- A tick between setting the flag in `OS_Yield` and the interrupt that checks the schedule: yield and check are one step.
- The division of the timer interrupts by 50 (`cpu/timer.c:10-12`): an event is a tick that reaches the schedule.
- OS_Wait and OS_Signal as whole calls: other processes run in between, so their atomic steps are methods of their own.
- Debug output of the kernel calls: it has no effect on the state modelled.
- Overflow of the tick, the pid counter and the FIFO index beyond 32 bits; in the model these numbers are unbounded.
- The abort on a corrupted header in `OS_Malloc`: users are assumed to write only to their own blocks.
- Creation with an invalid level, which leaves a half-made process.
- KernelScheduler.KernelScheduler.OsCreate: excludes names from 96 on, whose bit would lie outside the registry.
- KernelScheduler.KernelScheduler.OsTerminate: requires the ring of the running process not to be empty, where the source would compare a stale cell; the invariant implies it.
- KernelScheduler.KernelScheduler.OsYield: fails if a running device finds its ring empty, where the source lets the length underflow; the invariant shows that this does not happen.
- Scheduler.Check: if one release loop meets both a rate of 0 and a full ring, the abort is always put down to the rate.
- SemaphoreTable.SemaphoreTable.InitSem: leaves out the list of waiting processes, whose empty state is the constructor of WaiterList.WaitQueue.
- SemaphoreTable.SemaphoreTable.TryTake: is one attempt; queueing is WaiterList.WaitQueue.Enqueue, and the retry is a run of the protocol.
- FifoTables.FifoTable.WriteTo: requires the FIFO of an accepted handle to be open; what the source writes before the array of one that is not is undefined.
- FifoTables.FifoTable.ReadFrom: requires the index of a FIFO that is not empty to lie within the array.
- Fifos.FifoBuf.Take: requires the index to lie within the array; what the source reads beyond it is undefined.
- Allocator.Allocator.Malloc: excludes the largest int, for which the source's signed addition overflows.
- Handing a semaphore to a waiting process first come, first served: the code does not guarantee it, since a sporadic yield goes to the next sporadic process.
- A denied allocation of a waiter node, and the use of a node in `OS_Wait` after its release: nodes are objects, and those released are collected in a ghost sequence.
- A device that finds a semaphore taken aborts the system: such a step is not part of the protocol.
- `kprint_backspace`, and the default of `print_char` for negative coordinates, which its callers resolve before they call it.
- `backspace` and `strcmp` of the string library: simple loops without a property that reaches further.
