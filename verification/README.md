# flexe: a verified model of its hard cores

flexe emulates ESP32-family chips. This project models, in Dafny, the parts of it whose
correctness is a matter of whole runs or of algebra rather than of one function body, and
proves what those parts promise:

- the host-side FreeRTOS: a two-core priority scheduler, queues, counting semaphores, plain
  and recursive mutexes, event groups and ring buffers, in which a blocked call never runs
  again and whoever wakes it completes it (`GuestMemory`, `QueueRing`, `QueueHistory`,
  `KernelTypes`, `KernelSteps`, `KernelEvents`, `KernelChoice`, `KernelModel`,
  `KernelFaults`, `KernelRuns`, `RingBuffer`, `RingWaiters`);
- the AES engine: the cipher and its inverse, the key schedule, six DMA block modes
  (`AesField`, `AesTables`, `AesCipher`, `AesRounds`, `AesBlocks`, `AesKey`, `AesCounter`,
  `AesModes`, `AesStandard`, `AesEngine`), and the engine fed by the DMA controller (`AesDma`);
- the DMA descriptor walker, in one bounded call and one descriptor at a time (`GdmaChain`,
  `Gdma`);
- the flash MMU and the code caches that depend on it (`FlashMmu`);
- the x86-64 code emitter with store-to-load forwarding, and the execution of its bytes
  (`X64`, `Forwarding`, `Emitter`, `Execution`);
- the H4 byte stream of the Bluetooth link (`H4`);
- the sprite line drawer (`Line`).

`dafny verify dfyconfig.toml` checks everything. No file depends on a library.

## How it is built

State that the source updates in place is a class whose methods are the source's
operations: `KernelModel.Kernel`, `RingBuffer.Buffer`, `AesEngine.Engine`,
`Gdma.Controller`, `FlashMmu.Mmu`, `Emitter.CodeBuffer` and `H4.Receiver`. Each class has a
`Valid()` that its methods keep, or whose loss they state exactly, and, where a claim is about
the past, ghost fields that record it: every send, receive, give, take, lock and unlock of a queue object; every item
put into and got out of a ring buffer; every byte heard and every packet reported on the
link; every instruction asked of the emitter. What the recorded past implies is proved in
lemmas about those records. Loops that scan or copy are loops here too, proved against
functions whose own properties are proved.

The kernel's `Valid()` has two halves. `Usable()` is what most calls keep whatever has
happened: safe cores, rings within bounds. `Sound()` adds that every wait is justified, every
recorded history true and every handle accounted for. Most calls are specified on any usable
kernel, with what they do to a sound one beside it, so that a run can be followed past the
call that made the kernel unsound. `KernelFaults` does that: each method starts from a new
kernel and ends with the harm, and `KernelRuns` follows sound runs from a new kernel in the same
way.

What an operation computes is stated by numbers, bits and bytes, not only by the functions it is
proved against: a descriptor by its twelve bytes, an instruction by its encoding, a cipher round
and a key schedule byte by byte as FIPS 197 gives them, the block modes by the equations of NIST SP
800-38A, an event-group condition bit by bit, the next task by its place going round.

Where the code does less than one might expect, the model does what the code does and the
contract says exactly when the property holds:

- an idle task is chosen over ready work of priority 0 if and only if a slice of priority 0
  is over and the next ready task of that priority, going round, is an idle one;
- remote suspend, delete by handle and promotion out of single-task mode keep the scheduler
  sound if and only if a stated condition on the target holds; a timed receive or send on a
  semaphore handle that blocks leaves the kernel unsound, and every other queue call keeps it
  sound;
- a RUNNING task is current on a core unless a core ran it before the scheduler started;
- a sleep ends on whichever core's clock reaches the deadline first, although the deadline
  was set on one of them;
- a ring-buffer reservation can be completed at the address it was given if and only if no
  byte was given back since it was made; until some completion names the end that the used
  bytes have at that moment, it stays and blocks every send;
- a task that waits in a ring-buffer receive is not woken by the return of an item: it waits
  in vain if and only if something is left in the buffer;
- a flash change is noticed for every byte an entry maps if and only if the entry's page
  offset does not wrap around 32 bits, and the caches stay coherent if and only if the change
  reaches no kept code unnoticed;
- a dropped (forwarded) load leaves the high half of its register as it was: a run accesses
  the addresses the plain code would access if and only if no access on its path has such a
  register as its base with a high half that was not zero;
- the emitter's room test can pass although an instruction was cut short: the buffer is
  what was asked for if and only if the requests fit;
- reading a DMA chain one descriptor at a time succeeds if and only if each descriptor fits
  one call, and agrees with reading it whole on everything but the stream's own next pointer
  if and only if the chain ends.

Modelling conventions: guest memory is a byte per mapped address; the saved CPU context of a
task is reduced to the one return slot that a completion patches; time is a natural number
per core; every API call is one atomic step, as it is under the kernel lock. Sockets, DMA
delivery as seen by the AES engine, and the schedule of waits are parameters. A whole run
(`Run`) skips the calls that the contracts of its steps show to be unsound, and the kinds of
call named below for `Run` and its steps.

## Model

| member | source | states |
|---|---|---|
| GuestMemory.WriteBytesAt | src/memory.h:288-296 | a block of byte stores is seen byte for byte where it was made and nowhere else |
| GuestMemory.BytesAreDigits | src/memory.h:288-296 | the bytes of a stored word are its digits to base 256, the lowest first |
| QueueRing.Enqueue | src/freertos_stubs.c:1536-1556 | copies one item from guest memory into the slot the position asks for, moving head or tail and count as the deque operation does |
| QueueRing.EnqueueRefines | src/freertos_stubs.c:1536-1556 | on the contents, oldest first, a send is exactly push-back, push-front or replace-the-oldest, and tail = head + count keeps holding |
| QueueRing.DequeueRefines | src/freertos_stubs.c:1819-1829 | removing the head drops exactly the oldest item |
| QueueRing.CopyIn | src/freertos_stubs.c:1548-1550 | the byte loop overwrites one slot with the guest's bytes and nothing else |
| QueueRing.CopyHead | src/freertos_stubs.c:1822-1824 | the byte loop leaves the head item in the receiver's memory |
| QueueHistory.FirstInFirstOut | src/freertos_stubs.c:1420-1441 | for every legal history of sends to the back: delivered items, then held items, are the accepted items in order |
| QueueHistory.NothingLost | src/freertos_stubs.c:1536-1590 | for every legal history without overwrites, whichever end is used: accepted = delivered + held, as multisets |
| QueueHistory.SendOk | src/freertos_stubs.c:1536-1556 | an accepted send keeps ring and history in step |
| QueueHistory.ReceiveOk | src/freertos_stubs.c:1819-1829 | taking the head item keeps ring and history in step |
| QueueHistory.MutualExclusion | src/freertos_stubs.c:1946-2001 | two identities never both have more takes than gives of one recursive mutex |
| KernelTypes.RunPicked | src/freertos_stubs.c:588-615 | running the picked task keeps both cores on distinct, eligible, RUNNING tasks |
| KernelTypes.SwitchKeepsWaits | src/freertos_stubs.c:436-474 | a switch, including the deadline expiries it causes, breaks no wait invariant |
| KernelTypes.PreemptKeeps | src/freertos_stubs.c:3138-3244 | a preemption keeps both cores safe and leaves nothing ready that outranks the new task |
| KernelTypes.PreemptTightens | src/freertos_stubs.c:3223-3244 | preempting a task puts the core in order even if that task was suspended or deleted under it, and leaves nothing ready that outranks the new one |
| KernelTypes.MetBitByBit | src/freertos_stubs.c:912-915 | a condition is met, with ALL, exactly when every one of the 32 bits wanted is set; otherwise exactly when no bit is wanted or one wanted bit is set |
| KernelSteps.ScanWaiter | src/freertos_stubs.c:1415-1418 | the wake loop finds the first receiver, or sender, parked on the handle |
| KernelSteps.ScanServable | src/freertos_stubs.c:1415-1430 | the wake loop finds the first receiver it can serve, passing over those that want an item from an empty object |
| KernelSteps.WakeReceiver | src/freertos_stubs.c:1412-1469 | in any usable kernel: serves the first receiver that can be served, patches its result and dequeues on its behalf; a mutex waiter becomes the owner; the others stay |
| KernelSteps.WakeSender | src/freertos_stubs.c:1561-1590 | in any usable kernel: completes the first blocked send, if there is room, with the item its memory holds now |
| KernelSteps.SendKeeps | src/freertos_stubs.c:1651-1656 | a send and the hand-over it leads to keep every wait justified and every history true |
| KernelSteps.ReceiveKeeps | src/freertos_stubs.c:1819-1829 | a receive and the blocked send it lets through keep every wait justified and every history true |
| KernelSteps.AcceptSend | src/freertos_stubs.c:1651-1656 | the whole accepted send, sound kernel or not; in a sound one the item is logged, the first receiver is served with it and everything stays sound |
| KernelSteps.AcceptReceive | src/freertos_stubs.c:1819-1829 | the whole receive, sound kernel or not; in a sound one the oldest item is copied out, the first blocked send is completed and everything stays sound |
| KernelSteps.AcceptTokenReceive | src/freertos_stubs.c:1819-1829 | a receive from a semaphore lets through a send that waits on it, which a sound kernel does not have |
| KernelSteps.AcceptGive | src/freertos_stubs.c:1604-1656 | a give hands its token to a waiter or adds it to the count, never both |
| KernelSteps.AcceptLock | src/freertos_stubs.c:1946-1972 | entering a mutex that is free or already the caller's keeps count, owner and depth in step with the history |
| KernelSteps.AcceptUnlock | src/freertos_stubs.c:1975-2001 | a final give frees the token or makes exactly one waiter the owner at depth 1 |
| KernelSteps.SoundArrives | src/freertos_stubs.c:1651-1656 | what an accepted send does to the contents, oldest first, and to the log of the object: the item is at the back, at the front or in place of the oldest, unless a waiting receiver had it at once |
| KernelSteps.SoundLeaves | src/freertos_stubs.c:1819-1829 | what a receive does to them: the oldest item is gone, and the item of the first blocked send, as its memory holds it, has come in at its end |
| KernelSteps.InstallKeeps | src/freertos_stubs.c:1358-1389 | a new object has no waiters and hides no other; the kernel stays sound if and only if the allocator is past its handle |
| KernelSteps.PromoteExactly | src/freertos_stubs.c:701-712 | putting task 0 on core 0 keeps the tables usable if and only if it may run there and core 1 does not run it |
| KernelSteps.DeleteExactly | src/freertos_stubs.c:884-890 | marking a slot unused keeps sound tables sound if and only if the task is not current and not waiting; a core that runs it can still be checked |
| KernelSteps.SuspendExactly | src/freertos_stubs.c:2311-2319 | suspending from outside keeps the tables sound if and only if the task is not current and is not a parked sender; a core that runs it can still be checked |
| KernelEvents.PassIsFair | src/freertos_stubs.c:912-944 | after a wake pass nobody still waiting has its condition met by the bits left, even after earlier clear-on-exit; whoever was released got bits that met its own condition |
| KernelEvents.WakePass | src/freertos_stubs.c:921-944 | one pass in table order releases exactly the satisfied waiters with the bits they saw |
| KernelEvents.PassBitByBit | src/freertos_stubs.c:921-944 | a pass bit by bit: a waiter goes exactly when the bits it wants are still there as its mode asks, and each bit is left exactly when it was set and no released waiter before took it |
| KernelEvents.SetKeeps | src/freertos_stubs.c:974-984 | a setter leaves no waiter whose condition is met, and disturbs neither scheduler nor queues |
| KernelEvents.ClearKeeps | src/freertos_stubs.c:1002-1011 | clearing bits satisfies nobody |
| KernelChoice.TopPriority | src/freertos_stubs.c:536-543 | the best priority among the real tasks this core could run |
| KernelChoice.RoundRobin | src/freertos_stubs.c:545-557 | the cyclically first task of that priority after the current one |
| KernelChoice.BestOther | src/freertos_stubs.c:3170-3184 | the cyclically first task of the best priority this core could run instead |
| KernelChoice.NextEqual | src/freertos_stubs.c:3208-3216 | the next ready task of equal priority going round, idle tasks not skipped |
| KernelChoice.IdleChosenExactly | src/freertos_stubs.c:3186-3221 | for every table: an idle task is chosen, always ahead of real work, if and only if the slice of a real task of priority 0 is over, nothing better is ready, something real of priority 0 is, and the next ready task of that priority is idle |
| KernelChoice.IdleCanWin | src/freertos_stubs.c:3208-3216 | on a table with both idle tasks the choice is the idle one while real work of priority 0 is ready, though the comment in the picker says idle never wins |
| KernelChoice.ChooseNext | src/freertos_stubs.c:3165-3221 | returns exactly the chosen task; higher priority preempts at once, equal after the slice, lower never, idle always gives way |
| KernelChoice.FirstIsNext | src/freertos_stubs.c:545-557 | the task found is the next in turn: counted from just past the current one, no task in between could run at that priority |
| KernelChoice.ChosenByTheRules | src/freertos_stubs.c:3165-3221 | the choice of a preemption by the rules: the next in turn of the highest priority if that is higher, after the slice the next in turn of the same one, idle tasks included, else none |
| KernelModel.Kernel.WakeSleepers | src/freertos_stubs.c:436-474 | every sleep whose deadline this core's clock reached ends, with the result its call was primed with or the group's current bits |
| KernelModel.Kernel.InstallIdleTasks | src/freertos_stubs.c:494-526 | each core gets its own idle task, once, if the table has room |
| KernelModel.Kernel.PickNext | src/freertos_stubs.c:530-582 | the next in turn of the tasks with the highest priority this core may run, counting sleepers whose deadline passed; only without one the core's own idle task |
| KernelModel.Kernel.Switch | src/freertos_stubs.c:588-615 | both cores stay safe, the next task is picked by the rules, nothing ready outranks it, whoever runs is accounted for, and the slice of the core starts at this moment exactly when a task was dispatched |
| KernelModel.Kernel.Sleep | src/freertos_stubs.c:719-744 | the caller is SLEEPING until clock + the shorter of the request and 200,000,000 cycles, the core has left it for the task the rules pick, and its slice starts |
| KernelModel.Kernel.Delay | src/freertos_stubs.c:719-744 | the caller sleeps for the requested cycles, capped at 200,000,000, and the best task runs; without a task the clock moves on instead |
| KernelModel.Kernel.Yield | src/freertos_stubs.c:2512-2525 | the caller becomes ready and the best task runs; without a task nothing happens |
| KernelModel.Kernel.SuspendSelf | src/freertos_stubs.c:2286-2309 | the caller is suspended and the best task runs; without a task the tables stay as they are |
| KernelModel.Kernel.DeleteSelf | src/freertos_stubs.c:874-890 | the caller's slot is freed and the best task runs; on a core without a task the null handle is looked up like any other |
| KernelModel.Kernel.Resume | src/freertos_stubs.c:2323-2336 | makes the named task ready exactly when it was suspended |
| KernelModel.Kernel.SuspendOther | src/freertos_stubs.c:2311-2319 | once a task runs: the target is out of any wait; the kernel stays sound exactly when the target is not the other core's current task and not a parked sender |
| KernelModel.Kernel.DeleteByHandle | src/freertos_stubs.c:874-890 | on any usable kernel: once the scheduler runs, frees the slot; a sound kernel stays sound exactly when the target is not current and not parked in a wait |
| KernelModel.Kernel.Preempt | src/freertos_stubs.c:3223-3244 | the old task is ready if it was running and otherwise stays suspended or deleted; the new one runs and both cores are safe |
| KernelModel.Kernel.CheckRunning | src/freertos_stubs.c:3160-3244 | also when the running task was suspended or deleted: sleeps end, then exactly the task the rules choose takes over, an equal one only once cycles per tick have passed since the last dispatch; after that no ready eligible task outranks the one that runs |
| KernelModel.Kernel.CheckPreempt | src/freertos_stubs.c:3138-3244 | the same for every core state, and nothing happens before the scheduler starts or on a core that is not attached |
| KernelModel.Kernel.Start | src/freertos_stubs.c:674-696 | dispatches core 0 from a clean slate; a task that core 1 already ran stays RUNNING and is current nowhere |
| KernelModel.Kernel.JoinCore | src/freertos_stubs.c:3114-3133 | a core entering the scheduler runs the best task and keeps the other core's; a task it already ran stays RUNNING and is forgotten |
| KernelModel.Kernel.PromoteLegacy | src/freertos_stubs.c:701-712 | keeps the kernel sound exactly when task 0 may run on core 0 and is not core 1's task |
| KernelModel.Kernel.CreateTask | src/freertos_stubs.c:779-868 | a task of priority below 20 joins the table ready, with its affinity; a handle is taken, and reported, exactly when one is asked for or needed; the second task before the start promotes task 0, which is sound exactly when task 0 may run on core 0 and core 1 does not run it |
| KernelModel.Kernel.SendData | src/freertos_stubs.c:1592-1659 | accepted, parked or refused exactly as room, overwrite, timeout and scheduler state say; parked, the caller waits on the handle with its item, position and deadline; in a sound kernel the item is logged and served |
| KernelModel.Kernel.SendToken | src/freertos_stubs.c:1604-1649 | a send to a semaphore is a give; parking it as a sender is what loses soundness |
| KernelModel.Kernel.Send | src/freertos_stubs.c:1592-1659 | every send keeps the kernel sound, except exactly one that blocks on a full semaphore |
| KernelModel.Kernel.Give | src/freertos_stubs.c:2099-2124 | a give succeeds exactly when someone can be served or there is room, and its token is accounted for |
| KernelModel.Kernel.ReceiveFromISR | src/freertos_stubs.c:1847-1873 | takes the oldest item, or a token, and lets a blocked send through |
| KernelModel.Kernel.Receive | src/freertos_stubs.c:1743-1833 | the oldest item is taken, or the caller waits on the handle with its buffer and deadline; every receive keeps the kernel sound, except exactly one that blocks on an empty semaphore |
| KernelModel.Kernel.Take | src/freertos_stubs.c:2049-2096 | takes a token, parks or fails, exactly as count, timeout and scheduler state say; parked, the caller waits on the handle as for a semaphore, with result 0 and its deadline, and the core has gone to the task the rules pick |
| KernelModel.Kernel.TakeRecursive | src/freertos_stubs.c:1946-1972 | on a core whose task has handle a (0xFFFFFFFF without a task): enters exactly when the owner is 0 or a, one level deeper, and is then the owner; anyone else parks or fails; sound except exactly when a task without a handle parks |
| KernelModel.Kernel.GiveRecursive | src/freertos_stubs.c:1975-2001 | on a core whose task has handle a: gives exactly when the owner is a; the last give frees the token or hands it to the first waiter at depth 1, and the history says so |
| KernelModel.Kernel.SetBits | src/freertos_stubs.c:974-984 | bits after the pass are returned and stored; every task and every bit is as the pass, bit by bit, leaves it |
| KernelModel.Kernel.ClearBits | src/freertos_stubs.c:1002-1011 | returns the bits before, wakes nobody |
| KernelModel.Kernel.DeleteGroup | src/freertos_stubs.c:1032-1051 | every waiter of the group is released with zero |
| KernelModel.Kernel.WaitBits | src/freertos_stubs.c:1054-1103 | a condition met, bit by bit, returns at once and clears if asked; otherwise the caller parks with what it wants and its deadline, or gets the bits |
| KernelModel.Kernel.CreateGroup | src/freertos_stubs.c:946-971 | the allocator's next handle with no bits, hiding no other group; 0 exactly when the table is full of live groups or the allocator is exhausted |
| KernelModel.Kernel.CreateQueue | src/freertos_stubs.c:1358-1389 | a fresh object in the first free slot, the object that already has the preferred handle, or 0, exactly as size, table and allocator say; sound unless the preferred handle is one the allocator will hand out |
| KernelModel.Kernel.Step | src/freertos_stubs.c:530-615 | one operation of a run: it keeps the kernel sound and is made, by kind: the core goes on to the task the rules pick, the item is in or out, the token taken or given, the mutex entered or left, the bits set, cleared or waited for |
| KernelModel.Kernel.Run | src/freertos_stubs.c:530-615 | any interleaving of any length of task, remote, scheduler, creation, queue, token and event calls on two cores keeps the kernel sound, and only appends to the histories of its objects, which stay what they are; a run of one operation makes it |
| KernelModel.NobodyWaitsInVain | src/freertos_stubs.c:1412-1469 | no lost wakeup: in a sound kernel no receiver faces an item, no sender faces room, no taker faces a token, no event waiter faces its bits |
| KernelModel.RunningIsCurrent | src/freertos_stubs.c:588-615 | in a sound kernel a RUNNING task is current on a core, unless it was current when the scheduler started and forgot it |
| KernelModel.DeliveredInOrder | src/freertos_stubs.c:1419-1441 | over the whole run: delivered items followed by ring contents are the accepted sends in order, hand-overs included, and tail = (head + count) mod length |
| KernelModel.TokensConserved | src/freertos_stubs.c:2049-2096 | a semaphore's count is what was created and given less what was taken |
| KernelModel.OneHolder | src/freertos_stubs.c:1443-1451 | at most one task holds a recursive mutex, and its depth is its unmatched takes |
| KernelFaults.ReceiverOfTokenWaitsInVain | src/freertos_stubs.c:1412-1430 | from a new kernel: a receive parks on an empty semaphore, a give comes, and the task is still parked with the count at 1 |
| KernelFaults.SenderOfTokenWaitsInVain | src/freertos_stubs.c:1604-1649 | from a new kernel: a send parks on a full semaphore, a take makes room, and the task is still parked |
| KernelFaults.SuspendedSenderWaitsInVain | src/freertos_stubs.c:2311-2319 | from a new kernel: a sender parked on a full queue is suspended and resumed; its next receive stays parked although an item is there and there is room |
| KernelFaults.DeletedTaskRevives | src/freertos_stubs.c:884-890 | from a new kernel: a task is deleted while parked in a receive, and the next send makes its slot READY |
| KernelFaults.DeletedTaskRuns | src/freertos_stubs.c:884-890 | from a new kernel: a task that deletes itself by handle is still current |
| KernelFaults.SuspendedTaskRuns | src/freertos_stubs.c:2311-2319 | from a new kernel: a task suspended from the other core still has its core after its slice, and loses it, still suspended, exactly when a task of its priority is ready |
| KernelFaults.PinnedTaskOnWrongCore | src/freertos_stubs.c:701-712 | from a new kernel: a first task pinned to core 1 is current on core 0 once a second is created |
| KernelFaults.ForgottenTask | src/freertos_stubs.c:674-696 | from a new kernel: a task that core 1 ran before the start is RUNNING and current nowhere |
| KernelFaults.SleepEndsOnOtherClock | src/freertos_stubs.c:436-474 | for any sleep begun on core 0 and any lead of core 1: once core 1 picks, the task sleeps on if and only if the lead is less than the sleep |
| KernelFaults.IdleRunsAheadOfWork | src/freertos_stubs.c:3186-3221 | from a new kernel: a task of priority 0 has had its slice, another is ready, and the preemption check puts the core on its idle task |
| KernelRuns.TakeIsCompleted | src/freertos_stubs.c:1412-1469 | from a new kernel: a take parks on an empty semaphore, a give completes it with result 1, and the count stays 0 |
| KernelRuns.ItemIsHandedOver | src/freertos_stubs.c:1412-1469 | from a new kernel: a receive parks on an empty queue and the other core's send puts its byte into the receiver's memory |
| KernelRuns.MutexIsHeld | src/freertos_stubs.c:1938-1972 | from a new kernel, a task on each core: the first takes a recursive mutex twice, and the second neither takes nor gives it |
| KernelRuns.MutexChangesHands | src/freertos_stubs.c:1938-2001 | after as many gives as takes the second task takes it and is its owner |
| KernelRuns.WaitForTwoBits | src/freertos_stubs.c:1054-1103 | from a new kernel, a group with bit 0: a wait for bits 0 and 1 parks, a wait for either returns with bit 0 |
| KernelRuns.SliceIsKept | src/freertos_stubs.c:3202-3232 | from a new kernel, for any times of checking: a task dispatched at time t keeps its core against an equal at every check before t + 160,000 and loses it at the first check from then on |
| RingBuffer.Copy | src/freertos_stubs.c:2704-2706 | the upward byte copy is the byte-by-byte function; it moves exactly the source bytes unless the target starts inside the source, and touches nothing else |
| RingBuffer.CopyRepeats | src/freertos_stubs.c:2704-2706 | where the target does start inside the source, the bytes between the two starts are repeated to the end |
| RingBuffer.CallKeeps | src/freertos_stubs.c:2694-2933 | every call keeps item lengths summing to the used bytes, used plus reserved within capacity, and loans within what is there |
| RingBuffer.ReachableRestorable | src/freertos_stubs.c:3638-3646 | every state a new buffer can reach passes the check made on restore |
| RingBuffer.WhileReserved | src/freertos_stubs.c:2895-2933 | while a reservation is out, only giving back moves the end of the used bytes |
| RingBuffer.CompletesExactly | src/freertos_stubs.c:2916-2933 | a reservation can be completed if and only if no byte was given back since it was made |
| RingBuffer.OutUntilCompleted | src/freertos_stubs.c:2916-2933 | over any calls, a reservation stays out and blocks every send if and only if no completion names the end the used bytes have at that moment |
| RingBuffer.ReservationMissed | src/freertos_stubs.c:2895-2933 | from a new buffer: after an item is given back the address of the reservation is refused, and the current end is accepted |
| RingBuffer.LedgerGot | src/freertos_stubs.c:2864-2879 | what is given back is the oldest item sent and not yet taken |
| RingBuffer.Buffer.DoSend | src/freertos_stubs.c:2694-2711 | accepted exactly when nothing is reserved, it fits, its source is not null and there are fewer than 256 items; held bytes stay and the new item, as the copy leaves it, follows in the order sent |
| RingBuffer.Buffer.DoBorrow | src/freertos_stubs.c:2713-2732 | lends the oldest item, whole, or the oldest bytes up to the limit |
| RingBuffer.Buffer.DoGiveBack | src/freertos_stubs.c:2857-2885 | only now do borrowed bytes leave; the rest close up unchanged |
| RingBuffer.Buffer.DoAcquire | src/freertos_stubs.c:2895-2914 | reserves room behind the used bytes without changing them |
| RingBuffer.Buffer.DoComplete | src/freertos_stubs.c:2916-2933 | accepted exactly at the end of the used bytes; what was filled in follows the bytes held and becomes the newest item |
| RingBuffer.Buffer.Run | src/freertos_stubs.c:2694-2933 | any sequence of sends, borrows, returns, reservations, completions and guest stores: the bookkeeping is that of the calls, accepted = given back + held in order, and until a loan is returned its bytes stay as they were |
| RingWaiters.Wake | src/freertos_stubs.c:2734-2763 | the scan stops at the first waiter, which is lent the oldest item if it can be |
| RingWaiters.EventRules | src/freertos_stubs.c:2734-2885 | what each event does: a send that fits and a completion at the end of the used bytes wake; a receive is served or, if nothing is lent out, waits; the others wake nobody |
| RingWaiters.FairNext | src/freertos_stubs.c:2734-2885 | a send, completion, receive, return, reservation or timeout leaves nobody waiting for what could be lent if and only if a condition on the state before holds; for a return: nothing is left or nobody waits |
| RingWaiters.ReturnIsFair | src/freertos_stubs.c:2857-2885 | after a return nobody waits in vain if and only if it was the last item or byte there, or nobody waits for one |
| RingWaiters.FairThroughout | src/freertos_stubs.c:2734-2885 | over any events, nobody ever waits in vain if and only if every event meets its condition |
| RingWaiters.ReturnWakesNobody | src/freertos_stubs.c:2857-2885 | from a new buffer: two tasks wait, two items come, the first task gives its item back, and the second waits on with the other item there |
| AesField.XTimeReduces | src/aes_stubs.c:231-233 | multiplication by x is the shift with the reduced carry |
| AesField.Mul | src/aes_stubs.c:277-287 | the eight-step loop computes the product of the next three rows |
| AesField.TimesTwo | src/aes_stubs.c:231-233 | twice a byte is the reduced shift |
| AesField.TimesThree | src/aes_stubs.c:255-266 | three times a byte is the byte and twice the byte |
| AesField.MulDistributes | src/aes_stubs.c:277-287 | the product distributes over sums on either side |
| AesField.TimesUnit | src/aes_stubs.c:277-287 | multiplying by the k-th power of x is k reduced multiplications by x |
| AesField.MulCommutes | src/aes_stubs.c:277-287 | the product commutes, for all pairs of bytes |
| AesField.UnmixColumn | src/aes_stubs.c:316-325 | the inverse column mix undoes the column mix on every column |
| AesTables.InvSubSub | src/aes_stubs.c:144-180 | the inverse table undoes the table |
| AesTables.SubInvSub | src/aes_stubs.c:144-180 | the table undoes the inverse table |
| AesTables.SubIsFieldInverse | src/aes_stubs.c:144-161 | every table entry is the affine image of the multiplicative inverse in GF(2^8), as section 5.1.1 of FIPS 197 defines it |
| AesCipher.WayBack | src/aes_stubs.c:289-329 | the inverse cipher passes in reverse through the states the cipher had after substitution and row shift |
| AesCipher.DecryptsWhatItEncrypts | src/aes_stubs.c:235-329 | inverse cipher after cipher is the identity: every block, every schedule, any number of rounds |
| AesRounds.CipherByBytes | src/aes_stubs.c:235-275 | the cipher goes through states of which each round makes byte 4c + i of the next from the four substituted bytes that the row shifts bring to column c, with the factors 2, 3, 1 and 1 and the key byte, the last round without factors |
| AesRounds.InvCipherByBytes | src/aes_stubs.c:289-329 | the inverse cipher the same way, with the inverse table, the shifts to the right and the factors 14, 11, 13 and 9 |
| AesBlocks.AddRoundKey | src/aes_stubs.c:268-271 | the in-place loop adds the round key |
| AesBlocks.SubstituteBytes | src/aes_stubs.c:245-247 | the in-place loop substitutes every byte |
| AesBlocks.InvSubstituteBytes | src/aes_stubs.c:306-308 | the in-place loop substitutes every byte by the inverse table |
| AesBlocks.ShiftInPlace | src/aes_stubs.c:249-253 | the swaps with one temporary shift row r by r places |
| AesBlocks.InvShiftInPlace | src/aes_stubs.c:300-304 | the swaps with one temporary shift row r back by r places |
| AesBlocks.MixInPlace | src/aes_stubs.c:255-266 | the in-place loop mixes the four columns |
| AesBlocks.InvMixInPlace | src/aes_stubs.c:315-325 | the in-place loop unmixes the four columns |
| AesBlocks.EncryptBlock | src/aes_stubs.c:235-275 | goes through the states that the rounds of section 5.1 of FIPS 197, byte by byte, lead through, returns the last, and the inverse cipher gives the block back |
| AesBlocks.DecryptBlock | src/aes_stubs.c:289-329 | goes through the states of section 5.3 of FIPS 197, byte by byte, hence returns the plaintext of any ciphertext |
| AesKey.KeyExpand | src/aes_stubs.c:202-227 | every byte of every word is the one section 5.2 of FIPS 197 gives, for 10, 12 or 14 rounds; unexpected lengths are taken for 128 bits |
| AesKey.ScheduleByBytes | src/aes_stubs.c:202-227 | a word list that follows the recurrence is the schedule byte by byte: rotation, substitution and round constant as numbers |
| AesKey.RconArePowers | src/aes_stubs.c:184-186 | the table of round constants holds the powers of x that the recurrence of section 5.2 of FIPS 197 asks for |
| AesKey.OneSchedule | src/aes_stubs.c:202-227 | a word list is a key's schedule if and only if it follows the recurrence from the key |
| AesKey.RunsBackwards | src/aes_stubs.c:218-225 | as many neighbouring words as the key has determine all earlier ones, so the last ones determine the key |
| AesCounter.CounterIncrement | src/aes_stubs.c:394-399 | the carry loop bumps all sixteen bytes or the last four |
| AesCounter.IncrementAddsOne | src/aes_stubs.c:394-399 | the increment is big-endian +1 modulo 2^128, or modulo 2^32 with the first twelve bytes fixed |
| AesCounter.NoRepeat | src/aes_stubs.c:394-399 | no counter block comes twice within a period |
| AesModes.StepBack | src/aes_stubs.c:438-483 | for one block in each of six modes, decrypting gives the block and leaves the vector encryption left |
| AesModes.RoundTrip | src/aes_stubs.c:435-484 | the same for messages of any number of blocks from any vector |
| AesModes.Splits | src/aes_stubs.c:435-484 | cutting a message at any block boundary changes neither output nor final vector |
| AesModes.NoCounterTwice | src/aes_stubs.c:461-465 | no two blocks of one accepted CTR operation are masked with the same counter block |
| AesStandard.RunIsStandard | src/aes_stubs.c:435-484 | modes 0 to 5 of the register are ECB, CBC, OFB, CTR, CFB8 and CFB128: every output block, or byte for CFB8, satisfies the equation of NIST SP 800-38A, either way |
| AesStandard.RunLeavesVector | src/aes_stubs.c:435-484 | the vector left is the one the next operation needs: the last ciphertext block, the last mask, the counter advanced by the number of blocks, or the window of the last 16 ciphertext bytes |
| AesEngine.UnpackPacked | src/aes_stubs.c:362-372 | a block survives the trip through the vector registers |
| AesEngine.UnpackedBytes | src/aes_stubs.c:362-366 | the registers hold a block from its first byte on, the first byte of each the lowest |
| AesEngine.ModeKey | src/aes_stubs.c:347-360 | the key registers become the key's schedule, for the supported sizes only |
| AesEngine.AcceptsWhatIsPermitted | src/aes_stubs.c:408-418 | accepted exactly: a key size the target has, DMA, a block count from 1 to the limit, and modes 0 to 5 |
| AesEngine.TransformedAsAsked | src/aes_stubs.c:425-484 | what the bits of the mode registers ask for is what is done: key length, direction, block mode and counter width |
| AesEngine.TransformBlock | src/aes_stubs.c:438-483 | one turn of the loop is the mode's block step |
| AesEngine.TransformMessage | src/aes_stubs.c:435-484 | the loop is the mode applied to the whole message |
| AesEngine.Engine.TransformDma | src/aes_stubs.c:408-494 | success exactly when the registers are permitted and both DMA directions succeed; the output is what the registers ask for by the equations of the modes; vector registers updated on success only, never in ECB |
| AesEngine.DmaRoundTrip | src/aes_stubs.c:408-494 | a decrypting operation from the same vector registers returns the message, and both leave the same vector registers |
| AesEngine.DmaSplits | src/aes_stubs.c:429-494 | two operations with the vector carried by the registers alone produce what one operation produces, in every mode |
| AesDma.Operate | src/aes_stubs.c:408-494 | fed by the DMA controller: success exactly when the registers are accepted, the output is taken and the chain of the channel serving the engine holds 16 bytes per block; the output is then the transformed message |
| GdmaChain.RangeValid | src/gdma.c:451-465 | one probe per page decides whether a whole range is mapped and does not wrap |
| GdmaChain.ControlByBytes | src/gdma.c:66-70 | the control word of a descriptor by its four bytes: twelve bits of size, twelve of length, end of frame and owner in the top two bits |
| GdmaChain.FixedIsBounded | src/gdma.c:880-936 | a walk ends within its descriptor bound, cyclic lists included, and never overfills |
| GdmaChain.FixedReadsChain | src/gdma.c:880-936 | a walk that succeeds has read exactly one chain to its end-of-frame descriptor |
| GdmaChain.ChainIsRead | src/gdma.c:880-936 | every chain short enough is read, given its length |
| GdmaChain.StreamsChain | src/gdma.c:705-779 | one descriptor at a time delivers the bytes of a chain of any total length whose descriptors each fit one call, and raises what its last descriptor raises |
| GdmaChain.MisfitStops | src/gdma.c:735-743 | a descriptor that does not fit one call stops the stream |
| GdmaChain.StreamAgreesWithFixed | src/gdma.c:705-779 | streaming succeeds if and only if each descriptor fits one call; then both forms deliver the same bytes, write-backs and descriptor registers, and agree on interrupt bits, EOF registers and parking exactly when the chain ends |
| Gdma.Inspect | src/gdma.c:882-903 | the checks both readers make, and the bytes to deliver |
| Gdma.FieldsByBytes | src/gdma.c:730-736 | the fields of a descriptor by its twelve bytes |
| Gdma.TakenExactly | src/gdma.c:719-746 | a descriptor is taken exactly when it is aligned and mapped, owned if bit 12 of the second configuration word is set, and carries a mapped, non-empty payload within its size and the room |
| Gdma.TakenLeaves | src/gdma.c:747-779 | what that leaves: done, end-of-frame and end-of-chain bits 1, 2 and 8, the error bit 4 on refusal, the cursor, the address registers, and in memory only the owner bit, cleared if bit 2 of the first configuration word is set |
| Gdma.FinishedByBits | src/gdma.c:467-492 | a read of a known length looks at up to 1024 descriptors and parks the channel with bits 9, and 2 for a positive length, or with the error bit |
| Gdma.FixedStep | src/gdma.c:880-936 | one turn of the bounded walk: refused, last, broken off or going on |
| Gdma.WalkFixed | src/gdma.c:878-936 | the loop is the bounded walk |
| Gdma.FixedReadIsBounded | src/gdma.c:860-937 | at most 1024 descriptors, and all that is written is the cleared owner flag of the visited ones |
| Gdma.FixedReadSucceeds | src/gdma.c:860-937 | success exactly on the exact concatenation of one chain's payloads |
| Gdma.DrainingAgrees | src/gdma.c:705-779 | for a freshly started channel and a chain of any total length: draining succeeds if and only if each descriptor fits, as it does with 4095 bytes, and then comes to the same thing as reading the chain whole, interrupt line included, exactly when the chain ends |
| Gdma.PlayRing | src/gdma.c:705-779 | from a new controller: a descriptor that is its own successor is delivered by both forms; the stream keeps the channel running and the fixed-length read parks it |
| Gdma.Controller.ActiveTx | src/gdma.c:607-621 | the first running channel that serves the peripheral |
| Gdma.Controller.ReadTx | src/gdma.c:860-937 | the fixed-length read of the selected channel, every register and every channel accounted for |
| Gdma.Controller.ReadTxDescriptor | src/gdma.c:705-779 | one descriptor of the selected channel, every register accounted for |
| Gdma.Controller.WriteLink | src/gdma.c:428-441 | link writes set address, stop, then start; a started channel runs and is positioned at the start of its chain, and the register shows the park bit exactly when the channel does not run |
| Gdma.Controller.ReadLink | src/gdma.c:320-324 | the link register reads as the address, with the park bit exactly when the channel does not run |
| Gdma.Controller.WriteEnable | src/gdma.c:416-420 | the interrupt line follows the enabled raw bits |
| Gdma.Controller.WriteClear | src/gdma.c:421-427 | exactly the raw bits written are cleared, and the interrupt line follows |
| FlashMmu.InvalidationReachesAll | src/flash_mmu.c:36-51 | after an invalidation no attached engine keeps the page, shared tables and translators included |
| FlashMmu.RemapStaysFresh | src/flash_mmu.c:53-87 | remapping a page and invalidating it leaves every cache fresh |
| FlashMmu.ChangeReported | src/flash_mmu.c:164-184 | after the loop no attached engine keeps a page whose entry maps flash and whose page number the change touches, and every other page is kept as it was |
| FlashMmu.InvalidByBits | src/flash_mmu.c:60-60 | an entry maps nothing if it has a bit of the invalid mask |
| FlashMmu.TargetByBits | src/flash_mmu.c:61-62 | an entry maps PSRAM exactly when it has a bit of the target mask |
| FlashMmu.PageByBits | src/flash_mmu.c:57-57 | the masked bits of an entry are its page number; its page starts at that many page sizes, in 32 bits |
| FlashMmu.MappedExactly | src/flash_mmu.c:53-86 | what both windows show for an entry: its page of PSRAM or of the two flash views, exactly when the entry is valid and the page within memory that is there |
| FlashMmu.NoticedExactly | src/flash_mmu.c:167-183 | every change to the bytes an entry maps is noticed if and only if its page offset did not wrap |
| FlashMmu.Esp32S3NeverWraps | src/target.c:516-526 | on the ESP32-S3 no page offset wraps |
| FlashMmu.SamePhysicalPage | src/flash_mmu.c:53-86 | on any geometry both windows are mapped exactly when the entry is valid, in range of both backings and both are there, and to the same page, which is the one it names unless its offset wrapped |
| FlashMmu.OnlyWrappedMissed | src/flash_mmu.c:167-183 | code that a flash change reaches unnoticed is code of an entry whose page offset wrapped |
| FlashMmu.ProgramStaysFresh | src/flash_mmu.c:164-184 | a reported flash change leaves every cache fresh if and only if it reaches no kept code unnoticed |
| FlashMmu.Mmu.Apply | src/flash_mmu.c:53-87 | mappings follow the entry, failed mappings included, no engine keeps the page, every other page is kept as it was, and coherence is kept |
| FlashMmu.Mmu.Write | src/flash_mmu.c:98-112 | on any geometry: aligned in-range stores change one masked entry, everything else is ignored, and coherence is kept |
| FlashMmu.Mmu.Program | src/flash_mmu.c:164-184 | on any geometry: the flash holds the data and is otherwise unchanged, pages the change touches are dropped and no others; coherence is kept if and only if the change reaches no kept code unnoticed, which it never does where offsets do not wrap |
| FlashMmu.Mmu.Run | src/flash_mmu.c:36-184 | any sequence of table stores, flash changes and code fetches leaves the table and the flash as the stores and changes say, the mappings as the table says, and all caches coherent where offsets do not wrap; a fetch leaves code in the cache |
| FlashMmu.WrappedPageGoesStale | src/flash_mmu.c:167-183 | from a new MMU of a geometry it accepts, with 21-bit page numbers: one store, one fetch and one flash change leave stale code |
| X64.DecodesBack | src/jit_emit_x64.h:98-198 | every emitted instruction decodes to itself whatever follows: all sixteen registers, all displacements and immediates |
| X64.StreamDecodesBack | src/jit_emit_x64.h:98-198 | a whole stream decodes to its instructions |
| X64.ArithBytes | src/jit_emit_x64.h:153-157 | the bytes of moves and operations on two registers: opcode 01, 09, 21, 29, 31, 39 or 85, register numbers split between prefix and operand byte |
| X64.ConstantBytes | src/jit_emit_x64.h:139-143 | the bytes of operations with a constant and of loading one, the constant last, as its digits to base 256 |
| X64.AccessBytes | src/jit_emit_x64.h:160-198 | the bytes of loads and stores, with the extra byte for bases 4 and 12 |
| X64.JumpNumbers | src/jit_emit_x64.h:509-523 | the bytes of jumps |
| Forwarding.StepHolds | src/jit_emit_x64.h:33-47 | up to the next load, memory holds what the pending store put there, because jumps land only where the record is dropped |
| Forwarding.AccessByNumber | src/jit_emit_x64.h:160-198 | a load or a store goes to the 64-bit base plus the signed displacement, lowest byte first; a load clears the high half of its register |
| Forwarding.OperationByNumber | src/jit_emit_x64.h:295-399 | an operation takes its first operand from the register it writes, compare and test write none, and all of them set the flags |
| Forwarding.RunsAgreeExactly | src/jit_emit_x64.h:162-198 | for any program with jumps to labels, any start and any number of steps: every access has the address of the plain code if and only if no access is stale on the path taken, and then place, memory, flags and low halves agree |
| Forwarding.ForwardingPreservesMeaning | src/jit_emit_x64.h:162-198 | so every run agrees if no register whose load was dropped serves as a base |
| Forwarding.AccessesAgreeExactly | src/jit_emit_x64.h:162-169 | straight-line code accesses the same addresses from every start if and only if no base register is stale |
| Forwarding.StaleExample | src/jit_emit_x64.h:162-169 | the stale case is real: three instructions show it |
| Emitter.Append | src/jit_emit_x64.h:72-88 | an instruction that fits is appended whole; of one that does not, what precedes its final word, as far as there is room |
| Emitter.CodeBuffer.EmitLoad | src/jit_emit_x64.h:162-181 | a move from the register stored last, or nothing, exactly when that store ended here and went to the same place, else the load; while all fits, the buffer holds the forwarded code of everything asked for |
| Emitter.CodeBuffer.EmitStore | src/jit_emit_x64.h:184-198 | the same, and the store is remembered |
| Emitter.CodeBuffer.EmitOther | src/jit_emit_x64.h:295-399 | the same; adding zero emits nothing and keeps the record |
| Emitter.CodeBuffer.EmitJump | src/jit_emit_x64.h:509-523 | the same; the returned offset is where the distance sits |
| Emitter.CodeBuffer.Barrier | src/jit_emit_x64.h:51-51 | drops the record where control may enter |
| Emitter.CodeBuffer.PatchHere | src/jit_emit_x64.h:526-532 | rewrites four bytes with the distance from their end to here and drops the record; while all fits, the jump then lands here |
| Emitter.LandsStill | src/jit_emit_x64.h:526-532 | later requests do not move where a jump lands |
| Emitter.FitsExactly | src/jit_emit_x64.h:67-88 | the buffer is what was asked for, and decodes to the forwarded code, if and only if the requests fit |
| Emitter.RoomIsNotEnough | src/jit_emit_x64.h:67-88 | some room left at the end does not mean that everything fitted |
| Execution.BufferRuns | src/jit_emit_x64.h:162-198 | executing the bytes of a fitting buffer with all jumps patched, by a byte program counter and relative jumps, follows the forwarded requests: same place, registers, memory and flags |
| Execution.BufferRunsOnly | src/jit_emit_x64.h:162-198 | and does nothing else: after any number of instructions the processor is where some number of requests would be |
| Execution.BufferMeans | src/jit_emit_x64.h:162-198 | so on a run without a stale access the bytes do what the requests say without forwarding |
| H4.HearInPieces | src/ble_hci.c:228-264 | hearing a byte string in two pieces gives the same reports and the same rest |
| H4.DecideIsStable | src/ble_hci.c:228-264 | a decision once made stands whatever arrives later |
| H4.DecidedByBytes | src/ble_hci.c:230-264 | the decision by the bytes: an event has its length in the third byte, an ACL packet in the fourth and fifth; more than 2048 bytes are an error, any other first byte is skipped |
| H4.WaitingLeavesRoom | src/ble_hci.c:289-294 | the full-buffer branch cannot be reached |
| H4.ReportsDependOnBytesOnly | src/ble_hci.c:220-313 | once all bytes are in, the reports are those of the whole byte string, however it was cut |
| H4.SentIsHeard | src/ble_hci.c:182-218 | framed events and ACL packets are recovered exactly |
| H4.StreamRecovered | src/ble_hci.c:182-313 | sender and receiver together: exactly the packets sent, nothing held back, whatever the pieces |
| H4.SendRaw | src/ble_hci.c:182-218 | refused if too long or of another type; else what went out is as much of the frame as the attempts took, and success is the whole of it |
| H4.Receiver.Discard | src/ble_hci.c:258-260 | the shift in place drops exactly the first bytes |
| H4.Receiver.Read | src/ble_hci.c:289-312 | as many bytes as are asked for, there and have room move from the socket behind the buffered ones |
| H4.Receiver.Deliver | src/ble_hci.c:229-264 | one pass reports the next packet or error, or stops exactly when more bytes are needed |
| H4.Receiver.Receive | src/ble_hci.c:220-313 | any schedule of waits keeps reports, buffer and socket in account, and each wait that may deliver brings a byte until there is a report or the socket is empty |
| Line.TurnStaysNear | src/display_stubs.c:1278-1280 | one turn keeps the point within half a pixel and advances the major axis by one |
| Line.StaysInBox | src/display_stubs.c:1274-1281 | the point never leaves the bounding box |
| Line.Arrives | src/display_stubs.c:1277-1277 | after the last step both axes have arrived |
| Line.EntryByNumber | src/display_stubs.c:1274-1281 | the pixel of step i: i along the longer extent, and along the other one the ideal place rounded to the nearest pixel, half-way upwards |
| Line.ErrorBound | src/display_stubs.c:1273-1280 | the error term stays within 32 bits for lines of less than 2^29 pixels either way |
| Line.Plot | src/display_stubs.c:1275-1276 | sets one pixel if it is inside, and no other |
| Line.DrawLine | src/display_stubs.c:1269-1282 | exactly max(\|dx\|, \|dy\|) steps, from one end to the other, each at its rounded place; exactly the pixels of the steps that are inside the sprite are set |

## Left out

- KernelModel.Kernel.Run: its steps skip the calls whose contracts show them to leave the kernel unsound (KernelFaults shows what they do), handle 0, and calls made by idle tasks; a core joins once.
- KernelModel.Kernel.Send: handle 0 and mutexes kept for recursive use are not modelled; a null handle finds a zeroed record in the code.
- KernelModel.Kernel.SendData: the same handles are not modelled.
- KernelModel.Kernel.SendToken: the same handles are not modelled.
- KernelModel.Kernel.ReceiveFromISR: the same handles are not modelled.
- KernelModel.Kernel.Receive: the same handles are not modelled, nor is the pump that lets peripherals deliver before a timed receive parks (src/freertos_stubs.c:1676-1740).
- KernelModel.Kernel.Take: not stated for handles of data queues, where the code lowers the count without moving the head, nor for mutexes kept for recursive use.
- KernelModel.Kernel.Give: not stated for handles of data queues, for the same reason, nor for mutexes kept for recursive use.
- KernelModel.Kernel.TakeRecursive: stated for mutexes that are only taken and given recursively; mixing plain and recursive calls on one mutex is not modelled.
- KernelModel.Kernel.GiveRecursive: stated for the same mutexes.
- KernelModel.Kernel.InstallIdleTasks: the bytes of the wait-for-interrupt loop that the code writes to guest memory are not modelled.
- KernelModel.Kernel.CheckPreempt: halted and running flags of the CPUs, and calls from inside a synthetic guest call, are not modelled.
- KernelModel.Kernel.CreateTask: a null task function, the task's name and stack, and the deferred task of single-task mode are not modelled.
- KernelModel.Kernel.Switch: cycles per tick stay at 160,000; that timed calls read the CPU frequency from guest memory and adjust them (src/freertos_stubs.c:257-265) is not modelled.
- KernelModel.Kernel.SuspendSelf: that the code stops the CPU when no task runs is not modelled, only that the tables stay as they are.
- GdmaChain.RangeValid: reading and writing probes are one test here, as the two lookups are in the code (src/memory.h:182-197).
- Gdma.Inspect: the same holds for the descriptor page under write-back.
- Forwarding.ForwardingPreservesMeaning: its condition on base registers is sufficient only; RunsAgreeExactly is exact for every run and AccessesAgreeExactly for straight-line code. That adding zero emits nothing, and so sets no flags, is part of both codes compared.
- Emitter.CodeBuffer.PatchHere: stated for buffers smaller than 2 GiB and distances that lie within the bytes emitted.
- Line.DrawLine: integers are unbounded; ErrorBound gives the range in which that makes no difference.
- Queue deletion (src/freertos_stubs.c:3088-3096), queue reset, peeking, and the timeout argument of sends from interrupt handlers.
- RingWaiters.Wake: tasks are reduced to the limits of their waits; their states and the size written back are not modelled. Receiving an item in two parts (ringbuffer_receive_split) is not modelled.
- Task notifications, software timers, tick hooks, critical sections and the bump allocator's string and memory services.
- Register-window argument passing, symbol hooks, logging and locking.
- Saving and restoring state, except the check made on ring buffers.
- AES: the single-block register interface, the HAL hooks, GCM, clock and reset wiring.
- DMA: the receive direction, register decoding, and callbacks on interrupt edges.
- Flash MMU: table reads, and writes to PSRAM through the data window.
- Emitter: 64-bit, 8-bit and 16-bit forms, 32-bit multiply, negate and test-immediate forms, shifts, calls, and indexed addressing.
- H4: connection set-up, polling and timeouts; commands are framed but have no receiver here.
- MMIO side effects of accesses to unmapped guest addresses.
- Display code other than the line drawer, networking, loaders, eFuse, and the other peripherals: they would add easy members only.
