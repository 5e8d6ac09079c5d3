# Verified models of the Lance Rocket SDK's kernel and low-level code

The repository is a bare-metal SDK for a small RISC-V processor with, among its programs, KOZOS: a
preemptive kernel with a fixed-block allocator, message boxes and a console driver.  This project
models the code whose correctness is not visible from any one function, and proves it.

Three layers are used throughout.  A *specification* says what an operation does to plain values
(sequences, sets, maps).  A *class* or a *method* does what the C or assembly code does, in place, and
is proved to agree with the specification.  *Lemmas* about the specification then hold of the code.

## The kernel

`Pools` and `KzMemory` are the allocator (memory.c): the pool table, and a memory of words in which each
block carries its own header.  `KozosSpec` is the kernel (kozos.c) with every ready queue and every
message box a FIFO sequence; the numbers of threads, priorities and boxes are parameters.  Class
`Kozos.Kernel` keeps the linked lists of the code (head, tail and next fields; message buffers inside
allocator blocks) and each of its methods is proved to do what `KozosSpec` says.

One kernel step is: a trap of the running thread (a system call, or a fault) or an external interrupt
whose handler makes service calls; then `schedule`; then `dispatch` of `current`.  `kz_sysdown` never
returns and is the outcome `Down`.

`KozosInv` states what holds whenever a trap arrives and `KozosRuns` proves that every step keeps it:

- each queue holds live threads of its own priority, each once, and a thread is queued exactly when its
  READY flag is set; unready threads have a NULL `next` (what `putcurrent` relies on);
- the running thread is the head of the lowest-numbered non-empty queue (what `getcurrent` relies on);
- every live thread is in exactly one place: a queue, waiting at one box, or parked;
- no thread waits at a box that holds a message;
- queued messages own distinct 32-byte blocks, and each box is a FIFO.

What the code requires of callers and does not check is the predicate `Legal`.  It is exact where it is
not just memory safety: `RunExactly`, `WakeupExactly` and `KMFreeExactly` prove that starting a thread, a
wake-up, or a free of a block keeps the invariant *if and only if* the stated guard holds (the last two from
handlers too), and
`KozosTables.FreeTablesExactly` proves the last on the words in memory, where a block freed twice closes
its free list into a cycle that no FIFO state represents.  Over the runs this allows, `KozosMessages`,
`KozosBlocks`, `KozosWaiting` and `KozosCalls` prove message delivery, the ownership of blocks, bounded
waiting with the exact conditions for `kz_sysdown`, and what each call does for its caller.

`Context` is the other half of a switch: TRAP_ENTRY, `dispatch`, and the frame `thread_run` builds.

## The rest

- `Barrier`: the inter-processor-interrupt barrier of smp.h, as start.S uses it once, and the memory hart 0
  prepares meanwhile.
- `SpinLock`: the console lock of smp.c, and the output it protects.
- `Console`, `ConsoleDriver`: the console driver and the serial look-ahead, as two streams.
- `Prci`: clock switching and the trim search.
- `Numbers`, `Printf`: printing numbers, and the format machine.
- `CpuFreq`, `Mcycle`: measuring the processor clock.

## Where the code is not what it says

- `kz_run` with no free control block returns -1 to a caller that is no longer on its ready queue
  (kozos.c:222-224).  The model does the same: the caller is parked.
- `kzmem_alloc` compares an int with an unsigned size, so a negative request fits no class and stops the
  system (memory.c:75).
- `kz_run` with a NULL function queues a thread in a control block that still counts as free
  (kozos.c:218, 233); `RunExactly`.
- The look-ahead of serial.c takes a cached NUL for an empty cache (serial.c:104): a NUL is lost when
  another byte is popped after it (`LookAheadExactly`, `NulIsLost`), and `consdrv_intrproc` on a NUL with
  nothing behind it waits in `serial_recv_byte` with interrupts masked (`SpinsExactly`).
- A second USE command drops what waits in the buffers, and what arrives meanwhile, because interrupts are
  masked for WRITE alone (consdrv.c:140-145, 151-153); `UseExactly`, `UseDropsByte`.
- PRCI_use_pll keeps one bit of `refsel` but tests the whole value, so an even `refsel` selects the HFROSC
  as reference and turns it off (fe300prci_driver.c:78, 146-148); `UsePllExactly`, `EvenRefsel`.
- The trim search says it could not go high enough and takes the trim before the last, also when the
  target is above the whole curve (fe300prci_driver.c:225-229); `TooHighExactly`.
- In vprintfmt the `l` flag is never recorded, a `*` of a conversion that fails keeps its argument, a
  precision of 0 is taken for the flag `0`, and numbers are padded on the left with '-' where the flag
  comment promises padding on the right.

## Model

| member | source | states |
|---|---|---|
| Pools.PartitionEveryRun | software/kozos/memory.c:31-118 | after kzmem_init and any history of allocations and frees of live blocks, every byte of the 640 lies in exactly one block, which is either live or once in the free list of its own class |
| Pools.AllocFresh | software/kozos/memory.c:66-96 | an allocation is a block with room for the size asked for behind its header, of the smallest class that has, inside the area, and shares no byte with a live block, header included |
| Pools.AllocRoom | software/kozos/memory.c:75-89 | for every int size, the block handed out holds that many bytes behind its header and no smaller class does |
| Pools.RefusedExactly | software/kozos/memory.c:72-94 | a request is refused whatever is free if and only if it is negative or above 56 bytes |
| Pools.Geometry | software/kozos/memory.c:25-50 | eight blocks of 16 bytes, eight of 32 and four of 64 follow one another from freearea, each with a header of 8 |
| Pools.Conservation | software/kozos/memory.c:25-27 | per class, free plus live blocks are always the initial number |
| Pools.BlocksApart | software/kozos/memory.c:41-50 | two different blocks never share a byte |
| Pools.AllocValid | software/kozos/memory.c:75-89 | an allocation keeps the partition and hands out a block that was not live |
| Pools.FreeValid | software/kozos/memory.c:107-114 | freeing a live block keeps the partition |
| KzMemory.Memory.InitPool | software/kozos/memory.c:31-53 | the loop threads the next blocks in address order, writes each size, and touches no earlier pool |
| KzMemory.Memory.Init | software/kozos/memory.c:55-64 | the words and the pool table represent three full free lists |
| KzMemory.Memory.Alloc | software/kozos/memory.c:66-96 | takes the head of the first class with room for the size, or goes down and changes nothing; all other words stay; a negative size or one above 56 always goes down |
| KzMemory.Memory.Free | software/kozos/memory.c:98-118 | the size word of a block names its pool, the block is linked in front of that list whatever it was, and kz_sysdown is not reached; freeing a live block frees it |
| KzMemory.FreeExactly | software/kozos/memory.c:98-118 | after kzmem_free of a block the pool table and the words represent some heap if and only if the block was live: freed twice it closes its list into a cycle |
| KzMemory.Memory.Store | software/kozos/memory.c:85-89 | a store inside a live payload destroys no header and no list |
| KzMemory.HeaderStore | software/kozos/memory.c:10-13 | writing a next word never overwrites a size word of any block |
| Kozos.Kernel.GetCurrent | software/kozos/kozos.c:93-110 | unlinking the head of current's list is removing the first element of its queue; the tail, READY and next are right afterwards |
| Kozos.Kernel.PutCurrent | software/kozos/kozos.c:115-134 | linking at the tail is appending to the queue of its priority, unless it is ready already |
| Kozos.Kernel.Schedule | software/kozos/kozos.c:489-507 | current becomes the head of the lowest-numbered non-empty queue; goes down exactly when all are empty |
| Kozos.Kernel.SendMsg | software/kozos/kozos.c:135-155 | a new buffer with sender, size and pointer is appended to the box, its block taken from the 32-byte pool; down when none is free |
| Kozos.Kernel.LinkTail | software/kozos/kozos.c:148-154 | linking a filled buffer at the tail pointer appends it, whether the box was empty or not |
| Kozos.Kernel.UnlinkHead | software/kozos/kozos.c:162-167 | unlinking the head buffer removes the first message and clears the tail with the last one |
| Kozos.Kernel.RecvMsg | software/kozos/kozos.c:157-182 | the head message goes into the waiting thread's parameter block, through the pointers it gave, the thread waits no more, and the block is freed; what the block then holds is Gets in KozosMessages |
| Kozos.Kernel.ThreadRun | software/kozos/kozos.c:207-293 | the first free control block becomes a ready thread behind its caller; with none free the caller stays unready |
| Kozos.Kernel.ThreadExit | software/kozos/kozos.c:298-307 | the control block becomes free and nothing else changes |
| Kozos.Kernel.ThreadWakeup | software/kozos/kozos.c:330-340 | the caller, then the named thread, are put on their queues |
| Kozos.Kernel.ThreadChPri | software/kozos/kozos.c:351-358 | returns the old priority and puts the caller on the queue of the new one |
| Kozos.Kernel.ThreadKMalloc | software/kozos/kozos.c:360-364 | the caller is put back and gets the payload of a fresh block with room for the size, or the system goes down |
| Kozos.Kernel.ThreadKMFree | software/kozos/kozos.c:366-371 | a user's block is freed and the caller put back |
| Kozos.Kernel.ThreadSend | software/kozos/kozos.c:373-388 | the message is queued and, when a thread waits, delivered at once and that thread made ready, although current is rewritten on the way |
| Kozos.Kernel.ThreadRecv | software/kozos/kozos.c:390-410 | takes the head message, or leaves the caller waiting; goes down when another thread waits |
| Kozos.Kernel.ThreadSetIntr | software/kozos/kozos.c:412-418 | the handler is registered and the caller put back |
| Kozos.Kernel.CallFunctions | software/kozos/kozos.c:421-466 | every case of the dispatch agrees with its FIFO specification, value and kz_sysdown included |
| Kozos.Kernel.Syscall | software/kozos/kozos.c:471-475 | the caller is taken off its queue, the call made, and the value stored in the caller's own block |
| Kozos.Kernel.Service | software/kozos/kozos.c:480-484 | a service call runs with no current thread and returns the value of the call |
| Kozos.Kernel.SoftErr | software/kozos/kozos.c:520-528 | a fault ends the running thread |
| Kozos.Kernel.HandleSyncTrap | software/kozos/kozos.c:533-551 | the linked tables make exactly the step of the FIFO model for a trap |
| Kozos.Kernel.HandleExternalInterrupt | software/kozos/kozos.c:556-568 | the same for an interrupt whose handler makes any number of service calls |
| Kozos.Kernel.KzStart | software/kozos/kozos.c:570-585 | from cleared tables the first thread starts in a state that satisfies the invariant |
| KozosRuns.StepKeeps | software/kozos/kozos.c:533-568 | every legal step of every kind keeps the whole invariant |
| KozosInv.CallKeeps | software/kozos/kozos.c:421-466 | every call, entered with its caller in no place, leaves every thread in exactly one |
| KozosInv.GetKeeps | software/kozos/kozos.c:93-110 | popping the head removes the running thread and nobody else |
| KozosInv.ThreadSendKeeps | software/kozos/kozos.c:373-388 | a send keeps places, buffers, FIFO order and that no waiter faces a message |
| KozosInv.ThreadRecvKeeps | software/kozos/kozos.c:390-410 | so does a receive, with and without a message |
| KozosRuns.ScheduleKeeps | software/kozos/kozos.c:489-507 | after schedule the running thread is the first of the most urgent queue |
| KozosRuns.OnePlace | software/kozos/kozos.c:207-231 | after every run each live thread is at exactly one position of the queue of its priority, or waits at exactly one box, or is parked by a call of the run that no later wake-up names; free slots are nowhere |
| KozosRuns.StepParks | software/kozos/kozos.c:318-340 | kz_sleep, a call that does not exist and a kz_run with no slot free park their caller, only a wake-up of the thread unparks it, and no other event changes who is parked |
| KozosRuns.RunningIsFirst | software/kozos/kozos.c:497-506 | after every run the running thread is live, heads its queue, no queued thread is more urgent, and no thread waits at a box that holds a message |
| KozosRuns.WakeupExactly | software/kozos/kozos.c:330-340 | kz_wakeup keeps the invariant if and only if it names a live thread that is not waiting at a box |
| KozosRuns.ServiceWakeupExactly | software/kozos/kozos.c:330-340 | a handler's kx_wakeup keeps the invariant if and only if it names a live thread that is not waiting at a box |
| KozosRuns.RunExactly | software/kozos/kozos.c:216-233 | kz_run keeps the invariant if and only if it is given a function or no control block is free: a NULL function leaves a queued thread in a slot that counts as free |
| KozosTables.FreeTablesExactly | software/kozos/kozos.c:366-371 | after kz_kmfree of a block the pool table, the message boxes and the words represent some state if and only if the block was a user's: live, and carrying no queued message |
| KozosRuns.KMFreeExactly | software/kozos/kozos.c:366-371 | the same of the FIFO functions: the invariant survives kz_kmfree of a block if and only if it is a user's |
| KozosRuns.ServiceKMFreeExactly | software/kozos/kozos.c:366-371 | of the FIFO functions, a handler's kx_kmfree of a block keeps the invariant if and only if the block is a user's |
| KozosMessages.ExactlyOnceFifo | software/kozos/kozos.c:135-182 | over every run and for each box, what was sent is what was delivered followed by what is queued, in order, senders included, NULL for service calls |
| KozosMessages.StepSends | software/kozos/kozos.c:373-388 | a step sends exactly the messages its event names |
| KozosMessages.StepDelivers | software/kozos/kozos.c:157-182 | a delivery puts the sender, and the size and the pointer where they are wanted, in the block of the thread that waited at the box or is now receiving, per box at most one at a time; the rest of that block and every other thread's block but the caller's stay |
| KozosMessages.SendDelivers | software/kozos/kozos.c:373-388 | kz_send of (size, p): a waiting thread finds the caller, size and p where it asked for them; otherwise the last message of the box holds them |
| KozosMessages.ServiceSendDelivers | software/kozos/kozos.c:135-182 | the same of kx_send, with NULL for the sender |
| KozosWaiting.BoundedWaiting | software/kozos/kozos.c:489-507 | a thread at position k of its queue moves up by exactly the number of traps of its level, never back, and runs exactly when that number is k and no more urgent thread is ready, whichever calls are made |
| KozosWaiting.StepPlace | software/kozos/kozos.c:115-134 | no step unreadies any thread but the trapping one, and interrupts move nobody |
| KozosWaiting.StopsExactly | software/kozos/kozos.c:587-592 | a step goes down if and only if no block is left for the request, another thread waits at the box, or the only ready thread gives up the processor |
| KozosWaiting.IdleKeepsRunning | software/kozos/main.c:15-20 | while a ready idle thread makes no call, the scheduler always finds a thread |
| KozosBlocks.Accounting | software/kozos/kozos.c:135-182 | in every reachable state queued messages, users' blocks and free blocks of the 32-byte class add up to 8 |
| KozosBlocks.CallUsers | software/kozos/kozos.c:360-388 | kz_kmalloc adds one block nobody had to the users' blocks, kz_kmfree removes one, no other call changes them: a delivery returns the block its send took |
| KozosBlocks.PendingCount | software/kozos/kozos.c:64-68 | as many distinct blocks carry messages as messages are queued |
| KozosCalls.SyscallEffect | software/kozos/kozos.c:421-466 | for each call, where the caller (and a thread it starts, wakes or serves) ends up and what value the caller finds |
| KozosCalls.RunEffect | software/kozos/kozos.c:215-292 | kz_run returns a thread that was free and is now the last of its queue, or -1 and parks its caller |
| KozosCalls.ServiceCallEffect | software/kozos/kozos.c:480-484 | what each service call does to queues and blocks, and what it returns |
| KozosCalls.SyscallFrame | software/kozos/kozos.c:421-466 | no call starts, ends or re-prioritises a thread but its caller and the slot kz_run fills, touches a box it does not name, or changes a handler but kz_setintr |
| KozosCalls.ServiceFrame | software/kozos/kozos.c:480-484 | the same of service calls |
| KozosCalls.FaultEffect | software/kozos/kozos.c:520-528 | a fault ends the running thread, takes it off the head of its queue, and changes nothing else |
| KozosCalls.BootIs | software/kozos/kozos.c:570-583 | the system starts with one thread, in slot 0, running at its priority; no message, no handler |
| Context.Cpu.TrapEntry | software/kozos/intr.S:7-58 | the registers of the trapped thread and its pc are in a frame below its sp, a0 is the frame, sp is on the interrupt stack |
| Context.Cpu.Dispatch | software/kozos/startup.s:15-59 | register x_i is the word at 4 * i of the frame, pc the word at 132, and sp is 136 above the frame |
| Context.Cpu.NewFrame | software/kozos/kozos.c:237-283 | the word of x10 is the control block, those of the other registers are 0, thread_init is at the pc, thread_end above it, the rest of the stack is cleared; no word outside the stack changes |
| Context.TrapRestores | software/kozos/intr.S:9-48 | register x_i is saved at 4 * i of the frame and the frame's address on the interrupt stack; loading gives back x1..x31 and pc; other memory is untouched |
| Context.Isolation | software/kozos/kozos.c:533-551 | a thread dispatched again finds x1..x31, sp included, as at its last trap, and the trapped pc, plus 4 for ecall, whatever others did outside its stack |
| Context.FirstDispatch | software/kozos/kozos.c:245-283 | a new thread first runs at thread_init with a0 its control block, sp 4 below the top of its stack and 0 in every other register, whatever happened since |
| Context.AnythingElse | software/kozos/kozos.c:533-568 | in between, threads may compute anything outside the stacks of others, the kernel may write anything outside saved frames, and threads may end |
| Context.StacksDisjoint | software/kozos/kozos.c:237-240 | from the kernel without threads on, all stacks ever handed out, to live threads or dead, are disjoint and below the interrupt stack |
| Context.ApplyKeeps | software/kozos/kozos.c:533-568 | frames of stopped threads lie inside their own disjoint stacks after every action |
| Barrier.Safety | bsp/include/sifive/smp.h:34-63 | for any number of harts and any interleaving: when some hart is out, memory holds the data copied and bss cleared by hart 0, store by store, and every hart has been woken and has cleared its own word |
| Barrier.StepKeeps | bsp/include/sifive/smp.h:40-63 | a word is 1 from when hart 0 sets it until its hart clears it, a polling hart has seen all earlier harts clear theirs, and memory is what the stores so far make of it |
| Barrier.PolledZero | bsp/include/sifive/smp.h:58-63 | reading 0 while polling means cleared and never not-yet-set; it rests on word 0 being set first and cleared after all are set |
| Barrier.MovesBounded | bsp/include/sifive/smp.h:41-63 | every step that is not a spin uses up one of a fixed number |
| Barrier.NoDeadlock | bsp/include/sifive/smp.h:48-63 | unless all harts are out, some hart can move |
| Barrier.Completes | bsp/include/sifive/smp.h:40-63 | under a fair schedule the barrier opens: after as many rounds as steps are left, each giving every hart a turn, all harts are out |
| Barrier.PreparedIs | bsp/env/start.S:25-46 | after all stores data is its load image, bss is zero, and every other word is as at reset |
| Barrier.Prepare | bsp/env/start.S:25-46 | the two loops make exactly those stores |
| SpinLock.WholeMessages | software/smp/smp.c:8-35 | for any number of harts and any interleaving, the lock is 0 or 1, 0 exactly when no hart is inside and 1 exactly when one is, and the output is whole messages followed by a prefix of that hart's |
| SpinLock.StepKeeps | software/smp/atomic.h:13-22 | each exchange, byte or delay step keeps mutual exclusion and whole output |
| SpinLock.TryStep | software/smp/smp.c:8-12 | an exchange on a free lock lets the hart in; on a taken one it leaves the hart trying |
| SpinLock.InsideFinishes | software/smp/smp.c:25-33 | a hart inside is out after the turns it needs, its whole message printed, the lock free and its delay started, whatever the others did |
| SpinLock.SomeoneFinishes | software/smp/smp.c:20-35 | under a fair schedule somebody always gets the lock and finishes a message, within as many rounds as the next message is far |
| SpinLock.SingleHart | software/smp/smp.c:20-35 | one hart alone takes the lock, prints its message and frees the lock in its first 26 turns |
| SpinLock.MessageIs | software/smp/smp.c:26-29 | hart 0 prints "hello world from hart 0" and a newline, the others their digit |
| SpinLock.DelayStep | software/smp/smp.c:32-33 | the delay counts down to the next try |
| Console.Streams | software/kozos/consdrv.c:42-120 | over every run from consdrv_init, interrupts between the writes of a USE command included, in which no USE drops what waits: bytes sent plus send_buf are the characters the writes and the echoes of the events ask for, newlines expanded, and a waiting byte has its interrupt on; messages joined by newlines plus recv_buf are the bytes the events make the handler take, CR mapped, which with the rest to come are the input |
| Console.StepKeeps | software/kozos/consdrv.c:64-120 | each event takes exactly the byte its polls find and prints exactly what it asks for |
| Console.InterruptIs | software/kozos/consdrv.c:64-120 | byte by byte: a 13 or 10 taken ends the line and sends it and echoes 13 and 10, any other byte goes on the line and is echoed as itself, at most one byte is sent by the transmit half and one by an echo to an idle transmitter, and nothing else changes |
| Console.WriteIs | software/kozos/consdrv.c:42-62 | a string goes behind what waits, its first byte out at once if the transmitter was idle |
| Console.UseExactly | software/kozos/consdrv.c:139-145 | each of the five writes of a USE command keeps each stream if and only if it leaves what waits in the buffer of that stream |
| Console.UseDropsByte | software/kozos/consdrv.c:140-145 | a byte taken between the writes of a USE command is dropped, although both buffers were empty before |
| Console.UseIsSteps | software/kozos/consdrv.c:139-145 | with no interrupt in between a USE command sets the user and empties both buffers |
| Console.PollExactly | software/kozos/serial.c:99-115 | polling loses nothing if and only if the cache does not hold a NUL while a byte is waiting |
| Console.LookAheadExactly | software/kozos/serial.c:99-128 | for every input and every run, the bytes popped are the bytes returned and the cached one if and only if no NUL was popped with another byte popped after it |
| Console.LossExactly | software/kozos/serial.c:99-128 | for every input, the look-ahead loses no byte in any run if and only if the input has no NUL but perhaps at its end |
| Console.SpinsExactly | software/kozos/serial.c:117-128 | some run makes the handler spin with interrupts masked and no byte coming if and only if the input ends in a NUL |
| Console.NulIsLost | software/kozos/serial.c:104-115 | one interrupt that polls twice loses a NUL |
| Console.Drains | software/kozos/consdrv.c:90-120 | after every run, with no new input, exactly send_len interrupts of a ready transmitter empty the buffer and the next turns the interrupt off |
| Console.ExpandConcat | software/kozos/consdrv.c:46-51 | expanding newlines distributes over concatenation |
| Console.ExpandIs | software/kozos/consdrv.c:46-51 | a 10 becomes 13 and 10, every other byte stays |
| ConsoleDriver.Driver.SendChar | software/kozos/consdrv.c:29-39 | the first byte goes out and the others move down in place |
| ConsoleDriver.Driver.SendString | software/kozos/consdrv.c:42-62 | the expanded string is appended in place and transmission started if it was not |
| ConsoleDriver.Driver.IntrProc | software/kozos/consdrv.c:64-101 | with room for what the byte taken adds, if one is taken: it is echoed and put on the line or the line sent, or the wait for it has no end; then one byte goes out or the interrupt is turned off |
| ConsoleDriver.Driver.Intr | software/kozos/consdrv.c:106-120 | nothing happens without a user; the receiver is polled only when the transmitter is not ready; full buffers are drained |
| ConsoleDriver.Driver.Command | software/kozos/consdrv.c:135-161 | USE takes the console with new empty buffers, WRITE writes the rest of the command, other commands do nothing |
| ConsoleDriver.Driver.IsRecvEnable | software/kozos/serial.c:99-115 | answers yes when a byte is cached or arrives, and caches it |
| ConsoleDriver.Driver.RecvByte | software/kozos/serial.c:117-128 | returns the cached or next byte and empties the cache; spins exactly when nothing but a NUL is cached and no byte comes |
| Prci.Driver.UseHfrosc | bsp/drivers/fe300prci/fe300prci_driver.c:53-63 | the core ends on a running HFROSC, every write on the way leaves its clock running |
| Prci.Driver.UsePll | bsp/drivers/fe300prci/fe300prci_driver.c:65-150 | for every refsel: through every register write but perhaps the last, PLL fields and the final divider change only while PLL_SEL is 0, PLL_SEL = 0 implies HFROSC on, PLL_SEL = 1 implies bypassed or seen locked and a running reference; and through the last one too exactly when refsel is 0 or odd |
| Prci.UsePllExactly | bsp/drivers/fe300prci/fe300prci_driver.c:78-148 | the registers PRCI_use_pll leaves have a running clock if and only if refsel is 0 or odd |
| Prci.EvenRefsel | bsp/drivers/fe300prci/fe300prci_driver.c:146-148 | refsel = 2 leaves the core without a clock |
| Prci.UsePllFields | bsp/drivers/fe300prci/fe300prci_driver.c:65-150 | for arguments that fit their fields, which value every field of PLLCFG, PLLDIV and HFROSCCFG holds afterwards |
| Prci.RoscFields | bsp/drivers/fe300prci/fe300prci_driver.c:58 | the divider field drops bit 4, the trim field keeps 5 bits |
| Prci.Driver.UseDefaultClocks | bsp/drivers/fe300prci/fe300prci_driver.c:152-159 | the LFROSC is off and the core ends on the HFROSC at its default setting |
| Prci.Driver.UseHfxosc | bsp/drivers/fe300prci/fe300prci_driver.c:161-172 | the core ends on the crystal through the bypassed PLL, HFROSC off |
| Prci.Driver.SetTrim | bsp/drivers/fe300prci/fe300prci_driver.c:182-250 | the search measures at the trim in the register, ends on the PLL with R, F, Q and dividers of the source and the chosen trim, no unsigned subtraction wraps, the clock runs throughout, and the last measurement is returned |
| Prci.Times16 | bsp/drivers/fe300prci/fe300prci_driver.c:189-199 | the settings of the trim search make the PLL 16 times as fast as the HFROSC |
| Prci.TrimOptimal | bsp/drivers/fe300prci/fe300prci_driver.c:231-245 | on a non-decreasing curve with the target inside: CLOSEST is nearest over all trims and the faster of two, OVERSHOOT the least at or above, UNDERSHOOT at or below |
| Prci.TooHighExactly | bsp/drivers/fe300prci/fe300prci_driver.c:224-229 | with the target above the curve trim 30 is taken, nearest if and only if the top two trims measure the same |
| Prci.TooLow | bsp/drivers/fe300prci/fe300prci_driver.c:217-222 | with the target below the curve trim 0 is taken, and it is nearest |
| Mcycle.MeasureMcycleFreq | bsp/drivers/fe300prci/fe300prci_driver.c:20-50 | the three loops stop at the first reading whose end does not wrap, the next edge, and the first reading at the end; the low word of the quotient is returned |
| Mcycle.MeasuredExactly | bsp/drivers/fe300prci/fe300prci_driver.c:23-48 | with the timer read at least once a tick, exactly mtime_ticks ticks lie between the two cycle readings, with no roll-over, and the result is the floor of cycles times frequency over ticks |
| Numbers.Printnum | software/dhrystone/dhry_printf.c:40-59 | prints the padded numeral; 32 digit slots suffice for every base |
| Numbers.NumeralReadsBack | software/dhrystone/dhry_printf.c:40-59 | max(width, digit count) characters, and they read back as the number |
| Numbers.NumeralIs | software/dhrystone/dhry_printf.c:40-59 | character by character: the k-th from the right is the digit num / base^k % base, or the padding character beyond the digits; max(width, digit count) in all |
| Numbers.DigitCount | software/dhrystone/dhry_printf.c:46-52 | base^(n-1) <= num < base^n for its n digits |
| Numbers.DigitsDecode | software/dhrystone/dhry_printf.c:46-52 | repeated division and positional decoding undo each other, with no leading zero |
| Numbers.Putxval | software/kozos/lib.c:129-149 | for 0 <= column <= 8, prints the numeral of the value in base 16 padded with zeros to the column, all inside the 9-byte buffer |
| Numbers.HexIsNumeral | software/kozos/lib.c:129-149 | putxval's digits are the numeral printnum prints in base 16 |
| Numbers.FillBack | software/kozos/lib.c:140-144 | the backward loop leaves the digits just before the terminator |
| Numbers.FitsExactly | software/kozos/lib.c:131-144 | the loop is over within the 8 bytes before the terminator if and only if 0 <= column <= 8; a negative column never ends it |
| Printf.Vprintfmt | software/dhrystone/dhry_printf.c:92-247 | every NUL-terminated format ends, reads never pass the terminator, and the output is that of the format machine |
| Printf.Conversion | software/dhrystone/dhry_printf.c:104-245 | a conversion prints its text and ends behind its character, or prints '%' and goes back behind the '%', keeping the arguments '*' took |
| Printf.Switch | software/dhrystone/dhry_printf.c:118-170 | the goto-driven flag scan collects what the recursive reading of the flags does |
| Printf.Emit | software/dhrystone/dhry_printf.c:172-246 | each conversion prints its text; any other character is bad |
| Printf.ConvertIs | software/dhrystone/dhry_printf.c:172-246 | what each conversion prints of its argument, padded strings character by character, "(null)" for NULL, the smallest int included |
| Printf.ConversionPrints | software/dhrystone/dhry_printf.c:98-246 | a conversion that completes puts that text where it stands, and the format goes on behind it with the next argument |
| Printf.SimplePrints | software/dhrystone/dhry_printf.c:98-246 | a conversion without flags, alone, prints exactly that text |
| Printf.FieldPrints | software/dhrystone/dhry_printf.c:98-246 | so does one with a width and a precision, with these numbers |
| Printf.PutString | software/dhrystone/dhry_printf.c:183-195 | the three loops of %s print the shown prefix, padded on the right side |
| Printf.ScanStops | software/dhrystone/dhry_printf.c:119-170 | the scan stops at the first character that is not a flag, whatever the arguments |
| Printf.Literal | software/dhrystone/dhry_printf.c:239-244 | a format in which no conversion completes is printed character for character, '*' or not |
| Printf.ClosedExactly | software/dhrystone/dhry_printf.c:98-245 | a format can be cut in two, printed in turn, exactly when no conversion of the first part runs into its end |
| Printf.Concatenation | software/dhrystone/dhry_printf.c:98-245 | the second part starts at the first argument the first part left |
| Printf.EscapeRoundTrip | software/dhrystone/dhry_printf.c:235-237 | a text with its '%' doubled prints as itself and takes no argument |
| Printf.FieldReads | software/dhrystone/dhry_printf.c:131-164 | a decimal width and precision are read back as those numbers; precision 0 is read as a pad flag |
| Printf.PadReads | software/dhrystone/dhry_printf.c:120-128 | '-' or '0' before a width sets the padding |
| Printf.StarReads | software/dhrystone/dhry_printf.c:148-164 | '*' takes the width from the next argument |
| Printf.DotReads | software/dhrystone/dhry_printf.c:152-164 | a precision without a width |
| Printf.DotStarReads | software/dhrystone/dhry_printf.c:148-164 | a precision from the next argument |
| Printf.IdleFlags | software/dhrystone/dhry_printf.c:157-170 | the flags # and l change nothing |
| Printf.FlagsAre | software/dhrystone/dhry_printf.c:118-246 | which characters are flags, digits and conversions |
| Printf.AsIntIs | software/dhrystone/dhry_printf.c:31-38 | an int argument is the word modulo 2^32, between -2^31 and 2^31 |
| Printf.StringTextIs | software/dhrystone/dhry_printf.c:183-195 | %s prints max(width, shown) characters: a prefix of the string, and padding on one side |
| Printf.SignedReadsBack | software/dhrystone/dhry_printf.c:198-206 | %d prints a numeral that reads back as the value, for negative values behind a '-' that the width does not count, the smallest int included |
| Printf.UnsignedReadsBack | software/dhrystone/dhry_printf.c:208-232 | %u, %o, %x and %p read back in their bases as the argument |
| CpuFreq.MeasureCpuFreq | bsp/env/freedom-e300-hifive1/init.c:141-162 | the loops stop at the first new tick and the first read n ticks later, as words |
| CpuFreq.SplitIsFloor | bsp/env/freedom-e300-hifive1/init.c:160-161 | the split quotient is the floor of cycles times frequency over ticks, for all ticks > 0 |
| CpuFreq.NoWrap | bsp/env/freedom-e300-hifive1/init.c:160-161 | on 32-bit words no intermediate wraps when the result and (ticks - 1) * frequency fit |
| CpuFreq.RightExactly | bsp/env/freedom-e300-hifive1/init.c:160-161 | for given ticks and frequency every cycle count whose result fits is computed right if and only if (ticks - 1) * frequency fits |
| CpuFreq.TrueDistance | bsp/env/freedom-e300-hifive1/init.c:154-156 | the polling loop's word difference is the true distance across a roll-over |
| CpuFreq.Measured | bsp/env/freedom-e300-hifive1/init.c:141-162 | the measured frequency is the floor of true cycles times frequency over true ticks |

## Left out

- A system call's parameter block is a value in the control block: that it lives on the caller's stack, and the targets of `sizep` and `pp`, are not addresses in the model.
- Kozos.Kernel.ThreadRun: names, argc, argv and the stack are not in the control block of the model; stacks are in Context.
- Kozos.Kernel.ThreadExit: the exit message is not modelled.
- Kozos.Kernel.SoftErr: the printed report is not modelled.
- Kozos.Kernel.HandleSyncTrap: saving sp and advancing the saved pc are in Context, not in the tables.
- Kozos.Kernel.HandleExternalInterrupt: the handler is the list of service calls it makes; the save of sp is in Context, the claim and completion at the PLIC are not modelled.
- Kozos.Kernel.KzStart: setting up the trap vector is not modelled; the first thread's stack is in Context; func is not NULL.
- KozosRuns.ServiceKMFreeExactly: as KMFreeExactly.
- KozosRuns.KMFreeExactly: for a block that is free already the code leaves the FIFO functions; KozosTables.FreeTablesExactly states that case on the words.
- kz_sysdown's message and endless loop are the outcome `Down`; the lists are not described after it.
- Context.StacksDisjoint: thread_run does not check that stacks stay below the interrupt stack; the model assumes it (`top + size <= limit`).
- Context.Isolation: kernel code is one action that writes to no saved frame, except TRAP_ENTRY and thread_run, which are modelled word by word.
- mstatus and mie: saving and restoring them is commented out in intr.S and startup.s; traps are atomic steps.
- Barrier: accesses are sequentially consistent, and the barrier is used once; the effect of `wfi` is waiting for the own word.
- Barrier.Prepare: the linker script is assumed to keep the load image apart from data, and bss behind data.
- SpinLock: `write` is one step a byte; amoswap and fence give sequential consistency.
- Console.Streams: input without NUL, by LossExactly, and no USE that drops what waits, by UseExactly.
- ConsoleDriver.Driver.Intr: room in the 24-byte buffers for the byte taken is a precondition, as the code does not check it; kx_kmalloc and kx_send are the sequence of lines sent.
- ConsoleDriver.Driver.Command: as a method it runs without an interrupt in between; those between the writes of USE are in Console alone. serial_init and the receive interrupt enable are not modelled; console 0 is the only one.
- ConsoleDriver.Driver.RecvByte: the busy waits for the UART are their last round.
- Prci.Driver.UsePll: the wait of four timer ticks has no effect in the model, and ready and lock bits are read as 1 in the end.
- Prci.Driver.SetTrim: the frequency measured at a trim is a function of the trim; the first, warm-up measurement is not modelled.
- Printf.Vprintfmt: width and precision do not overflow; %f is a function of its argument, because IEEE scaling is outside the model.
- Printf.Emit: the text of %f is a function of its argument.
- Numbers.Putxval: a column above 8 or below 0 writes outside the buffer, by FitsExactly, and is excluded.
- CpuFreq.Measured: the timer must be read often enough that the loop sees it within 2^32 - n ticks, and n is positive.
- Mcycle.MeasuredExactly: the timer is read at least once a tick, and mtime_ticks is positive.
- UART, PLIC and timer devices beyond the bits used, plic_driver.c, write_hex.c, sbrk.c, libwrap, the demos, Dhrystone, CoreMark, command.c and the test programs.
