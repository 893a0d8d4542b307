# Verified model of the StratifyOS kernel and driver core

StratifyOS is a small operating system for ARM Cortex-M processors. This project models the parts of it whose
correctness is least obvious from the code and proves what they are for, with Dafny 4.11
(`dafny verify dfyconfig.toml`).

| file | models |
|---|---|
| `Common.dfy`, `Bits.dfy` | shared small types; 32-bit words, powers of two, `CLZ`/`RBIT`, alignment |
| `MpuSearch.dfy`, `MpuRegion.dfy` | `mpu_calc_region`: the search for a region, and the RBAR and RASR words it packs |
| `StackGuard.dfy` | `task_root_set_stackguard` |
| `Scheduler.dfy`, `NoStarvation.dfy` | the round-robin scan, quantum reload, CPU time, waiting supervisor calls and the PendSV handler; every executing task runs again within a bounded number of expiries |
| `HandlerStack.dfy`, `HandlerRuns.dfy`, `HandlerExamples.dfy` | insertion of handler frames on the stack of a running or a suspended task, their removal, task switches, whole runs of these, and one run carried out from the start |
| `Ring.dfy`, `FifoQueue.dfy`, `FifoPromises.dfy`, `Fifo.dfy` | the byte FIFO: ring arithmetic, a bounded queue as its specification, what its callers are promised, the device proved against it |
| `FifoInterrupt.dfy`, `FifoTaken.dfy`, `FifoFlag.dfy` | `fifo_read_buffer` statement by statement, interrupted by writers anywhere; what the writers get in; what that does to the overflow flag |
| `StreamTx.dfy` | the transmit half of a stream: a frame ring played by a circular DMA |
| `Repeating.dfy`, `PacketLine.dfy` | a persistent switchboard connection as a line of packets between two devices, the specification |
| `LinePromises.dfy`, `LineFlow.dfy`, `LineStops.dfy`, `LineFreed.dfy`, `LineExamples.dfy` | what each operation of such a line promises, what it carries, when it stops, when it is freed, and runs that show each case |
| `Switchboard.dfy` | the connection with its two buffers, proved against that specification |
| `Link1.dfy`, `Link1Errors.dfy`, `Link1Write.dfy` | the link1 transport: packets, device-to-host transfer, what the checksum notices, host-to-device stop-and-wait |

Objects the source updates in place are classes with the same fields. The hardware is the environment: SysTick is a
counter below its reload value, the DMA reports the half it has finished, devices and byte streams answer as they
please within their contract. Meaning is given independently of the code under proof: the region words are read back
by the rules of section B3.5 (PMSAv7) of the ARMv7-M Architecture Reference Manual, the FIFO is compared with a
queue that records the fate of every byte, the switcher with a ghost count of the cycles each task has really run,
the stream with the list of half buffers the DMA has played, the switchboard with the log of what its two devices said.

## Findings

Some properties one would expect are false of the code. Each is proved here with the exact condition under which the
code does have it.

* A region whose block straddles the 2GB boundary gets 512MB subregions, for which the size computation at
  `src/cortexm/mpu.c:149` wraps: the region then applies to no address at all. The encoding is exact if and only if
  the block lies in one half of memory (`MpuRegion.CalcRegion`, `MpuRegion.WrappedSizeAppliesNowhere`; 1GB at
  `0x6000_0000` is such a block, `MpuRegion.StraddlingBlock`).
* The search raises its fatal event exactly for sizes over 512MB that are over 3.5GB or have no region, after 1025
  rounds; for sizes of 32 bytes to 512MB it cannot, and 33 rounds are enough (`MpuRegion.CalcRegion`,
  `MpuSearch.Search`, an input in `MpuRegion.FatalBlock`).
* `fifo_read_buffer` changes the flag word without masking interrupts, so a writer's overflow flag can be lost. After
  any schedule the flag is exact if and only if no byte dropped between the reader's load and its store was covered up
  by that store with none dropped since (`FifoFlag.FlagExactUnlessLost`). What a caller can check first: a read during
  which `n` bytes are written keeps the flag exact under every schedule if and only if it asks for nothing, or the
  FIFO is in write-block mode, or the flag is already set, or `n` more bytes fit (`FifoFlag.NoRiskNoLoss`,
  `FifoFlag.RiskLoses`, `FifoFlag.OverflowFlagLost`). No byte is affected (`FifoInterrupt.InterruptedRead`).
* A set-attribute call that leaves the FIFO in write-block mode, without an init, while a writer waits on it tells that
  writer that everything was written, and nothing was. Over every run those who write are told exactly the bytes taken,
  in order, if and only if that does not happen (`FifoPromises.RunTold`, `FifoQueue.WriteCompletionsHonest`, with a run
  in `FifoQueue.FalseCompletionHappens`).
* A non-blocking write to a full FIFO that is not in write-block mode waits instead of failing
  (`src/device/fifo.c:369-379`). A write waits if and only if the FIFO is full and exactly one of the two, the write
  being non-blocking and write-block mode, holds (`FifoQueue.WriteWaits`, `FifoQueue.NonBlockingWriteWaits`).
* A switchboard connection is stopped whenever all but the last transaction its limit allows complete at once, even if
  the last one started an asynchronous operation; with a limit of 1 it never runs (`LineStops.PumpVerdict`,
  `LineStops.PumpStays`, a run in `LineExamples.StoppedInFlight`).
* The fill test at `src/device/switchboard.c:579-581` is always true, so a non-blocking input with nothing to read
  sends on a packet nobody supplied, zeros or old buffer contents. A read that completes later is counted by the
  request, which the completion of a byte FIFO does not touch (`src/cortexm/devfs.c:35-39`,
  `src/device/switchboard.c:652`), so one that completes in part sends on old bytes too. What comes in is exactly what
  the input device supplied if and only if neither happened (`LineFlow.InputExact`, runs in
  `LineExamples.EmptyReadSent` and `LineExamples.StaleByteSent`). A write of which the device takes only part drops the
  rest: what goes out is exactly what the device takes if and only if that did not happen (`LineFlow.OutputExact`, a
  run in `LineExamples.PartTaken`).
* Disconnecting frees a connection at once exactly when a completion reported an error or a cancel. Otherwise it can be
  freed later if and only if an operation is in flight, and then its completion frees it. A connection that stopped
  with nothing in flight, or was never created, stays unusable for ever (`LineFreed.DestroyFrees`,
  `LineFreed.NeverFreed`; the three cases occur in `LineExamples.FreedAtOnce`, `LineExamples.StoppedInFlight` and
  `LineExamples.StoppedForEver`).
* A connection can be freed, and then used again, while a device still works for it. Exactly when is
  `LineFreed.FreedEarly`; it happens after a read error with a write in flight, and when creating a connection fails
  with a read in flight (`LineExamples.FreedInFlight`, `LineExamples.AbortedInFlight`). As long as it stays free the
  completion is not heard, because the request that names the handler was cleared (`LineFreed.LateCompletions`).
* The link1 checksum notices every changed data or checksum byte but not every changed size byte. A size that arrives
  smaller goes unnoticed if and only if the byte then taken for the checksum is right, a larger one if and only if what
  follows makes up for the two sizes (`Link1Errors.SmallerSize`, `Link1Errors.LargerSize`, a packet in
  `Link1Errors.SizeErrorMissed`).

Two members also cover states that the kernel does not let thread code reach, since whoever deletes the running task
makes a switch pending in the same call: `task_interrupt` with the entry of the current task free
(`HandlerStack.Cpu.SvcallInterruptCurrent`) and a new task put into that entry (`Scheduler.Switcher.NewTask`).

Where comments and code disagree the model follows the code: the comment at `src/device/switchboard.c:515-516` says a
refused non-blocking write keeps the connection going, but it does so only while a read is in flight.

## Model

| member | source | states |
|---|---|---|
| MpuSearch.FitSubregion | src/cortexm/mpu.c:117-132 | the inner loop returns the first power-of-two subregion size, from 32 bytes up, that passes the test, or none when none up to the cap does |
| MpuSearch.StepBack | src/cortexm/mpu.c:103-136 | clearing the lowest set bit of the base moves to a block at least twice as large, so the rounds are bounded |
| MpuSearch.FailedRound | src/cortexm/mpu.c:104-136 | a round that finds nothing rules out every region up to the size of its block, over all bases |
| MpuSearch.FoundHere | src/cortexm/mpu.c:117-132 | the first size to pass is the smallest subregion size of any region that serves, and enables the fewest bytes of any |
| MpuSearch.NothingLeft | src/cortexm/mpu.c:135-142 | stopping once the size itself was tried as a subregion size misses no region |
| MpuSearch.BreakCount | src/cortexm/mpu.c:122-129 | leaving the inner loop with zero subregions happens exactly when the rounding sum has wrapped |
| MpuSearch.TryBase | src/cortexm/mpu.c:100-133 | one round: a best region, or none up to the size of this block |
| MpuSearch.Search | src/cortexm/mpu.c:94-146 | for every 32-bit address and size of at least 32: a best region, or none because no region serves; the fatal event only over 512MB, after 1025 rounds, and otherwise at most 33 rounds |
| MpuRegion.RasrFields | src/cortexm/mpu.c:159-164 | each field of the packed attribute word is the value put there, for every size code below 32 |
| MpuRegion.RbarMeans | src/cortexm/mpu.c:204 | base, valid bit and region number share no bits and are read back |
| MpuRegion.DisableMask | src/cortexm/mpu.c:154-157 | a subregion's disable bit is clear exactly for the run of subregions found |
| MpuRegion.FieldsMean | src/cortexm/mpu.c:149-204 | words with these fields apply to exactly the bytes of the run |
| MpuRegion.MpuSizeOfPow2 | src/cortexm/mpu.c:149 | the size code of eight `2^k` byte subregions is `k + 2`, and wraps for 512MB subregions |
| MpuRegion.WrappedSizeAppliesNowhere | src/cortexm/mpu.c:149-208 | with the wrapped size code every subregion is disabled, whatever the other fields |
| MpuRegion.SmallRegionInHalf | src/cortexm/mpu.c:94-146 | a block served by subregions under 512MB lies in one half of memory |
| MpuRegion.LargeRegionHalves | src/cortexm/mpu.c:94-146 | a block in one half of memory never needs a 4GB region |
| MpuRegion.BestHalf | src/cortexm/mpu.c:94-149 | the search settles on 512MB subregions exactly for blocks across the 2GB boundary |
| MpuRegion.BestLength | src/cortexm/mpu.c:94-160 | the enabled length is at least the size, under twice the size, the least of any region, and ends inside memory |
| MpuRegion.Pack | src/cortexm/mpu.c:149-208 | the words packed for a best run mean that run, if it does not need a 4GB region |
| MpuRegion.CalcRegion | src/cortexm/mpu.c:68-209 | for every address and size: succeeds exactly when some region serves, enables the fewest bytes possible, fatal exactly when stated, and the words enable exactly `[addr, addr + ret)` if and only if the block lies in one half of memory |
| MpuRegion.StraddlingBlock | src/cortexm/mpu.c:94-149 | a block that has a region and lies across the 2GB boundary |
| MpuRegion.FatalBlock | src/cortexm/mpu.c:135-142 | a block between 512MB and 3.5GB that has no region |
| StackGuard.GuardAddressAligned | src/cortexm/task_mpu.c:131-155 | for a power-of-two size the guard starts at the first multiple above the stack address |
| StackGuard.GuardAddressBits | src/cortexm/task_mpu.c:131-141 | for every size, bit by bit: the stack address without the bits of the size less one, plus the size |
| StackGuard.AlignedBlockCovers | src/cortexm/task_mpu.c:131-155 | an aligned power-of-two block is its own region |
| StackGuard.PowerOfTwoGuard | src/cortexm/task_mpu.c:131-155 | such a guard always has a region, and the shortest one is the guard itself |
| StackGuard.TaskTable.SetStackGuard | src/cortexm/task_mpu.c:131-168 | succeeds exactly when a region serves; the region, number 3 above the offset, privileged and not executable, is then the fewest bytes from the guard's start that any region has, if the guard lies in one half of memory; for power-of-two sizes from 32 bytes to under 512MB it always succeeds and the region is exactly the guard; nothing else changes |
| Scheduler.ReloadFor | src/cortexm/task.c:135-150 | the quantum lies between the smallest worthwhile remainder and the 24-bit limit |
| Scheduler.ReloadExact | src/cortexm/task.c:135-150 | the quantum is the interval's cycles rounded to the nearest and kept to the limits, if they fit 32 bits |
| Scheduler.Next | src/cortexm/task.c:359-399 | the scan stops at the next eligible task, none skipped, or at task 0 past the last |
| Scheduler.ChosenHasQuantum | src/cortexm/task.c:359-436 | whoever the scan chooses, task 0 included, has a quantum worth running or is FIFO |
| Scheduler.SomeoneEligible | src/cortexm/task.c:361-388 | if any task executes, one can be chosen after every scan |
| Scheduler.ScanApproaches | src/cortexm/task.c:359-399 | each switch comes to a given eligible task or strictly closer to it |
| Scheduler.ScanKeepsEligible | src/cortexm/task.c:359-399 | a scan leaves an eligible task eligible, also when it hands out new quanta |
| Scheduler.ChosenWithinTotal | src/cortexm/task.c:359-399 | a task that stays eligible is chosen within as many switches as there are tasks, whatever else changes |
| Scheduler.ScanKeepsElapsed | src/cortexm/task.c:303-386 | a scan changes how the cycles of a task are recorded, not how many they are |
| Scheduler.ScanCharges | src/cortexm/task.c:369-386 | in `k` reloads of `R` an executing task is charged over `k * (R - M)` and at most `k * R` cycles, whatever its timer showed before |
| Scheduler.Fairness | src/cortexm/task.c:369-386 | what two such tasks have run since, from whatever their timers showed, differs by at most one quantum and less than `M` a reload |
| Scheduler.ScanAccounts | src/cortexm/task.c:359-399 | a scan keeps the reported time of every round-robin task equal to the cycles it has run |
| Scheduler.ScanFair | src/cortexm/task.c:359-399 | a scan keeps the charge of every member of a fixed set of executing tasks in step with the reloads |
| Scheduler.ScanExactly | src/cortexm/task.c:359-399 | saving a quantum and scanning keep the executing marks exact |
| Scheduler.FairFromNow | src/cortexm/task.c:487-509 | where the marks are exact and no executing task is FIFO, all of them execute fairly from that moment on |
| Scheduler.Switcher.constructor | src/cortexm/task.c:40-133 | task 0 is in use and runs, no other entry is in use, the quantum is set |
| Scheduler.Switcher.NewTask | src/cortexm/task.c:190-235 | takes the first free entry, with a full quantum and no time, or fails exactly when none is free; every other entry unchanged; the accounts stay right if and only if it is not the entry of the running task or that has not used its quantum |
| Scheduler.Switcher.DeleteTask | src/cortexm/task.c:237-242 | frees one entry, never task 0, and keeps all accounts |
| Scheduler.Switcher.SetState | include/cortexm/task_table.h:27-38 | the flags and priorities the kernel sets do not disturb the accounts |
| Scheduler.Switcher.Tick | src/cortexm/task.c:426-436 | the counter of a round-robin task falls by the cycles it runs, and its account follows |
| Scheduler.Switcher.GetTime | src/cortexm/task.c:303-311 | the reported time is the cycles that task has run, by both formulas |
| Scheduler.Switcher.FairBound | src/cortexm/task.c:359-399 | tasks that execute together from some moment on have run within one quantum and less than `M` a reload of each other since what their timers showed then |
| Scheduler.Switcher.Wrap | src/cortexm/task.c:361-388 | reaching task 0 hands out new quanta exactly when every executing task has spent its own |
| Scheduler.CallsKept | src/cortexm/task.c:326-457 | a switch takes no task's waiting supervisor call or yield away and gives none to another |
| Scheduler.Switcher.Scan | src/cortexm/task.c:359-436 | the loop does what `Next` and `AfterScan` say and loads the counter of the chosen task |
| Scheduler.Switcher.ParkCall | src/cortexm/task.c:331-346 | a supervisor call about to be taken is noted for whoever made it |
| Scheduler.Switcher.ResumeCall | src/cortexm/task.c:449-453 | a call noted for the chosen task is pending again and no longer noted |
| Scheduler.Switcher.SwitchContexts | src/cortexm/task.c:326-457 | the three together; every task keeps the call it was about to make |
| Scheduler.Switcher.Switch | src/cortexm/task.c:359-436 | a switch keeps accounts and fairness |
| Scheduler.ExpiryPreempts | src/cortexm/task.c:469-475 | what an expiry means for the tasks: the first eligible one after the running one is chosen, none skipped, or task 0; all executing tasks get new quanta exactly when none but the one that ran had any left; otherwise just that one has none |
| Scheduler.Switcher.Expire | src/cortexm/task.c:469-483 | all that of the switcher, with the counter loaded from the chosen task; accounts and fairness kept |
| Scheduler.Switcher.MarkExecuting | src/cortexm/task.c:491-509 | the marking loop sets every mark and counts them |
| Scheduler.Switcher.PendSv | src/cortexm/task.c:487-528 | afterwards the executing tasks and their count are exactly the runnable tasks of the current priority; the running task goes on exactly when it is one of them and has not asked to yield, and otherwise the first of them after it with a quantum runs, or task 0; accounts and fairness kept, and if none is FIFO they execute fairly from now on |
| Scheduler.Switcher.SwitchUnlessGoing | src/cortexm/task.c:515-528 | its second part: stays or switches, as the marks and the yield flag say |
| Scheduler.Switcher.SwitchAway | src/cortexm/task.c:515-528 | its switch clears the yield flag and changes nobody's mode, priority or readiness |
| Scheduler.Switcher.RequestSwitch | src/cortexm/task.c:459-528 | a requested switch saves the quantum first, with the same outcome |
| Scheduler.Switcher.AskToYield | src/sys/sched/sched.c:211-216 | asking to yield keeps accounts and fairness |
| Scheduler.Switcher.Handle | src/cortexm/task.c:326-528 | every event does to the table, the running task and the cycles what it stands for, and keeps accounts and fairness |
| Scheduler.Switcher.RunFairly | src/cortexm/task.c:326-528 | over every run of cycles, expiries, requested switches and supervisor calls, any two executing tasks have run within one quantum and less than `M` a reload of each other |
| Scheduler.Switcher.RunOutAll | src/cortexm/task.c:469-483 | any number of quanta running out one after the other is a run of expiries |
| NoStarvation.RankFalls | src/cortexm/task.c:359-399 | an expiry that hands out no new quanta leaves fewer tasks with one, or ends the turn of task 0 |
| NoStarvation.RenewsSoon | src/cortexm/task.c:361-388 | if no task is FIFO, new quanta come within twice as many expiries as there are tasks |
| NoStarvation.ChosenSoon | src/cortexm/task.c:359-399 | if no task is FIFO, one with a quantum left is chosen within as many expiries as there are tasks |
| NoStarvation.RunsAgain | src/cortexm/task.c:359-399 | if no task is FIFO, every executing task, its quantum spent or not, is chosen within three times as many expiries as there are tasks, and one |
| NoStarvation.RunEveryone | src/cortexm/task.c:359-483 | both of the switcher itself |
| Scheduler.BootTwo | src/cortexm/task.c:40-528 | from a fresh table two tasks are created, made ready and switched to, and from then on execute fairly |
| HandlerStack.Cpu.constructor | src/cortexm/task.c:40-133 | task 0 runs on an empty stack and no other entry is in use |
| HandlerStack.Cpu.StartTask | src/cortexm/task.c:190-235 | a new task's only context has the frame written for it and starts at the top of its stack, nothing is written elsewhere, and no other task changes |
| HandlerStack.Cpu.DeleteTask | src/cortexm/task.c:237-242 | frees the entry and changes nothing else, also when it is the running one |
| HandlerStack.Cpu.Work | src/cortexm/task_local.h:14-35 | code that runs writes words below the stacked contexts, exactly those, so it changes the innermost context and no other |
| HandlerStack.Cpu.PushContext | src/cortexm/task_local.h:73-79 | the two frames hold the live context, and nothing else is written |
| HandlerStack.Cpu.PopContext | src/cortexm/task_local.h:86-92 | loading two frames brings back exactly the context they hold |
| HandlerStack.FrameEnters | src/cortexm/task.c:574-584 | the frame for a handler: its arguments in r0 to r3, 0 in r12, `task_restore` in lr, its address in pc, the default status |
| HandlerStack.Cpu.RootInterruptCall | src/cortexm/task.c:554-595 | writes one handler frame below the stack of the current task, or below the saved context of another, and nothing for a free entry |
| HandlerStack.Cpu.SvcallInterruptCurrent | src/cortexm/task.c:554-610 | the handler becomes the innermost context of the current task above all it was in; no other task changes; with a free entry the stack pointer and registers are wrong as stated |
| HandlerStack.Cpu.SaveAndInsert | src/cortexm/task.c:554-605 | the saved context of the current task is intact below its stack, and the handler is the innermost context of the other |
| HandlerStack.Cpu.SaveOnly | src/cortexm/task.c:554-605 | for a free entry the context is saved and nothing inserted |
| HandlerStack.Cpu.SvcallInterruptOther | src/cortexm/task.c:554-610 | the same for a suspended task, with the current one exactly where it was |
| HandlerStack.Cpu.TaskInterrupt | src/cortexm/task.c:554-618 | both cases and the out-of-range error |
| HandlerStack.Cpu.TaskRestore | src/cortexm/task.c:530-552 | ending a handler makes the interrupted context live again and changes no other task |
| HandlerStack.Cpu.SaveTask | src/cortexm/task.c:326-358 | the live context goes on its stack, so that all contexts of all tasks in use are in memory |
| HandlerStack.Cpu.ResumeTask | src/cortexm/task.c:400-457 | the innermost context of the chosen task is live, and every task keeps its contexts |
| HandlerStack.Cpu.SwitchTo | src/cortexm/task.c:326-457 | a context switch changes the contexts of no task |
| HandlerStack.DoesPlanned | src/cortexm/task.c:190-618 | what a command does to who runs, to the entries in use and to the stack pointers follows from these alone |
| HandlerStack.Cpu.ExecuteAll | src/cortexm/task.c:190-618 | every sequence of handlers inserted and ended, code run, switches, new and deleted tasks that the stack pointers have room for is a run in the sense of the next rows; whether they have can be computed beforehand |
| HandlerRuns.OneCommand | src/cortexm/task.c:190-618 | one such step adds or removes at most the innermost context of a task it does not delete, and keeps the others |
| HandlerRuns.OuterKept | src/cortexm/task.c:530-618 | over every run that nests, nothing done inside a handler changes the contexts outside it |
| HandlerRuns.HandlerUndone | src/cortexm/task.c:530-618 | over every run in which handlers nest, on this task and others, with switches, new and deleted tasks between: when the handler inserted ends, its task is in exactly the contexts it was in and runs with exactly the stack pointer and registers it was interrupted with |
| HandlerRuns.HandlerStarts | src/cortexm/task.c:554-618 | once its task runs, the processor is at the handler's address with its arguments, and returns to `task_restore` |
| HandlerRuns.TaskStarts | src/cortexm/task.c:190-235 | a new task switched to runs with the frame made for it, at the top of its stack |
| HandlerExamples.RunNested | src/cortexm/task.c:190-618 | from a processor just set up: a task started, handlers nested on two tasks, code run in them, switches, and all ended, with both tasks back in their contexts |
| Ring.CountSpec | src/device/fifo.c:165-172 | the positions alone tell how many bytes are stored, empty and full apart |
| Ring.Push | src/device/fifo.c:11-28 | writing at the head appends, and drops the oldest byte of a full ring |
| Ring.Pop | src/device/fifo.c:92-103 | moving the tail on takes out the oldest byte, with the tail parked or not |
| FifoQueue.StepKeeps | src/device/fifo.c:177-382 | every operation keeps: a waiting reader means empty, a waiting writer means full, every accepted byte has left once in order or is stored, the overflow flag exact |
| FifoQueue.RunKeeps | src/device/fifo.c:177-382 | the same over every run of operations |
| FifoQueue.SlotsExclusive | src/device/fifo.c:177-215 | a reader and a writer never wait at the same time |
| FifoQueue.StepDelivers | src/device/fifo.c:177-382 | what an operation hands to readers, waiting ones included, is what leaves the queue as delivered |
| FifoQueue.RunDelivers | src/device/fifo.c:177-382 | over every run readers get exactly the delivered bytes, in order |
| FifoQueue.WriteAppends | src/device/fifo.c:125-146 | a blocked write appends what fits |
| FifoQueue.WriteKeepsNewest | src/device/fifo.c:18-49 | an overflowing write leaves the newest bytes and drops exactly the older ones |
| FifoQueue.StreamingStep | src/device/fifo.c:325-382 | in write-block mode no operation but flush, init and set-attribute makes a byte leave other than to a reader |
| FifoQueue.BlockingRunIsLossless | src/device/fifo.c:325-382 | in write-block mode bytes handed out plus bytes stored are the bytes accepted, over every run |
| FifoQueue.WriteWaits | src/device/fifo.c:355-382 | a write starts to wait if and only if it brings something, the queue is full, no write waits, and it is non-blocking or write-block mode is set but not both |
| FifoQueue.NonBlockingWriteWaits | src/device/fifo.c:369-379 | a non-blocking write that waits |
| FifoQueue.WriteCompletionsHonest | src/device/fifo.c:297-320 | a completed write is told the bytes taken if and only if the operation is not a set-attribute without init that leaves write-block mode on |
| FifoQueue.FalseCompletionHappens | src/device/fifo.c:297-320 | a run of the queue that reaches that case: a write is told 1 byte and 0 were taken |
| FifoQueue.ReadCompletionsHonest | src/device/fifo.c:177-189 | a completed read is told what it was handed, at least one byte |
| FifoPromises.WritePromise | src/device/fifo.c:355-382 | a write returns exactly the number of bytes accepted, as many as there is room for or all if old ones may be dropped; when it is busy, waits or is told to try again |
| FifoPromises.ReadPromise | src/device/fifo.c:325-353 | a read gets the oldest bytes, as many as there are and are asked for; when it is busy, waits or is told to try again; a waiting write is then taken up and told what was taken |
| FifoPromises.WaitingReadPromise | src/device/fifo.c:177-189 | a waiting read is handed what there is as soon as a write brings something |
| FifoPromises.InfoPromise | src/device/fifo.c:154-175 | what is ready is what was accepted less what has left; the flag tells of drops since it was last asked for |
| FifoPromises.FlushPromise | src/device/fifo.c:289-296 | all that was stored leaves undelivered, the flag starts anew, a waiting write is taken up and told |
| FifoPromises.InitPromise | src/device/fifo.c:289-296 | the same with both who wait forgotten |
| FifoPromises.SetAttrPromise | src/device/fifo.c:297-320 | the mode is what was asked for, and a waiting write is taken up whenever it then is write-block |
| FifoPromises.SetActionPromise | src/device/fifo.c:272-288 | cancels the waiting write for either event, and nothing else |
| FifoPromises.StepTold | src/device/fifo.c:177-382 | for every operation, what writers are told is what was accepted if and only if it is not the false completion |
| FifoPromises.RunTold | src/device/fifo.c:177-382 | over every run writers are told exactly the bytes accepted, in order, if and only if there is no false completion |
| Fifo.Device.constructor | src/device/fifo.c:148-152 | an empty device satisfies the invariant |
| Fifo.Device.IncHead | src/device/fifo.c:18-28 | the head wraps, and the tail is parked when the head reaches it |
| Fifo.Device.IsWriteOk | src/device/fifo.c:30-49 | a full ring refuses in write-block mode or while a read is busy, and otherwise sets the overflow flag |
| Fifo.Device.PutByte | src/device/fifo.c:137-144 | one byte in the ring is one byte in the queue |
| Fifo.Device.WriteBuffer | src/device/fifo.c:125-146 | the loop writes what the queue takes |
| Fifo.Device.GetByte | src/device/fifo.c:85-121 | one iteration takes out the oldest byte |
| Fifo.Device.ReadBuffer | src/device/fifo.c:75-123 | the loop reads the oldest bytes, as many as there are and are asked for |
| Fifo.Device.FlushRing | src/device/fifo.c:148-152 | empties the queue and clears the overflow flag |
| Fifo.Device.GetInfo | src/device/fifo.c:154-175 | reports the queue length and the overflow flag, and clears the flag |
| Fifo.Device.CompleteRead | src/device/fifo.c:177-189 | a waiting reader gets what there is |
| Fifo.Device.CompleteWrite | src/device/fifo.c:201-215 | a waiting writer is taken up as far as it fits |
| Fifo.Device.ReadLocal | src/device/fifo.c:325-353 | a read is the queue's read, with every error and wait |
| Fifo.Device.WriteLocal | src/device/fifo.c:355-382 | a write is the queue's write, with every error and wait |
| Fifo.Device.Empty | src/device/fifo.c:289-296 | flush and init are the queue's |
| Fifo.Device.SetAttr | src/device/fifo.c:297-320 | set-attribute is the queue's |
| Fifo.Device.SetAction | src/device/fifo.c:272-288 | set-action is the queue's: cancelling either event cancels the waiting write |
| Fifo.Device.ExecuteAll | src/device/fifo.c:177-382 | every run on the ring gives the replies and the state of the same run on the queue |
| FifoInterrupt.PutKeeps | src/device/fifo.c:30-49 | a byte written while a read is busy goes behind everything the reader may hold, and drops nothing |
| FifoInterrupt.BurstKeeps | src/device/fifo.c:125-146 | the same for a whole write |
| FifoTaken.PutTakes | src/device/fifo.c:30-49 | a byte is refused exactly when the ring is full and the write is blocked or a read is busy |
| FifoTaken.BurstTakes | src/device/fifo.c:125-146 | a write takes exactly the first bytes there is room for, or all if old ones may be dropped |
| FifoInterrupt.StoreTailKeeps | src/device/fifo.c:97-103 | storing the tail takes exactly the oldest byte, the one copied |
| FifoInterrupt.ReaderStepKeeps | src/device/fifo.c:75-123 | every statement of the reader keeps the invariant, and only that store changes what is stored |
| FifoInterrupt.RunKeeps | src/device/fifo.c:30-146 | the invariant over every interleaving |
| FifoInterrupt.ReaderReturns | src/device/fifo.c:75-123 | however it is interrupted, the reader returns after a bounded number of its own steps |
| FifoInterrupt.ShortMeansEmpty | src/device/fifo.c:85-121 | it leaves with fewer bytes than asked for only if the ring was empty when it took its snapshot |
| FifoInterrupt.InterruptedRead | src/device/fifo.c:30-146 | for every interleaving of an interrupted read: no byte lost, duplicated or reordered, the caller gets exactly the bytes delivered, fewer than asked for only if the ring was found empty, and the clobbered branch is never taken |
| FifoTaken.ScheduleTakes | src/device/fifo.c:30-146 | over every schedule the ring takes, write by write, exactly what there is room for at that moment |
| FifoTaken.NothingRefused | src/device/fifo.c:30-146 | if there is room before the read for all the writers bring, all of it is stored, however the read is interrupted |
| FifoFlag.BurstFlags | src/device/fifo.c:30-49 | a write sets the overflow flag exactly when it drops a byte |
| FifoFlag.FlagTracks | src/device/fifo.c:87-118 | after every prefix of a schedule the flag never claims a drop that was not, and misses one exactly when it was lost |
| FifoFlag.FlagExactUnlessLost | src/device/fifo.c:87-118 | after every schedule the flag is exact if and only if no byte dropped while the reader held an older flag word was covered up by its store with none dropped since |
| FifoFlag.NoRiskNoLoss | src/device/fifo.c:75-146 | a read that is not at risk, by its request, the mode, the flag and the room before it starts, keeps the flag exact under every schedule |
| FifoFlag.RiskLoses | src/device/fifo.c:75-146 | for every read at risk there is a schedule that brings as many bytes and loses the flag |
| FifoFlag.OverflowFlagLost | src/device/fifo.c:87-118 | there are reads at risk, and a run in which a drop goes unreported |
| StreamTx.HistoryPlay | src/device/stream_ffifo.c:35-73 | what is played is what was given for each half, padded with zero frames, and nothing given is left out |
| StreamTx.Stream.constructor | src/device/stream_ffifo.c:207-247 | a stream that can be started |
| StreamTx.Stream.IncHead | src/device/ffifo.c:23-33 | the head wraps and parks the tail |
| StreamTx.Stream.PutFrame | src/device/ffifo.c:142-168 | one frame goes to the next free slot of the window and to no other |
| StreamTx.Stream.WriteBuffer | src/device/ffifo.c:142-168 | writes what fits in the window and nothing outside it |
| StreamTx.Stream.Start | src/device/stream_ffifo.c:207-247 | half a ring of zeros plays, the other half is the window |
| StreamTx.Stream.Stop | src/device/stream_ffifo.c:249-252 | no more frames are taken |
| StreamTx.Stream.Write | src/device/ffifo.c:367-397 | frames of the half being played are never touched; every error, wait and partial write as stated |
| StreamTx.Stream.CompleteWrite | src/device/ffifo.c:223-235 | a waiting write completes when one frame fits, with the frames that fit |
| StreamTx.Stream.FillWithZeros | src/device/stream_ffifo.c:35-48 | the half about to play is topped up with zeros and the overflow flag set exactly then |
| StreamTx.Stream.ReleaseHalf | src/device/stream_ffifo.c:50-73 | a waiting write completed inside the loop goes to released frames only |
| StreamTx.Stream.ReleaseOne | src/device/stream_ffifo.c:50-73 | one frame released, and a waiting write completed into it |
| StreamTx.Stream.PlayNextHalf | src/device/stream_ffifo.c:35-48 | the other half plays, holding what the application wrote and zeros |
| StreamTx.Stream.HalfPlayed | src/device/stream_ffifo.c:35-73 | the window moves to the half just finished, and the DMA plays exactly what was written, padded |
| StreamTx.Stream.WriteComplete | src/device/stream_ffifo.c:15-84 | the event handler with its error and stop cases: the stream stops exactly at a HIGH event after a stop was asked for; a waiting write is told exactly the frames taken from it; underflow, count and error noted |
| StreamTx.Stream.Handle | src/device/stream_ffifo.c:15-252 | one write, event or stop reports exactly the frames it takes |
| StreamTx.Stream.RunAll | src/device/stream_ffifo.c:15-252 | from START, over every sequence of writes, halves played and stops, the frames reported as written are in order those in the halves played and those waiting, and what is played is these and zero frames; without a stop the stream is still started |
| StreamTx.WriteAfterRun | src/device/stream_ffifo.c:318-331 | after any run without a stop a write is taken at once as far as there is room |
| StreamTx.RunStream | src/device/stream_ffifo.c:15-252 | the same for a stream just made |
| Repeating.RepeatEnds | src/device/switchboard.c:602-608 | a bounded loop of steps ends after `m` that complete at once and one more, which does not or is the last allowed |
| PacketLine.ReadKeeps | src/device/switchboard.c:526-592 | a read keeps order and the account of what the device supplied |
| PacketLine.ReadJoins | src/device/switchboard.c:526-592 | a read adds at most one packet, at the end, and takes none away |
| PacketLine.WriteKeeps | src/device/switchboard.c:497-524 | a write keeps order and the account of what the device took |
| PacketLine.WriteParts | src/device/switchboard.c:497-524 | a write takes away at most the oldest packet, and touches no buffer |
| LinePromises.AsksInput | src/device/switchboard.c:397-534 | a read asks the input device for a whole packet, once, exactly when none is in flight, reading goes on and a buffer is free |
| LinePromises.OffersOutput | src/device/switchboard.c:446-506 | a write offers the oldest packet whole, once, unless one is being written |
| LinePromises.ReadThenWrite | src/device/switchboard.c:603-606 | a transaction writes exactly when its read has nothing to show for it |
| LinePromises.PacketOf | src/device/switchboard.c:531-590 | the packet of a read answered at once is what the device supplied; with nothing supplied zeros if asked for, else the old contents of the buffer |
| LinePromises.NewLineAsks | src/device/switchboard.c:207-262 | a new connection asks for the packet size wanted, or the buffer size if less, with the limit and filling asked for |
| LinePromises.CreatePromise | src/device/switchboard.c:166-312 | creating is refused unless the connection is free, fails exactly when a transaction does and leaves it free |
| LinePromises.CleanPromise | src/device/switchboard.c:314-322 | cleaning frees exactly a connection that noted an error |
| LinePromises.BadStops | src/device/switchboard.c:626-660 | a completion with an error, a cancel or a negative count stops the connection without a call to a device, and is noted |
| LinePromises.GoodReadTakes | src/device/switchboard.c:626-652 | a completed read makes a packet of the size counted that starts with the bytes that came |
| LinePromises.GoodWriteLeaves | src/device/switchboard.c:662-694 | a completed write is the end of the oldest packet, and the next is offered at once |
| PacketLine.TurnSteps | src/device/switchboard.c:602-607 | a transaction moves one packet exactly when it completes at once, and changes no flag but those of the two operations |
| PacketLine.PumpEnds | src/device/switchboard.c:594-624 | what a pump does, by its transactions and the number of packets they move |
| PacketLine.VerdictStays | src/device/switchboard.c:610-622 | it stays connected exactly with no error, the limit not used up and something in flight |
| PacketLine.StepKeeps | src/device/switchboard.c:179-697 | every event keeps: packets go out in the order they came in, none lost or doubled; what came in and went out is accounted for by what the devices said; a connected line has an operation in flight; a stopped one a reason |
| PacketLine.RunKeeps | src/device/switchboard.c:179-697 | the same over every run of events and every answer of the devices |
| LineFlow.InputExact | src/device/switchboard.c:526-592 | the bytes that came in are those the input device supplied if and only if no read was answered with nothing and every late read had as many bytes as counted |
| LineFlow.OutputExact | src/device/switchboard.c:497-524 | the bytes the output device took are those of the packets that went out if and only if it took every one whole |
| LineFlow.CarriesAll | src/device/switchboard.c:446-697 | then what the output device got and what is in the buffers is exactly what the input device supplied |
| LineStops.PumpVerdict | src/device/switchboard.c:594-624 | stops with a deadlock exactly when all but the last transaction allowed complete at once; otherwise connected exactly when the first that does not leaves an operation in flight; exactly how many packets moved |
| LineStops.PumpStays | src/device/switchboard.c:594-624 | stays connected if and only if the devices, from the state before the call, answer so that some transaction settles it |
| LineFreed.CompletionFrees | src/device/switchboard.c:346-376 | the next completion frees a disconnected line, and no completion frees another |
| LineFreed.NeverFreed | src/device/switchboard.c:324-344 | one with nothing in flight and no error or cancel reported is never freed, over every run |
| LineFreed.DestroyFrees | src/device/switchboard.c:324-376 | freed at once if and only if a completion reported an error or a cancel, otherwise freed by some run if and only if an operation is in flight |
| LineFreed.PumpFailsInFlight | src/device/switchboard.c:594-624 | a pump fails with an operation in flight exactly when one of its transactions does |
| LineFreed.FreedEarly | src/device/switchboard.c:291-376 | exactly when an event frees a line that a device still works for |
| LineFreed.LateCompletions | src/cortexm/devfs.c:4-62 | completions that come for a line freed in the meantime change nothing |
| LineExamples.StoppedInFlight | src/device/switchboard.c:594-624 | a connection stopped at its limit with a read in flight, whose completion frees it once disconnected |
| LineExamples.FreedAtOnce | src/device/switchboard.c:324-337 | one freed by disconnecting it |
| LineExamples.StaleByteSent | src/device/switchboard.c:626-654 | a run in which a late read of one byte makes a packet of two, on its way to the output device |
| LineExamples.EmptyReadSent | src/device/switchboard.c:540-584 | a connection with nothing to read that sends on two bytes nobody supplied |
| LineExamples.PartTaken | src/device/switchboard.c:503-510 | an output device that takes one byte of two, the other lost |
| LineExamples.StoppedForEver | src/device/switchboard.c:610-622 | one that stopped with nothing in flight and can never be freed |
| LineExamples.FreedInFlight | src/device/switchboard.c:324-337 | one freed with its write in flight |
| LineExamples.AbortedInFlight | src/device/switchboard.c:291-312 | one aborted while it is created, with its read in flight |
| Switchboard.Connection.constructor | src/device/switchboard.c:173-177 | a free connection satisfies the invariant |
| Switchboard.Connection.NoSharedBuffer | src/device/switchboard.c:397-466 | a read and a write in flight use different buffers |
| Switchboard.Connection.SwitchInputBuffer | src/device/switchboard.c:424-433 | the packet in the input buffer joins the queue the buffers hold, and the other buffer is next |
| Switchboard.Connection.CompleteRead | src/device/switchboard.c:424-474 | a packet read joins the end of the queue; an empty one ends reading |
| Switchboard.Connection.SwitchOutputBuffer | src/device/switchboard.c:436-444 | the oldest packet leaves its buffer free, and the next read still goes behind the queue |
| Switchboard.Connection.CompleteWrite | src/device/switchboard.c:490-495 | a packet written leaves the front of the queue |
| Switchboard.Connection.Deliver | src/device/switchboard.c:526-584 | what a device puts into the input buffer touches no packet of the queue |
| Switchboard.Connection.DriverRead | src/device/switchboard.c:531-532 | the driver's return value, what it put in the buffer and what is recorded of it agree |
| Switchboard.Connection.DriverWrite | src/device/switchboard.c:503-504 | the driver is offered the oldest packet whole, and its answer recorded |
| Switchboard.Connection.FillPacket | src/device/switchboard.c:540-584 | a read with nothing sends on zeros or the old buffer contents |
| Switchboard.Connection.ReadAnswered | src/device/switchboard.c:532-590 | each return value does what the line makes of the answer |
| Switchboard.Connection.ReadFromDevice | src/device/switchboard.c:397-592 | the line's read, only into a free buffer |
| Switchboard.Connection.StartWrite | src/device/switchboard.c:503-522 | the line's write of the oldest packet: error, wait and refusal |
| Switchboard.Connection.WriteToDevice | src/device/switchboard.c:446-524 | the same with the test for something to write |
| Switchboard.Connection.CloseConnection | src/device/switchboard.c:346-358 | not connected any more, and freed exactly when it was being destroyed |
| Switchboard.Connection.CheckForStopped | src/device/switchboard.c:360-377 | closes exactly when there is a reason to stop |
| Switchboard.Connection.PumpOnce | src/device/switchboard.c:603-606 | one transaction is the line's: a read, or a write when none can be had now |
| Switchboard.Connection.PumpSome | src/device/switchboard.c:602-608 | the loop makes exactly the line's transactions, and counts them |
| Switchboard.Connection.Pump | src/device/switchboard.c:594-624 | a pump of the buffers is the line's pump |
| Switchboard.Connection.ReadEnded | src/device/switchboard.c:626-654 | a completion takes the bytes that arrived and the count left in the request, and notes errors and cancels |
| Switchboard.Connection.WriteEnded | src/device/switchboard.c:662-694 | the oldest packet is done and the next is tried, or an error or cancel noted |
| Switchboard.Connection.HandleDataReady | src/device/switchboard.c:626-660 | the handler does the line's event, connected or not |
| Switchboard.Connection.ReadCompleted | src/cortexm/devfs.c:27-43 | a read completion calls the handler while the connection is in use, and does nothing to one freed since |
| Switchboard.Connection.HandleWriteComplete | src/device/switchboard.c:662-697 | the handler does the line's event, connected or not |
| Switchboard.Connection.WriteCompleted | src/cortexm/devfs.c:46-62 | the same for a write completion |
| Switchboard.Connection.Destroy | src/device/switchboard.c:324-344 | disconnecting is the line's, whose consequences are `LineFreed.DestroyFrees` |
| Switchboard.Connection.CleanUp | src/device/switchboard.c:314-322 | cleaning frees exactly a connection that noted an error |
| Switchboard.Connection.Create | src/device/switchboard.c:173-303 | creating is the line's: busy unless free, the packet size capped by the buffer, a device error leaves it free |
| Switchboard.Connection.Execute | src/device/switchboard.c:70-82 | every event on the buffers is the line's, with the same return value |
| Switchboard.Connection.ExecuteAll | src/device/switchboard.c:70-697 | every run of events on the buffers is the same run of the line, so all that is proved of the line holds of them |
| Link1.InsertChecksum | src/link_transport/link1_transport.c:14-23 | the loop computes the exclusive or of size and data |
| Link1.EncodeFormat | src/link_transport/link1_transport.c:14-23 | a packet is a start byte, the size, the data, and the exclusive or of size and data |
| Link1.ChecksumIsOk | src/link_transport/link1_transport.c:25-39 | true exactly for a legal size and a matching checksum |
| Link1Errors.DataErrorNoticed | src/link_transport/link1_transport.c:14-39 | a packet with one data byte changed is rejected |
| Link1Errors.ChecksumErrorNoticed | src/link_transport/link1_transport.c:14-39 | a packet with its checksum changed is rejected |
| Link1Errors.SmallerSize | src/link_transport/link1_transport.c:25-121 | a size byte that arrives smaller goes unnoticed if and only if the byte then taken for the checksum is that of the bytes before it |
| Link1Errors.LargerSize | src/link_transport/link1_transport.c:25-121 | one that arrives larger goes unnoticed if and only if what follows the packet makes up for the two sizes |
| Link1Errors.SizeErrorMissed | src/link_transport/link1_transport.c:25-121 | a packet of one byte that is read as an empty one |
| Link1.WaitStart | src/link_transport/link1_transport.c:41-70 | takes one start byte, or says why not; times out exactly when the waits and their number add up to the timeout |
| Link1.WaitPacket | src/link_transport/link1_transport.c:72-121 | takes exactly size, data and checksum, in whatever chunks they come; times out exactly when the waits since the last byte add up to the timeout |
| Link1.BodyRead | src/link_transport/link1_transport.c:86-118 | a reader of a stream that starts with a packet stops exactly at its end |
| Link1.ReadPacket | src/link_transport/link1_transport_master.c:40-62 | a packet on the stream is read back as it was encoded, and whatever is read back was a packet |
| Link1.SegmentsWell | src/link_transport/link1_transport_slave.c:108-139 | whatever the callback answers, the reader can tell from the packets where the transfer ends |
| Link1.SegmentsFull | src/link_transport/link1_transport_slave.c:108-139 | a callback that always fills the request makes exactly the bytes asked for |
| Link1.SegmentsOfBuffer | src/link_transport/link1_transport_slave.c:122-125 | a transfer without callback, packet by packet from a buffer, sends exactly the buffer |
| Link1.SlaveWrite | src/link_transport/link1_transport_slave.c:94-146 | the bytes on the wire are the packets of the segmentation up to the first write the driver fails, and then it returns -1; otherwise the number sent, or the callback's first answer when that is none |
| Link1.MasterRead | src/link_transport/link1_transport_master.c:30-79 | whatever is on the stream, the bytes are those of the packets taken off it, cut to what was asked for, and an error flushes it; a well segmented transfer is returned whole and exactly it is taken off the stream |
| Link1.DeviceToHost | src/link_transport/link1_transport_slave.c:94-146 | device to host for every callback and chunking: exactly the bytes sent, and an empty stream, or a timeout that needs a stall |
| Link1Write.StepKeeps | src/link_transport/link1_transport_slave.c:16-92 | every step of host or device keeps the protocol invariant |
| Link1Write.RunDelivers | src/link_transport/link1_transport_master.c:81-182 | at every moment the callback has taken an exact prefix; a result of `n` means all was delivered; a refusal means exactly the packets before it were; both ends stopped and both streams empty |
| Link1Write.Progress | src/link_transport/link1_transport_master.c:143-182 | until the host stops one end can move |
| Link1Write.StepsRunOut | src/link_transport/link1_transport_master.c:98-138 | every step lowers a bound, so no run is endless |
| Link1Write.Completes | src/link_transport/link1_transport_master.c:81-141 | every run can be continued to the end |
| Link1Write.Outcome | src/link_transport/link1_transport_slave.c:63-85 | the host is told that all was written if and only if the callback takes every packet, whatever the interleaving |
| Link1Write.EveryTransfer | src/link_transport/link1_transport_slave.c:16-92 | all of it for every transfer from the start |
| Link1Write.OnlyGoodTaken | src/link_transport/link1_transport_slave.c:48-78 | in any state, whatever the channel did, the callback takes only the whole data of a packet with a legal size and a matching checksum |
| Link1Write.BadRejected | src/link_transport/link1_transport_slave.c:28-62 | a wrong start byte, size or checksum gets a negative acknowledge and ends the transfer with the stream flushed |
| Link1Write.OnlyAckCounts | src/link_transport/link1_transport_master.c:119-136 | the host counts a packet only on an acknowledge with its checksum |
| Link1Write.OtherAckStops | src/link_transport/link1_transport_master.c:119-182 | another checksum is an error, another verdict a refusal |

## Left out

- Register and cache writes, FPU state, debug output and the code that installs the MPU regions: hardware access.
- MpuRegion.CalcRegion: the memory-type policy is one value of bits 16 to 21, since the table of cache settings is a plain lookup.
- StackGuard.TaskTable.SetStackGuard: the write of the words to the live MPU registers is not part of this model.
- Scheduler.Switcher.GetTime: says nothing of FIFO-scheduled tasks and task 0, whose counter is not reloaded or is charged a full quantum (src/cortexm/task.c:364-367 and 426-436).
- Scheduler.Switcher.RunFairly: no task starts, stops or changes its mode or priority during the run, since the bound is about a fixed set of executing tasks; cycles the kernel itself takes between an expiry and a reload are not counted.
- Scheduler.Switcher.NewTask: only what concerns the switcher; memory, identity and priority of the new task are set elsewhere.
- HandlerStack.Cpu.TaskInterrupt: the stacks are disjoint and have room for the frames, which is what the stack guard is for; the state of a supervisor call saved with a context is modelled in the scheduler only.
- HandlerStack.Cpu.RootInterruptCall: the synchronous callback, which is the caller's own code, is not part of this model.
- FifoInterrupt.InterruptedRead: writers go through `fifo_write_buffer`; the drivers that call `fifo_inc_head` themselves pass by the busy flag.
- Fifo.Device.ReadLocal: completion callbacks do not call the device again.
- StreamTx.Stream.Write: the receive half of the stream, flush during streaming and the clobber branch of `ffifo_read_buffer` are not part of this model; events and calls are atomic and events alternate.
- Switchboard.Connection.Create: what happens before the two devices are open is not part of this model (lookup, opening and priority failures, a device used by another connection), nor are negative sizes and non-persistent connections with their byte counts.
- Switchboard.Connection.CleanUp: one connection of the table; the connections share no state but their devices.
- Switchboard.Connection.ReadFromDevice: fill modes other than zero are not modelled, because creating a connection never keeps their flags (src/device/switchboard.c:220-222).
- Switchboard.Connection.HandleDataReady: a completion comes only for an operation in flight, never from inside a driver call, with no more bytes than the request counts, and drivers find the handler through the request; a completion left over from a connection freed and made anew since is not modelled. Error codes are plain negative error numbers without the line number the source adds.
- Link1.WaitPacket: a clock that steps over the timeout value waits on, as in the source; streams stall a finite number of times.
- Link1.SlaveWrite: a write the driver fails puts none of its packet on the wire; without a callback it is the case of `Link1.SegmentsOfBuffer`.
- Link1.DeviceToHost: the device waits for nothing from the host, so the transfer is the device's writes followed by the host's reads; no write of the driver fails.
- Link1Write.EveryTransfer: the two loops are steps of one state machine, on a channel without faults and without timeouts; both ends are called with the same number of bytes. What holds on a faulty channel is `Link1Write.OnlyGoodTaken` and the rows after it.
- The link2 and link3 transports, USB, file systems, the bootloader, sockets, POSIX calls and the other drivers are not part of this model.
