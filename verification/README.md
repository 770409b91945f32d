# A verified model of the MPX kernel core

MPX is a small cooperative i386 kernel. This project models the parts of it that hold state, in the form
the C and assembly code has, and proves what they guarantee. `dafny verify dfyconfig.toml` checks all of
it. Source paths in the comments are relative to `TeamB/mpx-mpx/`.

## Components

**Process queues and dispatcher** (`user/pcb.c`, `kernel/sys_call.c`, the PCB commands of
`user/interface.c`). `Pcbs` has the PCBs, queues and contexts as heap objects. `Kernel`, `Commands` and
`Dispatcher` are the code: loops that walk and rewrite `next` and `front`. `Scheduler` and `Steps` say what
each operation means on sequences, and the methods of the class `Machine` are proved to be in step with
them (`Linked`, `Valid`). Everything else is proved of that meaning: `CommandLaws` (what each command and system
call changes, written out for the four combinations of the two states), `Laws` (stable insertion, exact
removal, suspend and resume, when a command faults), `Runs` (the invariant, the live set, the contexts and
the liveness of the idle process over all runs), `Order` (what order the queues are in after any run) and
`Waiting` (the exact turn in which a ready process is dispatched). `Execution` brings the two levels
together: step by step the heap stays in the state that the run has reached, from `kmain` on. `Sessions` has
two sessions at the terminal that go wrong and one that shuts the system down.

**Context switch** (`kernel/sys_call_isr.s`, `load_pcb`). `ContextSwitch` is the push and pop sequence on
registers and byte-addressed memory. `Stacks` joins it to the queues: over whole runs the frames that
processes leave on their stacks stay intact until each is dispatched again.

**Virtual memory** (`kernel/core-c.c:239-465`). `Frames` is the frame bitmap, `VirtualMemory` the page
tables, the two-mode allocator and `vm_init`. `MemoryMap` has the plan that `vm_init` is proved to carry
out, and `Allocations` proves what that plan and the allocator guarantee. `Capacity` derives the requests of
a run from its events, and with them how many processes fit and that no two share memory.

**Serial line editor** (`kernel/serial.c`). `Terminals` is one row of a terminal that understands CUB and
CUF (sections 8.3.18 and 8.3.20 of ECMA-48), `LineEditor` the editor on two lists, and `Serial` the code,
which shifts the buffer in place and sends the echo.

**Tokeniser and numbers** (`lib/string.c`, `lib/stdlib.c`). `Tokens` is `strtok` with its static cursor,
on buffers cut in place; `Splitting` says what tokens are; `Numbers` is `atoi`; `PriorityCommand` puts them
together with `pcb_set_priority`.

## Results worth knowing

- `pcb_insert` dereferences a null front exactly when the process goes to a blocked or suspended-blocked
  queue that has been allocated and has nobody else in it (`Laws.CommandFaultsIff`). Loading a process after
  booting, blocking, unblocking and blocking it again does that (`Sessions.BlockTwiceFaults`).
- While every process only yields, the process at index k of the ready queue is dispatched in turn k + 1 if
  nobody more urgent is running or ready; in turn 2k + 1 or 2k if exactly one process is, running or
  ready; and never if two are (`Waiting.ExactWait`). The yielding process is put back only after the next
  one has been chosen, so two urgent processes starve everybody else.
- After suspend, resume finds the same process exactly when no other process of that name is ready, blocked,
  or suspended in front of its place (`Laws.FoundAgainIff`). With two processes of one name and priority it
  files the second again and leaves the first suspended (`Sessions.ResumeMissesTwin`).
- A process that is dispatched has the registers, the stack pointer and the stack it had at its own last
  IDLE, but 0 in eax, as long as no process writes into the stack of another (`Stacks.SystemCall`).
- A call that finds no process hands back the context of the first IDLE of the run, whoever calls
  (`Runs.FirstIsHandedBack`). If that is an IDLE of a running process, `insert_flag` stays set
  (`CommandLaws.HandBackLaw`).
- The mapping loop of `vm_init` moves its own bound; it maps exactly `LowPages(e)` pages, and `vm_init`
  panics exactly when the image ends above page 16315 (`MemoryMap.EnoughFramesIff`).
- A page that got frame 0 counts as a page without a frame, so a second `new_frame` takes another one
  (`MemoryMap.NewFrameTwice`).
- Nothing is ever freed, so whatever is deleted or exits, memory lasts for exactly 62 loads
  (`Capacity.RunCapacity`).
- The heap check looks at the wrapped heap pointer, so a request that wraps it is granted
  (`Allocations.WrapIsGranted`).

## Where the code and its comments differ

The model follows the code.

- `set_pcb_priority_command` says that too many attributes are refused (`user/interface.c:739`). They are
  not: a third word is cut off and ignored.
- `pcb_free` says that it frees memory (`user/pcb.c:20-38`), but no free function is installed, so it
  changes nothing, also where the dispatcher frees the process it is about to run (`kernel/sys_call.c:50`).
- `unblock_pcb_command` says that it sets BLOCKED (`user/interface.c:707`); it sets READY.
- `suspend_pcb_command` reports an empty name but goes on with it (`user/interface.c:516-522`).
- Names of 8 characters are accepted, but the name field holds 7 and a NUL. `load` copies a name of any
  length, and the fields it assigns next cut the copy off, so a user process keeps its name up to 8
  characters and a system process up to 7 (`Commands.StoredNameIff` is exact).
- Once the heap is in use `kmalloc` takes no notice of `page_align`, so a page table that `get_page` made then
  would lie where the heap pointer is.
- `serial.h` promises a negative number on failure; `serial_poll` never returns one.

## Model

| member | source | states |
|---|---|---|
| `CStrings.StrCmp` | TeamB/mpx-mpx/lib/string.c:5-19 | zero exactly on equal strings, negative exactly when the first is smaller in lexicographic order |
| `CStrings.StrLen` | TeamB/mpx-mpx/lib/string.c:21-28 | the number of characters before the first NUL |
| `Pcbs.LinkedIsAcyclic` | TeamB/mpx-mpx/user/pcb.c:175-187 | following `next` from the front of a linked queue never meets a PCB twice and ends |
| `Kernel.Machine.constructor` | TeamB/mpx-mpx/user/pcb.c:7-10 | the kernel starts with no queues and satisfies the invariant |
| `Kernel.Machine.InsertByPriority` | TeamB/mpx-mpx/user/pcb.c:158-191 | the pointer surgery yields the list with the PCB behind every priority number up to its own; all other links stay |
| `Kernel.Machine.InsertLast` | TeamB/mpx-mpx/user/pcb.c:207-217 | the pointer surgery yields the list with the PCB at the end |
| `CStrings.LexLessIff` | TeamB/mpx-mpx/lib/string.c:5-19 | that order compares the bytes, unsigned, where two strings first differ |
| `Kernel.Machine.PcbInsert` | TeamB/mpx-mpx/user/pcb.c:134-300 | refines insertion into the sequence of the queue that the PCB's two states name; NULL changes nothing |
| `Kernel.Machine.PcbRemove` | TeamB/mpx-mpx/user/pcb.c:302-422 | refines removal from the one queue that holds the PCB and clears its link; -1 and no change exactly when none does |
| `Kernel.Machine.PcbFind` | TeamB/mpx-mpx/user/pcb.c:63-131 | the first process of the name: ready ones before blocked ones, then suspended ready and suspended blocked ones, each queue from its front; NULL exactly when no queue has one |
| `Kernel.Machine.PcbSetPriority` | TeamB/mpx-mpx/user/pcb.c:425-460 | result code and new state are those of the specification; the links stay in step |
| `Kernel.SysFreeMem` | TeamB/mpx-mpx/lib/core.c:57-60 | hands the pointer to the free function; without one the answer is -1 |
| `Kernel.PcbFree` | TeamB/mpx-mpx/user/pcb.c:21-38 | -1 exactly for NULL; a free function gets the saved context, inside the PCB's own stack, and then the PCB; without one nothing is touched |
| `Kernel.Machine.Refile` | TeamB/mpx-mpx/user/interface.c:592-604 | remove, change of fields and insert together move the PCB as specified and keep the links in step |
| `Kernel.Machine.SaveContext` | TeamB/mpx-mpx/kernel/sys_call.c:25-26 | only the PCB's execution state and saved context change |
| `Scheduler.FindsNone` | TeamB/mpx-mpx/user/pcb.c:130 | the search finds nothing exactly when no queued PCB has the name |
| `CommandLaws.FindsFirst` | TeamB/mpx-mpx/user/pcb.c:63-131 | it finds a queued PCB exactly when every other one of the name is in a later queue (ready, blocked, suspended ready, suspended blocked) or behind it in its own |
| `CommandLaws.FourQueues` | TeamB/mpx-mpx/user/pcb.c:143-274 | which of the four queues a waiting process is in, from its two states |
| `Scheduler.QueuedInsert` | TeamB/mpx-mpx/user/pcb.c:134-300 | insertion keeps every queue in order and every live PCB in its place |
| `Scheduler.QueuedRemove` | TeamB/mpx-mpx/user/pcb.c:302-422 | so does removal, with the removed PCB in no queue |
| `Steps.SysCallInv` | TeamB/mpx-mpx/kernel/sys_call.c:11-64 | a system call keeps the invariant; it faults exactly on EXIT with no ready process and no saved first context |
| `Steps.DeleteInv` | TeamB/mpx-mpx/user/interface.c:472-511 | deletion keeps the invariant |
| `Steps.SetPriorityInv` | TeamB/mpx-mpx/user/pcb.c:425-460 | a priority change never faults and keeps the invariant |
| `Steps.StepInv` | TeamB/mpx-mpx/user/interface.c:472-818 | every step of the process state machine keeps the invariant |
| `Commands.StoredNameIff` | TeamB/mpx-mpx/user/interface.c:806-807 | a process has the name it was loaded with exactly up to 7 characters, or 8 if it is a user process, or 8 and a byte 1 if it is a system process |
| `Commands.LoadProcess` | TeamB/mpx-mpx/user/interface.c:798-818 | a new PCB with the given fields, and what is left of its name, enters the queues as specified |
| `Commands.DeletePcbCommand` | TeamB/mpx-mpx/user/interface.c:472-511 | refines the deletion step for every name, NULL and empty included |
| `Commands.SuspendPcbCommand` | TeamB/mpx-mpx/user/interface.c:513-559 | refines the suspend step, which `CommandLaws.SuspendLaw` writes out |
| `Commands.ResumePcbCommand` | TeamB/mpx-mpx/user/interface.c:561-608 | refines the resume step |
| `Commands.BlockPcbCommand` | TeamB/mpx-mpx/user/interface.c:610-666 | refines the block step |
| `Commands.UnblockPcbCommand` | TeamB/mpx-mpx/user/interface.c:668-715 | refines the unblock step |
| `Commands.Perform` | TeamB/mpx-mpx/user/interface.c:472-774 | any command on a valid heap leaves a valid heap in the specified state |
| `Commands.Start` | TeamB/mpx-mpx/user/interface.c:798-818 | so does load, which brings one new READY, NOT_SUSPENDED process |
| `Dispatcher.EnterIdle` | TeamB/mpx-mpx/kernel/sys_call.c:14-29 | the caller's context is saved in the running PCB and, the first time, as the initial one |
| `Dispatcher.EnterExit` | TeamB/mpx-mpx/kernel/sys_call.c:31-40 | the running process leaves the system |
| `Dispatcher.Switch` | TeamB/mpx-mpx/kernel/sys_call.c:46-60 | the front of the ready queue becomes the running process before the yielding one is put back; without one the first context is handed back |
| `Dispatcher.SystemCall` | TeamB/mpx-mpx/kernel/sys_call.c:11-64 | on a valid heap: new state and resumed context as specified, eax 0 or 0xFFFFFFFF, no other context written |
| `CommandLaws.LoadLaw` | TeamB/mpx-mpx/user/interface.c:798-818 | load never faults; the process goes to its stable place in the ready queue and nothing else changes |
| `CommandLaws.DeleteLaw` | TeamB/mpx-mpx/user/interface.c:472-511 | a user process of the name is gone from the system and its queue; no name, no match or a system process changes nothing |
| `CommandLaws.SuspendLaw` | TeamB/mpx-mpx/user/interface.c:513-559 | a user process that is not suspended goes to suspended-blocked if it was BLOCKED, to suspended-ready otherwise, and only that state changes; anything else is refused; when it faults |
| `CommandLaws.ResumeLaw` | TeamB/mpx-mpx/user/interface.c:561-608 | the same for resume, for names of at most 8 characters: blocked if it was BLOCKED, else ready |
| `CommandLaws.BlockLaw` | TeamB/mpx-mpx/user/interface.c:610-666 | the same for block: suspended-blocked if it was suspended, else blocked; a system process is refused |
| `CommandLaws.UnblockLaw` | TeamB/mpx-mpx/user/interface.c:668-715 | the same for unblock: suspended-ready if it was suspended, else ready |
| `CommandLaws.PriorityLaw` | TeamB/mpx-mpx/user/pcb.c:425-460 | the codes -1, -2 and 0 with their conditions, and what changes in each case |
| `CommandLaws.IdleLaw` | TeamB/mpx-mpx/kernel/sys_call.c:14-55 | IDLE with a ready process: who runs and on which context, where the caller goes, and that nothing else changes |
| `CommandLaws.ExitLaw` | TeamB/mpx-mpx/kernel/sys_call.c:31-55 | EXIT with a ready process: who runs and on which context, and that only the caller is gone |
| `CommandLaws.HandBackLaw` | TeamB/mpx-mpx/kernel/sys_call.c:57-60 | either with no ready process: the first context is handed back and no longer held; what else changes |
| `CommandLaws.UnsupportedLaw` | TeamB/mpx-mpx/kernel/sys_call.c:41-44 | any other operation changes nothing and returns to its caller |
| `Laws.InsertIsStable` | TeamB/mpx-mpx/user/pcb.c:146-193 | insertion is stable by priority in the ready queues, at the end in the blocked ones, and changes no other queue |
| `Laws.StableIsUnique` | TeamB/mpx-mpx/user/pcb.c:158-191 | stable insertion has only one result |
| `Laws.RemoveIsExact` | TeamB/mpx-mpx/user/pcb.c:302-422 | putting the removed PCB back where it stood restores its queue; the other queues are untouched |
| `Laws.CommandFaultsIff` | TeamB/mpx-mpx/user/pcb.c:207-210 | a command dereferences a null front exactly when its PCB goes to an allocated blocked queue with nobody else in it |
| `Laws.MoveFaultsIff` | TeamB/mpx-mpx/user/pcb.c:286-289 | the same for any move of a queued PCB |
| `Laws.BlockAgainFaults` | TeamB/mpx-mpx/user/interface.c:610-715 | block, unblock and block of the only process faults |
| `Sessions.BlockTwiceFaults` | TeamB/mpx-mpx/user/interface.c:610-715 | after booting, a load and block, unblock, block of that process is a run whose last step faults |
| `Laws.MoveIsStable` | TeamB/mpx-mpx/user/interface.c:591-604 | a moved PCB stands at the stable place of its new queue and everybody else keeps his place |
| `Laws.SetPriorityLaw` | TeamB/mpx-mpx/user/pcb.c:425-460 | an error changes nothing; a READY process goes behind its equals of the new priority in the same queue; a BLOCKED one keeps its place |
| `Laws.SuspendResume` | TeamB/mpx-mpx/user/interface.c:513-608 | suspend and resume of the same ready process restore its fields, send it behind its equals and move nobody else |
| `Laws.FoundAgainIff` | TeamB/mpx-mpx/user/interface.c:522-580 | after suspend, resume finds the same process exactly when nobody shadows it |
| `Sessions.ShutDown` | TeamB/mpx-mpx/kernel/kmain.c:96-98 | after booting, EXIT of the command handler and IDLE of the idle process give kmain its own context back |
| `Sessions.ResumeMissesTwin` | TeamB/mpx-mpx/user/interface.c:513-608 | after booting, two loads of one name and priority, suspend and resume leave the first SUSPENDED and file the second again |
| `Runs.RunInvariant` | TeamB/mpx-mpx/kernel/sys_call.c:11-64 | in every reachable state the invariant holds, the live processes are those loaded and neither deleted nor exited, and the insert flag is clear between calls |
| `Runs.EveryProcessInItsPlace` | TeamB/mpx-mpx/user/pcb.c:134-422 | in every reachable state no queue repeats a process, and every live process either runs and is in no queue or is in exactly the queue its two states name |
| `Runs.SavedContexts` | TeamB/mpx-mpx/kernel/sys_call.c:24-28 | in every reachable state each process has saved the context of its own last IDLE, or the one built at load |
| `Runs.ContextFidelity` | TeamB/mpx-mpx/kernel/sys_call.c:46-63 | a dispatched process resumes exactly that context |
| `Runs.DispatcherNeverFaults` | TeamB/mpx-mpx/kernel/sys_call.c:57-61 | no system call of a run dereferences a null context |
| `Runs.FirstIsHandedBack` | TeamB/mpx-mpx/kernel/sys_call.c:15-17 | a call that finds no process never faults and answers with the context of the first IDLE of the run |
| `Runs.HandBackKeeps` | TeamB/mpx-mpx/kernel/sys_call.c:57-60 | what a call that finds no process leaves behind: the flag stays set exactly when a running process yielded |
| `Runs.StepFollows` | TeamB/mpx-mpx/user/interface.c:472-818 | what a step may do to the live set and to each process: classes never change and system processes stay READY and NOT_SUSPENDED |
| `Runs.SystemProcessesStayReady` | TeamB/mpx-mpx/user/interface.c:486-491 | in every reachable state every system process is READY and NOT_SUSPENDED |
| `Runs.PermanentStays` | TeamB/mpx-mpx/user/interface.c:641-647 | a system process that never exits stays live |
| `Runs.IdleProcessKeepsTheSystemAlive` | TeamB/mpx-mpx/kernel/kmain.c:96-98 | with the idle process loaded, IDLE or EXIT by any other process dispatches the ready front and never hands the first context back |
| `Order.RunAgrees` | TeamB/mpx-mpx/user/pcb.c:134-300 | arrival order is the order of the steps that last queued each process |
| `Order.QueuesInOrder` | TeamB/mpx-mpx/user/pcb.c:146-218 | in every reachable state the ready queues are ordered by priority and then by the step that queued the process, the blocked ones by that step |
| `Waiting.IdleIsTurn` | TeamB/mpx-mpx/kernel/sys_call.c:46-55 | an IDLE rotates the running process and the ready queue as one turn does |
| `Waiting.ServedAfterWait` | TeamB/mpx-mpx/kernel/sys_call.c:46-55 | a process with a wait of w turns runs after w turns and not before |
| `Waiting.NeverServed` | TeamB/mpx-mpx/kernel/sys_call.c:46-55 | a process with two more urgent rivals never runs |
| `Waiting.WaitCountsRivals` | TeamB/mpx-mpx/user/pcb.c:167-191 | the wait depends only on the index and on how many running or ready processes are more urgent |
| `Waiting.ExactWait` | TeamB/mpx-mpx/kernel/sys_call.c:24-55 | the exact turn in which a ready process is dispatched while everybody only yields: k + 1, 2k + 1, 2k or never |
| `Execution.RunLoad` | TeamB/mpx-mpx/user/interface.c:798-818 | load on the heap is the load event of the run |
| `Execution.RunCommand` | TeamB/mpx-mpx/user/interface.c:472-774 | a command that does not fault is its event of the run |
| `Execution.RunSystemCall` | TeamB/mpx-mpx/kernel/sys_call.c:11-64 | a system call of a run never faults, is its event, and answers with the context that the dispatched process saved last, or with that of the first IDLE when nobody is ready; an unsupported operation changes nothing but eax |
| `Execution.MirroredLists` | TeamB/mpx-mpx/user/pcb.c:134-422 | wherever a run has led, the links from the four fronts spell the four queues and end, no process is in two of them or twice in one, and the running process is in none with a null link |
| `Execution.KMain` | TeamB/mpx-mpx/kernel/kmain.c:96-98 | booting dispatches the command handler on the context built for it, with the idle process ready and kmain's context kept |
| `ContextSwitch.LoadStore` | TeamB/mpx-mpx/kernel/sys_call_isr.s:6-19 | a stored word is read back and no word beside it changes |
| `ContextSwitch.LittleEndian` | TeamB/mpx-mpx/kernel/sys_call_isr.s:6-19 | the lowest byte of a word is at the lowest address |
| `ContextSwitch.SavedFields` | TeamB/mpx-mpx/include/mpx/sys_call.h:6-30 | the offset of each saved register in struct context |
| `ContextSwitch.Cpu.Save` | TeamB/mpx-mpx/kernel/sys_call_isr.s:6-19 | the pushes leave exactly struct context behind, and its address as the argument |
| `ContextSwitch.Cpu.Restore` | TeamB/mpx-mpx/kernel/sys_call_isr.s:21-35 | the pops load the registers from a context and free all of it |
| `ContextSwitch.RestoreInvertsSave` | TeamB/mpx-mpx/include/mpx/sys_call.h:6-30 | popping a saved frame brings back every register but eax |
| `ContextSwitch.ServeAndReturn` | TeamB/mpx-mpx/kernel/sys_call_isr.s:5-35 | a call that returns the same context restores all registers but eax and the stack depth, whatever the C code did outside the frame |
| `ContextSwitch.Refuse` | TeamB/mpx-mpx/kernel/sys_call.c:41-43 | after an unsupported operation the caller has all registers but eax, which is -1, its stack depth and its stack |
| `ContextSwitch.ComeBack` | TeamB/mpx-mpx/kernel/sys_call_isr.s:21-35 | the pops bring the saved registers back if the frame still holds what was pushed, but for eax |
| `ContextSwitch.LoadPcb` | TeamB/mpx-mpx/user/pcb.c:479-502 | the first frame has all sixteen fields set, lies inside the PCB's own stack, and nothing outside it is written |
| `ContextSwitch.StartProcess` | TeamB/mpx-mpx/user/interface.c:812-814 | popping that frame enters proc with all fifteen registers as load_pcb sets them and esp two bytes below the end of the stack |
| `Stacks.FramesSurvive` | TeamB/mpx-mpx/kernel/sys_call_isr.s:5-35 | after every run the frame of each process that does not run leads back to the registers, stack pointer and stack of its own last IDLE, or of its load, whatever loads, commands and system calls came since |
| `Stacks.SystemCall` | TeamB/mpx-mpx/kernel/sys_call_isr.s:5-35 | pushes, C code and pops in a run: the process dispatched goes on at the point where it was left, with 0 in eax; after an unsupported operation the caller goes on, with -1 |
| `Frames.FullWord` | TeamB/mpx-mpx/kernel/core-c.c:387 | a word is 0xFFFFFFFF exactly when its 32 bits are set |
| `Frames.FindFree` | TeamB/mpx-mpx/kernel/core-c.c:383-394 | the least frame whose bit is clear, 0xFFFFFFFF exactly when all are set |
| `Frames.FirstFreeIsUnique` | TeamB/mpx-mpx/kernel/core-c.c:383-394 | there is one such answer |
| `Frames.SetBit` | TeamB/mpx-mpx/kernel/core-c.c:397-403 | the bitmap with the frame of that address taken |
| `Frames.TakeOne` | TeamB/mpx-mpx/kernel/core-c.c:397-403 | that bit is set and no other changes |
| `Frames.HandedOutOnce` | TeamB/mpx-mpx/kernel/core-c.c:409-426 | a run of new_frame on fresh pages hands out free frames, none twice, in increasing order |
| `Frames.HandedOutFromBelow` | TeamB/mpx-mpx/kernel/core-c.c:383-426 | and skips no free frame |
| `Frames.HandsOutIff` | TeamB/mpx-mpx/kernel/core-c.c:416-418 | k such calls succeed exactly when k frames are free |
| `MemoryMap.NewFrameTwice` | TeamB/mpx-mpx/kernel/core-c.c:409-426 | a second new_frame on the same page changes nothing exactly when the page had a frame or frame 0 was taken before |
| `MemoryMap.NextTaken` | TeamB/mpx-mpx/kernel/core-c.c:415-422 | with frames 0 to c - 1 taken, frame c is found and taken next |
| `MemoryMap.GoesOnIff` | TeamB/mpx-mpx/kernel/core-c.c:442-444 | the moving bound of the mapping loop is passed after exactly LowPages pages |
| `MemoryMap.EnoughFramesIff` | TeamB/mpx-mpx/kernel/core-c.c:442-450 | there are frames for all pages exactly when the image ends at or below page 16315 |
| `MemoryMap.TableNeeded` | TeamB/mpx-mpx/kernel/core-c.c:337-351 | a low page needs a new table exactly when its number is a multiple of 1024, and that is the next table |
| `VirtualMemory.Memory.Alloc` | TeamB/mpx-mpx/kernel/core-c.c:315-327 | the old heap pointer is returned and the new one wraps at 32 bits; panics exactly when that is above the heap |
| `VirtualMemory.Memory.GetPage` | TeamB/mpx-mpx/kernel/core-c.c:332-352 | table and index of the entry; a missing table is made of what kmalloc gives before and after the heap is in use, and recorded in both arrays, or reported; false exactly when kmalloc panics or faults |
| `VirtualMemory.Memory.Kmalloc` | TeamB/mpx-mpx/kernel/core-c.c:354-381 | where the block is and what physical address is reported, in both modes; in the heap it starts at the old heap pointer |
| `VirtualMemory.Memory.NewFrame` | TeamB/mpx-mpx/kernel/core-c.c:409-426 | fails exactly when the page has no frame and none is free; else the first free frame goes to that page and no other, which becomes present, writeable and closed to user mode |
| `VirtualMemory.Memory.MakeHeapTable` | TeamB/mpx-mpx/kernel/core-c.c:437-439 | 65536 calls of get_page make exactly one table |
| `VirtualMemory.Memory.MapLow` | TeamB/mpx-mpx/kernel/core-c.c:442-444 | the loop ends, with exactly LowPages pages mapped in order, or panics exactly when there are too few frames |
| `VirtualMemory.Memory.MapHeap` | TeamB/mpx-mpx/kernel/core-c.c:448-450 | the heap pages get the next sixteen frames |
| `VirtualMemory.Memory.VmInit` | TeamB/mpx-mpx/kernel/core-c.c:428-465 | succeeds exactly when the image ends at or below page 16315, and then directory, tables, every entry, bitmap and allocation pointer are as planned |
| `VirtualMemory.Memory.BuiltEntry` | TeamB/mpx-mpx/kernel/core-c.c:332-352 | the tables built answer every page as planned, field by field |
| `VirtualMemory.Memory.ReportsTranslation` | TeamB/mpx-mpx/kernel/core-c.c:359-367 | for a heap block kmalloc reports the address the page tables translate it to, N * 0x1000 + (addr - KHEAP_BASE) |
| `VirtualMemory.Memory.ServeHeap` | TeamB/mpx-mpx/kernel/core-c.c:315-327 | calls of kmalloc in a row return the heap pointers of the run of requests and panic exactly at the first that moves the pointer above the heap |
| `VirtualMemory.Memory.ServeEarly` | TeamB/mpx-mpx/kernel/core-c.c:370-378 | before there is a heap they return the early blocks, and report the same as physical addresses |
| `Allocations.NextBoundary` | TeamB/mpx-mpx/kernel/core-c.c:370-374 | an aligned early block lies at the first page boundary above the pointer, from page 1 on |
| `Allocations.EntryFields` | TeamB/mpx-mpx/kernel/core-c.c:422-425 | every field of every page entry after vm_init: mapped pages are present, writeable and not for user mode |
| `Allocations.TranslationIs` | TeamB/mpx-mpx/kernel/core-c.c:441-453 | low pages map to themselves, heap pages to the frames behind them, page 0 and everything else to nothing |
| `Allocations.TranslationIsInjective` | TeamB/mpx-mpx/kernel/core-c.c:441-453 | no two addresses share a physical address |
| `Allocations.MapCoversItself` | TeamB/mpx-mpx/kernel/core-c.c:428-444 | image, directory and tables follow each other without overlap and end 64 KB below the end of the mapped pages |
| `Allocations.KernelKeepsItsAddresses` | TeamB/mpx-mpx/kernel/core-c.c:441-444 | after vm_init image, directory and tables are reached at their old addresses |
| `Allocations.ReportedAddress` | TeamB/mpx-mpx/kernel/core-c.c:359-367 | linear in the heap; an empty block at its very end is reported at 0 |
| `Allocations.HeapRegions` | TeamB/mpx-mpx/kernel/core-c.c:315-327 | a run of requests gets regions inside the heap exactly when their sizes add up to at most 64 KB, and then no two overlap |
| `Allocations.WrapIsGranted` | TeamB/mpx-mpx/kernel/core-c.c:320-324 | a request that wraps the pointer is granted, and a later region can repeat an earlier one |
| `Allocations.EarlyRegions` | TeamB/mpx-mpx/kernel/core-c.c:370-378 | blocks given out before vm_init come in order behind the image and never overlap, unless an address wraps |
| `Allocations.AlignedIff` | TeamB/mpx-mpx/kernel/core-c.c:370-374 | a page-aligned request is aligned exactly when the pointer is 0 or at least one page up |
| `Allocations.LoadCapacity` | TeamB/mpx-mpx/user/pcb.c:13-18 | requests for PCBs and at most four queues are all granted exactly when at most 62 are for PCBs |
| `Capacity.OneQueueAtMost` | TeamB/mpx-mpx/user/pcb.c:148-153 | a step allocates at most one queue and gives none up |
| `Capacity.RunCapacity` | TeamB/mpx-mpx/user/pcb.c:13-18 | whatever is deleted or exits, all requests of a run are granted exactly when it loads at most 62 processes |
| `Capacity.ServeRun` | TeamB/mpx-mpx/lib/core.c:51-54 | kmalloc serves all requests of a run exactly when it loads at most 62 processes, and each process is at an address kmalloc returned for a PCB |
| `Capacity.ProcessesApart` | TeamB/mpx-mpx/kernel/core-c.c:315-327 | as long as memory lasts, every process ever loaded has a block of the heap of its own |
| `Allocations.EarlyAndHeapApart` | TeamB/mpx-mpx/kernel/core-c.c:354-381 | memory given out before vm_init and heap memory never meet, in addresses or in frames |
| `Terminals.FeedText` | TeamB/mpx-mpx/kernel/serial.c:68-72 | printable text fills consecutive cells from the active column and no others |
| `Terminals.FeedLefts` | TeamB/mpx-mpx/kernel/serial.c:75-79 | the left sequences move the active column and change no cell |
| `LineEditor.EditsAtCursor` | TeamB/mpx-mpx/kernel/serial.c:97-188 | each key as an edit of the text at the cursor position |
| `LineEditor.EchoBytes` | TeamB/mpx-mpx/kernel/serial.c:97-187 | exactly the bytes sent for each key, in terms of text and cursor |
| `LineEditor.BackspaceUndoesChar` | TeamB/mpx-mpx/kernel/serial.c:134-186 | backspace undoes a typed character anywhere in the line |
| `LineEditor.RightUndoesLeftIff` | TeamB/mpx-mpx/kernel/serial.c:106-119 | exactly when the cursor is not stuck at the start |
| `LineEditor.LeftUndoesRightIff` | TeamB/mpx-mpx/kernel/serial.c:106-119 | exactly when the cursor is not stuck at the end |
| `LineEditor.BackspaceIsLeftDeleteIff` | TeamB/mpx-mpx/kernel/serial.c:134-168 | backspace is left and delete, unless the cursor is at the start of a non-empty text |
| `LineEditor.EchoKeepsScreen` | TeamB/mpx-mpx/kernel/serial.c:106-187 | the echo of a key turns the picture of the line into the picture of the edited line |
| `LineEditor.ScreenFollowsLine` | TeamB/mpx-mpx/kernel/serial.c:86-193 | over any sequence of keys the row shows prompt, text and blanks, with the column at the cursor |
| `LineEditor.DecodeIff` | TeamB/mpx-mpx/kernel/serial.c:93-187 | which bytes mean which key, in both directions, and when more input is needed; every other byte or sequence behind ESC is ignored |
| `LineEditor.PollReads` | TeamB/mpx-mpx/kernel/serial.c:86-193 | on any input the session is the only one that reads it key by key like that, up to Return, line feed, a full buffer or the end of the input |
| `LineEditor.DecodeEncode` | TeamB/mpx-mpx/kernel/serial.c:93-127 | decoding reads back one encoded key and leaves the rest |
| `LineEditor.Typing` | TeamB/mpx-mpx/kernel/serial.c:86-193 | while there is room, the editor acts on exactly the keys typed, up to the one that ends the line |
| `LineEditor.Poll` | TeamB/mpx-mpx/kernel/serial.c:86-193 | the text never exceeds the room, and the session ends for lack of room exactly when it is full |
| `Serial.RedrawFromPosition` | TeamB/mpx-mpx/kernel/serial.c:68-72 | sends exactly that part of the buffer |
| `Serial.MoveCursorLeft` | TeamB/mpx-mpx/kernel/serial.c:75-79 | sends that many left sequences |
| `Serial.HandleBackspace` | TeamB/mpx-mpx/kernel/serial.c:134-155 | buffer, counters and echo follow the two-list editor |
| `Serial.HandleDelete` | TeamB/mpx-mpx/kernel/serial.c:157-168 | the same for delete |
| `Serial.HandleChar` | TeamB/mpx-mpx/kernel/serial.c:173-187 | the same for a printable character |
| `Serial.HandleEscape` | TeamB/mpx-mpx/kernel/serial.c:93-125 | the same for the arrow keys; other sequences change nothing |
| `Serial.PollKey` | TeamB/mpx-mpx/kernel/serial.c:86-193 | one round of the loop acts on exactly the key that the bytes read mean |
| `Serial.SerialPoll` | TeamB/mpx-mpx/kernel/serial.c:81-197 | buffer, return value, bytes read and bytes sent are those of the two-list editor folded over the keys that the input spells, all accesses in bounds |
| `Serial.PolledBytes` | TeamB/mpx-mpx/kernel/serial.c:128-187 | the text is bytes 0x20 to 0x7D, but for a line feed at the end, which is there exactly when Return ended the line |
| `Serial.PolledString` | TeamB/mpx-mpx/kernel/serial.c:195-196 | the buffer holds the text as a C string, so strlen of it is the return value |
| `Serial.PolledScreen` | TeamB/mpx-mpx/kernel/serial.c:81-193 | after whatever bytes have arrived the terminal shows the line being edited |
| `Splitting.RunCases` | TeamB/mpx-mpx/lib/string.c:47-72 | a maximal delimiter-free run is the first token or a run of what is left behind it |
| `Splitting.TokensAreRuns` | TeamB/mpx-mpx/lib/string.c:30-77 | the tokens are exactly the maximal delimiter-free runs |
| `Splitting.TokensInOrder` | TeamB/mpx-mpx/lib/string.c:30-77 | in order, with a delimiter between any two |
| `Tokens.FirstPieceIff` | TeamB/mpx-mpx/lib/string.c:47-72 | in bytes: delimiters, then the token up to the next delimiter or the NUL; none exactly when only delimiters are left |
| `Tokens.TokenBytes` | TeamB/mpx-mpx/lib/string.c:30-77 | in bytes: the tokens are exactly the longest stretches without delimiters up to the NUL |
| `Tokens.Tokeniser.SkipDelims` | TeamB/mpx-mpx/lib/string.c:47-55 | the restarting loop ends at the first non-delimiter |
| `Tokens.Tokeniser.EndToken` | TeamB/mpx-mpx/lib/string.c:62-75 | the token ends at the first delimiter, which is the one byte overwritten, or at the end |
| `Tokens.Tokeniser.StrTok` | TeamB/mpx-mpx/lib/string.c:30-77 | one call, with any delimiters: the token, the byte overwritten, what is kept; NULL stays NULL |
| `Tokens.ReturnedString` | TeamB/mpx-mpx/lib/string.c:67-68 | later calls leave the strings returned earlier as they were |
| `Tokens.AllTokens` | TeamB/mpx-mpx/lib/string.c:30-77 | called until NULL, strtok yields all tokens in order, overwrites only the byte behind each, and stays at NULL |
| `Numbers.Characters` | TeamB/mpx-mpx/lib/ctype.c:3-6 | which characters are spaces, digits and signs |
| `Numbers.DecimalPlaces` | TeamB/mpx-mpx/lib/stdlib.c:18-22 | numerals are in base ten |
| `Numbers.ValueOfDecimal` | TeamB/mpx-mpx/lib/stdlib.c:18-22 | reading a decimal numeral gives its number |
| `Numbers.NumeralDenotes` | TeamB/mpx-mpx/lib/stdlib.c:4-29 | spaces, an optional sign and a numeral give the number, whatever follows |
| `Numbers.NoNumeralIsZero` | TeamB/mpx-mpx/lib/stdlib.c:4-29 | without a digit the result is 0 |
| `Numbers.AtoI` | TeamB/mpx-mpx/lib/stdlib.c:4-29 | the loops compute what the string denotes |
| `PriorityCommand.ParseRequest` | TeamB/mpx-mpx/user/interface.c:718-755 | refuses exactly fewer than two words and names over 8 characters; else the first two words |
| `PriorityCommand.RequestIff` | TeamB/mpx-mpx/user/interface.c:727-755 | in bytes: the first two words are the name and the number, refused exactly when there are fewer or the name has more than 8 characters |
| `PriorityCommand.TypedRequest` | TeamB/mpx-mpx/user/interface.c:727-755 | a name, blanks and a numeral ask for that name and number, whatever words follow |
| `PriorityCommand.SetPcbPriorityCommand` | TeamB/mpx-mpx/user/interface.c:718-774 | from the argument string to the queues: the state changes as pcb_set_priority specifies for the words asked for, and not at all otherwise |

## Left out

- GDT, IDT, PIC, interrupt gates, paging registers and the rest of `kernel/core-c.c:1-237`: constants of the hardware.
- `kpanic` does not return: a panicking operation yields a failure result and nothing is said of the state after it.
- Port registers, `serial_init` and the wait for data: an initialised port is a sequence of bytes that arrive and a sequence of bytes sent. When no byte arrives any more, `serial_poll` is left waiting. The two bytes behind ESC are taken to arrive.
- `serial_poll` with a length of 0, for which the code subtracts 1 from 0: a buffer has at least one byte.
- Wrapping at the right margin of the terminal, and anything the device does on a line feed but leave the row.
- Messages, `help`, `version`, the show, date, time and alarm commands, BCD helpers and the `comhand` loop.
- `memcpy`, `memset`, `strcpy` and `isspace` on their own; `pcb_setup`, which repeats part of `load`; replacement of the heap functions, which nothing calls.
- Memory taken for PCBs, tables and the directory is zero where the code does not write it, as physical memory behind `__end` is at start-up; a new PCB's link is null.
- `Commands.LoadProcess`: names of at most 1051 characters, since a longer copy reaches the link of the PCB or the memory behind it; what a long name leaves in the stack below the first frame; a failed allocation does not return NULL but panics.
- `Commands.Start`: names of at most 1051 characters, as for `Commands.LoadProcess`.
- `Execution.RunLoad`: names of at most 1051 characters, as for `Commands.LoadProcess`.
- `Commands.SuspendPcbCommand`: a non-NULL name, since the code hands NULL on to `strcmp`.
- `Kernel.Machine.PcbInsert`: the null front of an empty blocked queue is a precondition here and the None of the specification; `Laws.CommandFaultsIff` says exactly when it occurs.
- `Runs.RunInvariant`: memory does not run out in a run, which `Capacity.RunCapacity` says when it does; a run ends when the first context is handed back; EXIT is issued by a process, as `kmain` issues IDLE only; `load` gets memory that no PCB has had, as nothing is freed.
- `VirtualMemory.Memory.VmInit`: images that end in the first page or the last 256 KB of the address space, where the 32-bit sums would wrap; the linker script puts the image at 1 MB.
- `VirtualMemory.PageTable` and `VirtualMemory.PageDir` hold their arrays, which the C structs embed, as sequences that are reassigned.
- `Numbers.AtoI`: numbers that do not fit an int, which C leaves undefined.
- `Tokens.AllTokens`: strtok on one string at a time; strings that share a buffer with the delimiters are not modelled.
- `ContextSwitch.Cpu.Save`: no wrap of addresses around 4 GB and no privilege change; the C code between pushes and pops may change anything outside the frame.
- `Stacks.FramesSurvive` and `Stacks.SystemCall`: the code of a process writes to no stack but its own and does not overrun it, `kmain` runs on a stack below the heap, and `sys_call` uses of the caller's stack only what lies below the frame. That no two stacks overlap is proved. The queue model keeps of a context its identity and eax; where it lies is a parameter.
- Asynchronous interrupts: the kernel is cooperative.
