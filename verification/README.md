# A verified model of the MMix kernel and its userland

MMix is a small single-CPU kernel with a Unix-like userland.  Control changes hands only
where the kernel calls `sched_yield`, so the kernel is a transition system whose steps are
the stretches of code between two yields.  The `syscall` instruction masks interrupts, so the
stretch from a system call's entry is atomic.  A switch does not save the interrupt flag, and
the idle task yields with interrupts on, so a call that goes on inside the kernel can meet a
Ctrl+C, and its steps say where.
This project models that system, the memory stack below it and seven self-contained
algorithms, and proves what holds over every run and for every input.

`dafny verify dfyconfig.toml` checks everything.

## How the model is laid out

| part | modules | what is modelled |
|---|---|---|
| processes, pipes, scheduler | `Pipes`, `KernelState`, `Kernel` | the step functions of a run and, on a class `Machine`, the loops of syscall.c, pipe.c, sched.c and kbd.c, each proved equal to its step function |
| invariants and whole runs | `KernelInv`, `KernelSteps`, `KernelLife`, `KernelInterrupt`, `KernelShare`, `KernelFork`, `KernelBlock`, `KernelSignal`, `KernelSched`, `KernelRuns`, `KernelMissed`, `KernelTheorems`, `KernelWitness` | one invariant that every step keeps, and what follows from it for every reachable state; two concrete runs |
| what the calls mean | `KernelCalls`, `KernelFates`, `KernelHistory`, `KernelEnds` | the answer and the effect of every modelled call without its step function; what one task can do to another; why a task has the status it has |
| frames | `Pmm`, `PmmRuns` | the bitmap allocator, and any history of allocations |
| page tables | `PageTables`, `Pmap`, `PmapNeed`, `PmapFork`, `PmapForkRun`, `PmapForkLoops`, `PmapWindow`, `PmapDestroy`, `PmapRights`, `PmapTheorems` | 4-level tables stored in frames of that allocator, refined to a flat map from pages to frames, and the rights their entries give |
| exec stack | `UserMemory`, `UserStack` | bytes written through the page tables and read back |
| kernel heap | `HeapBlocks`, `HeapEdits`, `HeapSpec`, `KHeap`, `KHeapRuns` | block headers encoded in the managed memory itself |
| calc | `CalcSpec`, `Calc`, `CalcTrees`, `CalcTheorems`, `CalcLaws` | the recursive-descent evaluator and the arithmetic of its operators |
| SHA-256, Base64 | `Sha256Spec`, `Sha256Constants`, `Sha256`, `Base64`, `Base64Theorems` | against FIPS 180-4 and RFC 4648 |
| drawing | `Gfx` | rectangles, lines, discs, the integer square root |
| ext2, Internet checksum | `Ext2`, `Checksum`, `Ping` | indirect-block reads; RFC 1071 and echo frames |
| shared | `Bytes`, `ByteOrder`, `Arithmetic`, `Options` | |

In `KernelState` a step takes the machine from one possible yield to the next: a system
call from its entry, a parked call from the top of its loop (`Continue`), an interrupt, or
a preemption.  `Exec` runs any list of such steps.  What the C code gets from outside (the
address `kmalloc` returns for a pipe, whether memory for a fork was found, which signal
arrives, after which test of a pipe loop a Ctrl+C comes) is an argument of the step.  Each
pipe carries, as history, every byte it ever accepted and delivered, and the number of its
allocation, so that a freed pipe can be told from a later one at the same address.  Each task
carries whether a Ctrl+C came between its last test in a pipe loop and its going to sleep.

## What the code does not do

Some promises turned out false of the code.  Each has a lemma that shows it on a concrete
or general input and a statement of exactly when the code does keep it.

- `pmap_map` gives up silently when a table cannot be allocated (`PmapMap` states exactly
  when), so `pmap_fork` can return a non-zero child that misses its last page.  With L the
  parent's last page, this happens exactly from `2 + Cost(pages before L)` free frames up to
  `Cost(all pages)`, and only L is missing (`Fork`); a parent with a single page and two to four
  free frames is in that window (`SinglePage`, `LosesItsOnlyPage`, `ForkSmall`).  A fork without
  enough frames gives nothing back, so it leaves no free frame at all.  `map_zeroed_range` loses
  its last page in the same way, in an exact window of its own (`MapZeroedRange`).
- `pmap_fork` maps every copied page writable, whatever it was in the parent, and gives a new table
  of the child the flags of the first page below it.  A page of the child is open to user mode
  exactly when it was marked so in the parent and so were the first pages under each of its tables
  (`ForkRights`); when all pages are user pages the child can use all of them (`ForkOfUser`).
- `kmalloc` of a size whose rounding is 0 or 4080 modulo 4096 and above three pages is
  never served by growth: the 29-byte header does not fit.  The call takes page after page
  and then fails (`MallocSucceeds`, `Unservable`, `SixteenKilobytes`).
- `heap_coalesce` makes one pass: two neighbours stay free and unmerged exactly when three
  free blocks were in a row (`PassComplete`), as after freeing a block between two free ones
  (`FreedBetween`); two kmallocs and two kfrees get there (`LeaveNeighbours`).
- `get_inode_block` does not test `i_block[12]` and `i_block[13]` for zero and then reads
  block 0 as a table of pointers.  The lookup is right exactly when the top table is there or
  block 0 leads nowhere at that index (`LookupRight`); `HoleMisread` is a file on which the
  read returns another block's byte where the file has a hole.
- `read_inode_data` cuts the offset to 32 bits before comparing it with the size: behind the
  end it returns bytes exactly when the cut offset lies inside the file and its block can be
  read (`BeyondTheEnd`), as it does at offset 2^32 of a one-byte file (`PastFourGigabytes`).
  There it can also return more bytes than it was asked for (`MoreThanAsked` says exactly when).
- `build_user_stack` returns a stack pointer that is 8 modulo 16, not the 16-byte alignment
  of section 3.4.1 of the System V AMD64 ABI; crt0.S aligns it (`BuildUserStack`).
- `gfx_fill_rect` clamps its corners: a rectangle beside the screen paints the border
  (`ClampIsClip`, `OffScreen`).  `gfx_fill_circle` draws with such rectangles: it paints the
  disc's part of the screen exactly when the disc's four extreme points, clamped to the screen,
  stay in the disc (`DiscIsClipped`, `CentreOnScreen`, `DiscBeside`).
- A Ctrl+C can be lost.  A read or write that idle has dispatched runs with interrupts on; when
  the interrupt comes after its test for signals, the caller is still RUNNING, so nobody wakes it,
  and it goes to sleep with SIGINT pending (`AsleepWithSignal` is such a run).  A task asleep on a
  pipe has a signal pending exactly when this happened to it (`NoLostWakeups`), and a run in which
  no Ctrl+C falls into that gap never gets there (`NoGapNoLoss`).
- `pipe_write` can report -1 although it accepted bytes, before it slept or in the same stretch.
  It reports -1 exactly when bytes are left and it finds no reader or a pending signal, at its
  first test or, after a Ctrl+C while it filled the ring, at its second (`WriteAccepts`, which also
  says how many bytes were accepted).  `AcceptedYetFailed` is a run in which 256 bytes are
  in the pipe and the write reports -1; `LastReaderGone` shows it for every parked writer whose
  last reader has gone.
- calc divides with the processor's instruction, which faults on -2^63 by -1.  A line has a
  value exactly when no division or modulo in it is by zero or of -2^63 by -1, and otherwise
  the first of these decides between calc's own error and the fault (`StopsAtFirstIncident`,
  `PrintReads`, `LongestQuotient`).
- README.md:22 speaks of reparented orphans; no code does that.  pmap.h speaks of sharing
  pages copy-on-write in fork; the code copies them.  `sys_exit` keeps a zombie's
  descriptors until it is reaped, while a fatal signal releases them at once.  The model
  follows the code.

## Model

| member | source | states |
|---|---|---|
| `KernelTheorems.ReferencesCounted` | kernel/src/sys/syscall.c:65-85 | in every state of every run a pipe's reader and writer counts are the numbers of descriptor slots, zombies' included, that hold that end; a pipe exists exactly while some slot refers to it; no slot and no task inside an operation refers to a freed pipe |
| `KernelTheorems.NoLostWakeups` | kernel/src/fs/pipe.c:22-99 | in every state of every run a live sleeper in a read has an empty pipe with a writer slot left, in a write a full pipe with a reader slot left, and in waitpid no zombie it asked for; a pipe sleeper has a signal pending exactly when a Ctrl+C came between its last test and its park, and then SIGINT alone; the modelled calls have no other way to sleep (the rudo calls, which also block, at syscall.c:773 and syscall.c:821, are not among them) |
| `KernelTheorems.NoGapNoLoss` | kernel/src/drivers/kbd.c:58-71 | a run in which no Ctrl+C for a task falls between a test of a pipe loop and what the test allowed never leaves that task asleep on a pipe with a signal pending |
| `KernelMissed.StepSpares` | kernel/src/fs/pipe.c:65-71 | no other step of the kernel makes a task miss a Ctrl+C |
| `KernelWitness.AsleepWithSignal` | kernel/src/fs/pipe.c:65-71 | a run of four steps from boot after which a live task sleeps in a read with SIGINT pending |
| `KernelTheorems.PipesAreStreams` | kernel/src/fs/pipe.c:50-99 | in every state of every run each pipe is a queue: bytes accepted are bytes delivered followed by the ring's contents, and the two indices differ by the fill level modulo 256 |
| `KernelTheorems.ReadDelivers` | kernel/src/fs/pipe.c:50-73 | what a read returns is what it adds to the delivered bytes, at most as much as asked; it reports end of file exactly on a drained pipe without writers, -1 exactly when it would sleep with a signal pending, and sleeps exactly when there is none, missing a Ctrl+C exactly when one comes after that test |
| `KernelTheorems.WriteAccepts` | kernel/src/fs/pipe.c:75-99 | in one stretch a write accepts the next bytes of its buffer, as many as fit; it succeeds exactly when that is all; it reports -1 exactly when bytes are left and there was no reader or a signal at its first test, or a Ctrl+C came while it filled the ring; otherwise it sleeps on a full ring, with what it will not send again on record |
| `KernelTheorems.LastReaderGone` | kernel/src/fs/pipe.c:75-99 | after any run from a state in which a pipe has no reader, a writer parked in that pipe resumes with -1 and adds nothing, whatever it had sent before |
| `KernelWitness.AcceptedYetFailed` | kernel/src/fs/pipe.c:75-99 | a run of four steps from boot after which a write of 300 bytes has 256 of them in the pipe and reports -1 |
| `KernelTheorems.EndOfFileIsForever` | kernel/src/fs/pipe.c:50-73 | once a pipe is drained and has no writer, no later step of anybody gives it a byte or a writer, and every later read returns 0 |
| `KernelTheorems.ExactlyOneRuns` | kernel/src/proc/sched.c:237-267 | at every boundary of every run the one RUNNING task is the current one and it is not past its exit |
| `KernelTheorems.YieldHandsOver` | kernel/src/proc/sched.c:237-267 | a step that ends in a yield always changes the current task, because idle is runnable |
| `KernelTheorems.FairDispatch` | kernel/src/proc/sched.c:237-267 | a task that stays ready is passed over in at most 62 switches, so it is dispatched within 63 |
| `KernelTheorems.ZombiesStayDead` | kernel/src/sys/syscall.c:155-178 | a zombie that is off the CPU is never dispatched again under any slot while its pid is in the table |
| `KernelTheorems.CountIsCardinality` | kernel/src/sys/syscall.c:366-374 | the recursive count used by the invariant is the size of the set of slots |
| `KernelCalls.ForkMeans` | kernel/src/sys/syscall.c:180-236 | fork answers -1 exactly without memory or a free slot, and then no occupied slot and no pipe has changed; otherwise exactly one free slot becomes a ready child of the caller in user mode, with the caller's descriptors, default handlers and nothing pending; its pid is the answer, positive and in no slot before; every pipe end gains as many slots as the caller holds |
| `KernelCalls.WaitpidMeans` | kernel/src/sys/syscall.c:308-342 | waitpid answers with pid and status of the zombie child asked for in the lowest slot exactly when there is one, with -1 exactly without any child, and sleeps in the remaining case; no other task notices |
| `KernelCalls.ReapedIsGone` | kernel/src/sys/syscall.c:76-85 | the pid it reported is in no slot afterwards, and every other pid is where it was |
| `KernelCalls.ExitMeans` | kernel/src/sys/syscall.c:155-178 | exit leaves a zombie with its argument as status and its descriptors kept, a sleeping parent is ready, nobody else changes |
| `KernelCalls.TerminateMeans` | kernel/src/sys/syscall.c:91-106 | a fatal signal leaves a zombie with the negated number as status and no descriptor |
| `KernelFates.DeliverMeans` | kernel/src/sys/syscall.c:119-153 | delivery drops ignored signals in ascending order up to the first that does something: a fatal one ends its task with that status, a caught one is taken and the call goes on |
| `KernelFates.KillMeans` | kernel/src/sys/syscall.c:597-648 | kill answers -1 exactly for a bad number or an unknown pid; another task has the signal pending, is a zombie with status -SIGKILL if that was sent while it was not running, and is ready if it slept on a pipe, everybody else is at most woken; a signal to oneself is delivered at once and ends the caller exactly when the first effective pending one is fatal |
| `KernelFates.FatalAtEntry` | kernel/src/sys/syscall.c:1152-1170 | a task whose first effective pending signal is fatal gets no answer from its next system call and ends there with that signal as status |
| `KernelEnds.DoomedForever` | kernel/src/sys/syscall.c:119-153 | over any run, whatever the others do, a task with a fatal signal pending at its default action keeps it as long as it is in the table |
| `KernelEnds.DoomedEnds` | kernel/src/sys/syscall.c:119-153 | and any system call it makes gives no answer and leaves a zombie, with the status of a fatal signal that was pending |
| `KernelHistory.OthersFate` | kernel/src/sys/syscall.c:155-659 | what any one step of the running task can do to a task in another slot: wake it, mark a signal, kill it by SIGKILL, reap it with its pid and status reported, or put a child into a free slot; nothing else |
| `KernelEnds.StatusesAreTrue` | kernel/src/sys/syscall.c:91-178 | in every state of every run from boot a zombie's status was given at some step of that run, to that pid in that slot, by its own exit with that argument, by a fatal pending signal, by a fault, or by a SIGKILL somebody sent it |
| `KernelEnds.WaitpidTellsTruth` | kernel/src/sys/syscall.c:308-342 | over every run, whatever waitpid reports of a pid is the status that this pid got in that way |
| `KernelCalls.CloseMeans` | kernel/src/sys/syscall.c:404-412 | close empties exactly that descriptor, or fails on one that is not in use |
| `KernelCalls.OpenMeans` | kernel/src/sys/syscall.c:376-402 | open fails exactly without a file or an unused descriptor; else the lowest unused one names the file and nothing else changes |
| `KernelCalls.Dup2Means` | kernel/src/sys/syscall.c:555-569 | afterwards the target holds the file of the source and no other descriptor of anybody has changed, also when they are the same; it fails exactly for a source not in use or a target out of range |
| `KernelCalls.DupMeans` | kernel/src/sys/syscall.c:571-580 | the same onto the lowest unused descriptor |
| `KernelCalls.PipeMeans` | kernel/src/sys/syscall.c:522-553 | the two lowest unused descriptors become the read and the write end of a new, empty pipe, in that order; without two of them nothing has changed |
| `KernelCalls.SignalMeans` | kernel/src/sys/syscall.c:650-659 | the action is replaced and the old one returned; SIGKILL and bad numbers are refused |
| `KernelCalls.ReadCall` | kernel/src/sys/syscall.c:414-461 | read goes to the pipe of that descriptor; a descriptor with nothing behind it fails |
| `KernelCalls.WriteCall` | kernel/src/sys/syscall.c:463-497 | write goes to the pipe of that descriptor; the console takes everything |
| `KernelCalls.SigintMeans` | kernel/src/drivers/kbd.c:58-71 | a Ctrl+C marks exactly the live tasks of the foreground group and makes ready exactly those asleep on a pipe |
| `KernelCalls.SpawnedMeans` | kernel/src/proc/sched.c:156-192 | a spawned task has the keyboard as descriptor 0, the console as 1 and 2, and nothing else |
| `KernelRuns.StepKeeps` | kernel/src/sys/syscall.c:1152-1170 | every step keeps the whole invariant and only moves pipes and tasks forward in time |
| `KernelRuns.BodyKeeps` | kernel/src/sys/syscall.c:155-659 | every system call body keeps what a yield may rely on |
| `KernelRuns.ContinueKeeps` | kernel/src/fs/pipe.c:50-99 | so does resuming a call that was parked in its loop |
| `KernelBlock.PipeReadKeeps` | kernel/src/fs/pipe.c:50-73 | a read, returning or parking, keeps the invariant |
| `KernelBlock.PipeWriteKeeps` | kernel/src/fs/pipe.c:75-99 | a write of any length, through any number of refills, keeps the invariant |
| `KernelBlock.WaitpidKeeps` | kernel/src/sys/syscall.c:308-342 | waitpid, reaping or parking, keeps the invariant |
| `KernelSteps.FdPutKeeps` | kernel/src/sys/syscall.c:366-374 | closing a descriptor keeps counts, wakes whoever waited on the pipe, and frees it with its last slot |
| `KernelSteps.FdsReleaseKeeps` | kernel/src/sys/syscall.c:65-74 | releasing a whole table does the same slot by slot and leaves it empty |
| `KernelLife.DeathKeeps` | kernel/src/sys/syscall.c:155-178 | a task becoming a zombie with its parent woken by pid misses no waiting parent |
| `KernelLife.TerminateKeeps` | kernel/src/sys/syscall.c:91-106 | termination by a signal keeps the invariant with its descriptors released |
| `KernelLife.DeliverKeeps` | kernel/src/sys/syscall.c:119-153 | delivering pending signals in order keeps the invariant |
| `KernelLife.ReapKeeps` | kernel/src/sys/syscall.c:76-85 | reaping a zombie child keeps the invariant |
| `KernelShare.DoDup2Keeps` | kernel/src/sys/syscall.c:555-569 | duplicating a descriptor over another keeps every count |
| `KernelShare.SysPipeKeeps` | kernel/src/sys/syscall.c:522-553 | creating a pipe keeps every count, also when descriptors run out half-way |
| `KernelFork.ForkKeeps` | kernel/src/sys/syscall.c:180-236 | fork, which does what `ForkMeans` says, keeps the whole invariant, also on both failure paths |
| `KernelSignal.KillKeeps` | kernel/src/sys/syscall.c:597-648 | a signal to oneself, to a sleeper or to nobody keeps the invariant |
| `KernelInterrupt.SigintKeeps` | kernel/src/drivers/kbd.c:58-71 | so does the keyboard interrupt signal |
| `KernelInterrupt.LandKeeps` | kernel/src/drivers/kbd.c:58-71 | also in the middle of a resumed call |
| `KernelInterrupt.LateKeeps` | kernel/src/drivers/kbd.c:58-71 | and between a task's going to sleep and the scan for the next one |
| `KernelSched.YieldApproaches` | kernel/src/proc/sched.c:237-267 | a yield picks a runnable task and either it is a given runnable one or the cyclic distance to that one shrinks |
| `KernelSched.YieldKeeps` | kernel/src/proc/sched.c:210-267 | the switch keeps the invariant |
| `Pipes.PushAll` | kernel/src/fs/pipe.c:83-89 | accepting bytes appends exactly them to the bytes in flight |
| `Pipes.PopAll` | kernel/src/fs/pipe.c:54-63 | taking n bytes takes the n oldest |
| `Pipes.PopAllAtOnce` | kernel/src/fs/pipe.c:54-63 | moving the tail over n bytes and settling the fill level afterwards is taking them one by one |
| `Pipes.StreamKept` | kernel/src/fs/pipe.c:50-99 | both directions keep accepted = delivered + in flight |
| `KernelInv.WakeOneKeeps` | kernel/src/proc/sched.c:31-35 | waking any one task at any time keeps the whole invariant that a yield relies on and moves tasks and pipes only forward |
| `Kernel.Machine.FindPid` | kernel/src/proc/sched.c:194-201 | the lowest occupied slot with a pid |
| `Kernel.Machine.AllocSlot` | kernel/src/proc/sched.c:89-94 | the lowest free slot |
| `Kernel.Machine.SchedYield` | kernel/src/proc/sched.c:237-267 | the scan and the switch are the yield of the step functions |
| `Kernel.Machine.PipeWake` | kernel/src/fs/pipe.c:22-30 | wakes exactly the tasks blocked on that pipe |
| `KernelShare.ShareKeeps` | kernel/src/fs/pipe.c:15-19 | counting an end together with storing the copy of the descriptor keeps every pipe's counts equal to its slots |
| `Kernel.Machine.PipeUnref` | kernel/src/fs/pipe.c:32-43 | uncounts an end, wakes, and frees at zero |
| `Kernel.Machine.PipeRead` | kernel/src/fs/pipe.c:50-73 | the read loop, with a Ctrl+C after any test, is the read step |
| `Kernel.Machine.PipeDrain` | kernel/src/fs/pipe.c:54-63 | the copy loop yields the oldest bytes in order |
| `Kernel.Machine.PipeWrite` | kernel/src/fs/pipe.c:75-99 | the write loop, with a Ctrl+C after any test, is the write step |
| `Kernel.Machine.PipeFill` | kernel/src/fs/pipe.c:83-89 | the inner loop accepts as many bytes as fit |
| `Kernel.Machine.FdAlloc` | kernel/src/sys/syscall.c:355-363 | the lowest unused descriptor |
| `Kernel.Machine.FdPut` | kernel/src/sys/syscall.c:366-374 | clears a slot and uncounts its pipe |
| `Kernel.Machine.FdsRelease` | kernel/src/sys/syscall.c:65-74 | clears all slots of a table |
| `Kernel.Machine.DoDup2` | kernel/src/sys/syscall.c:555-569 | in place, the step of `Dup2Means` |
| `Kernel.Machine.SysPipe` | kernel/src/sys/syscall.c:522-553 | in place, the step of `PipeMeans`, with the descriptor numbers in the answer |
| `Kernel.Machine.TerminateCurrent` | kernel/src/sys/syscall.c:91-106 | in place, the step of `TerminateMeans` |
| `Kernel.Machine.Reap` | kernel/src/sys/syscall.c:76-85 | the descriptors go, the slot is free |
| `Kernel.Machine.SysFork` | kernel/src/sys/syscall.c:180-236 | in place, the step of `ForkMeans` |
| `Kernel.Machine.ScanChildren` | kernel/src/sys/syscall.c:314-335 | the first zombie child asked for, and whether there is a child |
| `Kernel.Machine.SysWaitpid` | kernel/src/sys/syscall.c:308-342 | one pass of the waiting loop is the step of `WaitpidMeans`, with the status in the answer |
| `Kernel.Machine.DeliverSignals` | kernel/src/sys/syscall.c:119-153 | the loop over the signals is the step of `DeliverMeans` |
| `Kernel.Machine.SysKill` | kernel/src/sys/syscall.c:597-648 | in place, the step of `KillMeans` |
| `Kernel.Machine.RaiseSigint` | kernel/src/drivers/kbd.c:58-71 | the loop is the step of `SigintMeans` |
| `Kernel.Machine.SchedSpawn` | kernel/src/proc/sched.c:156-192 | the new task is in the first free slot with a fresh pid and the console streams; a full table gives -1 and no change |
| `Kernel.Machine.SchedStart` | kernel/src/proc/sched.c:287-303 | the downward scan makes the ready task of the highest slot above idle's run, and changes nothing without one |
| `Kernel.Machine.Boot` | kernel/src/proc/sched.c:114-303 | clearing the table, creating idle, spawning task after task and starting lead to the state from which all runs start, and it satisfies the invariant |
| `Kernel.Machine.Syscall` | kernel/src/sys/syscall.c:1152-1170 | dispatch to the bodies above |
| `Kernel.Machine.Execute` | kernel/src/sys/syscall.c:1152-1170 | one whole step of the machine, invariant included |
| `Pmm.Allocator.constructor` | kernel/src/mm/pmm.c:28-93 | after initialisation exactly the pages of the usable regions are free, except the bitmap's own, and `free_pages` is their number |
| `Pmm.Allocator.Alloc` | kernel/src/mm/pmm.c:103-126 | first fit, or nothing only when no run of that length is free; bitmap, free set and `free_pages` agree |
| `Pmm.Allocator.AllocDma` | kernel/src/mm/pmm.c:146-168 | the same below 4 GiB |
| `Pmm.Allocator.Free` | kernel/src/mm/pmm.c:128-140 | frees page after page and stops at the first one already free |
| `Pmm.AllocThenFree` | kernel/src/mm/pmm.c:103-140 | freeing an allocation restores every bit |
| `Pmm.Allocator.Scan` | kernel/src/mm/pmm.c:103-126 | the run-counting loop finds the first run |
| `PmmRuns.FirstFitIsLowest` | kernel/src/mm/pmm.c:103-126 | first fit is the lowest start of a free run, a recursive definition of its own |
| `PmmRuns.BlocksNeverOverlap` | kernel/src/mm/pmm.c:103-168 | over any history of allocations, DMA allocations and frees outstanding blocks are disjoint from each other and from the free pages, and no page is lost |
| `PmmRuns.Run` | kernel/src/mm/pmm.c:103-168 | the allocator itself, run through any such history, ends with the free pages and blocks of that history, and `free_pages` plus the pages given out is constant |
| `PageTables.StoreLeaf` | kernel/src/mm/pmap.c:126-157 | storing a leaf entry retargets one page and moves no table |
| `PageTables.LinkKeeps` | kernel/src/mm/pmap.c:111-131 | linking an empty table keeps the tables a tree with one parent entry each and moves no page |
| `PageTables.WriteData` | kernel/src/mm/pmap.c:133-149 | writing a frame that is no table moves no page |
| `Pmap.Memory.PmapMap` | kernel/src/mm/pmap.c:111-131 | with a frame for every missing table exactly that page goes to the new frame with the given flags; with fewer nothing is mapped and no frame is left; every table entry that was there is unchanged, and every new one has PRESENT, WRITE and the given flags |
| `PmapRights.MapWithRights` | kernel/src/mm/pmap.c:111-131 | the mapped page has, over all four entries of its walk, exactly the given rights that no older entry on its way withholds, on a new way exactly the given ones; no right of any other page changes |
| `PmapRights.MapGrants` | kernel/src/mm/pmap.c:111-131 | the same about any memory whose table entries were kept and whose new ones have those flags |
| `PmapRights.OtherRights` | kernel/src/mm/pmap.c:111-131 | and about any page translated as before |
| `PmapRights.WriteStaysOpen` | kernel/src/mm/pmap.c:123 | a mapping without WRITE never puts a read-only table above later pages |
| `PageTables.LinkEntries` | kernel/src/mm/pmap.c:111-131 | linking a table adds one entry between tables and changes no other |
| `Pmap.Memory.PmapResolve` | kernel/src/mm/pmap.c:133-137 | the frame of the flat map, 0 when unmapped |
| `Pmap.Memory.PmapPte` | kernel/src/mm/pmap.c:139-149 | the walk finds the table that translates a page |
| `Pmap.Memory.PmapUnmap` | kernel/src/mm/pmap.c:151-157 | removes exactly one page |
| `Pmap.Memory.TableAlloc` | kernel/src/mm/pmap.c:97-105 | the lowest free frame, zeroed |
| `PmapForkRun.PmapCreate` | kernel/src/mm/pmap.c:72-91 | a root with an empty lower half |
| `PmapForkRun.FrameRefInc` | kernel/src/mm/pmap.c:62-64 | counts a frame once more, if it is counted at all |
| `PmapForkRun.ForkPage` | kernel/src/mm/pmap.c:181-207 | one page of the child is a private copy, or frames have run out |
| `PmapForkLoops.Fork` | kernel/src/mm/pmap.c:161-212 | with one frame for the root and one for every page and table the child is a complete private copy; with fewer a child is returned exactly when there are frames for everything before the parent's last page and for that page itself, and then that page alone is missing; otherwise 0; in both cases no frame is left free; the parent's memory is untouched; each table entry of the child has the flags of the first page copied below it |
| `PmapWindow.SinglePage` | kernel/src/mm/pmap.c:200-205 | a parent with a single page loses it exactly with two, three or four free frames |
| `PmapWindow.LosesItsOnlyPage` | kernel/src/mm/pmap.c:200-205 | a concrete parent and memory in that window |
| `PmapWindow.ForkSmall` | kernel/src/mm/pmap.c:161-212 | the fork on that memory returns a child without any page while the parent keeps its own |
| `PmapTheorems.ForkCopies` | kernel/src/mm/pmap.c:161-212 | the child maps exactly the parent's pages with equal contents; the parent's translations are unchanged |
| `PmapTheorems.ForkRights` | kernel/src/mm/pmap.c:181-207 | every copied page is writable in the child, and open to user mode exactly when it and the first page under each of its tables were marked so in the parent |
| `PmapTheorems.ForkOfUser` | kernel/src/mm/pmap.c:181-207 | in the child of a parent with user pages only, user mode can read and write every page |
| `PmapTheorems.ForkIsolates` | kernel/src/mm/pmap.c:161-212 | no write through one space changes what the other reads |
| `PmapNeed.MissingIsCost` | kernel/src/mm/pmap.c:111-131 | the tables missing on the way to a page are those its address prefixes add |
| `PmapDestroy.Destroy` | kernel/src/mm/pmap.c:214-249 | every lower-half table, the root and every sole-owned page are freed once each, other pages lose one count, no freed table is read |
| `PmapDestroy.ReadEntry` | kernel/src/mm/pmap.c:214-249 | an entry is read only from a table that is not yet freed |
| `PmapDestroy.FrameRefDec` | kernel/src/mm/pmap.c:66-70 | uncounts a frame and says whether it was the last count |
| `PmapTheorems.ForkThenDestroy` | kernel/src/mm/pmap.c:161-249 | forking and destroying the child restores free frames, `free_pages` and all counts |
| `UserMemory.CopyToVa` | kernel/src/proc/elf.c:55-71 | succeeds exactly when every page is mapped, and then exactly the given addresses hold the given bytes, across scattered frames |
| `UserMemory.MapZeroedRange` | kernel/src/proc/elf.c:73-83 | with a frame for every page and for every table they lack exactly the pages of the range read as zeros; with fewer it still succeeds exactly when there is a frame for everything before the last page and for that page, which is then missing, and otherwise fails; no frame is left then; two pages or more inside one page table are never left incomplete; the pages get USER and WRITE as far as older table entries do not withhold them, and no other page's rights change |
| `UserMemory.UserRange` | kernel/src/proc/elf.c:73-83 | in a space all of whose table entries have USER and WRITE, which the call keeps so, user mode can read and write every page of the range |
| `UserMemory.MissingIsAdded` | kernel/src/proc/elf.c:73-83 | what is missing on the way to the next page of a range is what its address adds to the pages before it |
| `UserMemory.OnePageNeed` | kernel/src/proc/elf.c:73-83 | a single page is lost exactly when there is a frame for it and not for its tables |
| `UserStack.BuildUserStack` | kernel/src/proc/elf.c:85-133 | fails exactly for want of frames; otherwise reading back through the page tables finds argc, every argument, the null pointer and the empty environment, all inside the 16 pages, which get their rights as above, and nothing else has changed |
| `UserStack.EntryBuilt` | userspace/crt0.S:9-16 | strings, pointer vector and argc as laid out are what the entry code reads |
| `UserStack.StringRead` | kernel/src/proc/elf.c:103-111 | an argument shorter than 256 bytes is read back whole |
| `HeapBlocks.HeaderRoundTrip` | kernel/src/mm/kheap.c:10-16 | a packed header is read back as it was written |
| `KHeap.Heap.HeapExpand` | kernel/src/mm/kheap.c:21-47 | appends one free block behind the heap and keeps the list a doubly linked tiling |
| `KHeap.Heap.HeapCoalesce` | kernel/src/mm/kheap.c:49-61 | one pass over the list; blocks in use and their bytes are untouched |
| `KHeap.Heap.GiveOut` | kernel/src/mm/kheap.c:79-97 | a suitable block is given out, split when the rest is worth keeping |
| `KHeap.Heap.Kmalloc` | kernel/src/mm/kheap.c:71-104 | first fit with growth and retry, which ends because pages run out; all bytes in use are kept |
| `KHeap.Heap.Kfree` | kernel/src/mm/kheap.c:133-145 | of a block in use: exactly that block leaves use; of a block already free, or of a header left over inside a free block: no block in use and none of its bytes change; of a header left over inside a block in use: nothing changes but the flag in it; a wrong magic number changes nothing |
| `KHeap.Heap.Krealloc` | kernel/src/mm/kheap.c:113-131 | every branch, for blocks in use or free; a move keeps the contents of a block in use as a prefix and frees the old block, a failed one keeps it |
| `HeapSpec.MallocGrants` | kernel/src/mm/kheap.c:71-104 | at most one block joins those in use, new and large enough, and none leaves |
| `HeapSpec.MallocSucceeds` | kernel/src/mm/kheap.c:71-104 | exactly when kmalloc succeeds, and how many pages a hopeless request consumes |
| `HeapSpec.Unservable` | kernel/src/mm/kheap.c:21-30 | exactly the sizes growth never serves |
| `HeapSpec.SixteenKilobytes` | kernel/src/mm/kheap.c:71-104 | kmalloc(16384) without a large block fails however much memory is left |
| `HeapSpec.PassComplete` | kernel/src/mm/kheap.c:49-61 | neighbours stay free exactly when three free blocks were in a row |
| `HeapSpec.FreedBetween` | kernel/src/mm/kheap.c:49-61 | freeing a block between two free ones leaves two free neighbours |
| `KHeapRuns.LeaveNeighbours` | kernel/src/mm/kheap.c:71-145 | two kmallocs and two kfrees on a fresh heap end with two free neighbours |
| `KHeapRuns.Run` | kernel/src/mm/kheap.c:71-145 | over any history of kmalloc, krealloc, kfree and writes the callers see a map from pointers to byte strings that only their own operations change, and allocations never overlap |
| `KHeapRuns.NoOverlap` | kernel/src/mm/kheap.c:10-16 | allocations that are out are disjoint and not NULL |
| `Calc.Calculator.Skip` | userspace/calc.c:15-17 | stops at the first character that is no blank |
| `Calc.Calculator.Number` | userspace/calc.c:21-44 | all four radices |
| `Calc.Calculator.Primary` | userspace/calc.c:46-56 | the parsing function of a primary, and the cursor |
| `Calc.Calculator.Unary` | userspace/calc.c:58-64 | the same for signs |
| `Calc.Calculator.Mul` | userspace/calc.c:73-94 | the same for level 5, with the exit on a zero divisor and the divide error of -2^63 by -1; what the three operators compute is in `QuotientAndRemainder` and `SumsAndProducts` |
| `Calc.Calculator.Add` | userspace/calc.c:96-104 | level 4 |
| `Calc.Calculator.Shift` | userspace/calc.c:106-114 | level 3 |
| `Calc.Calculator.BitAnd` | userspace/calc.c:116-123 | level 2 |
| `Calc.Calculator.BitXor` | userspace/calc.c:125-132 | level 1 |
| `Calc.Calculator.Expr` | userspace/calc.c:134-141 | level 0; the mutual recursion ends on every text |
| `CalcTrees.Reads` | userspace/calc.c:15-141 | wherever a properly parenthesised expression stands in a text, with any blanks, spare parentheses and number spelling, the routine of its level reads exactly it and goes on with its value, or ends as its evaluation does |
| `CalcTheorems.LineReads` | userspace/calc.c:134-141 | a whole line is consumed and gives the value, or ends as the evaluation does |
| `CalcTheorems.PrintReads` | userspace/calc.c:15-141 | every tree, printed with the documented precedence and left associativity, is read back with the value its operators give (the laws of `CalcLaws`), exactly when no division or modulo in it is by zero or of -2^63 by -1; else the first of these says how calc ends |
| `CalcTheorems.StopsAtFirstIncident` | userspace/calc.c:80-90 | a tree has a value exactly when the list of its undefined divisions, in the order of evaluation, is empty, and the head of that list is what ends it |
| `CalcTheorems.LongestQuotient` | userspace/calc.c:80-90 | (-9223372036854775807-1)/-1, and the same with %, has no zero divisor and ends in the divide error |
| `CalcTheorems.FewestParens` | userspace/calc.c:7-9 | no proper way to write a tree has fewer parentheses than the printer uses |
| `CalcLaws.SumsAndProducts` | userspace/calc.c:73-104 | sum, difference and product are equal to the integer result modulo 2^64, and equal to it when it is a long |
| `CalcLaws.Only64` | userspace/calc.c:73-104 | which leaves one long each |
| `CalcLaws.QuotientAndRemainder` | userspace/calc.c:80-90 | for any divisor but zero, and -1 under -2^63, a == q * b + m with m smaller than b in size and zero or of the sign of a |
| `CalcLaws.BitByBit` | userspace/calc.c:116-141 | each of the 64 bits of or, exclusive or and and |
| `CalcLaws.SameBits` | userspace/calc.c:116-141 | two longs with the same 64 bits are equal |
| `CalcLaws.ShiftsStepwise` | userspace/calc.c:106-114 | a shift by a multiple of 64 does nothing, and one place more doubles modulo 2^64 or halves downward, for every count |
| `CalcLaws.Signs` | userspace/calc.c:58-64 | the three unary operators in the same terms |
| `CalcLaws.ArithmeticLines` | userspace/calc.c:15-141 | calc on the text of two numbers with + - * / % between them, and of a signed number, reads the whole line and gives that sum, difference, product, quotient, remainder or negation, for all numbers |
| `CalcLaws.BitLines` | userspace/calc.c:15-141 | the same for | ^ & ~, bit by bit |
| `CalcLaws.ShiftLines` | userspace/calc.c:106-114 | and for the shifts by any count below 64, as products and quotients by a power of two |
| `CalcLaws.RadixLines` | userspace/calc.c:21-44 | every number below 2^63, written in decimal, hexadecimal, octal or binary with digits and prefix of either case, is read back |
| `CalcLaws.Documented` | userspace/calc.c:7-9 | each operator is on the level that the documented list gives it |
| `Sha256Constants.RoundConstants` | userspace/sha256.c:10-27 | round constant i is the first 32 bits behind the point of the cube root of prime i |
| `Sha256Constants.FirstPrimes` | userspace/sha256.c:10-27 | the numbers used there are the first 64 primes, each followed by the next |
| `Sha256Constants.InitialHash` | userspace/sha256.c:29-32 | the initial hash holds those bits of the square roots of the first eight |
| `Sha256.Hasher.ShaBlock` | userspace/sha256.c:34-64 | the compression function of section 6.2.2 of FIPS 180-4 |
| `Sha256.Hasher.Schedule` | userspace/sha256.c:35-46 | its message schedule |
| `Sha256.Hasher.Mix` | userspace/sha256.c:48-60 | its 64 rounds |
| `Sha256.RotrIsRotation` | userspace/sha256.c:8 | the shift-and-or macro rotates |
| `Sha256.Hasher.Feed` | userspace/sha256.c:70-83 | any piece extends the stream; pending bytes stay below 128 |
| `Sha256.Hasher.Pad` | userspace/sha256.c:113-124 | marker and zeros up to 56 modulo 64; the loop ends |
| `Sha256.Hasher.WriteLength` | userspace/sha256.c:125-127 | the bit length, most significant byte first |
| `Sha256.Hasher.Finish` | userspace/sha256.c:113-130 | the hash of the padded message |
| `Sha256.HashPieces` | userspace/sha256.c:105-130 | however the input is cut, the result is the compression folded over the message padded as in section 5.1.1 |
| `ByteOrder.BeRoundTrip` | userspace/sha256.c:125-127 | the length field holds the length |
| `Base64.EncodeStream` | userspace/base64.c:14-53 | the loop writes the groups of RFC 4648 section 4 with line breaks |
| `Base64.QuadFields` | userspace/base64.c:25-49 | the bit fields are the base-64 digits of the 24-bit group |
| `Base64.Letter` | userspace/base64.c:7-8 | the alphabet is inverted by the value function |
| `Base64.DecodeStream` | userspace/base64.c:64-94 | the loop decodes the characters of the alphabet in groups of four |
| `Base64Theorems.RoundTrip` | userspace/base64.c:14-94 | decoding the encoder's output gives back every input |
| `Base64Theorems.JunkIgnored` | userspace/base64.c:70-74 | characters outside the alphabet make no difference anywhere |
| `Base64Theorems.ShortLines` | userspace/base64.c:31-52 | every line has at most 76 characters, a multiple of 4, and ends in a line break |
| `Gfx.Isqrt` | kernel/src/drivers/gfx.c:77-90 | the exact floor of the square root |
| `Gfx.Screen.FillRect` | kernel/src/drivers/gfx.c:26-35 | exactly the clamped rectangle is painted |
| `Gfx.Screen.Line` | kernel/src/drivers/gfx.c:45-62 | exactly max(dx, dy) steps from one end to the other, every point within half a pixel of the ideal line, exactly the on-screen ones painted |
| `Gfx.TracingStep` | kernel/src/drivers/gfx.c:58-60 | one round moves along the longer axis and keeps the deviation within bounds |
| `Gfx.Screen.FillCircle` | kernel/src/drivers/gfx.c:92-99 | for any centre and any radius whose square fits an int, exactly the clamped image of the disc of squared radius r² is painted |
| `Gfx.DiscIsClipped` | kernel/src/drivers/gfx.c:92-99 | that image is the disc's part of the screen exactly when the four extreme points clamp into the disc |
| `Gfx.CentreOnScreen` | kernel/src/drivers/gfx.c:92-99 | which is so whenever the centre is on the screen |
| `Gfx.DiscBeside` | kernel/src/drivers/gfx.c:92-99 | and not for a single point just right of the screen, which paints the last column |
| `Gfx.ClampIsClip` | kernel/src/drivers/gfx.c:6-35 | clamping is clipping exactly when the run meets the screen |
| `Gfx.OffScreen` | kernel/src/drivers/gfx.c:6-35 | a run just right of the screen paints the last column |
| `Ext2.ReadInodeData` | kernel/src/fs/ext2.c:175-210 | the bytes found from the offset on, as many as wanted or up to the first unreadable block, also behind the double-indirect range |
| `Ext2.LookupRight` | kernel/src/fs/ext2.c:126-172 | the lookup follows the format exactly when the top table is there, or block 0 is unreadable or holds 0 at that index, or, one level further, the table it names is unreadable or holds 0 |
| `Ext2.HoleMisread` | kernel/src/fs/ext2.c:135-146 | on a volume of 1024-byte blocks a 13-block file of holes reads a 1 from block 7 where the file holds a 0 |
| `Ext2.ReadsSlice` | kernel/src/fs/ext2.c:175-210 | when the lookup is right for the range asked for and its blocks are holes or readable, the result is that slice of the concatenated logical blocks, holes as zeros |
| `Ext2.BeyondTheEnd` | kernel/src/fs/ext2.c:175-210 | at an offset behind the end bytes are returned exactly when the offset modulo 2^32 is inside the file and its block is a hole or readable |
| `Ext2.PastFourGigabytes` | kernel/src/fs/ext2.c:175-210 | offset 2^32 of a one-byte file reads a byte |
| `Ext2.MoreThanAsked` | kernel/src/fs/ext2.c:175-210 | exactly when more bytes than `count` are returned |
| `Checksum.IpChecksum` | kernel/src/drivers/net/net.c:125-132 | the one's complement checksum of RFC 1071 whenever the sum fits 32 bits; the fold ends |
| `Checksum.OnesSumIsResidue` | kernel/src/drivers/net/net.c:125-132 | end-around carry addition and the folded plain sum name the same residue |
| `Checksum.NoOverflow` | kernel/src/drivers/net/net.c:125-129 | up to 131074 bytes the sum fits |
| `Checksum.StoredVerifies` | kernel/src/drivers/net/net.c:229-270 | a buffer that carries its own checksum has checksum 0 |
| `Ping.IcmpBuildEcho` | kernel/src/drivers/net/net.c:229-245 | the echo message with its checksum |
| `Ping.BuildEchoFrame` | kernel/src/drivers/net/net.c:247-270 | the whole frame |
| `Ping.ChecksumsPass` | kernel/src/drivers/net/net.c:296-313 | both checksums of every frame verify |
| `Ping.ReplyAccepted` | kernel/src/drivers/net/net.c:272-325 | an echo reply of RFC 792 to any request built here, under any IPv4 header with the tested fields and a right checksum and with any padding, passes every test exactly when the peer's hardware address is proper |
| `Ping.RequestAnswered` | kernel/src/drivers/net/net.c:247-325 | a request carries the peer as receiver and this host as sender, in hardware and IP addresses; a responder that answers the sender it finds there has its reply accepted |
| `Ping.OwnHeader` | kernel/src/drivers/net/net.c:247-270 | the header this sender builds is such a header |

## Assumptions

- Heap growth is contiguous: the frame allocator hands the heap the pages right behind it,
  as long as there are any.  `heap_coalesce` merges list neighbours without comparing addresses.
- Page 0 is never free, because frame number 0 is the C code's error value, and frame
  counts exist only for frames the allocator manages.
- Callers of `krealloc` and `kfree` pass NULL, the payload of a block, in use or free, or a
  pointer in front of which the magic number is wrong; `kfree` also any pointer to a header that
  lies inside another block.
- C integers do not overflow where the model uses unbounded ones: sizes in kheap.c,
  coordinates in gfx.c, `total` in sha256.c, `offset + count` in ext2.c.  The sums, products
  and shifts of calc.c wrap at 64 bits, shifts by the count modulo 64, as the x86-64
  instructions do; its divisions fault on -2^63 by -1, as that instruction does.

## Left out

- Hardware drivers, descriptor tables, assembly stubs, the text console and the small userland programs.
- User signal handlers and `sigreturn`; a caught signal only loses its pending bit.
- The higher-half offset of kernel pointers, the TLB, user register contexts and kernel stacks.
- `sys_execve` besides its stack builder, `sys_brk`, `sys_mmap`, `sys_munmap` and the page fault handler.
- KernelCalls.ReadCall: does not model what files, character devices and the keyboard deliver, nor a null buffer.
- KernelCalls.WriteCall: does not model where files and character devices put the bytes, nor a null buffer.
- A Ctrl+C inside a resumed `sys_kill` of another task comes at its start or its end; in between it could only change who is woken without need.  A resumed call may be interrupted in the model whether or not interrupts happen to be on.
- Sessions, process groups, user ids and the rudo queue, except that somebody may wake a task at any time.
- The ELF loader around `map_zeroed_range`: program headers and segments.
- KernelTheorems.NoLostWakeups: the two rudo calls that block are not commands of a run; they sleep on no pipe and on no child.
- Ext2.ReadInodeData: does not model a failing `kmalloc`; what the code reads behind the end of a pointer table is an arbitrary function of the position.
- KHeap.Heap.Kfree: does not model a left-over header that overlaps the header of another block; the code would write into that one.
- KHeap.Heap.Krealloc: does not model a pointer to a header left over inside another block; the code would copy from whatever follows it.
- PmapTheorems.ForkThenDestroy: asks for enough frames; without them the child is incomplete and the parent's pages are still unchanged (`PmapForkLoops.Fork`).
- Gfx.Screen.FillCircle: does not model radii above 46340, whose square does not fit an int.
- ext2 directories, the superblock, inode lookup and triple-indirect blocks; ARP; `gfx_circle`; the hexadecimal output of sha256.
- The update of `head` and `tail` happens on a pipe value that the pipe table holds, so aliasing of pipe pointers is by table key.
