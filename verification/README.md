# A verified model of the kernel's memory, signals, scheduling and user allocator

Dafny models of four parts of a RISC-V teaching kernel and of its user library, each proved
against a specification that does not mention how the code works.

* **Address spaces and physical pages.** A three-level Sv39 table held in pages that come from a
  free list threaded through the free pages denotes a finite map from page numbers to entries
  (`PageTable`, `PhysPages`). Every page has one ghost owner: the free list, the kernel, one table
  of one address space, or one leaf of one address space. `AddressSpace`, `VmaList`, `Teardown`,
  `MmLifecycle` and `MmCopying` run the loops of `os/vm.c` on that memory; `PageCost` counts what
  they take from the free list, so that every one of them says exactly when memory is short. `Heap`
  is `sbrk` and the memory half of `fork`, `Loader` the loops of `load_user_elf`, `UserAccess` the
  copies to and from user memory against one flat map of bytes, `KernelMap` the 2M/4K mapper,
  `ObjectPool` the slab of equal objects. `Conservation` is a kernel that makes any calls of these
  operations in any order, and what then holds of every page.
* **Signals.** `Signals` is `do_signal`, `sys_sigreturn` and the calls around them on a task whose
  user memory is bytes and whose saved context is really encoded into them (`Words`). `SignalRuns`
  is about whole runs of nested deliveries and returns.
* **Processes, locks and the run queue.** `Spinlock` interleaves single memory operations of
  acquire, release, push_off, pop_off, traps and swtch on any number of CPUs. `Scheduler` interleaves
  the critical sections of `os/proc.c`, `os/sched.c` and `sys_sigkill`; `WaitExit` adds parents,
  children and `wait_lock`; `SchedulerRuns` states what holds in every run, `ProcessLife` what every
  step means for one process. `TaskQueue` is the ring buffer.
* **The user allocator.** `UserMalloc` is `malloc`, `free` and `morecore`.

`Riscv` shows that the bit macros compute the page numbers, table indices and entries used elsewhere;
`Common` holds what several modules share.

Code that updates state step by step is a class with methods and loops; protocols between CPUs are
state machines with a step function, an invariant, and theorems over all runs.

How things are represented: an address that the code demands to be page aligned is a page number; a
PTE is a pair of a page number and its ten flag bits; a free-list, table or data page is a value of
type `Page`; sleeping, lock ownership between steps and saved program counters are explicit.

Where the code and its comments differ, the code is followed. Where the obvious statement is false,
the exact condition is proved instead, with an input that shows the failure:

* the overlap test: `CaughtExactly`, `ContainerMissed`, and what it does to the address space in
  `Loader.MapVma` and `Conservation.Kernel.Map`;
* `mm_remap` with a gap: `GapLeavesTraces`. `sys_sbrk` (`os/syscall.c:144`) keeps the start of the
  range and so never leaves one;
* `mm_create`: `MmCreate` and `Conservation.Kernel.Create` (leak with two free pages, panic with none);
* `mm_free`: everything comes back exactly when every user page lies in a VMA (`MmFree`);
* `sbrk`: `UnderflowTestExactly`, `UnderflowMissed`;
* `fork` looking for the heap: `FindsCopyExactly`, `ForkMissesHeap`, `HeapOfImage`;
* `malloc` of 2 GiB and more: `IncrementExactly`;
* SIGSTOP and SIGCONT: `StopTakesEffectExactly`, `StopDiscarded`, `ContExactly`, `ContInRuns`,
  `ContCanBeLost`;
* `sigreturn`: t6 and a0 (`ReturnResumes`).

## Model

| member | source | states |
|---|---|---|
| PageTable.SlotsAreDistinct | os/riscv.h:208-219 | two virtual pages are served by the same entry of the same table exactly when they are the same page |
| PageTable.GrowTree | os/vm.c:36-45 | hanging a zeroed table under an empty entry keeps the tree sound and denotes the same map |
| PageTable.MapLeaf | os/vm.c:246-262 | writing a fresh frame into an empty slot adds one key to the map and gives the frame its single owner |
| PageTable.UnmapLeaf | os/vm.c:140-148 | clearing a slot removes one key and frees exactly its frame |
| PhysPages.Kmem.Kpgmgrinit | os/kalloc.c:20-34 | the free list becomes all pages of the region, in ascending order |
| PhysPages.Kmem.KFreePage | os/kalloc.c:40-58 | the page becomes the head of the threaded list; the count stays the length of the list |
| PhysPages.Kmem.KAllocPage | os/kalloc.c:63-86 | fails exactly when the list is empty, else takes its head and changes nothing else |
| AddressSpace.Mm.Walk | os/vm.c:26-50 | returns the slot of the page, and with alloc leaves the denoted map unchanged even when it fails half way |
| PageCost.PathSpent | os/vm.c:36-47 | a walk that succeeds has taken one free page for each table that was missing on the path, and one that fails had fewer |
| AddressSpace.Mm.WalkAddr | os/vm.c:55-78 | the frame of a page mapped for the user, 0 for every other page |
| AddressSpace.Mm.FreeVma | os/vm.c:135-151 | the denoted map loses exactly the pages of the range, whose frames become free |
| AddressSpace.Mm.VmaCheckOverlap | os/vm.c:193-209 | true exactly when some other VMA contains the first or the last page of the new range |
| AddressSpace.CaughtExactly | os/vm.c:202 | two ranges that meet are caught unless the new one strictly contains the old one on both sides |
| AddressSpace.ContainerMissed | os/vm.c:202 | [4, 8) passes the test although a VMA [5, 6) is there |
| AddressSpace.Mm.MmMapPages | os/vm.c:221-275 | succeeds exactly when no VMA is caught, no page of the range is mapped and the free list covers the pages and tables missing; then exactly the range is added, in frames that were free; after a failure nothing of the range is mapped |
| AddressSpace.Mm.MmRemap | os/vm.c:280-368 | for touching ranges success maps exactly the new range and keeps the frame of every shared page; -ENOMEM comes exactly when the free list is too short, and leaves VMA and denoted map as they were |
| AddressSpace.GrownThenUndone | os/vm.c:346-367 | the error path undoes a partial remap exactly |
| AddressSpace.GrownThenShrunk | os/vm.c:299-339 | the two success loops together map exactly the new range |
| AddressSpace.GapLeavesTraces | os/vm.c:326-339 | for ranges with a gap between them the failing call leaves the map as it was exactly when the gap is harmless |
| VmaList.ClearExactly | os/vm.c:193-209 | a range is disjoint from every VMA exactly when none of its pages is mapped, and then it passes the overlap test |
| VmaList.VmaRemapped | os/vm.c:342-345 | after a remap the list with the new bounds describes what is mapped |
| Teardown.FreePgt | os/vm.c:169-177 | terminates, tells tables from leaves, and frees exactly the tables of the subtree |
| MmLifecycle.MmFreeVmas | os/vm.c:153-164 | exactly the pages of the VMAs are unmapped and freed |
| MmLifecycle.MmFree | os/vm.c:182-191 | all tables and all pages inside a VMA are free again and no other page changes; everything comes back exactly when no user page was mapped outside the VMAs |
| MmLifecycle.MmMapPageAt | os/vm.c:371-399 | maps one given frame, without owning it, exactly when no VMA is caught, the page is not mapped and there is memory for the tables |
| MmLifecycle.MmCreate | os/vm.c:93-124 | succeeds exactly with three free pages; with none it releases a lock it does not hold, with two it leaks the level-1 table |
| MmCopying.MmCopy | os/vm.c:404-433 | succeeds exactly when the free list covers all pages and tables of the copy: same VMAs in reverse order, same bytes, other frames, parent unchanged; on failure the child maps what it mapped before |
| Heap.Proc.SysSbrk | os/syscall.c:125-158 | the heap VMA ends at the page of brk, its pages are exactly its range, and nothing else lies up to the stack; -EINVAL exactly below the heap's start, -ENOMEM exactly when memory is short, and then nothing has changed |
| Heap.UnderflowTestExactly | os/syscall.c:136 | the unsigned comparison misses every negative result and only those |
| Heap.UnderflowMissed | os/syscall.c:136 | sbrk(-0x20000) on a heap at 0x11000 passes it |
| Heap.MmFindVma | os/vm.c:435-446 | the first VMA of the list that starts at the address, null exactly when there is none |
| Heap.FindsCopyExactly | os/proc.c:205-207 | on the reversed list the search finds the copy of a VMA exactly when no VMA behind it in the parent's list starts there |
| Heap.ForkMissesHeap | os/proc.c:205-207 | after sbrk(1) in a program whose last header has p_memsz 0 the child takes the empty segment for its heap |
| Heap.OnlyStartKept | os/proc.c:205-207 | a heap that is alone at its start is found by every descendant, whatever sbrk does in between |
| Heap.ForkMemory | os/proc.c:182-209 | succeeds exactly when memory suffices; the child's vma_brk is its own copy of the heap, and its heap invariant holds, exactly when no VMA behind the heap starts there (for a heap that is not empty) |
| Loader.CopyFile | os/loader.c:81-96 | the segment's pages hold the file's bytes and then zeros; file_remains ends at 0 exactly when the file part fits |
| Loader.ClearBss | os/loader.c:98-112 | the second clearing loop changes nothing that is not zero already |
| Loader.MapVma | os/vm.c:221-275 | on an address space in order: succeeds exactly for a range disjoint from all VMAs with enough memory; a failed call leaves it in order unless the overlap test has missed a VMA inside the range |
| Loader.LoadSegment | os/loader.c:52-116 | one PT_LOAD header: its whole image up to the end of its last page, a VMA with its bounds and permissions, and no other user byte changed |
| Loader.LoadSegments | os/loader.c:52-116 | succeeds exactly when no two headers overlap and memory suffices; the VMAs are those of the headers, the last first, and every image is in place |
| Loader.HeapOfImage | os/loader.c:116-127 | nothing lies between the heap and the stack, and fork will find the heap exactly when no header starts where it does; such a header has p_memsz 0 |
| Loader.LoadImage | os/loader.c:34-142 | succeeds exactly when headers and stack are disjoint and memory suffices: the heap invariant, all images, eight zeroed stack pages and no VMA besides; on failure all pages taken are free again and no other page has changed |
| UserAccess.CopyToUser | os/uaccess.c:9-30 | on flat user memory: writes the longest prefix that can be reached, succeeds exactly when that is all |
| UserAccess.CopyFromUser | os/uaccess.c:32-53 | reads the longest prefix that can be reached, succeeds exactly when that is all |
| UserAccess.CopyStrFromUser | os/uaccess.c:56-93 | succeeds exactly when a NUL comes within max bytes before any byte that is not mapped |
| UserAccess.CopyRoundTrip | os/uaccess.c:9-53 | what copy_to_user has written copy_from_user returns, and no other byte changes |
| KernelMap.KernelTable.Kvmmap | os/kvm.c:145-211 | terminates at the end of the range, whatever mix of entries it chose; every page translates as asked, no other translation changes, and it panics only on a page mapped before or for want of memory |
| KernelMap.DoneInParts | os/kvm.c:145-211 | mapping a range in two calls is mapping it in one |
| KernelMap.MixDoesNotMatter | os/kvm.c:145-211 | two ways of mapping a range, page by page or with superpages, translate every address alike |
| ObjectPool.Pool.constructor | os/kalloc.c:89-141 | all slots are on the list, the last first, and the next pool starts behind this one |
| ObjectPool.Pool.Kalloc | os/kalloc.c:143-171 | fails exactly when no slot is free, else takes one, fills it, and changes no other slot; the second panic is unreachable |
| ObjectPool.Pool.Kfree | os/kalloc.c:173-194 | the slot goes back to the list, no other slot changes, and the counts add up; the range assertion fails only for an object of size 0 at the very end of the pool |
| ObjectPool.ObjectWriteKeeps | os/kalloc.c:162-163 | writing an object damages neither the list nor another object |
| Conservation.Kernel.Create | os/vm.c:93-124 | creating an address space keeps every page accounted for exactly unless two pages are free |
| Conservation.Kernel.Map | os/vm.c:221-275 | so does mapping a range, exactly unless the overlap test misses a VMA inside it |
| Conservation.Kernel.Remap | os/vm.c:280-368 | and remapping a VMA, exactly unless there is memory and a gap that is not harmless |
| Conservation.Kernel.Copy | os/vm.c:404-433 | copying one address space into a new one keeps all of them |
| Conservation.Kernel.Destroy | os/vm.c:182-191 | freeing one gives back every page it owns and keeps the others |
| Conservation.Kernel.Load | os/loader.c:34-142 | loading a program keeps all address spaces, and one that fails is gone with all its pages |
| Conservation.Kernel.Execute | os/vm.c:93-433 | after any calls of these operations, of copy_to_user, kallocpage and kfreepage, in any order, all address spaces are sound and every page has its owner |
| Conservation.Kernel.ExactlyOneUse | os/kalloc.c:40-84 | then every page of the region is exactly one of: one place on the free list, held by the kernel, one table of one address space, one user page in one VMA of one address space; no page outside has a use; freepages_count is the length of the list |
| Riscv.IndexIsPx | os/riscv.h:214-217 | PX(level, va) is the digit of the page number that the table walk uses |
| Riscv.MadeEntry | os/riscv.h:207-219 | the word PA2PTE(pa) with flags and PTE_V stands for the entry with pa's page and those flags |
| Riscv.EntryPage | os/riscv.h:210 | PTE2PA gives back the page of the entry |
| Words.SetRoundTrip | os/signal/signal.h:59-77 | a signal set and its 64-bit word determine each other |
| Words.ByteAt | os/signal/signal.h:40-46 | byte k of a word in memory has the weight 256^k |
| Words.BitAt | os/signal/signal.h:67-77 | bit i of a signal set has the weight 2^i |
| Signals.Task.DoSignal | os/signal/ksignal.c:78-247 | the ascending scan equals its closed form: the least caught signal is framed if the frame can be written, what is consumed, kills and stops follows from it |
| Signals.Task.PushFrame | os/signal/ksignal.c:155-243 | all of frame, mask and trapframe changes, to enter the handler with (signo, siginfo, ucontext) and the restorer as return address, or nothing when the frame cannot be written |
| Signals.Task.SysSigreturn | os/signal/ksignal.c:300-361 | mask, epc and x1 to x30 come from the frame at sp, t6 becomes 0; without the frame nothing changes |
| Signals.Task.SyscallSigreturn | os/syscall.c:240 | the dispatcher puts the result into a0 |
| Signals.Task.SysSigprocmask | os/signal/ksignal.c:363-401 | succeeds exactly for readable arguments and a known command; bit by bit, SIG_BLOCK adds what the user's word has, SIG_UNBLOCK removes it and SIG_SETMASK is it |
| Signals.MaskSaved | os/signal/ksignal.c:368-386 | the mask handed out is the one SIG_SETMASK puts back |
| Signals.Task.SysSigaction | os/signal/ksignal.c:252-298 | succeeds exactly for a valid signal and reachable buffers, where SIGKILL and SIGSTOP accept only the default; the new action is what the user's bytes say, the old one is what the user gets |
| Signals.ActionFields | os/signal/signal.h:34-38 | the words read are handler, mask and restorer, in this order |
| Signals.ActionSaved | os/signal/ksignal.c:281-293 | for buffers that do not overlap the stored old action restores it |
| SignalRuns.FrameBelow | os/signal/ksignal.c:156-160 | each frame is in one page, wholly below the interrupted sp, and nothing outside it is written |
| SignalRuns.FrameIsNear | os/signal/ksignal.c:156-160 | it is on the highest page boundary that leaves room for it |
| SignalRuns.FramedExactly | os/signal/ksignal.c:82-152 | a signal is framed exactly when it is the least that is pending, not blocked, neither SIGKILL, SIGSTOP nor SIGCONT, and has a handler other than default and ignore, and the stack can take the frame |
| SignalRuns.HandlerEntered | os/signal/ksignal.c:224-241 | the user resumes in the handler with (signo, siginfo, ucontext) in a0 to a2, the restorer in ra and sp at the frame; sa_mask and the signal are blocked in addition; every other register is as it was |
| SignalRuns.SiginfoWritten | os/signal/ksignal.c:194-215 | the five fields of the siginfo lie where a1 points |
| SignalRuns.UcontextWritten | os/signal/ksignal.c:156-192 | the interrupted mask, epc and registers x0 to x30 lie where a2 points |
| SignalRuns.Consumed | os/signal/ksignal.c:85-136 | a signal is left exactly when it is blocked and not special, or comes after the one framed |
| SignalRuns.MarkedExactly | os/signal/ksignal.c:89-148 | the process is marked by the last fatal signal come to: SIGKILL, or one not blocked with the default action other than SIGCHLD; an ignored one never marks it |
| SignalRuns.StopsExactly | os/signal/ksignal.c:96-126 | need_stop afterwards is false if the scan came to a SIGCONT, else true if it came to a SIGSTOP, else as before |
| SignalRuns.PostedElsewhere | os/signal/ksignal.c:420-523 | sys_sigkill writes one siginfo, all fields given, and one pending bit, but for SIGCONT, which discards a pending SIGSTOP, and SIGKILL, which is never pending; memory, registers, mask and actions stay |
| SignalRuns.KillIsFinal | os/signal/ksignal.c:439-450 | after SIGKILL the process stays marked through the next delivery, whatever its mask, actions and pending signals |
| SignalRuns.ContPrevails | os/signal/ksignal.c:470-491 | after SIGCONT neither need_stop nor a pending SIGSTOP is left |
| SignalRuns.PostedIsNext | os/signal/ksignal.c:512-523 | a blocked signal stays pending; an unblocked one with a handler is the one framed, if no lower one comes first and the frame can be written |
| SignalRuns.StopTakesEffectExactly | os/signal/ksignal.c:452-467 | a posted SIGSTOP takes effect exactly when no SIGCONT is pending |
| SignalRuns.StopDiscarded | os/signal/ksignal.c:452-467 | a process at rest with SIGCONT pending loses it |
| SignalRuns.ReturnResumes | os/signal/ksignal.c:300-361 | returning through an intact frame resumes what was interrupted, but for t6 and a0 |
| SignalRuns.StepKeeps | os/signal/ksignal.c:155-243 | deliveries, returns and user steps keep all frames intact and apart, each further down |
| SignalRuns.NestedRoundTrip | os/signal/ksignal.c:78-361 | in every run, for every depth, a matched return resumes exactly what its delivery interrupted |
| SignalRuns.MaskChainKept | os/signal/ksignal.c:225-229 | without sigprocmask the mask always contains every active frame's mask, sa_mask and signal |
| SignalRuns.NoReentry | os/signal/ksignal.c:129-130 | so no handler is entered again while it is active |
| TaskQueue.Queue.Push | os/queue.c:13-22 | appends, unless 512 entries are queued already |
| TaskQueue.Queue.Pop | os/queue.c:24-37 | removes the first entry, unless there is none |
| Spinlock.StepKeeps | os/lock.c:15-111 | noff counts locks held, operations in progress and bare push_offs; a lock names the CPU that took it |
| Spinlock.HoldingExactly | os/lock.c:71-76 | holding() is true exactly of the locks this CPU has taken |
| Spinlock.MutualExclusion | os/lock.c:26-36 | a lock is held by one CPU at most |
| Spinlock.PopOffNeverPanics | os/lock.c:95-111 | none of pop_off's panics can be reached |
| Spinlock.OffWhileLocked | os/lock.c:83-93 | interrupts are off whenever a lock is held, being taken or being released |
| Spinlock.NestingStep | os/lock.c:83-111 | push_off turns interrupts off and counts; the first one records whether they were on, and only the last pop_off gives that back |
| Spinlock.InterruptsRestored | os/lock.c:78-111 | in every run: when a CPU is back at noff 0, however acquire, release, push_off and pop_off were nested, its interrupts are as they were |
| Spinlock.InterruptsFollow | os/sched.c:120-145 | the same for a process that goes through sched() in between and comes back on another CPU |
| Spinlock.AcquireRelease | os/lock.c:26-69 | acquire and release of a free lock, as a run, leave CPU and lock as they were |
| Spinlock.SchedChecksExactly | os/sched.c:123-135 | sched() passes its checks of lock, noff and interrupts exactly when the process holds its own lock and nothing else |
| Spinlock.HandedOver | os/sched.c:92-100 | after swtch the lock may be released by whoever runs on that CPU |
| Spinlock.SameInterruptOn | os/sched.c:137-140 | a process finds the interrupt_on it left, on whatever CPU it resumes |
| Scheduler.StepBasic | os/sched.c:58-111 | every step of every CPU keeps states, locks, queue and CPUs consistent |
| WaitExit.StepKeeps | os/proc.c:267-378 | every step keeps parent pointers live and the reasons why no wakeup is lost |
| ProcessLife.StateIs | os/proc.c:67-378 | the life cycle: for each state exactly the steps that end it, and the state they lead to |
| ProcessLife.FieldsAfter | os/proc.c:67-378 | exactly when and how parent, pid, killed, need_stop and sleep_chan of a process change: fork makes the caller the parent, exit gives the children to init |
| ProcessLife.WaitTakes | os/proc.c:276-303 | the scan of wait reclaims an exited child that fits and ends; it passes over everything else and remembers only whether it was a child |
| ProcessLife.WaitGetsWhatItAsked | os/proc.c:267-313 | in every run, however often it sleeps: what wait(pid) reclaims is a child with the pid it was called with, or any child for pid 0 or less |
| ProcessLife.ExitPath | os/proc.c:317-378 | whom exit tells: init if it has given a child away, else by SIGCHLD the parent it had unless that is init, and then the sleepers on its parent |
| ProcessLife.QueueAfter | os/sched.c:17-35 | the run queue is first in, first out: taken from the front by the CPU that fetches, joined at the back by exactly who becomes RUNNABLE off the CPU or comes off it RUNNABLE |
| ProcessLife.UniquePids | os/proc.c:60-69 | in every run, processes that exist have different pids |
| SchedulerRuns.RunKeeps | os/sched.c:58-111 | every state of every run from boot satisfies the invariant of both |
| SchedulerRuns.RunnableIsQueued | os/sched.c:24-35 | with its lock free a process is RUNNABLE exactly when it is queued or popped, once |
| SchedulerRuns.OnOneCpu | os/sched.c:92-111 | a process is on one CPU at most, and that CPU holds its lock across both switches |
| SchedulerRuns.SwitchesAwayNotRunning | os/sched.c:120-135 | sched()'s panics on a RUNNING state and on a lock not held are unreachable |
| SchedulerRuns.NoOverflowNoSkip | os/queue.c:13-22 | the overflow panic and the skip of a process that is not RUNNABLE are unreachable |
| SchedulerRuns.StoppedUntilCont | os/signal/ksignal.c:470-491 | a process leaves STOPPED exactly by SIGCONT |
| SchedulerRuns.ContExactly | os/trap.c:230-239 | SIGCONT leaves nothing that would stop the process exactly when it does not come between the clearing of need_stop and the lock |
| SchedulerRuns.ContInRuns | os/trap.c:230-239 | in every run: then the process is not stopped until it takes up another SIGSTOP; otherwise nothing but that stop gets it any further |
| SchedulerRuns.ContCanBeLost | os/trap.c:230-239 | a run from boot in which a SIGCONT is lost that way |
| SchedulerRuns.NoLostWakeup | os/proc.c:267-313 | with wait_lock free no parent sleeps in wait for a child that has exited |
| SchedulerRuns.ReclaimedAfterSwitch | os/proc.c:282-299 | a ZOMBIE is reclaimed only by its parent's wait for its pid or for any child, after its CPU has switched away |
| SchedulerRuns.QuitsWithoutChildren | os/proc.c:304-308 | wait gives up for want of children only when there are none |
| SchedulerRuns.EveryRunIsSafe | os/sched.c:58-111 | all of this in every state of every run |
| UserMalloc.Allocator.Free | user/lib/umalloc.c:22-40 | keeps one circular list in address order, with no two blocks adjacent, and every other live block untouched |
| UserMalloc.Allocator.Morecore | user/lib/umalloc.c:42-55 | adds exactly the new units, as or into a free block that is large enough |
| UserMalloc.Allocator.Malloc | user/lib/umalloc.c:57-82 | ends; returns a new block with room for nbytes bytes behind its header and not a unit more, disjoint from all live ones, the tail of the first block behind freep that fits; or 0 exactly when none fits and sbrk refuses; asks sbrk only then, once, for at least 4096 units |
| UserMalloc.IncrementExactly | user/lib/umalloc.c:46-48 | the int passed to sbrk is the size wanted exactly for requests up to 0x7fffffe0 bytes |
| UserMalloc.RingDetermined | user/lib/umalloc.c:22-40 | the list is determined by which units are free, so freeing what was allocated restores it |
| UserMalloc.BytesAreOwn | user/lib/umalloc.c:57-82 | a program may write all nbytes bytes of its block: neither the list nor a header nor another block is damaged |

## Left out

- AddressSpace.Mm.MmRemap: assumes that the VMA is mapped as it says, that no other mapping lies in the hull of the old and new ranges and that the flags differ only in R, W and X; the caller in os/syscall.c guarantees it, the function does not check it.
- AddressSpace.Mm.MmMapPages: ranges end at or below the trapframe page; the vma object that the overlap return does not free (os/vm.c:231-234) belongs to the object pools, which address spaces here do not use. A failure on a page of another VMA that the overlap test missed unmaps that page, and the contract says so.
- MmLifecycle.MmMapPageAt: only for the trampoline and trapframe pages, the two it is called for; a given frame at a user address would have no owner here.
- MmLifecycle.MmFree: assumes that every VMA ends at or below the trapframe page, which holds of every VMA that mm_mappages and mm_remap accept here.
- Heap.Proc.SysSbrk: assumes that brk + n is not negative and does not reach into the stack; neither is checked by sys_sbrk itself. What the first check misses is UnderflowTestExactly, what the overlap test misses is CaughtExactly.
- Loader.LoadImage: the program's arguments (os/loader.c:148-176), the freeing of the old address space by exec, and headers that end above the trapframe page.
- Loader.MapVma: ranges end at or below the trapframe page and are accessible to the user, as the loader's are.
- Conservation.Kernel.Execute: calls whose arguments break an assertion of the callee, and the calls shown to be harmful by Create, Map and Remap, are skipped. sbrk is here a remap of any one VMA; each operation runs alone.
- KernelMap.KernelTable.Kvmmap: a range is named by the low 27 bits of its page numbers and does not wrap around; the permission has R, W or X, and R with W, as every caller's has.
- ObjectPool.Pool.constructor: taking and mapping the pool's pages.
- Signals.Task.DoSignal: one atomic step, as is the stop in usertrapret but for the point shown in ContExactly; the branch for a STOPPED process cannot be taken by the process itself.
- SignalRuns.NestedRoundTrip: assumes that user code leaves the frames alone, runs handlers below their frames and calls sigreturn with sp where the handler was entered.
- UserMalloc.Allocator.Malloc: sbrk results are multiples of 16, new, above the static header and within 2^32 units of it; a request above 0x7fffffe0 bytes is covered when a block fits or sbrk refuses, and not when sbrk grants the wrong size.
- Scheduler.StepBasic: critical sections with no other wait inside are single steps; pid search, pid_lock and the table scans of allocproc and findByPid are replaced by an arbitrary process that meets their test; weak memory is not modelled.
- WaitExit.StepKeeps: the copying of the exit code to user memory, and the memory freed by freeproc, which is MmLifecycle.MmFree.
- Locks inside address-space operations: mm->lock and the page allocator's lock are taken as held, each operation runs alone on its address space.
- TLB flushes and the junk patterns written into pages.
- kill() in os/proc.c:383-410, which holds one process lock while it takes another.
- siginit, siginit_fork, siginit_exec and sys_sigpending: copies of fields.
- Lost wakeups of sleep/wakeup on channels other than wait's, and the tick counter.
- Boot, traps' assembly, devices, console, printing, ktest and the user programs.
